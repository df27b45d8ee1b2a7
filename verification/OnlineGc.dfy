/**
  Online-GC scheduling over whole runs with a nondecreasing clock: how long the
  phases wait, how far apart admissions are, what the pressure latch remembers.
 */
module OnlineGc {
  import opened Basics
  import opened GcPolicy

  // ---- the daily window ----

  /** Minutes from `from` forward to `to` on a circular day. */
  ghost function Forward(from: nat, to: nat): nat
    requires from <= DAY_MINUTES && to <= DAY_MINUTES
  {
    if from <= to then to - from else to + DAY_MINUTES - from
  }

  /** A window, wrapping or not, holds exactly the minutes reached before its end. */
  lemma WindowIsCircular(w: Window, minute: nat)
    requires ValidWindow(w) && minute < DAY_MINUTES
    ensures Contains(w, minute) <==> Forward(w.startMinute, minute) < Forward(w.startMinute, w.endMinute)
  {
  }

  // ---- one phase ----

  /** A forced run lengthens the wait exactly when it pays off while the wait is below the base. */
  lemma ForcedLengthensIff(p: Phase, now: nat, saved: nat, minimum: nat, horizon: nat)
    ensures Recorded(p, now, saved, minimum, true, horizon).wait > p.wait
            <==> saved >= minimum && p.wait < p.base
  {
  }

  // ---- whole runs ----

  datatype Event =
    | Poll(now: nat, operations: nat, deletes: nat, usage: Usage, minute: nat)
    | FinishMetadata(now: nat, saved: nat, forced: bool)
    | FinishData(now: nat, freed: nat, forced: bool)
    | Immediate(now: nat)

  /** What restarts the urgent interval: an urgent admission, or an immediate request. */
  datatype Mark = Admission(at: nat) | Request(at: nat)

  /** A scheduler with the history its promises are about. */
  datatype World = World(
    s: Scheduler, started: nat, clock: nat,
    urgent: seq<Mark>, windowed: seq<nat>, usages: seq<Usage>)

  ghost predicate Measured(u: Usage) {
    0 < u.capacity && u.used <= u.capacity
  }

  ghost predicate Allowed(w: World, e: Event) {
    && w.clock <= e.now <= w.s.policy.horizon
    && (e.Poll? ==> Measured(e.usage) && e.minute < DAY_MINUTES)
  }

  ghost predicate StartsUrgent(w: World, e: Event) {
    e.Poll? && AdmitsUrgent(w.s, e.now, e.operations, e.deletes, e.usage, e.minute)
  }

  /** A DATA start that a daily window let through. */
  ghost predicate StartsWindowed(w: World, e: Event) {
    e.Poll? && AdmitsWindowed(w.s, e.now, e.operations, e.deletes, e.usage, e.minute)
  }

  ghost function Marked(w: World, e: Event): seq<Mark> {
    if StartsUrgent(w, e) then w.urgent + [Admission(e.now)]
    else if e.Immediate? then w.urgent + [Request(e.now)]
    else w.urgent
  }

  ghost function Next(w: World, e: Event): World {
    var s := match e
      case Poll(now, operations, deletes, usage, minute) => Polled(w.s, now, operations, deletes, usage, minute)
      case FinishMetadata(now, saved, forced) => MetadataRun(w.s, now, saved, forced)
      case FinishData(now, freed, forced) => DataRun(w.s, now, freed, forced)
      case Immediate(now) => w.s.(urgentAt := now);
    World(s, w.started, e.now,
          Marked(w, e),
          if StartsWindowed(w, e) then w.windowed + [e.now] else w.windowed,
          if e.Poll? then w.usages + [e.usage] else w.usages)
  }

  ghost function Begin(now: nat, operations: nat, usage: Usage, policy: Policy): World {
    World(NewScheduler(now, operations, usage, policy), now, now, [], [], [])
  }

  ghost predicate Runs(w: World, events: seq<Event>, z: World)
    decreases |events|
  {
    if events == [] then z == w
    else Allowed(w, events[0]) && Runs(Next(w, events[0]), events[1..], z)
  }

  // ---- waits ----

  /** The waits are in range. */
  ghost predicate WaitsFit(w: World) {
    Fits(w.s, w.clock)
  }

  lemma WaitsKept(w: World, e: Event)
    requires WaitsFit(w) && Allowed(w, e)
    ensures WaitsFit(Next(w, e))
  {
    hide Fits, Polled, MetadataRun, DataRun;
    match e
    case Poll(now, operations, deletes, usage, minute) =>
      PolledFits(w.s, w.clock, now, operations, deletes, usage, minute);
    case FinishMetadata(now, saved, forced) => MetadataRunFits(w.s, w.clock, now, saved, forced);
    case FinishData(now, freed, forced) => DataRunFits(w.s, w.clock, now, freed, forced);
    case Immediate(now) => ImmediateFits(w.s, w.clock, now);
  }

  lemma ImmediateFits(s: Scheduler, clock: nat, now: nat)
    requires Fits(s, clock) && clock <= now <= s.policy.horizon
    ensures Fits(s.(urgentAt := now), now)
  {
  }

  /** New deletes leave DATA due within the delete interval. */
  lemma DeletesBringDataDue(w: World, e: Event)
    requires WaitsFit(w) && Allowed(w, e) && e.Poll? && e.deletes > w.s.deletes
    ensures Next(w, e).s.data.nextDue <= e.now + w.s.policy.dataDelete
    ensures Next(w, e).s.data.wait <= w.s.policy.dataDelete
  {
  }

  // ---- pressure ----

  /** Some poll reached the high mark and no later one was at or below the low mark. */
  ghost predicate HighSinceLow(p: Policy, usages: seq<Usage>) {
    exists j :: 0 <= j < |usages| && AtLeast(usages[j], p.high)
                && forall k :: j < k < |usages| ==> !AtMost(usages[k], p.low)
  }

  ghost predicate Latched(w: World) {
    w.s.latched <==> HighSinceLow(w.s.policy, w.usages)
  }

  lemma HighAppended(p: Policy, usages: seq<Usage>, u: Usage)
    requires p.low < p.high && Measured(u)
    ensures HighSinceLow(p, usages + [u]) <==>
              AtLeast(u, p.high) || (!AtMost(u, p.low) && HighSinceLow(p, usages))
  {
    hide AtLeast, AtMost;
    var all := usages + [u];
    assert all[|usages|] == u;
    if AtLeast(u, p.high) {
      assert HighSinceLow(p, all);
    } else {
      if HighSinceLow(p, usages) && !AtMost(u, p.low) {
        var j :| 0 <= j < |usages| && AtLeast(usages[j], p.high)
                 && forall k :: j < k < |usages| ==> !AtMost(usages[k], p.low);
        assert all[j] == usages[j];
        assert forall k :: j < k < |all| ==> !AtMost(all[k], p.low);
      }
      if HighSinceLow(p, all) {
        var j :| 0 <= j < |all| && AtLeast(all[j], p.high)
                 && forall k :: j < k < |all| ==> !AtMost(all[k], p.low);
        assert j < |usages| && all[j] == usages[j];
        assert forall k :: j < k < |usages| ==> usages[k] == all[k];
      }
    }
  }

  lemma LatchKept(w: World, e: Event)
    requires ValidPolicy(w.s.policy) && Latched(w) && Allowed(w, e)
    ensures Latched(Next(w, e))
  {
    hide HighSinceLow, AtLeast, AtMost, Admitted;
    if e.Poll? {
      HighAppended(w.s.policy, w.usages, e.usage);
    }
  }

  // ---- spacing ----

  ghost predicate Spaced(times: seq<nat>, gap: nat, horizon: nat) {
    forall i :: 0 < i < |times| ==> times[i] >= times[i - 1] + gap || times[i - 1] + gap > horizon
  }

  /**
    An urgent admission comes at least the urgent interval after the start, after
    every earlier urgent admission and after every earlier immediate request.
   */
  ghost predicate UrgentApart(w: World) {
    && w.started <= w.s.urgentAt <= w.clock
    && (forall i :: 0 <= i < |w.urgent| ==> w.urgent[i].at <= w.s.urgentAt)
    && (forall j :: 0 <= j < |w.urgent| && w.urgent[j].Admission? ==>
          w.urgent[j].at >= w.started + w.s.policy.urgentInterval)
    && (forall i, j :: 0 <= i < j < |w.urgent| && w.urgent[j].Admission? ==>
          w.urgent[j].at >= w.urgent[i].at + w.s.policy.urgentInterval)
  }

  lemma UrgentKept(w: World, e: Event)
    requires UrgentApart(w) && Allowed(w, e)
    ensures UrgentApart(Next(w, e))
    ensures StartsUrgent(w, e) ==> Next(w, e).s.latched
  {
    hide Latch, Clamped, Recorded;
  }

  /** DATA starts inside the daily window keep the window interval between them. */
  ghost predicate WindowApart(w: World) {
    w.s.policy.window.Some? ==>
      var gap := w.s.policy.window.value.1;
      && Spaced(w.windowed, gap, w.s.policy.horizon)
      && (|w.windowed| > 0 ==>
            var last := w.windowed[|w.windowed| - 1];
            w.s.windowDue == Some(OrElse(Later(last, gap, w.s.policy.horizon), last)))
  }

  lemma WindowOpens(s: Scheduler, now: nat, operations: nat, deletes: nat, usage: Usage, minute: nat)
    requires AdmitsWindowed(s, now, operations, deletes, usage, minute)
    ensures s.policy.window.Some?
    ensures Contains(s.policy.window.value.0, minute) && now >= OrElse(s.windowDue, now)
    ensures Polled(s, now, operations, deletes, usage, minute).windowDue
            == Some(OrElse(Later(now, s.policy.window.value.1, s.policy.horizon), now))
  {
    hide Latch, Clamped, Contains;
  }

  lemma WindowStays(s: Scheduler, now: nat, operations: nat, deletes: nat, usage: Usage, minute: nat)
    requires s.policy.window.Some? && !AdmitsWindowed(s, now, operations, deletes, usage, minute)
    ensures Polled(s, now, operations, deletes, usage, minute).windowDue == s.windowDue
  {
    hide Latch, Clamped, Contains;
  }

  lemma WindowKept(w: World, e: Event)
    requires WindowApart(w) && Allowed(w, e)
    ensures WindowApart(Next(w, e))
    ensures StartsWindowed(w, e) ==> Contains(w.s.policy.window.value.0, e.minute)
  {
    hide Polled, Recorded, Contains, SavedPoints, AdmitsWindowed, AdmitsUrgent;
    if StartsWindowed(w, e) {
      WindowOpens(w.s, e.now, e.operations, e.deletes, e.usage, e.minute);
    } else if e.Poll? && w.s.policy.window.Some? {
      WindowStays(w.s, e.now, e.operations, e.deletes, e.usage, e.minute);
    }
  }

  // ---- main theorem ----

  ghost predicate Promised(w: World) {
    WaitsFit(w) && Latched(w) && UrgentApart(w) && WindowApart(w)
  }

  lemma BeginPromised(now: nat, operations: nat, usage: Usage, policy: Policy)
    requires ValidPolicy(policy) && now <= policy.horizon
    ensures Promised(Begin(now, operations, usage, policy))
  {
  }

  lemma {:induction false} RunPromised(w: World, events: seq<Event>, z: World)
    requires Promised(w) && Runs(w, events, z)
    ensures Promised(z) && z.s.policy == w.s.policy && z.started == w.started
    decreases |events|
  {
    hide WaitsFit, Latched, UrgentApart, WindowApart, Allowed;
    if events != [] {
      PolicyKept(w, events[0]);
      WaitsKept(w, events[0]);
      LatchKept(w, events[0]);
      UrgentKept(w, events[0]);
      WindowKept(w, events[0]);
      RunPromised(Next(w, events[0]), events[1..], z);
    }
  }

  /** From any start, whatever happens on a clock that never runs back. */
  lemma SchedulerKeepsPromises(now: nat, operations: nat, usage: Usage, policy: Policy,
                               events: seq<Event>, z: World)
    requires ValidPolicy(policy) && now <= policy.horizon
    requires Runs(Begin(now, operations, usage, policy), events, z)
    ensures WaitsFit(z) && Latched(z) && UrgentApart(z) && WindowApart(z)
  {
    BeginPromised(now, operations, usage, policy);
    RunPromised(Begin(now, operations, usage, policy), events, z);
  }

  lemma PolicyKept(w: World, e: Event)
    requires WaitsFit(w)
    ensures Next(w, e).s.policy == w.s.policy && Next(w, e).started == w.started && ValidPolicy(w.s.policy)
  {
  }

  // ---- how long the wait grows ----

  ghost predicate SeesDelete(w: World, e: Event) {
    e.Poll? && e.deletes > w.s.deletes
  }

  ghost predicate PaysOff(w: World, e: Event) {
    e.FinishData? && SavedPoints(e.freed, w.s.usage) >= w.s.policy.minimumSavings
  }

  /** No poll sees a new delete and no DATA run saves enough, whatever else happens. */
  ghost predicate Unrewarded(w: World, events: seq<Event>)
    decreases |events|
  {
    events == [] || (!SeesDelete(w, events[0]) && !PaysOff(w, events[0]) && Unrewarded(Next(w, events[0]), events[1..]))
  }

  ghost function Unforced(events: seq<Event>): nat {
    if events == [] then 0
    else (if events[0].FinishData? && !events[0].forced then 1 else 0) + Unforced(events[1..])
  }

  lemma UnrewardedStep(w: World, e: Event)
    requires !SeesDelete(w, e) && !PaysOff(w, e) && w.s.data.wait <= w.s.data.maximum
    ensures var after := Next(w, e).s.data;
            && after.maximum == w.s.data.maximum
            && after.wait == if e.FinishData? && !e.forced then Min(2 * w.s.data.wait, w.s.data.maximum)
                             else w.s.data.wait
  {
    hide Latch, Admitted;
  }

  lemma DoubleAgain(wait: nat, maximum: nat, k: nat)
    requires wait <= maximum
    ensures Min(Min(2 * wait, maximum) * Pow2(k), maximum) == Min(wait * Pow2(k + 1), maximum)
  {
    assert wait * Pow2(k + 1) == 2 * wait * Pow2(k);
    if 2 * wait > maximum {
      assert Pow2(k) >= 1 && maximum * Pow2(k) >= maximum && 2 * wait * Pow2(k) >= maximum * Pow2(k);
    }
  }

  /** In any run, `k` unforced DATA runs that do not pay off double the wait `k` times, up to the maximum. */
  lemma {:induction false} WaitDoubles(w: World, events: seq<Event>, z: World)
    requires Runs(w, events, z) && Unrewarded(w, events) && w.s.data.wait <= w.s.data.maximum
    ensures z.s.data.wait == Min(w.s.data.wait * Pow2(Unforced(events)), w.s.data.maximum)
    ensures z.s.data.maximum == w.s.data.maximum
    decreases |events|
  {
    hide Next, SeesDelete, PaysOff, Allowed;
    if events != [] {
      UnrewardedStep(w, events[0]);
      WaitDoubles(Next(w, events[0]), events[1..], z);
      DoubleAgain(w.s.data.wait, w.s.data.maximum, Unforced(events[1..]));
    }
  }

  // ---- when forced runs may lengthen ----

  /** No forced DATA run ever lengthens the wait when the delete interval is not below the base. */
  lemma ForcedKeepsWait(w: World, e: Event)
    requires WaitsFit(w) && w.s.policy.dataDelete >= w.s.policy.dataBase
    requires e.FinishData? && e.forced
    ensures Next(w, e).s.data.wait <= w.s.data.wait
  {
  }

  /** With any shorter delete interval, one poll that sees a delete and one profitable forced run do. */
  lemma ForcedCanLengthen(policy: Policy)
    requires ValidPolicy(policy) && policy.dataDelete < policy.dataBase
    ensures var w := Begin(0, 0, Usage(1, 100), policy);
            var poll, run := Poll(0, 0, 1, Usage(1, 100), 0), FinishData(0, policy.minimumSavings, true);
            && Allowed(w, poll) && Allowed(Next(w, poll), run)
            && Next(Next(w, poll), run).s.data.wait > Next(w, poll).s.data.wait
  {
  }
}
