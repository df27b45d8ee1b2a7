/**
  Online-GC admission as transitions on values: the two adaptive phases, the
  pressure latch, the daily window, and the poll that picks at most one quantum.
  Times and durations are nanosecond counts; `horizon` is the last representable
  instant, past which the clock's checked additions fail.
 */
module GcPolicy {
  import opened Basics

  const BASIS: nat := 10_000
  const DAY_MINUTES: nat := 1_440

  datatype Window = Window(startMinute: nat, endMinute: nat)

  datatype Usage = Usage(used: nat, capacity: nat)

  datatype Policy = Policy(
    metadataBase: nat, metadataMax: nat, dataBase: nat, dataMax: nat, dataDelete: nat,
    minimumSavings: nat, idleAfter: nat, urgentInterval: nat, low: nat, high: nat,
    window: Option<(Window, nat)>, horizon: nat)

  /** What the policy builders accept. */
  predicate ValidPolicy(p: Policy) {
    && 0 < p.metadataBase <= p.metadataMax
    && 0 < p.dataBase <= p.dataMax && 0 < p.dataDelete
    && p.minimumSavings <= BASIS && 0 < p.idleAfter && 0 < p.urgentInterval
    && p.low < p.high <= BASIS
    && (p.window.Some? ==> ValidWindow(p.window.value.0) && 0 < p.window.value.1)
  }

  predicate ValidWindow(w: Window) {
    w.startMinute < DAY_MINUTES && w.endMinute <= DAY_MINUTES && w.startMinute != w.endMinute
  }

  predicate Contains(w: Window, minute: nat) {
    if w.startMinute < w.endMinute then w.startMinute <= minute < w.endMinute
    else w.startMinute <= minute || minute < w.endMinute
  }

  predicate AtLeast(u: Usage, points: nat) {
    u.used * BASIS >= u.capacity * points
  }

  predicate AtMost(u: Usage, points: nat) {
    u.used * BASIS <= u.capacity * points
  }

  /** Checked addition on the clock. */
  function Later(now: nat, wait: nat, horizon: nat): Option<nat> {
    if now + wait <= horizon then Some(now + wait) else None
  }

  function OrElse(t: Option<nat>, otherwise: nat): nat {
    if t.Some? then t.value else otherwise
  }

  // ---- adaptive phase ----

  datatype Phase = Phase(base: nat, maximum: nat, wait: nat, nextDue: nat)

  function NewPhase(now: nat, base: nat, maximum: nat, horizon: nat): Phase {
    Phase(base, maximum, base, OrElse(Later(now, base, horizon), now))
  }

  /** Back to the base after enough savings, doubled up to the maximum after an unforced failure. */
  function Recorded(p: Phase, now: nat, saved: nat, minimum: nat, forced: bool, horizon: nat): Phase {
    var wait := if saved >= minimum then p.base
                else if !forced then Min(2 * p.wait, p.maximum) else p.wait;
    p.(wait := wait, nextDue := OrElse(Later(now, wait, horizon), now))
  }

  // ---- scheduler ----

  datatype Mode = Background | Idle | Urgent

  datatype Quantum = Quantum(mode: Mode, metadata: bool, data: bool)

  datatype Scheduler = Scheduler(
    policy: Policy, operations: nat, deletes: nat, activityAt: nat, usage: Usage,
    metadata: Phase, data: Phase, urgentAt: nat, windowDue: Option<nat>, latched: bool)

  function NewScheduler(now: nat, operations: nat, usage: Usage, policy: Policy): Scheduler {
    Scheduler(policy, operations, 0, now, usage,
              NewPhase(now, policy.metadataBase, policy.metadataMax, policy.horizon),
              NewPhase(now, policy.dataBase, policy.dataMax, policy.horizon),
              now, None, false)
  }

  /** New deletes pull the DATA phase back to the delete interval. */
  function Clamped(p: Phase, now: nat, delete: nat, horizon: nat): Phase {
    if p.wait > delete
    then p.(wait := delete, nextDue := Min(OrElse(Later(now, delete, horizon), p.nextDue), p.nextDue))
    else p
  }

  function Latch(policy: Policy, latched: bool, usage: Usage): bool {
    if AtLeast(usage, policy.high) then true
    else if AtMost(usage, policy.low) then false
    else latched
  }

  /** What a poll notes before it decides. */
  function Observed(s: Scheduler, now: nat, operations: nat, deletes: nat, usage: Usage): Scheduler {
    s.(usage := usage,
       operations := operations,
       activityAt := if operations != s.operations then now else s.activityAt,
       deletes := deletes,
       data := if deletes > s.deletes then Clamped(s.data, now, s.policy.dataDelete, s.policy.horizon) else s.data,
       latched := Latch(s.policy, s.latched, usage))
  }

  /** The window, if one is configured and open. */
  function OpenWindow(p: Policy, minute: nat): Option<nat> {
    if p.window.Some? && Contains(p.window.value.0, minute) then Some(p.window.value.1) else None
  }

  predicate DataDue(s: Scheduler, now: nat, minute: nat) {
    var window := OpenWindow(s.policy, minute);
    && now >= s.data.nextDue
    && (window.Some? || s.policy.window.None?)
    && (window.Some? ==> now >= OrElse(s.windowDue, now))
  }

  /** The quantum an observed scheduler admits, if any. */
  function Admitted(s: Scheduler, now: nat, minute: nat): Option<Quantum> {
    if s.latched then
      if now >= s.urgentAt && now - s.urgentAt >= s.policy.urgentInterval
      then Some(Quantum(Urgent, true, true)) else None
    else
      var metadata, data := now >= s.metadata.nextDue, DataDue(s, now, minute);
      if !metadata && !data then None
      else Some(Quantum(if now >= s.activityAt && now - s.activityAt >= s.policy.idleAfter then Idle else Background,
                        metadata, data))
  }

  function Charged(s: Scheduler, now: nat, minute: nat): Scheduler {
    var q := Admitted(s, now, minute);
    if q.None? then s
    else if q.value.mode.Urgent? then s.(urgentAt := now)
    else
      var window := OpenWindow(s.policy, minute);
      if q.value.data && window.Some?
      then s.(windowDue := Some(OrElse(Later(now, window.value, s.policy.horizon), now))) else s
  }

  function Polled(s: Scheduler, now: nat, operations: nat, deletes: nat, usage: Usage, minute: nat): (after: Scheduler)
    ensures after.policy == s.policy
  {
    Charged(Observed(s, now, operations, deletes, usage), now, minute)
  }

  function SavedPoints(freed: nat, usage: Usage): nat {
    Min(freed * BASIS, U64_MAX) / Max(usage.used, 1)
  }

  function MetadataRun(s: Scheduler, now: nat, saved: nat, forced: bool): Scheduler {
    s.(metadata := Recorded(s.metadata, now, saved, s.policy.minimumSavings, forced, s.policy.horizon))
  }

  function DataRun(s: Scheduler, now: nat, freed: nat, forced: bool): Scheduler {
    s.(data := Recorded(s.data, now, SavedPoints(freed, s.usage), s.policy.minimumSavings, forced, s.policy.horizon))
  }

  /** The poll admits an urgent quantum. */
  predicate AdmitsUrgent(s: Scheduler, now: nat, operations: nat, deletes: nat, usage: Usage, minute: nat) {
    var q := Admitted(Observed(s, now, operations, deletes, usage), now, minute);
    q.Some? && q.value.mode.Urgent?
  }

  /** The poll admits a DATA quantum through the daily window. */
  predicate AdmitsWindowed(s: Scheduler, now: nat, operations: nat, deletes: nat, usage: Usage, minute: nat) {
    var q := Admitted(Observed(s, now, operations, deletes, usage), now, minute);
    q.Some? && !q.value.mode.Urgent? && q.value.data && s.policy.window.Some?
  }

  // ---- waits in range ----

  ghost predicate PhaseFits(p: Phase, base: nat, least: nat, maximum: nat, clock: nat, horizon: nat) {
    && p.base == base && p.maximum == maximum
    && least <= p.wait <= maximum
    && p.nextDue <= clock + p.wait && p.nextDue <= horizon
  }

  /**
    The waits fit the policy at the latest time seen: the DATA wait lies between the
    smaller of base and delete interval, and the maximum, and no phase is due more
    than one wait ahead.
   */
  ghost predicate Fits(s: Scheduler, clock: nat) {
    var p := s.policy;
    && ValidPolicy(p) && clock <= p.horizon
    && PhaseFits(s.data, p.dataBase, Min(p.dataBase, p.dataDelete), p.dataMax, clock, p.horizon)
    && PhaseFits(s.metadata, p.metadataBase, p.metadataBase, p.metadataMax, clock, p.horizon)
  }

  lemma RecordedFits(p: Phase, base: nat, least: nat, maximum: nat, clock: nat, horizon: nat,
                     now: nat, saved: nat, minimum: nat, forced: bool)
    requires PhaseFits(p, base, least, maximum, clock, horizon)
    requires least <= base <= maximum && now <= horizon
    ensures PhaseFits(Recorded(p, now, saved, minimum, forced, horizon), base, least, maximum, Max(clock, now), horizon)
  {
  }

  /** New deletes leave DATA due within the delete interval. */
  lemma ObservedFits(s: Scheduler, clock: nat, now: nat, operations: nat, deletes: nat, usage: Usage)
    requires Fits(s, clock) && now <= s.policy.horizon
    ensures Fits(Observed(s, now, operations, deletes, usage), Max(clock, now))
    ensures var data := Observed(s, now, operations, deletes, usage).data;
            deletes > s.deletes ==>
              data.wait <= s.policy.dataDelete && data.nextDue <= Max(clock, now) + s.policy.dataDelete
  {
  }

  lemma PolledFits(s: Scheduler, clock: nat, now: nat, operations: nat, deletes: nat, usage: Usage, minute: nat)
    requires Fits(s, clock) && now <= s.policy.horizon
    ensures Fits(Polled(s, now, operations, deletes, usage, minute), Max(clock, now))
    ensures Polled(s, now, operations, deletes, usage, minute).data == Observed(s, now, operations, deletes, usage).data
  {
    hide PhaseFits, Admitted, ValidPolicy;
    ObservedFits(s, clock, now, operations, deletes, usage);
  }

  lemma MetadataRunFits(s: Scheduler, clock: nat, now: nat, saved: nat, forced: bool)
    requires Fits(s, clock) && now <= s.policy.horizon
    ensures Fits(MetadataRun(s, now, saved, forced), Max(clock, now))
  {
    var p := s.policy;
    RecordedFits(s.metadata, p.metadataBase, p.metadataBase, p.metadataMax, clock, p.horizon,
                 now, saved, p.minimumSavings, forced);
    hide Recorded;
  }

  lemma DataRunFits(s: Scheduler, clock: nat, now: nat, freed: nat, forced: bool)
    requires Fits(s, clock) && now <= s.policy.horizon
    ensures Fits(DataRun(s, now, freed, forced), Max(clock, now))
  {
    var p := s.policy;
    RecordedFits(s.data, p.dataBase, Min(p.dataBase, p.dataDelete), p.dataMax, clock, p.horizon,
                 now, SavedPoints(freed, s.usage), p.minimumSavings, forced);
    hide Recorded;
  }

  // ---- what an admission and a saving mean ----

  /** DATA may start: due, inside the daily window if there is one, and past that window's own interval. */
  ghost predicate DataMayStart(s: Scheduler, now: nat, minute: nat) {
    && s.data.nextDue <= now
    && (s.policy.window.Some? ==>
          && Contains(s.policy.window.value.0, minute)
          && (s.windowDue.Some? ==> s.windowDue.value <= now))
  }

  /** What an observed scheduler must admit, and must not. */
  ghost predicate RightQuantum(s: Scheduler, now: nat, minute: nat, q: Option<Quantum>) {
    if s.latched then
      q == if s.urgentAt + s.policy.urgentInterval <= now then Some(Quantum(Urgent, true, true)) else None
    else
      && (q.None? <==> now < s.metadata.nextDue && !DataMayStart(s, now, minute))
      && (q.Some? ==>
            && (q.value.metadata <==> s.metadata.nextDue <= now)
            && (q.value.data <==> DataMayStart(s, now, minute))
            && q.value.mode == if s.activityAt + s.policy.idleAfter <= now then Idle else Background)
  }

  lemma AdmittedIsRight(s: Scheduler, now: nat, minute: nat)
    requires 0 < s.policy.urgentInterval && 0 < s.policy.idleAfter
    ensures RightQuantum(s, now, minute, Admitted(s, now, minute))
  {
    hide Contains;
  }

  /** The share of the used bytes that was freed, in basis points; beyond 64 bits the product saturates. */
  lemma SavingsAreAShare(freed: nat, usage: Usage, minimum: nat)
    ensures SavedPoints(freed, usage) >= minimum <==> Min(freed * 10_000, U64_MAX) >= minimum * Max(usage.used, 1)
  {
    var product, base := Min(freed * BASIS, U64_MAX), Max(usage.used, 1);
    var points := product / base;
    assert points * base <= product < (points + 1) * base;
    if points >= minimum {
      assert points * base >= minimum * base;
    } else {
      assert (points + 1) * base <= minimum * base;
    }
  }
}
