/**
  The checkpoint trigger: when to wait, when to commit, when to close admission.
  Times are milliseconds of process-local monotonic time.
 */
module DurabilitySupervisor {
  import opened Basics

  const COALESCE: nat := 500
  const COMMIT_TARGET: nat := 2_000
  const ADMISSION_GUARD: nat := 5_000
  const SEALED_LIMIT: nat := 8

  datatype Trigger = ContainerCoalesce | SealedContainerLimit | MutationAge | AdmissionGuard

  datatype Action = Wait(delay: nat) | Commit(trigger: Trigger) | PauseAndCommit(trigger: Trigger)

  datatype Observation = Observation(dirty: bool, sealedAge: Option<nat>, sealed: nat)

  datatype State = State(dirtySince: Option<nat>, lastAttempt: nat)

  function Monus(a: nat, b: nat): nat { if a < b then 0 else a - b }

  function AgeAt(since: Option<nat>, now: nat): Option<nat> {
    if since.Some? then Some(Monus(now, since.value)) else None
  }

  predicate Reached(age: Option<nat>, limit: nat) {
    age.Some? && age.value >= limit
  }

  /** `checkpoint_action`: guard, backlog, mutation deadline, debounce, in that order. */
  function CheckpointAction(mutationAge: Option<nat>, sealedAge: Option<nat>, sealed: nat): Action {
    if Reached(mutationAge, ADMISSION_GUARD) then PauseAndCommit(AdmissionGuard)
    else if sealed >= SEALED_LIMIT then Commit(SealedContainerLimit)
    else if Reached(mutationAge, COMMIT_TARGET) then Commit(MutationAge)
    else if Reached(sealedAge, COALESCE) then Commit(ContainerCoalesce)
    else Wait(Min(if mutationAge.Some? then Monus(COMMIT_TARGET, mutationAge.value) else COMMIT_TARGET,
                  if sealedAge.Some? then Monus(COALESCE, sealedAge.value) else COMMIT_TARGET))
  }

  function Noted(s: State, now: nat, dirty: bool): State {
    s.(dirtySince := if !dirty then None else if s.dirtySince.Some? then s.dirtySince else Some(now))
  }

  function Decision(s: State, now: nat, o: Observation): Action {
    var action := CheckpointAction(AgeAt(Noted(s, now, o.dirty).dirtySince, now), o.sealedAge, o.sealed);
    if action.Wait? && Monus(now, s.lastAttempt) >= COMMIT_TARGET then Commit(MutationAge) else action
  }

  function Attempted(now: nat, dirtyRemains: bool): State {
    State(if dirtyRemains then Some(now) else None, now)
  }

  class Supervisor {
    var oldestDirtySince: Option<nat>
    var lastCheckpointAttempt: nat

    ghost function View(): State
      reads this
    {
      State(oldestDirtySince, lastCheckpointAttempt)
    }

    constructor (now: nat)
      ensures View() == State(None, now)
    {
      oldestDirtySince, lastCheckpointAttempt := None, now;
    }

    /**
      A wait is positive, ends within two seconds, and is answered only while nothing
      is due: not the last attempt, the tracked dirt, the sealed container or the
      backlog. Admission closes exactly when the tracked dirt is five seconds old. A
      commit names the first of these reasons that holds.
     */
    method Observe(now: nat, o: Observation) returns (action: Action)
      modifies this`oldestDirtySince
      ensures View() == Noted(old(View()), now, o.dirty)
      ensures action == Decision(old(View()), now, o)
      ensures action.Wait? ==> 0 < action.delay <= COMMIT_TARGET
      ensures action.Wait? <==>
                && now < lastCheckpointAttempt + COMMIT_TARGET
                && (oldestDirtySince.Some? ==> now < oldestDirtySince.value + COMMIT_TARGET)
                && (o.sealedAge.Some? ==> o.sealedAge.value < COALESCE)
                && o.sealed < SEALED_LIMIT
      ensures action.PauseAndCommit? <==>
                oldestDirtySince.Some? && oldestDirtySince.value + ADMISSION_GUARD <= now
      ensures oldestDirtySince.Some? <==> o.dirty
      ensures action.PauseAndCommit? ==> action.trigger == AdmissionGuard
      ensures action == Commit(SealedContainerLimit) <==> !action.PauseAndCommit? && o.sealed >= SEALED_LIMIT
      ensures action == Commit(ContainerCoalesce) <==>
                && o.sealed < SEALED_LIMIT && o.sealedAge.Some? && o.sealedAge.value >= COALESCE
                && (oldestDirtySince.Some? ==> now < oldestDirtySince.value + COMMIT_TARGET)
      ensures action != Commit(AdmissionGuard)
    {
      if o.dirty {
        if oldestDirtySince.None? {
          oldestDirtySince := Some(now);
        }
      } else {
        oldestDirtySince := None;
      }
      action := CheckpointAction(AgeAt(oldestDirtySince, now), o.sealedAge, o.sealed);
      if action.Wait? && Monus(now, lastCheckpointAttempt) >= COMMIT_TARGET {
        action := Commit(MutationAge);
      }
    }

    /** For two seconds from now only sealed containers can call for another attempt. */
    method RecordCheckpointAttempt(now: nat, dirtyRemains: bool)
      modifies this
      ensures View() == Attempted(now, dirtyRemains)
      ensures forall later: nat, o: Observation ::
                now <= later < now + COMMIT_TARGET && o.sealed < SEALED_LIMIT && !Reached(o.sealedAge, COALESCE)
                ==> Decision(View(), later, o).Wait?
    {
      lastCheckpointAttempt := now;
      oldestDirtySince := if dirtyRemains then Some(now) else None;
    }
  }

  // ---- whole runs ----

  datatype Event = Observe(now: nat, seen: Observation) | Attempt(now: nat, dirtyRemains: bool)

  function After(s: State, e: Event): State {
    match e
    case Observe(now, seen) => Noted(s, now, seen.dirty)
    case Attempt(now, dirtyRemains) => Attempted(now, dirtyRemains)
  }

  function AfterAll(start: nat, events: seq<Event>): State {
    if events == [] then State(None, start)
    else After(AfterAll(start, events[..|events| - 1]), events[|events| - 1])
  }

  predicate Dirty(e: Event) {
    match e
    case Observe(_, seen) => seen.dirty
    case Attempt(_, dirtyRemains) => dirtyRemains
  }

  /** The clock never runs backwards. */
  ghost predicate Ordered(start: nat, events: seq<Event>) {
    && (forall i :: 0 <= i < |events| ==> start <= events[i].now)
    && (forall i, j :: 0 <= i < j < |events| ==> events[i].now <= events[j].now)
  }

  /**
    Dirtiness tracked since event `i`: the payload was dirty there and at every
    later observation, and `i` is an attempt or the first event of its streak.
   */
  ghost predicate StreakFrom(events: seq<Event>, i: nat) {
    && i < |events| && Dirty(events[i])
    && (forall j :: i < j < |events| ==> events[j].Observe? && Dirty(events[j]))
    && (events[i].Attempt? || i == 0 || !Dirty(events[i - 1]))
  }

  lemma StreakExtends(events: seq<Event>, e: Event, i: nat)
    requires e.Observe? && Dirty(e) && StreakFrom(events, i)
    ensures StreakFrom(events + [e], i)
  {
  }

  lemma StreakStarts(events: seq<Event>, e: Event)
    requires Dirty(e) && (e.Attempt? || events == [] || !Dirty(events[|events| - 1]))
    ensures StreakFrom(events + [e], |events|)
  {
  }

  /** What the supervisor remembers, said about the history alone. */
  lemma {:induction false} TrackedSince(start: nat, events: seq<Event>)
    ensures var s := AfterAll(start, events);
            && (s.dirtySince.Some? <==> |events| > 0 && Dirty(events[|events| - 1]))
            && (s.dirtySince.Some? ==>
                  exists i: nat :: StreakFrom(events, i) && s.dirtySince == Some(events[i].now))
    decreases |events|
  {
    if events != [] {
      var front, last := events[..|events| - 1], events[|events| - 1];
      assert events == front + [last];
      TrackedSince(start, front);
      var s := AfterAll(start, front);
      if Dirty(last) {
        if last.Observe? && s.dirtySince.Some? {
          var i: nat :| StreakFrom(front, i) && s.dirtySince == Some(front[i].now);
          StreakExtends(front, last, i);
          assert events[i] == front[i];
        } else {
          StreakStarts(front, last);
        }
      }
    }
  }

  /** The last attempt is the latest one recorded, or the start. */
  lemma {:induction false} LastAttempt(start: nat, events: seq<Event>)
    requires Ordered(start, events)
    ensures var t := AfterAll(start, events).lastAttempt;
            && t >= start
            && (forall i :: 0 <= i < |events| && events[i].Attempt? ==> events[i].now <= t)
            && (t == start || exists i :: 0 <= i < |events| && events[i].Attempt? && events[i].now == t)
  {
    if events != [] {
      var front, last := events[..|events| - 1], events[|events| - 1];
      assert events == front + [last];
      assert Ordered(start, front);
      LastAttempt(start, front);
      var t := AfterAll(start, front).lastAttempt;
      if last.Observe? && t != start {
        var i :| 0 <= i < |front| && front[i].Attempt? && front[i].now == t;
        assert events[i].Attempt? && events[i].now == t;
      }
      if last.Attempt? {
        assert events[|front|].Attempt?;
      }
    }
  }

  // ---- the promises ----

  /** The supervisor never waits once the target has passed since the last recorded attempt. */
  lemma NeverStale(start: nat, events: seq<Event>, now: nat, o: Observation)
    requires Ordered(start, events) && start + COMMIT_TARGET <= now
    requires forall i :: 0 <= i < |events| && events[i].Attempt? ==> events[i].now + COMMIT_TARGET <= now
    ensures !Decision(AfterAll(start, events), now, o).Wait?
  {
    LastAttempt(start, events);
  }

  lemma WaitsAreShort(s: State, now: nat, o: Observation)
    requires Decision(s, now, o).Wait?
    ensures 0 < Decision(s, now, o).delay <= COMMIT_TARGET
  {
  }

  /** The same situation, `d` later. */
  function Aged(o: Observation, d: nat): Observation {
    o.(sealedAge := if o.sealedAge.Some? then Some(o.sealedAge.value + d) else None)
  }

  /** Waiting exactly as told and looking again, with nothing resolved, always commits. */
  lemma WaitingEnds(s: State, now: nat, o: Observation, later: Observation)
    requires Decision(s, now, o).Wait? && s.lastAttempt <= now
    requires s.dirtySince.Some? ==> s.dirtySince.value <= now
    requires later.dirty == o.dirty && later.sealedAge == Aged(o, Decision(s, now, o).delay).sealedAge
    ensures !Decision(Noted(s, now, o.dirty), now + Decision(s, now, o).delay, later).Wait?
  {
  }

  /** A commit is due exactly at one of four deadlines. */
  lemma CommitsIff(s: State, now: nat, o: Observation)
    ensures var since := Noted(s, now, o.dirty).dirtySince;
            !Decision(s, now, o).Wait? <==>
              || (since.Some? && since.value + COMMIT_TARGET <= now)
              || (o.sealedAge.Some? && COALESCE <= o.sealedAge.value)
              || o.sealed >= SEALED_LIMIT
              || s.lastAttempt + COMMIT_TARGET <= now
  {
  }

  /** No wait is longer than needed: until it ends, nothing but the last attempt's age can come due. */
  lemma WaitIsTight(s: State, now: nat, o: Observation, d: nat)
    requires Decision(s, now, o).Wait? && d < Decision(s, now, o).delay
    requires s.lastAttempt <= now && now + d < s.lastAttempt + COMMIT_TARGET
    requires s.dirtySince.Some? ==> s.dirtySince.value <= now
    ensures Decision(Noted(s, now, o.dirty), now + d, Aged(o, d)).Wait?
  {
  }

  /** Admission closes exactly when the tracked dirtiness has lasted the guard time. */
  lemma PausesIff(start: nat, events: seq<Event>, now: nat, o: Observation)
    requires Ordered(start, events + [Observe(now, o)])
    ensures var all := events + [Observe(now, o)];
            Decision(AfterAll(start, events), now, o).PauseAndCommit?
            <==> exists i: nat :: StreakFrom(all, i) && all[i].now + ADMISSION_GUARD <= now
  {
    var all := events + [Observe(now, o)];
    var s, t := AfterAll(start, events), AfterAll(start, all);
    assert all[..|events|] == events && all[|events|] == Observe(now, o);
    TrackedSince(start, all);
    PausesOnAge(s, now, o);
    if t.dirtySince.Some? {
      var k: nat :| StreakFrom(all, k) && t.dirtySince == Some(all[k].now);
      forall i: nat | StreakFrom(all, i)
        ensures i == k
      {
        StreakUnique(all, i, k);
      }
    }
  }

  lemma PausesOnAge(s: State, now: nat, o: Observation)
    ensures var since := Noted(s, now, o.dirty).dirtySince;
            Decision(s, now, o).PauseAndCommit? <==> since.Some? && since.value + ADMISSION_GUARD <= now
  {
  }

  lemma StreakUnique(events: seq<Event>, i: nat, k: nat)
    requires StreakFrom(events, i) && StreakFrom(events, k)
    ensures i == k
  {
  }

  /** A daemon that looks again no later than it was told never has to close admission. */
  lemma PromptNeverPauses(s: State, now: nat, o: Observation, again: nat, later: Observation)
    requires Decision(s, now, o).Wait? && now <= again <= now + Decision(s, now, o).delay
    requires s.dirtySince.Some? ==> s.dirtySince.value <= now
    ensures !Decision(Noted(s, now, o.dirty), again, later).PauseAndCommit?
  {
  }
}
