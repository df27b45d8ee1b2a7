/**
  The Active and Frozen generation proof sets, the keys being published, and the
  checkpoint coordinator's order of freezing, cancelling and completing them.
 */
module DependencyProofs {
  import opened Basics
  import opened ProofMap

  datatype State = State(active: ProofSet, frozen: Option<ProofSet>, publishing: set<Key>)

  function FrozenOf(s: State): ProofSet {
    if s.frozen.Some? then s.frozen.value else map[]
  }

  function Count(s: State): nat {
    |s.active| + |FrozenOf(s)|
  }

  /** A key nobody has proved and nobody is publishing. */
  predicate Claimable(s: State, key: Key) {
    key !in s.active && key !in FrozenOf(s) && key !in s.publishing
  }

  /** `GenerationProofState::remember`: a new key is refused once the combined budget is spent. */
  function Remember(s: State, proof: Proof, frozen: bool): (after: State)
    requires frozen ==> s.frozen.Some?
  {
    var target := if frozen then s.frozen.value else s.active;
    if Count(s) >= MAX_PROOFS && proof.key !in target then s
    else if frozen then s.(frozen := Some(Put(target, proof)))
    else s.(active := Put(target, proof))
  }

  function RememberAll(s: State, proofs: seq<Proof>): (after: State)
    ensures after.publishing == s.publishing && after.frozen == s.frozen
  {
    if proofs == [] then s
    else Remember(RememberAll(s, proofs[..|proofs| - 1]), proofs[|proofs| - 1], false)
  }

  function KeysOf(proofs: seq<Proof>): (keys: set<Key>) {
    set p | p in proofs :: p.key
  }

  /** `finish_publications`: admit every verified location, then release the claims. */
  function FinishAll(s: State, proofs: seq<Proof>): (after: State) {
    var told := RememberAll(s, proofs);
    told.(publishing := told.publishing - KeysOf(proofs))
  }

  /** A cancelled freeze: Frozen proofs return to Active unless Active learnt the key meanwhile. */
  function Merged(active: ProofSet, frozen: ProofSet): (both: ProofSet)
    ensures both.Keys == active.Keys + frozen.Keys
  {
    frozen + active
  }

  /** `freeze_for_commit`: a Frozen set left over from a failed commit is kept as it is. */
  function Freezing(s: State): State {
    if s.frozen.Some? then s else s.(active := map[], frozen := Some(s.active))
  }

  function Cancelling(s: State, newly: bool): State
    requires newly ==> s.frozen.Some?
  {
    if newly then s.(active := Merged(s.active, s.frozen.value), frozen := None) else s
  }

  // ---- the checkpoint coordinator around it ----

  datatype Phase = Idle | Cut(newlyFrozen: bool) | Committing

  datatype System = System(state: State, phase: Phase)

  datatype Action =
    | Claim(key: Key)
    | Finish(proofs: seq<Proof>)
    | Abandon(keys: seq<Key>)
    | RememberActive(proof: Proof)
    | RememberFrozen(proof: Proof)
    | Freeze
    | NothingDirty
    | CommitRefused
    | CommitStarted
    | CommitFailed
    | CommitDone

  /**
    Which steps can be taken: claimants finish or abandon what they own, Active
    admission waits out a publication of its key, Frozen admission happens only
    inside a commit, and one checkpoint at a time walks freeze, cut, commit.
   */
  predicate Enabled(y: System, a: Action) {
    match a
    case Claim(key) => Claimable(y.state, key)
    case Finish(proofs) => Ascending(proofs) && KeysOf(proofs) <= y.state.publishing
    case Abandon(keys) => (forall i, j :: 0 <= i < j < |keys| ==> keys[i] != keys[j])
                          && (forall k :: k in keys ==> k in y.state.publishing)
    case RememberActive(proof) => proof.key !in y.state.publishing
    case RememberFrozen(_) => y.phase.Committing?
    case Freeze => y.phase.Idle?
    case NothingDirty => y.phase.Cut?
    case CommitRefused => y.phase.Cut?
    case CommitStarted => y.phase.Cut?
    case CommitFailed => y.phase.Committing?
    case CommitDone => y.phase.Committing?
  }

  /** The code's own assertions at each step: a step that breaks one panics. */
  predicate AssertsHold(y: System, a: Action) {
    var s := y.state;
    match a
    case Finish(proofs) =>
      && (forall i :: 0 <= i < |proofs| ==>
            proofs[i].key in s.publishing && proofs[i].key !in RememberAll(s, proofs[..i]).active)
      && Count(RememberAll(s, proofs)) <= MAX_PROOFS
    case Abandon(keys) =>
      forall i :: 0 <= i < |keys| ==> keys[i] in s.publishing && keys[i] !in keys[..i]
    case RememberActive(proof) => FitsArena(s, s.active, proof)
    case RememberFrozen(proof) => s.frozen.Some? && FitsArena(s, s.frozen.value, proof)
    case NothingDirty => y.phase.Cut? && y.phase.newlyFrozen ==> s.frozen.Some?
    case CommitRefused =>
      y.phase.Cut? && y.phase.newlyFrozen ==>
        s.frozen.Some? && |Merged(s.active, s.frozen.value)| <= MAX_PROOFS
    case CommitDone => s.frozen.Some?
    case _ => true
  }

  /** A proof that `remember` admits under a new key finds its arena below the bound. */
  predicate FitsArena(s: State, target: ProofSet, proof: Proof) {
    Count(s) < MAX_PROOFS && proof.key !in target ==> |target| < MAX_PROOFS
  }

  function Step(y: System, a: Action): (z: System)
    requires Enabled(y, a) && AssertsHold(y, a)
  {
    var s := y.state;
    match a
    case Claim(key) => y.(state := s.(publishing := s.publishing + {key}))
    case Finish(proofs) => y.(state := FinishAll(s, proofs))
    case Abandon(keys) => y.(state := s.(publishing := s.publishing - (set k | k in keys)))
    case RememberActive(proof) => y.(state := Remember(s, proof, false))
    case RememberFrozen(proof) => y.(state := Remember(s, proof, true))
    case Freeze => System(Freezing(s), Cut(s.frozen.None?))
    case NothingDirty =>
      System(if y.phase.newlyFrozen then s.(frozen := None) else s, Idle)
    case CommitRefused => System(Cancelling(s, y.phase.newlyFrozen), Idle)
    case CommitStarted => y.(phase := Committing)
    case CommitFailed => y.(phase := Idle)
    case CommitDone => System(s.(frozen := None), Idle)
  }

  // ---- invariant ----

  ghost predicate Keyed(m: ProofSet) {
    forall k :: k in m ==> m[k].key == k
  }

  ghost predicate Good(s: State) {
    && s.publishing !! s.active.Keys
    && Count(s) <= MAX_PROOFS
    && Keyed(s.active) && Keyed(FrozenOf(s))
  }

  /** What a fresh freeze must keep while it can still be cancelled. */
  ghost predicate Cancellable(y: System) {
    y.phase.Cut? && y.phase.newlyFrozen ==> y.state.publishing !! FrozenOf(y.state).Keys
  }

  ghost predicate Sound(y: System) {
    && Good(y.state)
    && (!y.phase.Idle? ==> y.state.frozen.Some?)
    && Cancellable(y)
  }

  const START := System(State(map[], None, {}), Idle)

  lemma PutSize(m: ProofSet, proof: Proof)
    ensures Put(m, proof).Keys == m.Keys + {proof.key}
    ensures |Put(m, proof)| == if proof.key in m then |m| else |m| + 1
    ensures Keyed(m) ==> Keyed(Put(m, proof))
  {
  }

  lemma RememberKeeps(s: State, proof: Proof, frozen: bool)
    requires Good(s) && (frozen ==> s.frozen.Some?)
    requires !frozen ==> proof.key !in s.publishing
    ensures Good(Remember(s, proof, frozen))
  {
  }

  lemma MergedFits(active: ProofSet, frozen: ProofSet)
    ensures |Merged(active, frozen)| <= |active| + |frozen|
    ensures Keyed(active) && Keyed(frozen) ==> Keyed(Merged(active, frozen))
  {
  }

  /** The budget, the shape and what stays untouched while a whole batch is admitted. */
  lemma {:induction false} RememberAllEffect(s: State, proofs: seq<Proof>)
    requires Count(s) <= MAX_PROOFS && Keyed(s.active)
    ensures var r := RememberAll(s, proofs);
            && Count(r) <= MAX_PROOFS && Keyed(r.active)
            && s.active.Keys <= r.active.Keys <= s.active.Keys + KeysOf(proofs)
  {
    if proofs != [] {
      var front, last := proofs[..|proofs| - 1], proofs[|proofs| - 1];
      assert proofs == front + [last];
      RememberAllEffect(s, front);
      PutSize(RememberAll(s, front).active, last);
    }
  }

  function Room(s: State): nat {
    if Count(s) < MAX_PROOFS then MAX_PROOFS - Count(s) else 0
  }

  function TargetOf(s: State, frozen: bool): ProofSet {
    if frozen then FrozenOf(s) else s.active
  }

  /**
    What one admission means: it is refused exactly when the budget is spent and the key
    is new to its set; otherwise the proof is stored, and nothing else changes.
   */
  ghost predicate Remembers(before: State, after: State, proof: Proof, frozen: bool, admitted: bool) {
    && (admitted <==> Count(before) < MAX_PROOFS || proof.key in TargetOf(before, frozen))
    && (admitted ==> Stores(TargetOf(before, frozen), TargetOf(after, frozen), proof))
    && (!admitted ==> after == before)
    && after.publishing == before.publishing && after.frozen.Some? == before.frozen.Some?
    && TargetOf(after, !frozen) == TargetOf(before, !frozen)
  }

  lemma RememberMeans(s: State, proof: Proof, frozen: bool)
    requires frozen ==> s.frozen.Some?
    ensures Remembers(s, Remember(s, proof, frozen), proof, frozen,
                      Count(s) < MAX_PROOFS || proof.key in TargetOf(s, frozen))
  {
    PutStores(TargetOf(s, frozen), proof);
    hide Stores;
  }

  /** The first `room` proofs of a batch are Active, no later one is, and nothing else changed. */
  ghost predicate AdmitsFirst(before: State, after: State, proofs: seq<Proof>, room: nat) {
    && (forall i :: 0 <= i < |proofs| ==>
          && (proofs[i].key in after.active <==> i < room)
          && (i < room ==> after.active[proofs[i].key] == proofs[i]))
    && (forall k :: k in before.active ==> k in after.active && after.active[k] == before.active[k])
    && after.frozen == before.frozen
    && |after.active| == |before.active| + Min(|proofs|, room)
  }

  /** Proofs under keys that differ from one another and are not Active. */
  ghost predicate AllNew(s: State, proofs: seq<Proof>) {
    && (forall i :: 0 <= i < |proofs| ==> proofs[i].key !in s.active)
    && (forall i, j :: 0 <= i < j < |proofs| ==> proofs[i].key != proofs[j].key)
  }

  lemma {:induction false} RememberAllKeys(s: State, proofs: seq<Proof>, key: Key)
    requires key !in s.active && forall i :: 0 <= i < |proofs| ==> proofs[i].key != key
    ensures key !in RememberAll(s, proofs).active
  {
    if proofs != [] {
      RememberAllKeys(s, proofs[..|proofs| - 1], key);
    }
  }

  /** A batch of new keys is admitted in order until the budget is spent. */
  lemma {:induction false} RememberAllAdmits(s: State, proofs: seq<Proof>)
    requires AllNew(s, proofs)
    ensures AdmitsFirst(s, RememberAll(s, proofs), proofs, Room(s))
  {
    if proofs != [] {
      var front, last := proofs[..|proofs| - 1], proofs[|proofs| - 1];
      FrontIsNew(s, proofs);
      var before := RememberAll(s, front);
      assert RememberAll(s, proofs) == Remember(before, last, false);
      hide RememberAll, AdmitsFirst, AllNew, Remember, Room;
      RememberAllAdmits(s, front);
      RememberAllKeys(s, front, last.key);
      AdmitNext(s, front, last, before);
    }
  }

  lemma FrontIsNew(s: State, proofs: seq<Proof>)
    requires AllNew(s, proofs) && proofs != []
    ensures var front, last := proofs[..|proofs| - 1], proofs[|proofs| - 1];
            && proofs == front + [last] && AllNew(s, front) && last.key !in s.active
            && forall i :: 0 <= i < |front| ==> front[i].key != last.key
  {
  }

  lemma AdmitNext(s: State, front: seq<Proof>, last: Proof, before: State)
    requires AdmitsFirst(s, before, front, Room(s)) && last.key !in before.active && last.key !in s.active
    requires forall i :: 0 <= i < |front| ==> front[i].key != last.key
    ensures AdmitsFirst(s, Remember(before, last, false), front + [last], Room(s))
  {
    PutSize(before.active, last);
    assert forall i :: 0 <= i < |front| ==> (front + [last])[i] == front[i];
    assert (front + [last])[|front|] == last;
  }

  lemma FinishKeeps(s: State, proofs: seq<Proof>)
    requires Good(s) && KeysOf(proofs) <= s.publishing
    ensures Good(FinishAll(s, proofs))
  {
    RememberAllEffect(s, proofs);
  }

  /** Every key of an ascending batch is still unproved when its turn comes. */
  lemma BatchStaysNew(s: State, proofs: seq<Proof>, i: nat)
    requires Good(s) && Ascending(proofs) && KeysOf(proofs) <= s.publishing && i < |proofs|
    ensures proofs[i].key in s.publishing && proofs[i].key !in RememberAll(s, proofs[..i]).active
  {
    assert proofs[i] in proofs;
    assert proofs[i].key in KeysOf(proofs);
    RememberAllEffect(s, proofs[..i]);
    assert proofs[i].key !in KeysOf(proofs[..i]);
  }

  lemma NoAssertFires(y: System, a: Action)
    requires Sound(y) && Enabled(y, a)
    ensures AssertsHold(y, a)
  {
    match a
    case Finish(proofs) =>
      RememberAllEffect(y.state, proofs);
      forall i | 0 <= i < |proofs|
        ensures proofs[i].key in y.state.publishing
        ensures proofs[i].key !in RememberAll(y.state, proofs[..i]).active
      {
        BatchStaysNew(y.state, proofs, i);
      }
    case CommitRefused =>
      if y.phase.newlyFrozen {
        MergedFits(y.state.active, y.state.frozen.value);
      }
    case _ =>
  }

  lemma StepKeeps(y: System, a: Action)
    requires Sound(y) && Enabled(y, a) && AssertsHold(y, a)
    ensures Sound(Step(y, a))
  {
    hide Remember, RememberAll, AssertsHold;
    match a
    case Finish(proofs) => FinishKeeps(y.state, proofs);
    case RememberActive(proof) =>
      RememberKeeps(y.state, proof, false);
      RememberFrame(y.state, proof, false);
    case RememberFrozen(proof) =>
      NoAssertFires(y, a);
      RememberKeeps(y.state, proof, true);
      RememberFrame(y.state, proof, true);
    case CommitRefused =>
      if y.phase.newlyFrozen {
        MergedFits(y.state.active, y.state.frozen.value);
      }
    case _ =>
  }

  lemma RememberFrame(s: State, proof: Proof, frozen: bool)
    requires frozen ==> s.frozen.Some?
    ensures var r := Remember(s, proof, frozen);
            && r.publishing == s.publishing
            && r.frozen.Some? == s.frozen.Some?
            && (!frozen ==> r.frozen == s.frozen)
  {
  }

  // ---- whole runs ----

  datatype Outcome = Running(system: System) | Blocked | Panicked

  /** A schedule, step by step: it stops at a step nobody can take or at a failed assertion. */
  function Run(y: System, steps: seq<Action>): Outcome
    decreases |steps|
  {
    if steps == [] then Running(y)
    else if !Enabled(y, steps[0]) then Blocked
    else if !AssertsHold(y, steps[0]) then Panicked
    else Run(Step(y, steps[0]), steps[1..])
  }

  /** Main theorem: no schedule trips an assertion, and every state it reaches is sound. */
  lemma {:induction false} RunsNeverPanic(y: System, steps: seq<Action>)
    requires Sound(y)
    ensures !Run(y, steps).Panicked?
    ensures Run(y, steps).Running? ==> Sound(Run(y, steps).system)
    decreases |steps|
  {
    if steps != [] && Enabled(y, steps[0]) {
      NoAssertFires(y, steps[0]);
      StepKeeps(y, steps[0]);
      RunsNeverPanic(Step(y, steps[0]), steps[1..]);
    }
  }

  /** Spelled out from the empty start: claimed keys are never Active and the budget holds. */
  lemma ClaimedNeverActive(steps: seq<Action>, key: Key)
    requires Run(START, steps).Running?
    ensures var s := Run(START, steps).system.state;
            && (key in s.publishing ==> key !in s.active)
            && |s.active| + |FrozenOf(s)| <= MAX_PROOFS
  {
    RunsNeverPanic(START, steps);
  }

  // ---- why the order matters ----

  /** A cancelled freeze keeps claims out of Active exactly when Frozen holds none of them. */
  lemma CancelSafeIffFrozenUnclaimed(s: State)
    requires Good(s) && s.frozen.Some?
    ensures s.publishing !! Merged(s.active, s.frozen.value).Keys
            <==> s.publishing !! s.frozen.value.Keys
  {
  }

  /** Inside a commit Frozen may well hold a claimed key, so only a fresh cut may be cancelled. */
  lemma FrozenMayHoldAClaim(proof: Proof)
    ensures var r := Run(START, [Freeze, CommitStarted, Claim(proof.key), RememberFrozen(proof), CommitFailed]);
            && r.Running? && r.system.phase.Idle?
            && proof.key in r.system.state.publishing
            && proof.key in FrozenOf(r.system.state)
  {
    hide Run;
    var a := System(State(map[], Some(map[]), {}), Cut(true));
    var b := a.(phase := Committing);
    var c := b.(state := b.state.(publishing := {proof.key}));
    var d := c.(state := c.state.(frozen := Some(map[proof.key := proof])));
    RunCons(START, Freeze, [CommitStarted, Claim(proof.key), RememberFrozen(proof), CommitFailed]);
    RunCons(a, CommitStarted, [Claim(proof.key), RememberFrozen(proof), CommitFailed]);
    RunCons(b, Claim(proof.key), [RememberFrozen(proof), CommitFailed]);
    RunCons(c, RememberFrozen(proof), [CommitFailed]);
    RunCons(d, CommitFailed, []);
    RunNil(Step(d, CommitFailed));
    assert [Freeze, CommitStarted, Claim(proof.key), RememberFrozen(proof), CommitFailed]
        == [Freeze] + [CommitStarted, Claim(proof.key), RememberFrozen(proof), CommitFailed];
    assert [CommitStarted, Claim(proof.key), RememberFrozen(proof), CommitFailed]
        == [CommitStarted] + [Claim(proof.key), RememberFrozen(proof), CommitFailed];
    assert [Claim(proof.key), RememberFrozen(proof), CommitFailed]
        == [Claim(proof.key)] + [RememberFrozen(proof), CommitFailed];
    assert [RememberFrozen(proof), CommitFailed] == [RememberFrozen(proof)] + [CommitFailed];
    assert [CommitFailed] == [CommitFailed] + [];
  }

  lemma RunNil(y: System)
    ensures Run(y, []) == Running(y)
  {
  }

  lemma RunCons(y: System, a: Action, rest: seq<Action>)
    requires Enabled(y, a) && AssertsHold(y, a)
    ensures Run(y, [a] + rest) == Run(Step(y, a), rest)
  {
  }

  // ---- proofs stay pinned ----

  /** A step that demotes the Frozen set to history. */
  predicate Completes(y: System, a: Action) {
    a.CommitDone? || (a.NothingDirty? && y.phase.Cut? && y.phase.newlyFrozen)
  }

  predicate Proved(s: State, key: Key) {
    key in s.active || key in FrozenOf(s)
  }

  /** A step lets go of a proved key exactly when it completes a generation and no newer proof is Active. */
  lemma PinnedStep(y: System, a: Action, key: Key)
    requires Sound(y) && Enabled(y, a) && AssertsHold(y, a) && Proved(y.state, key)
    ensures Proved(Step(y, a).state, key) <==> key in y.state.active || !Completes(y, a)
  {
    match a
    case Finish(proofs) => RememberAllEffect(y.state, proofs);
    case _ =>
  }

  /** No step of the run completes a generation while the key is proved in Frozen only. */
  ghost predicate NeverReleased(y: System, steps: seq<Action>, key: Key)
    decreases |steps|
  {
    steps == [] || !Enabled(y, steps[0]) || !AssertsHold(y, steps[0])
    || ((key in y.state.active || !Completes(y, steps[0])) && NeverReleased(Step(y, steps[0]), steps[1..], key))
  }

  /** In every run, a proved key stays proved until the commit that owns its generation completes. */
  lemma {:induction false} PinnedUntilComplete(y: System, steps: seq<Action>, key: Key)
    requires Sound(y) && Proved(y.state, key)
    requires Run(y, steps).Running? && NeverReleased(y, steps, key)
    ensures Proved(Run(y, steps).system.state, key)
    decreases |steps|
  {
    hide Enabled, AssertsHold, Step, Sound, Completes;
    if steps != [] {
      PinnedStep(y, steps[0], key);
      StepKeeps(y, steps[0]);
      PinnedUntilComplete(Step(y, steps[0]), steps[1..], key);
    }
  }

  /** A published chunk whose proof found room is not up for publication again before that commit completes. */
  lemma PublishedOnce(y: System, proofs: seq<Proof>, i: nat, z: System, steps: seq<Action>)
    requires Sound(y) && Enabled(y, Finish(proofs)) && AssertsHold(y, Finish(proofs)) && z == Step(y, Finish(proofs))
    requires i < |proofs| && i < Room(y.state)
    ensures proofs[i].key in z.state.active && z.state.active[proofs[i].key] == proofs[i]
    ensures var end := Run(z, steps);
            end.Running? && NeverReleased(z, steps, proofs[i].key) ==> !Claimable(end.system.state, proofs[i].key)
  {
    BatchIsNew(y.state, proofs);
    RememberAllAdmits(y.state, proofs);
    StepKeeps(y, Finish(proofs));
    hide RememberAll, AssertsHold, Sound;
    if Run(z, steps).Running? && NeverReleased(z, steps, proofs[i].key) {
      PinnedUntilComplete(z, steps, proofs[i].key);
    }
  }

  lemma BatchIsNew(s: State, proofs: seq<Proof>)
    requires Good(s) && Ascending(proofs) && KeysOf(proofs) <= s.publishing
    ensures AllNew(s, proofs)
  {
    forall i | 0 <= i < |proofs|
      ensures proofs[i].key !in s.active
    {
      assert proofs[i] in proofs && proofs[i].key in KeysOf(proofs);
    }
  }
}
