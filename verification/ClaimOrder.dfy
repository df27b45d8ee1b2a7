/**
  Any number of writer threads claiming keys for publication. Each keeps the
  claims it acquired, waits while somebody else publishes the key it wants, and
  asks in ascending key order; the checkpoint coordinator runs beside them.
 */
module ClaimOrder {
  import opened Basics
  import opened ProofMap
  import P = DependencyProofs

  type Tid = nat

  /** What a thread is waiting to do: claim a key, or re-admit a Frozen proof to Active. */
  datatype Want = Claiming(key: Key) | Touching(proof: Proof)

  datatype Thread = Thread(held: seq<Key>, want: Option<Want>)

  datatype System = System(proofs: P.System, threads: map<Tid, Thread>)

  function KeyOf(w: Want): Key {
    match w
    case Claiming(key) => key
    case Touching(proof) => proof.key
  }

  predicate Above(key: Key, held: seq<Key>) {
    forall i :: 0 <= i < |held| ==> held[i] < key
  }

  predicate Rising(held: seq<Key>) {
    forall i, j :: 0 <= i < j < |held| ==> held[i] < held[j]
  }

  /** The thread's next pass would wait on the condition variable. */
  predicate Blocked(y: System, t: Tid) {
    && t in y.threads && y.threads[t].want.Some?
    && KeyOf(y.threads[t].want.value) in y.proofs.state.publishing
    && (y.threads[t].want.value.Claiming? ==> KeyOf(y.threads[t].want.value) !in y.proofs.state.active)
  }

  datatype Move =
    | Ask(t: Tid, want: Want)
    | Pass(t: Tid)
    | Complete(t: Tid, proofs: seq<Proof>)
    | Drop(t: Tid)
    | Elsewhere(action: P.Action)

  predicate Enabled(y: System, m: Move) {
    match m
    case Ask(t, want) =>
      t in y.threads && y.threads[t].want.None? && Above(KeyOf(want), y.threads[t].held)
    case Pass(t) => t in y.threads && y.threads[t].want.Some? && !Blocked(y, t)
    case Complete(t, proofs) =>
      && t in y.threads && y.threads[t].want.None?
      && |proofs| == |y.threads[t].held|
      && forall i :: 0 <= i < |proofs| ==> proofs[i].key == y.threads[t].held[i]
    case Drop(t) => t in y.threads && y.threads[t].want.None?
    case Elsewhere(a) =>
      !a.Claim? && !a.Finish? && !a.Abandon? && P.Enabled(y.proofs, a)
  }

  /** The move as the shared proof state sees it. */
  function Shared(y: System, m: Move): Option<P.Action>
    requires Enabled(y, m)
  {
    match m
    case Ask(_, _) => None
    case Pass(t) =>
      (match y.threads[t].want.value
       case Claiming(key) =>
         if P.Claimable(y.proofs.state, key) then Some(P.Claim(key)) else None
       case Touching(proof) => Some(P.RememberActive(proof.(admission := ExactReuse))))
    case Complete(_, proofs) => Some(P.Finish(proofs))
    case Drop(t) => Some(P.Abandon(y.threads[t].held))
    case Elsewhere(a) => Some(a)
  }

  /** The moving thread afterwards. */
  function Moved(y: System, m: Move): Thread
    requires Enabled(y, m) && !m.Elsewhere?
  {
    var h := y.threads[m.t];
    match m
    case Ask(_, want) => h.(want := Some(want))
    case Pass(t) =>
      (match h.want.value
       case Claiming(key) =>
         if key in y.proofs.state.active then h.(want := None)
         else if key in P.FrozenOf(y.proofs.state)
         then h.(want := Some(Touching(P.FrozenOf(y.proofs.state)[key])))
         else Thread(h.held + [key], None)
       case Touching(_) => h.(want := None))
    case Complete(_, _) => Thread([], None)
    case Drop(_) => Thread([], None)
  }

  ghost function Step(y: System, m: Move): System
    requires Enabled(y, m)
    requires Shared(y, m).Some? ==>
               P.Enabled(y.proofs, Shared(y, m).value) && P.AssertsHold(y.proofs, Shared(y, m).value)
  {
    var proofs := if Shared(y, m).Some? then P.Step(y.proofs, Shared(y, m).value) else y.proofs;
    System(proofs, if m.Elsewhere? then y.threads else y.threads[m.t := Moved(y, m)])
  }

  // ---- invariant ----

  ghost predicate Owns(y: System, t: Tid, key: Key) {
    t in y.threads && key in y.threads[t].held
  }

  ghost predicate Orderly(h: Thread) {
    Rising(h.held) && (h.want.Some? ==> Above(KeyOf(h.want.value), h.held))
  }

  /** Claims are held in ascending order, each claimed key by exactly one thread. */
  ghost predicate Owned(y: System) {
    && P.Sound(y.proofs)
    && (forall t :: t in y.threads ==> Orderly(y.threads[t]))
    && (forall t, k :: Owns(y, t, k) ==> k in y.proofs.state.publishing)
    && (forall k :: k in y.proofs.state.publishing ==> exists t :: Owns(y, t, k))
    && (forall t, u, k :: Owns(y, t, k) && Owns(y, u, k) ==> t == u)
  }

  lemma HeldKeys(y: System, t: Tid, proofs: seq<Proof>)
    requires Owned(y) && Enabled(y, Complete(t, proofs))
    ensures Ascending(proofs)
    ensures P.KeysOf(proofs) == set k | k in y.threads[t].held
    ensures P.KeysOf(proofs) <= y.proofs.state.publishing
  {
    var held := y.threads[t].held;
    assert Orderly(y.threads[t]);
    forall k | k in held
      ensures k in P.KeysOf(proofs)
    {
      var i :| 0 <= i < |held| && held[i] == k;
      assert proofs[i] in proofs;
    }
    forall k | k in held
      ensures k in y.proofs.state.publishing
    {
      assert Owns(y, t, k);
    }
  }

  /** Everything the shared state is asked to do is something it allows. */
  lemma SharedAllowed(y: System, m: Move)
    requires Owned(y) && Enabled(y, m) && Shared(y, m).Some?
    ensures P.Enabled(y.proofs, Shared(y, m).value) && P.AssertsHold(y.proofs, Shared(y, m).value)
    ensures P.Sound(P.Step(y.proofs, Shared(y, m).value))
  {
    hide P.AssertsHold, P.Step, P.Sound;
    match m {
      case Complete(t, proofs) => HeldKeys(y, t, proofs);
      case Drop(t) =>
        assert Orderly(y.threads[t]);
        forall k | k in y.threads[t].held
          ensures k in y.proofs.state.publishing
        {
          assert Owns(y, t, k);
        }
      case _ =>
    }
    P.NoAssertFires(y.proofs, Shared(y, m).value);
    P.StepKeeps(y.proofs, Shared(y, m).value);
  }

  /** What a move does to the set of claimed keys. */
  function Claimed(y: System, m: Move): set<Key>
    requires Enabled(y, m)
  {
    var before := y.proofs.state.publishing;
    match m
    case Pass(t) =>
      if Shared(y, m).Some? && Shared(y, m).value.Claim? then before + {Shared(y, m).value.key} else before
    case Complete(t, _) => before - set k | k in y.threads[t].held
    case Drop(t) => before - set k | k in y.threads[t].held
    case _ => before
  }

  lemma StepClaims(y: System, m: Move)
    requires Owned(y) && Enabled(y, m)
    requires Shared(y, m).Some? ==>
               P.Enabled(y.proofs, Shared(y, m).value) && P.AssertsHold(y.proofs, Shared(y, m).value)
    ensures Step(y, m).proofs.state.publishing == Claimed(y, m)
  {
  }

  lemma OrderKept(y: System, m: Move)
    requires Owned(y) && Enabled(y, m) && !m.Elsewhere?
    ensures Orderly(Moved(y, m))
  {
  }

  ghost predicate Placed(z: System) {
    && (forall t, k :: Owns(z, t, k) ==> k in z.proofs.state.publishing)
    && (forall k :: k in z.proofs.state.publishing ==> exists t :: Owns(z, t, k))
    && (forall t, u, k :: Owns(z, t, k) && Owns(z, u, k) ==> t == u)
  }

  lemma SameOwners(y: System, z: System)
    requires Owned(y) && z.proofs.state.publishing == y.proofs.state.publishing
    requires forall t, k :: Owns(z, t, k) <==> Owns(y, t, k)
    ensures Placed(z)
  {
  }

  lemma OneMoreOwner(y: System, z: System, t: Tid, key: Key)
    requires Owned(y) && key !in y.proofs.state.publishing
    requires z.proofs.state.publishing == y.proofs.state.publishing + {key}
    requires forall u, k :: Owns(z, u, k) <==> Owns(y, u, k) || (u == t && k == key)
    ensures Placed(z)
  {
    assert Owns(z, t, key);
    forall k | k in z.proofs.state.publishing
      ensures exists u :: Owns(z, u, k)
    {
      if k != key {
        var u :| Owns(y, u, k);
        assert Owns(z, u, k);
      }
    }
  }

  lemma OwnerLeaves(y: System, z: System, t: Tid)
    requires Owned(y) && t in y.threads
    requires z.proofs.state.publishing == y.proofs.state.publishing - set k | k in y.threads[t].held
    requires forall u, k :: Owns(z, u, k) <==> Owns(y, u, k) && u != t
    ensures Placed(z)
  {
    forall k | k in z.proofs.state.publishing
      ensures exists u :: Owns(z, u, k)
    {
      var u :| Owns(y, u, k);
      assert Owns(z, u, k);
    }
    forall u, k | Owns(z, u, k)
      ensures k in z.proofs.state.publishing
    {
      assert Owns(y, u, k) && !Owns(y, t, k);
    }
  }

  lemma StepKeeps(y: System, m: Move)
    requires Owned(y) && Enabled(y, m)
    ensures Shared(y, m).Some? ==>
              P.Enabled(y.proofs, Shared(y, m).value) && P.AssertsHold(y.proofs, Shared(y, m).value)
    ensures Owned(Step(y, m))
  {
    hide P.Sound, P.AssertsHold, P.Enabled, P.Step, Orderly;
    if Shared(y, m).Some? {
      SharedAllowed(y, m);
    }
    StepClaims(y, m);
    var z := Step(y, m);
    assert P.Sound(z.proofs);
    match m
    case Ask(t, _) => OrderKept(y, m); SameOwners(y, z);
    case Elsewhere(_) => SameOwners(y, z);
    case Complete(t, _) => OrderKept(y, m); OwnerLeaves(y, z, t);
    case Drop(t) => OrderKept(y, m); OwnerLeaves(y, z, t);
    case Pass(t) =>
      OrderKept(y, m);
      if Shared(y, m).Some? && Shared(y, m).value.Claim? {
        OneMoreOwner(y, z, t, Shared(y, m).value.key);
      } else {
        SameOwners(y, z);
      }
  }

  // ---- whole runs ----

  /** A run: its side conditions on the shared state are the ones StepKeeps shows to hold. */
  ghost predicate Reaches(y: System, moves: seq<Move>, z: System)
    decreases |moves|
  {
    if moves == [] then y == z
    else
      && Enabled(y, moves[0])
      && (Shared(y, moves[0]).Some? ==>
            && P.Enabled(y.proofs, Shared(y, moves[0]).value)
            && P.AssertsHold(y.proofs, Shared(y, moves[0]).value))
      && Reaches(Step(y, moves[0]), moves[1..], z)
  }

  ghost predicate Initial(y: System) {
    y.proofs == P.START && forall t :: t in y.threads ==> y.threads[t] == Thread([], None)
  }

  lemma {:induction false} RunKeeps(y: System, moves: seq<Move>, z: System)
    requires Owned(y) && Reaches(y, moves, z)
    ensures Owned(z)
    decreases |moves|
  {
    if moves != [] {
      StepKeeps(y, moves[0]);
      RunKeeps(Step(y, moves[0]), moves[1..], z);
    }
  }

  /** In every reachable state a key is being published exactly when one single thread owns it. */
  lemma OneOwner(y: System, moves: seq<Move>, z: System, key: Key)
    requires Initial(y) && Reaches(y, moves, z)
    ensures key in z.proofs.state.publishing <==> exists t :: Owns(z, t, key)
    ensures forall t, u :: Owns(z, t, key) && Owns(z, u, key) ==> t == u
  {
    RunKeeps(y, moves, z);
  }

  // ---- waiting ----

  ghost predicate WaitsFor(y: System, t: Tid, u: Tid) {
    Blocked(y, t) && Owns(y, u, KeyOf(y.threads[t].want.value))
  }

  /** Along a wait the wanted key strictly rises. */
  lemma WaitsRise(y: System, t: Tid, u: Tid)
    requires Owned(y) && WaitsFor(y, t, u) && Blocked(y, u)
    ensures KeyOf(y.threads[t].want.value) < KeyOf(y.threads[u].want.value)
  {
  }

  ghost predicate Chain(y: System, path: seq<Tid>) {
    |path| > 0 && forall i :: 0 <= i < |path| - 1 ==> WaitsFor(y, path[i], path[i + 1])
  }

  lemma {:induction false} ChainRises(y: System, path: seq<Tid>)
    requires Owned(y) && Chain(y, path) && |path| > 1
    requires Blocked(y, path[|path| - 1])
    ensures Blocked(y, path[0])
    ensures KeyOf(y.threads[path[0]].want.value) < KeyOf(y.threads[path[|path| - 1]].want.value)
  {
    hide Owned, Owns;
    assert WaitsFor(y, path[0], path[1]);
    if |path| > 2 {
      assert WaitsFor(y, path[1], path[2]);
      WaitsRise(y, path[0], path[1]);
      ChainRises(y, path[1..]);
    } else {
      WaitsRise(y, path[0], path[1]);
    }
  }

  /** The wait-for relation has no cycle of any length. */
  lemma NoWaitCycle(y: System, path: seq<Tid>)
    requires Owned(y) && Chain(y, path) && |path| > 1
    ensures path[0] != path[|path| - 1]
  {
    assert WaitsFor(y, path[0], path[1]);
    if path[0] == path[|path| - 1] {
      ChainRises(y, path);
    }
  }

  ghost function WantsAbove(y: System, key: Key): set<Tid> {
    set u | u in y.threads && y.threads[u].want.Some? && key < KeyOf(y.threads[u].want.value)
  }

  /** Following the waits from any blocked thread ends at a claim holder that can move. */
  lemma WaitEnds(y: System, t: Tid) returns (path: seq<Tid>)
    requires Owned(y) && Blocked(y, t)
    ensures Chain(y, path) && |path| > 1 && path[0] == t
    ensures var u := path[|path| - 1];
            u in y.threads && y.threads[u].held != [] && !Blocked(y, u)
    decreases WantsAbove(y, KeyOf(y.threads[t].want.value))
  {
    var key := KeyOf(y.threads[t].want.value);
    var u :| Owns(y, u, key);
    assert WaitsFor(y, t, u);
    path := [t, u];
    if Blocked(y, u) {
      WaitsRise(y, t, u);
      var above := KeyOf(y.threads[u].want.value);
      assert u in WantsAbove(y, key) && u !in WantsAbove(y, above);
      assert WantsAbove(y, above) <= WantsAbove(y, key);
      var rest := WaitEnds(y, u);
      path := [t] + rest;
      assert forall i :: 0 < i < |path| ==> path[i] == rest[i - 1];
    }
  }

  /** Main theorem: in every reachable state, whoever is blocked, some claim holder has a move to make. */
  lemma NoDeadlock(y: System, moves: seq<Move>, z: System, t: Tid)
    requires Initial(y) && Reaches(y, moves, z) && Blocked(z, t)
    ensures exists u :: u in z.threads && z.threads[u].held != []
                        && (Enabled(z, Pass(u)) || Enabled(z, Drop(u)))
  {
    RunKeeps(y, moves, z);
    var path := WaitEnds(z, t);
    var u := path[|path| - 1];
    assert Enabled(z, Pass(u)) || Enabled(z, Drop(u));
  }
}
