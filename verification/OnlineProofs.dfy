/**
  The locked proof state itself: two proof maps, the publishing set and the
  historical cache it feeds, each critical section proved equal to its transition.
 */
module OnlineProofs {
  import opened Basics
  import opened ProofMap
  import opened DependencyProofs

  /** One pass of `claim_publication` under the lock; the source waits on MustWait and retries. */
  datatype PublicationClaim =
    | Existing(proof: Proof)
    | AdoptFrozen(proof: Proof)
    | Acquired
    | MustWait

  // ---- the loop that undoes a freeze ----

  /** Active after the first proofs of a cancelled freeze have been offered back to it. */
  ghost function Restored(active: ProofSet, values: seq<Proof>): ProofSet {
    if values == [] then active
    else
      var m, last := Restored(active, values[..|values| - 1]), values[|values| - 1];
      if last.key in m then m else m[last.key := last]
  }

  lemma {:induction false} RestoredSoFar(active: ProofSet, f: ProofSet, values: seq<Proof>)
    requires forall p :: p in values ==> p.key in f && f[p.key] == p
    ensures var m := Restored(active, values);
            && m.Keys == active.Keys + KeysOf(values)
            && forall k :: k in m ==> m[k] == if k in active then active[k] else f[k]
  {
    if values != [] {
      var front, last := values[..|values| - 1], values[|values| - 1];
      assert values == front + [last] && last in values;
      RestoredSoFar(active, f, front);
      assert KeysOf(values) == KeysOf(front) + {last.key};
    }
  }

  lemma ListsKeys(values: seq<Proof>, f: ProofSet)
    requires Lists(values, f)
    ensures KeysOf(values) == f.Keys
    ensures forall p :: p in values ==> p.key in f && f[p.key] == p
  {
  }

  lemma RestoredAll(active: ProofSet, f: ProofSet, values: seq<Proof>)
    requires Lists(values, f)
    ensures Restored(active, values) == Merged(active, f)
  {
    ListsKeys(values, f);
    RestoredSoFar(active, f, values);
  }

  lemma RestoredNone(active: ProofSet, values: seq<Proof>)
    ensures Restored(active, values[..0]) == active
  {
  }

  lemma RestoredStep(active: ProofSet, values: seq<Proof>, i: nat)
    requires i < |values|
    ensures var m, p := Restored(active, values[..i]), values[i];
            Restored(active, values[..i + 1]) == if p.key in m then m else m[p.key := p]
  {
    assert values[..i + 1][..i] == values[..i];
  }

  /** A proof still missing from Active leaves room under the bound the merged set respects. */
  lemma RestoredRoom(active: ProofSet, f: ProofSet, values: seq<Proof>, i: nat)
    requires Lists(values, f) && i < |values|
    requires |Merged(active, f)| <= MAX_PROOFS
    requires values[i].key !in Restored(active, values[..i])
    ensures |Restored(active, values[..i])| < MAX_PROOFS
  {
    hide Restored, Lists;
    ListsKeys(values, f);
    RestoredSoFar(active, f, values[..i]);
    var m, all := Restored(active, values[..i]).Keys, Merged(active, f).Keys;
    assert values[i] in values && values[i].key in all;
    assert m <= all - {values[i].key};
    SubsetSize(m, all - {values[i].key});
    assert |Restored(active, values[..i])| == |m| && |Merged(active, f)| == |all|;
  }

  /** One more proof offered back; if it is missing there is room under the merged bound. */
  lemma RestoredNext(active: ProofSet, f: ProofSet, values: seq<Proof>, i: nat)
    requires Lists(values, f) && i < |values|
    requires |Merged(active, f)| <= MAX_PROOFS
    ensures var m, p := Restored(active, values[..i]), values[i];
            && Restored(active, values[..i + 1]) == (if p.key in m then m else m[p.key := p])
            && (p.key !in m ==> |m| < MAX_PROOFS)
  {
    hide Restored, Lists;
    RestoredStep(active, values, i);
    if values[i].key !in Restored(active, values[..i]) {
      RestoredRoom(active, f, values, i);
    }
  }

  lemma SubsetSize(a: set<Key>, b: set<Key>)
    requires a <= b
    ensures |a| <= |b|
  {
    assert b == a + (b - a);
  }

  lemma BatchAdmitted(s: State, proofs: seq<Proof>)
    requires Good(s) && Ascending(proofs) && KeysOf(proofs) <= s.publishing
    ensures AdmitsFirst(s, FinishAll(s, proofs), proofs, Room(s))
  {
    BatchIsNew(s, proofs);
    RememberAllAdmits(s, proofs);
    hide RememberAll;
  }

  class OnlineDependencyProofs {
    const hash: Key -> nat
    var active: GenerationProofMap
    var frozen: GenerationProofMap?
    var publishing: set<Key>
    /** Proofs handed to the historical cache, oldest first. */
    var history: seq<Proof>

    ghost function Repr(): set<object?>
      reads this
    {
      {this, active, frozen}
    }

    ghost predicate Valid()
      reads Repr()
    {
      && active.Valid() && active != frozen
      && (frozen != null ==> frozen.Valid())
    }

    ghost function View(): State
      reads Repr()
    {
      State(active.model, if frozen == null then None else Some(frozen.model), publishing)
    }

    constructor (hash: Key -> nat)
      ensures Valid() && View() == START.state && history == []
      ensures fresh(active) && frozen == null
    {
      this.hash := hash;
      active := new GenerationProofMap(hash);
      frozen, publishing, history := null, {}, [];
    }

    /**
      `remember`: the budget is checked against both sets before the target is touched. A
      proof is admitted exactly when there is budget or its key is known to the target; it
      is then stored there, and every other proof of both sets is as before.
     */
    method Admit(proof: Proof, toFrozen: bool) returns (admitted: bool)
      requires Valid()
      requires toFrozen ==> frozen != null
      modifies active, frozen
      ensures Valid() && unchanged(this)
      ensures View() == Remember(old(View()), proof, toFrozen)
      ensures admitted <==> proof.key in if toFrozen then frozen.model else active.model
      ensures Remembers(old(View()), View(), proof, toFrozen, admitted)
    {
      hide Mirrors, Hashed, Stores, Remembers;
      ghost var before := View();
      RememberMeans(before, proof, toFrozen);
      var count := active.Len();
      if frozen != null {
        var more := frozen.Len();
        count := count + more;
      }
      assert count == Count(before);
      hide Count;
      var target := if toFrozen then frozen else active;
      assert target.model == TargetOf(before, toFrozen);
      var known := target.Find(proof.key);
      if count >= MAX_PROOFS && known.None? {
        return false;
      }
      var _ := target.Insert(proof);
      assert View() == Remember(before, proof, toFrozen);
      return true;
    }

    /** Active admission, after any publication of the key has been waited out. */
    method RememberActive(proof: Proof) returns (admitted: bool)
      requires Valid() && Good(View()) && proof.key !in publishing
      modifies active, frozen
      ensures Valid() && Good(View()) && unchanged(this)
      ensures View() == Remember(old(View()), proof, false)
      ensures Remembers(old(View()), View(), proof, false, admitted)
    {
      RememberKeeps(View(), proof, false);
      admitted := Admit(proof, false);
    }

    method RememberFrozen(proof: Proof) returns (admitted: bool)
      requires Valid() && Good(View()) && frozen != null
      modifies active, frozen
      ensures Valid() && Good(View()) && unchanged(this)
      ensures View() == Remember(old(View()), proof, true)
      ensures Remembers(old(View()), View(), proof, true, admitted)
    {
      RememberKeeps(View(), proof, true);
      admitted := Admit(proof, true);
    }

    /** `freeze_for_commit`: a Frozen set left by a failed commit is kept. */
    method FreezeForCommit() returns (newly: bool)
      requires Valid()
      modifies this`active, this`frozen
      ensures Valid() && View() == Freezing(old(View()))
      ensures newly <==> old(frozen) == null
      ensures newly ==> fresh(active) && frozen == old(active) && active.model == map[]
      ensures !newly ==> unchanged(this)
    {
      hide Mirrors, Hashed;
      if frozen != null {
        return false;
      }
      var next := new GenerationProofMap(hash);
      frozen := active;
      active := next;
      return true;
    }

    /** `cancel_new_freeze`: Frozen proofs return in key order unless Active already has the key. */
    method CancelNewFreeze(newly: bool)
      requires Valid() && Good(View())
      requires newly ==> frozen != null
      modifies this`frozen, active
      ensures Valid() && View() == Cancelling(old(View()), newly)
      ensures |active.model| <= MAX_PROOFS
      ensures newly ==>
                && frozen == null && active.model.Keys == old(active.model).Keys + old(frozen.model).Keys
                && (forall k :: k in old(active.model) ==> active.model[k] == old(active.model)[k])
                && (forall k :: k in old(frozen.model) && k !in old(active.model) ==>
                      active.model[k] == old(frozen.model)[k])
    {
      hide Mirrors, Hashed, Lists, Remember, RememberAll, Put, Restored, Keyed;
      if !newly {
        return;
      }
      ghost var a, f := active.model, frozen.model;
      MergedFits(a, f);
      var values := frozen.IntoSortedValues();
      frozen := null;
      var i := 0;
      RestoredNone(a, values);
      while i < |values|
        invariant 0 <= i <= |values| && active.Valid() && active == old(active)
        invariant active.model == Restored(a, values[..i])
        modifies active
      {
        RestoredNext(a, f, values, i);
        active.InsertMissing(values[i]);
        i := i + 1;
      }
      assert values[..i] == values;
      RestoredAll(a, f, values);
    }

    /** `complete_frozen`: the Frozen set becomes history, in key order. */
    method CompleteFrozen()
      requires Valid() && frozen != null
      modifies this`frozen, this`history
      ensures Valid() && View() == old(View()).(frozen := None)
      ensures exists values :: Lists(values, old(frozen.model)) && history == old(history) + values
    {
      hide Mirrors, Hashed, Lists;
      var values := frozen.IntoSortedValues();
      frozen := null;
      history := history + values;
    }

    /** One locked pass of `claim_publication`: only a key nobody proved or publishes is acquired. */
    method TryClaim(key: Key) returns (claim: PublicationClaim)
      requires Valid() && Good(View())
      modifies this`publishing
      ensures Valid() && Good(View())
      ensures claim.Acquired? <==> Claimable(old(View()), key)
      ensures claim.Existing? <==> key in active.model
      ensures claim.MustWait? <==> key in old(publishing)
      ensures claim.Acquired? ==> View() == old(View()).(publishing := old(publishing) + {key})
      ensures !claim.Acquired? ==> View() == old(View())
      ensures claim.Existing? ==> claim.proof == active.model[key]
      ensures claim.AdoptFrozen? ==> key in FrozenOf(View()) && claim.proof == FrozenOf(View())[key]
    {
      hide Mirrors, Hashed;
      var proved := active.Get(key);
      if proved.Some? {
        return Existing(proved.value);
      }
      if frozen != null {
        var held := frozen.Get(key);
        if held.Some? {
          if key in publishing {
            return MustWait;
          }
          return AdoptFrozen(held.value);
        }
      }
      if key !in publishing {
        publishing := publishing + {key};
        return Acquired;
      }
      return MustWait;
    }

    /**
      `finish_publications`: the verified locations are admitted in order as far as the
      budget goes, then every claim is released. A key that found room is Active with its
      proof, so that the next claim of it finds an existing one.
     */
    method FinishPublications(proofs: seq<Proof>)
      requires Valid() && Good(View())
      requires Ascending(proofs) && KeysOf(proofs) <= publishing
      modifies this`publishing, active, frozen
      ensures Valid() && Good(View())
      ensures View() == FinishAll(old(View()), proofs)
      ensures AdmitsFirst(old(View()), View(), proofs, Room(old(View())))
      ensures publishing == old(publishing) - KeysOf(proofs)
    {
      hide Mirrors, Hashed, Remember, Put, Good, Ascending, Stores, Remembers;
      ghost var before := View();
      BatchAdmitted(before, proofs);
      hide AdmitsFirst;
      FinishKeeps(before, proofs);
      var i := 0;
      while i < |proofs|
        invariant 0 <= i <= |proofs| && Valid()
        invariant active == old(active) && frozen == old(frozen) && publishing == old(publishing)
        invariant View() == RememberAll(before, proofs[..i])
        modifies active, frozen
      {
        BatchStaysNew(before, proofs, i);
        assert proofs[i].key in publishing && proofs[i].key !in active.model;
        assert proofs[..i + 1][..i] == proofs[..i];
        var _ := Admit(proofs[i], false);
        i := i + 1;
      }
      assert proofs[..|proofs|] == proofs;
      publishing := publishing - KeysOf(proofs);
    }

    method AbandonPublications(keys: seq<Key>)
      requires Valid() && Good(View())
      requires forall i, j :: 0 <= i < j < |keys| ==> keys[i] != keys[j]
      requires forall k :: k in keys ==> k in publishing
      modifies this`publishing
      ensures Valid() && Good(View())
      ensures View() == old(View()).(publishing := old(publishing) - set k | k in keys)
    {
      var i := 0;
      while i < |keys|
        invariant 0 <= i <= |keys|
        invariant publishing == old(publishing) - (set k | k in keys[..i])
      {
        assert keys[i] in publishing;
        publishing := publishing - {keys[i]};
        assert keys[..i + 1] == keys[..i] + [keys[i]];
        i := i + 1;
      }
      assert keys[..|keys|] == keys;
    }
  }
}
