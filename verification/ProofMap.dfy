/**
  The generation proof map: proofs live once in an append-only arena, and a hash
  table of buckets holds their ordinals. It behaves as a plain map from key to
  proof, whatever the hash function does.
 */
module ProofMap {
  import opened Basics

  const MAX_PROOFS: nat := 65_536

  /** A (chunk identity, length) pair under its lexicographic order. */
  type Key = nat

  datatype Admission = Published | ExactReuse

  datatype Proof = Proof(key: Key, location: nat, admission: Admission)

  type ProofSet = map<Key, Proof>

  /** What replacing or adding a proof does: a recorded exact reuse is never forgotten. */
  function Put(proofs: ProofSet, proof: Proof): (after: ProofSet) {
    if proof.key in proofs && proofs[proof.key].admission == ExactReuse
    then proofs[proof.key := proof.(admission := ExactReuse)]
    else proofs[proof.key := proof]
  }

  /** What a caller may count on after storing a proof. */
  ghost predicate Stores(before: ProofSet, after: ProofSet, proof: Proof) {
    && after.Keys == before.Keys + {proof.key}
    && (forall k :: k in before && k != proof.key ==> after[k] == before[k])
    && after[proof.key].key == proof.key && after[proof.key].location == proof.location
    && (after[proof.key].admission == ExactReuse <==>
          || proof.admission == ExactReuse
          || (proof.key in before && before[proof.key].admission == ExactReuse))
  }

  /** A replaced proof gives way to the new location and never loses a recorded exact reuse. */
  lemma PutStores(proofs: ProofSet, proof: Proof)
    ensures Stores(proofs, Put(proofs, proof), proof)
  {
  }

  // ---- the arena and its index ----

  type Buckets = map<nat, seq<nat>>

  function Bucket(index: Buckets, hash: nat): seq<nat> {
    if hash in index then index[hash] else []
  }

  ghost predicate DistinctKeys(entries: seq<Proof>) {
    forall i, j :: 0 <= i < j < |entries| ==> entries[i].key != entries[j].key
  }

  /** Every arena slot is listed in the bucket of its key's hash, and buckets list nothing else. */
  ghost predicate Hashed(index: Buckets, entries: seq<Proof>, hash: Key -> nat) {
    && (forall o: nat :: o < |entries| ==> Listed(index, hash(entries[o].key), o))
    && (forall h: nat, o: nat :: Listed(index, h, o) ==> o < |entries| && hash(entries[o].key) == h)
  }

  ghost predicate Listed(index: Buckets, h: nat, o: nat) {
    o in Bucket(index, h)
  }

  /** The arena holds exactly the proofs of `m`. */
  ghost predicate Mirrors(entries: seq<Proof>, m: ProofSet) {
    && DistinctKeys(entries) && |m| == |entries|
    && (forall o :: 0 <= o < |entries| ==> entries[o].key in m && m[entries[o].key] == entries[o])
    && (forall k :: k in m ==> Has(entries, k))
  }

  ghost predicate Has(entries: seq<Proof>, k: Key) {
    exists o :: 0 <= o < |entries| && entries[o].key == k
  }

  lemma ReplaceMirrors(entries: seq<Proof>, m: ProofSet, o: nat, proof: Proof)
    requires Mirrors(entries, m) && o < |entries| && proof.key == entries[o].key
    ensures Mirrors(entries[o := proof], m[proof.key := proof])
  {
    var after, n := entries[o := proof], m[proof.key := proof];
    assert n.Keys == m.Keys;
    forall k | k in n
      ensures Has(after, k)
    {
      assert Has(entries, k);
      var i :| 0 <= i < |entries| && entries[i].key == k;
      assert after[i].key == k;
    }
    forall i | 0 <= i < |after|
      ensures after[i].key in n && n[after[i].key] == after[i]
    {
      if i < o { assert entries[i].key != entries[o].key; }
      if o < i { assert entries[o].key != entries[i].key; }
    }
  }

  lemma AppendMirrors(entries: seq<Proof>, m: ProofSet, proof: Proof)
    requires Mirrors(entries, m) && proof.key !in m
    ensures Mirrors(entries + [proof], m[proof.key := proof])
  {
    var after, n := entries + [proof], m[proof.key := proof];
    AppendDistinct(entries, m, proof);
    hide DistinctKeys, Has;
    assert n.Keys == m.Keys + {proof.key} && |n| == |n.Keys| && |m| == |m.Keys|;
    forall k | k in n
      ensures Has(after, k)
    {
      AppendHas(entries, proof, k);
    }
    forall o | 0 <= o < |after|
      ensures after[o].key in n && n[after[o].key] == after[o]
    {
      if o < |entries| {
        assert after[o] == entries[o];
      }
    }
  }

  lemma AppendHas(entries: seq<Proof>, proof: Proof, k: Key)
    requires k == proof.key || Has(entries, k)
    ensures Has(entries + [proof], k)
  {
    var after := entries + [proof];
    if k == proof.key {
      assert after[|entries|].key == k;
    } else {
      var i :| 0 <= i < |entries| && entries[i].key == k;
      assert after[i].key == k;
    }
  }

  lemma AppendDistinct(entries: seq<Proof>, m: ProofSet, proof: Proof)
    requires Mirrors(entries, m) && proof.key !in m
    ensures DistinctKeys(entries + [proof])
  {
  }

  lemma AppendHashed(index: Buckets, entries: seq<Proof>, proof: Proof, hash: Key -> nat)
    requires Hashed(index, entries, hash)
    ensures var h := hash(proof.key);
            Hashed(index[h := Bucket(index, h) + [|entries|]], entries + [proof], hash)
  {
    var h := hash(proof.key);
    var after, more := index[h := Bucket(index, h) + [|entries|]], entries + [proof];
    forall o: nat | o < |more|
      ensures Listed(after, hash(more[o].key), o)
    {
      if o < |entries| {
        assert more[o] == entries[o] && Listed(index, hash(entries[o].key), o);
      } else {
        assert Bucket(after, h)[|Bucket(index, h)|] == |entries|;
      }
    }
    forall g: nat, o: nat | Listed(after, g, o)
      ensures o < |more| && hash(more[o].key) == g
    {
      if Listed(index, g, o) {
        assert more[o] == entries[o];
      }
    }
  }

  lemma ReplaceHashed(index: Buckets, entries: seq<Proof>, o: nat, proof: Proof, hash: Key -> nat)
    requires Hashed(index, entries, hash) && o < |entries| && proof.key == entries[o].key
    ensures Hashed(index, entries[o := proof], hash)
  {
  }

  lemma KnownIffHeld(entries: seq<Proof>, m: ProofSet, key: Key)
    requires Mirrors(entries, m)
    ensures key in m <==> Has(entries, key)
  {
  }

  lemma MissedByBucket(index: Buckets, entries: seq<Proof>, hash: Key -> nat, key: Key)
    requires Hashed(index, entries, hash)
    requires forall o: nat :: Listed(index, hash(key), o) ==> entries[o].key != key
    ensures !Has(entries, key)
  {
  }

  // ---- draining in key order ----

  predicate Ascending(proofs: seq<Proof>) {
    forall i, j :: 0 <= i < j < |proofs| ==> proofs[i].key < proofs[j].key
  }

  /** The proofs of a set in ascending key order: what `into_sorted_values` yields. */
  ghost predicate Lists(proofs: seq<Proof>, m: ProofSet) {
    && Ascending(proofs)
    && (forall i :: 0 <= i < |proofs| ==> proofs[i].key in m && m[proofs[i].key] == proofs[i])
    && (forall k :: k in m ==> Has(proofs, k))
  }

  lemma TailAbove(sorted: seq<Proof>)
    requires Ascending(sorted) && sorted != []
    ensures sorted[0] in sorted && Ascending(sorted[1..])
    ensures forall p :: p in sorted[1..] ==> p in sorted && sorted[0].key < p.key
  {
  }

  function InsertedByKey(sorted: seq<Proof>, proof: Proof): (r: seq<Proof>)
    requires Ascending(sorted) && forall p :: p in sorted ==> p.key != proof.key
    ensures Ascending(r)
    ensures forall p :: p in r <==> p == proof || p in sorted
  {
    if sorted == [] then [proof]
    else if proof.key < sorted[0].key then [proof] + sorted
    else
      TailAbove(sorted);
      var rest := InsertedByKey(sorted[1..], proof);
      assert forall i :: 0 <= i < |rest| ==> rest[i] in rest && sorted[0].key < rest[i].key;
      [sorted[0]] + rest
  }

  function SortedByKey(entries: seq<Proof>): (r: seq<Proof>)
    requires DistinctKeys(entries)
    ensures Ascending(r)
    ensures forall p :: p in r <==> p in entries
  {
    if entries == [] then []
    else
      assert forall p :: p in entries[1..] ==> p.key != entries[0].key;
      InsertedByKey(SortedByKey(entries[1..]), entries[0])
  }

  lemma SortedLists(entries: seq<Proof>, m: ProofSet)
    requires Mirrors(entries, m)
    ensures Lists(SortedByKey(entries), m)
  {
    var r := SortedByKey(entries);
    forall i | 0 <= i < |r|
      ensures r[i].key in m && m[r[i].key] == r[i]
    {
      assert r[i] in entries;
    }
    forall k | k in m
      ensures Has(r, k)
    {
      assert Has(entries, k);
      var i :| 0 <= i < |entries| && entries[i].key == k;
      assert entries[i] in r;
    }
  }

  /** Exactly one sequence lists a proof set, so the admission order is the key order. */
  lemma ListsUnique(a: seq<Proof>, b: seq<Proof>, m: ProofSet)
    requires Lists(a, m) && Lists(b, m)
    ensures a == b
  {
    ListedWithin(a, b, m);
    ListedWithin(b, a, m);
    AscendingDetermined(a, b);
  }

  lemma ListedWithin(a: seq<Proof>, b: seq<Proof>, m: ProofSet)
    requires Lists(a, m) && Lists(b, m)
    ensures forall p :: p in a ==> p in b
  {
  }

  lemma {:induction false} AscendingDetermined(a: seq<Proof>, b: seq<Proof>)
    requires Ascending(a) && Ascending(b)
    requires forall p :: p in a <==> p in b
    ensures a == b
  {
    if |b| > 0 {
      assert b[0] in b;
      assert |a| > 0;
    }
    if |a| > 0 {
      assert a[0] in b && b[0] in a;
      assert a[0] == b[0];
      forall p | p in a[1..]
        ensures p in b[1..]
      {
        assert p in b && p != b[0];
      }
      forall p | p in b[1..]
        ensures p in a[1..]
      {
        assert p in a && p != a[0];
      }
      AscendingDetermined(a[1..], b[1..]);
    }
  }

  class GenerationProofMap {
    const hash: Key -> nat
    var index: Buckets
    var entries: seq<Proof>
    /** The plain map this structure stands for. */
    ghost var model: ProofSet

    ghost predicate Valid()
      reads this
    {
      Mirrors(entries, model) && Hashed(index, entries, hash) && |entries| <= MAX_PROOFS
    }

    constructor (hash: Key -> nat)
      ensures Valid() && model == map[] && this.hash == hash
    {
      this.hash := hash;
      index, entries, model := map[], [], map[];
    }

    method Len() returns (n: nat)
      requires Valid()
      ensures n == |model|
    {
      n := |entries|;
    }

    /** `HashTable::find`: the first ordinal of the key's bucket whose proof has that key. */
    method Find(key: Key) returns (ordinal: Option<nat>)
      requires Valid()
      ensures ordinal.None? <==> key !in model
      ensures ordinal.Some? ==> ordinal.value < |entries| && entries[ordinal.value].key == key
    {
      hide Mirrors;
      var bucket := Bucket(index, hash(key));
      var i := 0;
      while i < |bucket|
        invariant i <= |bucket|
        invariant forall j :: 0 <= j < i ==> bucket[j] < |entries| && entries[bucket[j]].key != key
      {
        assert Listed(index, hash(key), bucket[i]);
        if entries[bucket[i]].key == key {
          KnownIffHeld(entries, model, key);
          assert Has(entries, key);
          return Some(bucket[i]);
        }
        i := i + 1;
      }
      KnownIffHeld(entries, model, key);
      assert forall o: nat :: Listed(index, hash(key), o) ==> entries[o].key != key;
      MissedByBucket(index, entries, hash, key);
      return None;
    }

    method Get(key: Key) returns (proof: Option<Proof>)
      requires Valid()
      ensures proof == if key in model then Some(model[key]) else None
    {
      var ordinal := Find(key);
      if ordinal.None? {
        return None;
      }
      return Some(entries[ordinal.value]);
    }

    /** `into_sorted_values`: the arena's proofs in the order the old B-tree had. */
    method IntoSortedValues() returns (values: seq<Proof>)
      requires Valid()
      ensures Lists(values, model)
    {
      values := SortedByKey(entries);
      SortedLists(entries, model);
    }

    /** Inserts a proof only under a key that is still unknown. */
    method InsertMissing(proof: Proof)
      requires Valid()
      requires proof.key in model || |model| < MAX_PROOFS
      modifies this`index, this`entries, this`model
      ensures Valid()
      ensures model == if proof.key in old(model) then old(model) else old(model)[proof.key := proof]
    {
      hide Hashed, Mirrors;
      var known := Find(proof.key);
      if known.None? {
        var _ := Insert(proof);
      }
    }

    /**
      The new location is stored under its key and every other key keeps its proof; an
      entry recorded as an exact reuse stays one. The source asserts that a new key finds
      the arena below its bound.
     */
    method Insert(proof: Proof) returns (previous: Option<Proof>)
      requires Valid()
      requires proof.key in model || |model| < MAX_PROOFS
      modifies this`index, this`entries, this`model
      ensures Valid()
      ensures model == Put(old(model), proof)
      ensures Stores(old(model), model, proof)
      ensures previous == if proof.key in old(model) then Some(old(model)[proof.key]) else None
    {
      hide Hashed;
      PutStores(model, proof);
      hide Stores;
      var ordinal := Find(proof.key);
      if ordinal.Some? {
        var o := ordinal.value;
        previous := Some(entries[o]);
        var kept := if entries[o].admission == ExactReuse then proof.(admission := ExactReuse) else proof;
        ReplaceMirrors(entries, model, o, kept);
        ReplaceHashed(index, entries, o, kept, hash);
        model := Put(model, proof);
        entries := entries[o := kept];
      } else {
        AppendMirrors(entries, model, proof);
        AppendHashed(index, entries, proof, hash);
        var h := hash(proof.key);
        index := index[h := Bucket(index, h) + [|entries|]];
        entries := entries + [proof];
        model := Put(model, proof);
        previous := None;
      }
    }
  }
}
