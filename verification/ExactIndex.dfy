/**
  The Exact index as its appends see it: each physical Location has one current
  transition, and a later append overrides an earlier one.
 */
module ExactIndex {

  datatype Transition = Active | Retiring | Quarantined | Removed

  /**
    One index entry. `key` stands for the ordered fields a batch is sorted by,
    `detail` for the remaining fields of the Location's identity.
   */
  datatype Entry = Entry(key: nat, detail: nat, transition: Transition) {
    function Location(): (nat, nat) {
      (key, detail)
    }
  }

  type Index = map<(nat, nat), Transition>

  function Apply(index: Index, entries: seq<Entry>): (after: Index) {
    if entries == [] then index
    else
      var e := entries[|entries| - 1];
      Apply(index, entries[..|entries| - 1])[e.Location() := e.transition]
  }

  predicate AllActive(entries: seq<Entry>) {
    forall e :: e in entries ==> e.transition == Active
  }

  lemma {:induction false} ApplyJoined(index: Index, a: seq<Entry>, b: seq<Entry>)
    ensures Apply(index, a + b) == Apply(Apply(index, a), b)
  {
    if b == [] {
      assert a + b == a;
    } else {
      ApplyJoined(index, a, b[..|b| - 1]);
      assert (a + b)[..|a + b| - 1] == a + b[..|b| - 1];
    }
  }

  ghost predicate Names(entries: seq<Entry>, location: (nat, nat)) {
    exists e :: e in entries && e.Location() == location
  }

  /** Appending ACTIVE entries inserts their Locations into a set; order and repetition do not matter. */
  lemma {:induction false} ActiveIsSetInsertion(index: Index, entries: seq<Entry>, location: (nat, nat))
    requires AllActive(entries)
    ensures var after := Apply(index, entries);
            && (location in after <==> location in index || Names(entries, location))
            && (Names(entries, location) ==> after[location] == Active)
            && (!Names(entries, location) && location in index ==> after[location] == index[location])
  {
    if entries != [] {
      var before, last := entries[..|entries| - 1], entries[|entries| - 1];
      ActiveIsSetInsertion(index, before, location);
      assert last in entries && forall e :: e in before ==> e in entries;
      if Names(entries, location) && last.Location() != location {
        var e :| e in entries && e.Location() == location;
        assert e in before;
      }
    }
  }

  lemma SameActiveSet(index: Index, a: seq<Entry>, b: seq<Entry>)
    requires AllActive(a) && (forall e :: e in a <==> e in b)
    ensures AllActive(b) && Apply(index, a) == Apply(index, b)
  {
    hide Apply;
    forall location: (nat, nat)
      ensures location in Apply(index, a) <==> location in Apply(index, b)
      ensures location in Apply(index, a) ==> Apply(index, a)[location] == Apply(index, b)[location]
    {
      ActiveIsSetInsertion(index, a, location);
      ActiveIsSetInsertion(index, b, location);
      assert Names(a, location) == Names(b, location);
    }
  }

  // ---- sorting a batch and dropping repeated entries ----

  function Insert(sorted: seq<Entry>, e: Entry): (after: seq<Entry>) {
    if sorted == [] || sorted[0].key > e.key then [e] + sorted
    else [sorted[0]] + Insert(sorted[1..], e)
  }

  function Sorted(entries: seq<Entry>): (s: seq<Entry>) {
    if entries == [] then [] else Insert(Sorted(entries[..|entries| - 1]), entries[|entries| - 1])
  }

  /** `Vec::dedup`: drops an entry equal to its predecessor. */
  function Dedup(entries: seq<Entry>): (d: seq<Entry>)
    ensures |d| <= |entries|
  {
    if |entries| < 2 then entries
    else if entries[0] == entries[1] then Dedup(entries[1..])
    else [entries[0]] + Dedup(entries[1..])
  }

  ghost predicate Ascending(entries: seq<Entry>) {
    forall i, j :: 0 <= i < j < |entries| ==> entries[i].key <= entries[j].key
  }

  lemma {:induction false} InsertKeeps(sorted: seq<Entry>, e: Entry)
    requires Ascending(sorted)
    ensures Ascending(Insert(sorted, e)) && |Insert(sorted, e)| == |sorted| + 1
    ensures forall x :: x in Insert(sorted, e) <==> x in sorted || x == e
  {
    if !(sorted == [] || sorted[0].key > e.key) {
      InsertKeeps(sorted[1..], e);
      var rest := Insert(sorted[1..], e);
      assert sorted == [sorted[0]] + sorted[1..];
      forall i | 0 <= i < |rest|
        ensures sorted[0].key <= rest[i].key
      {
        assert rest[i] in rest;
      }
    }
  }

  lemma {:induction false} SortedKeeps(entries: seq<Entry>)
    ensures Ascending(Sorted(entries)) && |Sorted(entries)| == |entries|
    ensures forall x :: x in Sorted(entries) <==> x in entries
  {
    if entries != [] {
      SortedKeeps(entries[..|entries| - 1]);
      InsertKeeps(Sorted(entries[..|entries| - 1]), entries[|entries| - 1]);
      assert entries == entries[..|entries| - 1] + [entries[|entries| - 1]];
    }
  }

  lemma {:induction false} DedupKeeps(entries: seq<Entry>)
    ensures forall x :: x in Dedup(entries) <==> x in entries
    ensures entries != [] ==> Dedup(entries) != [] && Dedup(entries)[0] == entries[0]
    ensures Ascending(entries) ==> Ascending(Dedup(entries))
  {
    if |entries| >= 2 {
      DedupKeeps(entries[1..]);
      var rest := Dedup(entries[1..]);
      assert entries == [entries[0]] + entries[1..];
      if Ascending(entries) {
        forall i | 0 <= i < |rest|
          ensures entries[0].key <= rest[i].key
        {
          assert rest[i] in rest;
        }
      }
    }
  }

  /** No two entries agree on the sorted fields and differ otherwise. */
  ghost predicate KeysIdentify(entries: seq<Entry>) {
    forall a, b :: a in entries && b in entries && a.key == b.key ==> a == b
  }

  /** Every Location is named once. */
  ghost predicate Strict(entries: seq<Entry>) {
    forall i, j :: 0 <= i < j < |entries| ==> entries[i].key < entries[j].key
  }

  lemma HeadIsLeast(entries: seq<Entry>, rest: seq<Entry>)
    requires Ascending(entries) && |entries| >= 2 && entries[0].key < entries[1].key
    requires forall x :: x in rest ==> x in entries[1..]
    ensures forall i :: 0 <= i < |rest| ==> entries[0].key < rest[i].key
  {
    forall i | 0 <= i < |rest|
      ensures entries[0].key < rest[i].key
    {
      assert rest[i] in entries[1..];
      var k :| 1 <= k < |entries| && entries[k] == rest[i];
      assert k == 1 || entries[1].key <= entries[k].key;
    }
  }

  /** The combined batch names every Location once, which an append requires. */
  lemma {:induction false} DedupIsStrict(entries: seq<Entry>)
    requires Ascending(entries) && KeysIdentify(entries)
    ensures Strict(Dedup(entries))
  {
    if |entries| >= 2 {
      var tail := entries[1..];
      assert entries[0] in entries && entries[1] in entries;
      TailKeeps(entries);
      hide KeysIdentify, Ascending;
      DedupIsStrict(tail);
      DedupKeeps(tail);
      if entries[0] != entries[1] {
        HeadIsLeast(entries, Dedup(tail));
      }
    }
  }

  lemma TailKeeps(entries: seq<Entry>)
    requires Ascending(entries) && KeysIdentify(entries) && |entries| >= 2
    ensures Ascending(entries[1..]) && KeysIdentify(entries[1..])
    ensures entries[0] != entries[1] ==> entries[0].key < entries[1].key
  {
  }

  /** No entry equals its neighbour. */
  ghost predicate NeighboursDiffer(entries: seq<Entry>) {
    forall i :: 0 < i < |entries| ==> entries[i - 1] != entries[i]
  }

  lemma {:induction false} DedupSeparates(entries: seq<Entry>)
    ensures NeighboursDiffer(Dedup(entries))
  {
    if |entries| >= 2 {
      DedupSeparates(entries[1..]);
      DedupKeeps(entries[1..]);
    }
  }

  /** A sorted batch names every key once exactly when its keys identify its entries. */
  lemma StrictIffKeysIdentify(entries: seq<Entry>)
    requires Ascending(entries) && NeighboursDiffer(entries)
    ensures Strict(entries) <==> KeysIdentify(entries)
  {
    if KeysIdentify(entries) {
      forall i, j | 0 <= i < j < |entries|
        ensures entries[i].key < entries[j].key
      {
        assert entries[i].key <= entries[i + 1].key <= entries[j].key;
        assert entries[i + 1 - 1] != entries[i + 1];
        assert entries[i] in entries && entries[i + 1] in entries;
      }
    }
  }

  /** Without that a repeated entry can survive: equal keys keep two copies apart. */
  lemma RepeatSurvives(a: Entry, b: Entry)
    requires a.key == b.key && a != b
    ensures Canonical([a, b, a]) == [a, b, a]
  {
    var s := [a, b, a];
    assert s[..2] == [a, b] && [a, b][..1] == [a] && [a][..0] == [];
    assert Sorted([]) == [] && Sorted([a]) == [a];
    assert Insert([a], b) == [a] + Insert([a][1..], b) == [a, b];
    assert Sorted([a, b]) == [a, b];
    assert [a, b][1..] == [b] && [b][1..] == [];
    assert Insert([b], a) == [b, a] && Insert([a, b], a) == [a, b, a];
    assert s[1..] == [b, a] && [b, a][1..] == [a];
    assert Dedup([a]) == [a] && Dedup([b, a]) == [b, a];
  }

  function Canonical(entries: seq<Entry>): (c: seq<Entry>)
    ensures |c| <= |entries|
  {
    SortedKeeps(entries);
    Dedup(Sorted(entries))
  }

  /** A combined batch of additions is the same update as its commands one after another. */
  lemma CanonicalSameUpdate(index: Index, entries: seq<Entry>)
    requires AllActive(entries)
    ensures Apply(index, Canonical(entries)) == Apply(index, entries)
    ensures entries != [] ==> Canonical(entries) != []
    ensures KeysIdentify(entries) ==> Strict(Canonical(entries))
    ensures Ascending(Canonical(entries)) && NeighboursDiffer(Canonical(entries))
    ensures forall e :: e in Canonical(entries) <==> e in entries
  {
    SortedKeeps(entries);
    DedupKeeps(Sorted(entries));
    DedupSeparates(Sorted(entries));
    SameActiveSet(index, entries, Canonical(entries));
    if KeysIdentify(entries) {
      DedupIsStrict(Sorted(entries));
    }
  }
}
