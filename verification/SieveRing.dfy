/**
  The SIEVE policy as a value: the residents from the newest (position 0) to the
  oldest, each with its visited bit, and the key under the hand.
 */
module SieveRing {
  import opened Basics
  import opened CachePolicy

  datatype Resident<K> = Resident(key: K, visited: bool)

  datatype Ring<K> = Ring(capacity: nat, entries: seq<Resident<K>>, hand: Option<K>)

  predicate Has<K(==)>(entries: seq<Resident<K>>, key: K) {
    exists i :: 0 <= i < |entries| && entries[i].key == key
  }

  function PositionOf<K(==)>(entries: seq<Resident<K>>, key: K): (p: nat)
    requires Has(entries, key)
    ensures p < |entries| && entries[p].key == key
  {
    if entries[0].key == key then 0 else 1 + PositionOf(entries[1..], key)
  }

  ghost predicate DistinctKeys<K>(entries: seq<Resident<K>>) {
    forall i, j :: 0 <= i < j < |entries| ==> entries[i].key != entries[j].key
  }

  ghost predicate Valid<K>(r: Ring<K>) {
    && 1 <= r.capacity && |r.entries| <= r.capacity
    && DistinctKeys(r.entries)
    && (r.hand.Some? ==> Has(r.entries, r.hand.value))
  }

  // ---- the hand's walk ----

  /** One step of the walk: towards newer entries, wrapping to the oldest. */
  function Before(n: nat, p: nat): (q: nat)
    requires p < n
    ensures q < n
  {
    if p == 0 then n - 1 else p - 1
  }

  datatype Walk<K> = Walk(entries: seq<Resident<K>>, found: Option<nat>, steps: nat)

  /** Clears visited bits from position `p` on until an unvisited entry or the budget runs out. */
  function Scan<K>(entries: seq<Resident<K>>, p: nat, budget: nat): (w: Walk<K>)
    requires p < |entries|
    ensures |w.entries| == |entries| && w.steps <= budget
    ensures w.found.Some? ==> w.found.value < |entries| && w.steps >= 1
    ensures w.found.None? ==> w.steps == budget
    decreases budget
  {
    if budget == 0 then Walk(entries, None, 0)
    else if entries[p].visited then
      var w := Scan(entries[p := entries[p].(visited := false)], Before(|entries|, p), budget - 1);
      w.(steps := w.steps + 1)
    else Walk(entries, Some(p), 1)
  }

  function HandPosition<K(==)>(r: Ring<K>): (p: nat)
    requires r.entries != []
    ensures p < |r.entries|
  {
    if r.hand.Some? && Has(r.entries, r.hand.value) then PositionOf(r.entries, r.hand.value)
    else |r.entries| - 1
  }

  function StepLimit(capacity: nat): nat {
    Min(capacity, MAX_EVICTION_STEPS)
  }

  // ---- the two operations ----

  function Access<K(==)>(r: Ring<K>, key: K): (after: Ring<K>) {
    if Has(r.entries, key)
    then
      var p := PositionOf(r.entries, key);
      r.(entries := r.entries[p := Resident(key, true)])
    else r
  }

  function Push<K>(r: Ring<K>, key: K): (after: Ring<K>) {
    r.(entries := [Resident(key, false)] + r.entries)
  }

  datatype Admitted<K> = Admitted(ring: Ring<K>, outcome: Outcome)

  /** The walk of the hand: the victim it finds leaves, or nobody does. */
  function MadeRoom<K(==)>(r: Ring<K>): (a: Admitted<K>)
    requires r.entries != []
  {
    var w := Scan(r.entries, HandPosition(r), StepLimit(r.capacity));
    if w.found.None? then Admitted(r.(entries := w.entries), Outcome(0, w.steps, true))
    else
      var p := w.found.value;
      var hand := if p == 0 then None else Some(w.entries[p - 1].key);
      Admitted(Ring(r.capacity, Without(w.entries, p), hand), Outcome(1, w.steps, false))
  }

  function Admit<K(==)>(r: Ring<K>, key: K): (a: Admitted<K>)
    requires r.entries == [] ==> r.capacity > 0
  {
    if Has(r.entries, key) then Admitted(r, UNCHANGED)
    else if |r.entries| == r.capacity then
      var room := MadeRoom(r);
      if room.outcome.rejected then room else Admitted(Push(room.ring, key), room.outcome)
    else Admitted(Push(r, key), UNCHANGED)
  }

  // ---- what the walk finds ----

  /** The position `d` steps along the walk from `start`, for at most one full turn. */
  function Along(n: nat, start: nat, d: nat): (p: nat)
    requires start < n && d <= n
    ensures d < n ==> p < n
  {
    if d <= start then start - d else start + n - d
  }

  /** The first `d` positions of the walk from `start`. */
  predicate Passed(n: nat, start: nat, d: nat, p: nat)
    requires start < n && d <= n
  {
    exists e :: 0 <= e < d && Along(n, start, e) == p
  }

  /** The walk stops at the first unvisited entry and has cleared exactly the entries it passed. */
  ghost predicate WalkSpec<K>(entries: seq<Resident<K>>, start: nat, budget: nat, w: Walk<K>)
    requires start < |entries| && budget <= |entries|
  {
    var n := |entries|;
    var passed := if w.found.Some? then w.steps - 1 else w.steps;
    && |w.entries| == n
    && 0 <= passed <= budget
    && (forall e :: 0 <= e < passed ==> entries[Along(n, start, e)].visited)
    && (if w.found.Some?
        then passed < budget && w.found.value == Along(n, start, passed) && !entries[w.found.value].visited
        else passed == budget)
    && (forall i :: 0 <= i < n ==>
          w.entries[i] == entries[i].(visited := entries[i].visited && !Passed(n, start, passed, i)))
  }

  lemma PassedNext(n: nat, start: nat, d: nat, p: nat)
    requires start < n && d < n && p < n
    ensures Passed(n, start, d + 1, p) <==> p == start || Passed(n, Before(n, start), d, p)
  {
    if p == start {
      assert Along(n, start, 0) == p;
    }
    forall e | 0 <= e < d
      ensures Along(n, Before(n, start), e) == Along(n, start, e + 1)
    {
    }
    if Passed(n, Before(n, start), d, p) {
      var e :| 0 <= e < d && Along(n, Before(n, start), e) == p;
      assert Along(n, start, e + 1) == p;
    }
    if Passed(n, start, d + 1, p) && p != start {
      var e :| 0 <= e < d + 1 && Along(n, start, e) == p;
      assert Along(n, Before(n, start), e - 1) == p;
    }
  }

  lemma {:induction false} ScanFindsFirstUnvisited<K>(entries: seq<Resident<K>>, start: nat, budget: nat)
    requires start < |entries| && budget <= |entries|
    ensures WalkSpec(entries, start, budget, Scan(entries, start, budget))
    decreases budget
  {
    var n := |entries|;
    if budget > 0 && entries[start].visited {
      var cleared := entries[start := entries[start].(visited := false)];
      var rest := Scan(cleared, Before(n, start), budget - 1);
      ScanFindsFirstUnvisited(cleared, Before(n, start), budget - 1);
      ScanStep(entries, start, budget, rest);
    }
  }

  lemma ScanStep<K>(entries: seq<Resident<K>>, start: nat, budget: nat, rest: Walk<K>)
    requires start < |entries| && 0 < budget <= |entries| && entries[start].visited
    requires var cleared := entries[start := entries[start].(visited := false)];
             WalkSpec(cleared, Before(|entries|, start), budget - 1, rest)
    ensures WalkSpec(entries, start, budget, rest.(steps := rest.steps + 1))
  {
    var n, w := |entries|, rest.(steps := rest.steps + 1);
    var cleared := entries[start := entries[start].(visited := false)];
    var passed := if w.found.Some? then w.steps - 1 else w.steps;
    forall e | 0 <= e < n - 1
      ensures Along(n, Before(n, start), e) == Along(n, start, e + 1) != start
    {
    }
    forall e | 0 <= e < passed
      ensures entries[Along(n, start, e)].visited
    {
      if e > 0 {
        assert cleared[Along(n, Before(n, start), e - 1)].visited;
      }
    }
    forall i | 0 <= i < n
      ensures w.entries[i] == entries[i].(visited := entries[i].visited && !Passed(n, start, passed, i))
    {
      PassedNext(n, start, passed - 1, i);
    }
  }

  /**
    A full cache offered a new key evicts exactly the first unvisited entry in
    the circular order of the hand, and refuses the key exactly when the first
    min(capacity, 256) entries in that order are all visited. A refusal keeps
    every resident in place and only clears their bits; an eviction leaves the hand
    at the victim's newer neighbour.
   */
  lemma AdmitEvictsFirstUnvisited<K>(r: Ring<K>, key: K)
    requires Valid(r) && !Has(r.entries, key) && |r.entries| == r.capacity
    ensures var n, limit := r.capacity, Min(r.capacity, 256);
            var start, a := HandPosition(r), Admit(r, key);
            && (if r.hand.Some? then r.entries[start].key == r.hand.value else start == n - 1)
            && (a.outcome.rejected <==> forall d :: 0 <= d < limit ==> r.entries[Along(n, start, d)].visited)
            && (a.outcome.rejected ==>
                  && a.outcome == Outcome(0, limit, true) && a.ring.hand == r.hand && |a.ring.entries| == n
                  && forall i :: 0 <= i < n ==> a.ring.entries[i].key == r.entries[i].key)
            && (!a.outcome.rejected ==>
                  var d := a.outcome.steps - 1;
                  && 0 <= d < limit && a.outcome.evictions == 1
                  && !r.entries[Along(n, start, d)].visited
                  && (forall e :: 0 <= e < d ==> r.entries[Along(n, start, e)].visited)
                  && a.ring.hand == (if Along(n, start, d) == 0 then None
                                     else Some(r.entries[Along(n, start, d) - 1].key))
                  && a.ring.entries ==
                       [Resident(key, false)] + Without(Scan(r.entries, start, limit).entries, Along(n, start, d)))
  {
    ScanFindsFirstUnvisited(r.entries, HandPosition(r), StepLimit(r.capacity));
  }

  /** With room to spare, or for a resident, nobody is disturbed: a new key arrives unvisited and newest. */
  lemma AdmitWithRoom<K>(r: Ring<K>, key: K)
    requires Valid(r) && (Has(r.entries, key) || |r.entries| < r.capacity)
    ensures var a := Admit(r, key);
            && a.outcome == Outcome(0, 0, false) && a.ring.hand == r.hand
            && a.ring.entries == if Has(r.entries, key) then r.entries else [Resident(key, false)] + r.entries
  {
  }

  // ---- what every operation keeps ----

  /** A lookup marks the entry it finds and leaves everything else alone, the hand included. */
  lemma AccessMarks<K>(r: Ring<K>, key: K)
    requires Valid(r)
    ensures var after := Access(r, key);
            && after.capacity == r.capacity && after.hand == r.hand && |after.entries| == |r.entries|
            && forall i :: 0 <= i < |r.entries| ==>
                 after.entries[i] == if r.entries[i].key == key then Resident(key, true) else r.entries[i]
  {
    if Has(r.entries, key) {
      var p := PositionOf(r.entries, key);
      assert forall i :: 0 <= i < |r.entries| && r.entries[i].key == key ==> i == p;
    }
  }

  /** A key just looked up is never the victim of the next admission. */
  lemma LookupProtects<K>(r: Ring<K>, key: K, other: K)
    requires Valid(r)
    ensures Victim(Access(r, key), other) != Some(key)
    ensures Has(r.entries, key) ==> Has(Admit(Access(r, key), other).ring.entries, key)
  {
    AccessKeeps(r, key);
    AccessMarks(r, key);
    var after := Access(r, key);
    AdmitKeeps(after, other);
    if Admit(after, other).outcome.evictions > 0 {
      ScanFindsFirstUnvisited(after.entries, HandPosition(after), StepLimit(after.capacity));
    }
  }

  lemma AccessKeeps<K>(r: Ring<K>, key: K)
    requires Valid(r)
    ensures Valid(Access(r, key))
    ensures forall k :: Has(Access(r, key).entries, k) <==> Has(r.entries, k)
  {
    var after := Access(r, key);
    assert |after.entries| == |r.entries|;
    forall i | 0 <= i < |r.entries|
      ensures after.entries[i].key == r.entries[i].key
    {
    }
    SameKeys(r.entries, after.entries);
  }

  lemma SameKeys<K>(a: seq<Resident<K>>, b: seq<Resident<K>>)
    requires |a| == |b| && forall i :: 0 <= i < |a| ==> a[i].key == b[i].key
    ensures forall k :: Has(a, k) <==> Has(b, k)
    ensures DistinctKeys(a) ==> DistinctKeys(b)
  {
  }

  lemma WithoutKeys<K>(entries: seq<Resident<K>>, p: nat)
    requires DistinctKeys(entries) && p < |entries|
    ensures DistinctKeys(Without(entries, p))
    ensures forall k :: Has(Without(entries, p), k) <==> Has(entries, k) && k != entries[p].key
  {
    var rest := Without(entries, p);
    forall k
      ensures Has(rest, k) <==> Has(entries, k) && k != entries[p].key
    {
      if Has(entries, k) && k != entries[p].key {
        var i :| 0 <= i < |entries| && entries[i].key == k;
        assert rest[if i < p then i else i - 1].key == k;
      }
      if Has(rest, k) {
        var i :| 0 <= i < |rest| && rest[i].key == k;
        assert entries[if i < p then i else i + 1].key == k;
      }
    }
  }

  lemma PushKeys<K>(r: Ring<K>, key: K)
    requires DistinctKeys(r.entries) && !Has(r.entries, key)
    ensures DistinctKeys(Push(r, key).entries)
    ensures forall k :: Has(Push(r, key).entries, k) <==> k == key || Has(r.entries, k)
  {
    var after := Push(r, key).entries;
    assert after[0].key == key;
    forall k | Has(r.entries, k)
      ensures Has(after, k)
    {
      var i :| 0 <= i < |r.entries| && r.entries[i].key == k;
      assert after[i + 1].key == k;
    }
  }

  /** The key evicted by an admission, when there is one. */
  function Victim<K(==)>(r: Ring<K>, key: K): (v: Option<K>)
    requires r.entries == [] ==> r.capacity > 0
  {
    if Admit(r, key).outcome.evictions == 0 then None
    else Some(r.entries[Scan(r.entries, HandPosition(r), StepLimit(r.capacity)).found.value].key)
  }

  /** An admission keeps the ring well formed and changes residency by at most the new key and one victim. */
  lemma AdmitKeeps<K>(r: Ring<K>, key: K)
    requires Valid(r)
    ensures Valid(Admit(r, key).ring) && Admit(r, key).ring.capacity == r.capacity
    ensures var a := Admit(r, key);
            |a.ring.entries| == |r.entries| - a.outcome.evictions
                                + if Has(r.entries, key) || a.outcome.rejected then 0 else 1
    ensures var a := Admit(r, key);
            forall k :: Has(a.ring.entries, k) <==>
              || (Has(r.entries, k) && Victim(r, key) != Some(k))
              || (k == key && !a.outcome.rejected)
  {
    if Has(r.entries, key) {
    } else if |r.entries| == r.capacity {
      AdmitFullKeeps(r, key);
    } else {
      PushKeys(r, key);
    }
  }

  lemma AdmitFullKeeps<K>(r: Ring<K>, key: K)
    requires Valid(r) && !Has(r.entries, key) && |r.entries| == r.capacity
    ensures Valid(Admit(r, key).ring)
    ensures var a := Admit(r, key);
            |a.ring.entries| == |r.entries| - a.outcome.evictions + if a.outcome.rejected then 0 else 1
    ensures var a := Admit(r, key);
            forall k :: Has(a.ring.entries, k) <==>
              || (Has(r.entries, k) && Victim(r, key) != Some(k))
              || (k == key && !a.outcome.rejected)
  {
    var w := Scan(r.entries, HandPosition(r), StepLimit(r.capacity));
    ScanFindsFirstUnvisited(r.entries, HandPosition(r), StepLimit(r.capacity));
    SameKeys(r.entries, w.entries);
    if w.found.Some? {
      var p := w.found.value;
      WithoutKeys(w.entries, p);
      var hand := if p == 0 then None else Some(w.entries[p - 1].key);
      if p > 0 {
        assert Without(w.entries, p)[p - 1].key == w.entries[p - 1].key;
      }
      PushKeys(Ring(r.capacity, Without(w.entries, p), hand), key);
    }
  }

  /** The eviction frees exactly one place, and a key that was not resident stays out. */
  lemma MadeRoomKeeps<K>(r: Ring<K>, key: K)
    requires Valid(r) && !Has(r.entries, key) && |r.entries| == r.capacity
    ensures var room := MadeRoom(r);
            !room.outcome.rejected ==> !Has(room.ring.entries, key) && |room.ring.entries| == r.capacity - 1
  {
    var w := Scan(r.entries, HandPosition(r), StepLimit(r.capacity));
    ScanFindsFirstUnvisited(r.entries, HandPosition(r), StepLimit(r.capacity));
    SameKeys(r.entries, w.entries);
    if w.found.Some? {
      WithoutKeys(w.entries, w.found.value);
    }
  }
}
