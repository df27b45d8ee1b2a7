/**
  The S3-FIFO policy as a value: a small probationary queue, a main queue, and
  the keys recently evicted from the small queue.
 */
module S3Queues {
  import opened Basics
  import opened CachePolicy

  datatype Place = Small | Main

  datatype Entry = Entry(place: Place, frequency: nat)

  datatype Queues<K> = Queues(
    capacity: nat,
    entries: map<K, Entry>,
    small: seq<K>,
    main: seq<K>,
    evicted: seq<K>)

  function SmallTarget(capacity: nat): (n: nat)
    ensures n >= 1 && (capacity >= 1 ==> n <= capacity)
  {
    if capacity / 10 > 1 then capacity / 10 else 1
  }

  function GhostTarget(capacity: nat): (n: nat)
    ensures n >= 1
  {
    if capacity > SmallTarget(capacity) then capacity - SmallTarget(capacity) else 1
  }

  function StepLimit(capacity: nat): nat {
    Min(4 * capacity, MAX_EVICTION_STEPS)
  }

  function Empty<K>(capacity: nat): (q: Queues<K>) {
    Queues(capacity, map[], [], [], [])
  }

  /** Small and main partition the residents, tags and frequencies are in range, and ghosts are elsewhere. */
  ghost predicate Valid<K>(q: Queues<K>) {
    && 1 <= q.capacity
    && Distinct(q.small + q.main)
    && (forall k :: k in q.entries ==> k in q.small || k in q.main)
    && (forall k :: k in q.small ==> k in q.entries && q.entries[k].place == Small)
    && (forall k :: k in q.main ==> k in q.entries && q.entries[k].place == Main)
    && (forall k :: k in q.entries ==> q.entries[k].frequency <= 3)
    && |q.entries| == |q.small| + |q.main| <= q.capacity
    && Distinct(q.evicted) && |q.evicted| <= GhostTarget(q.capacity)
    && (forall k :: k in q.evicted ==> k !in q.entries)
  }

  // ---- one eviction step ----

  /** The source's `pop_front` and `get_mut` both succeed. */
  ghost predicate CanEvict<K>(q: Queues<K>) {
    if |q.small| >= SmallTarget(q.capacity) then q.small != [] && q.small[0] in q.entries
    else q.main != [] && q.main[0] in q.entries
  }

  function Trim<K>(keys: seq<K>, target: nat): (kept: seq<K>)
    ensures |kept| == Min(|keys|, target)
  {
    if |keys| > target then keys[|keys| - target..] else keys
  }

  /** Whether the next step evicts, rather than promoting or demoting. */
  predicate Evicts<K(==)>(q: Queues<K>)
    requires CanEvict(q)
  {
    if |q.small| >= SmallTarget(q.capacity) then q.entries[q.small[0]].frequency <= 1
    else q.entries[q.main[0]].frequency == 0
  }

  function EvictOne<K(==)>(q: Queues<K>): (after: Queues<K>)
    requires CanEvict(q)
  {
    if |q.small| >= SmallTarget(q.capacity) then
      var key := q.small[0];
      if q.entries[key].frequency > 1 then
        q.(entries := q.entries[key := Entry(Main, 0)], small := q.small[1..], main := q.main + [key])
      else
        q.(entries := q.entries - {key}, small := q.small[1..],
           evicted := Trim(q.evicted + [key], GhostTarget(q.capacity)))
    else
      var key := q.main[0];
      if q.entries[key].frequency > 0 then
        q.(entries := q.entries[key := Entry(q.entries[key].place, q.entries[key].frequency - 1)],
           main := q.main[1..] + [key])
      else
        q.(entries := q.entries - {key}, main := q.main[1..])
  }

  lemma FullCanEvict<K>(q: Queues<K>)
    requires Valid(q) && |q.entries| >= q.capacity
    ensures CanEvict(q)
  {
  }

  /** A step keeps the queues in order; only an evicting one changes who is resident. */
  lemma EvictOneKeeps<K>(q: Queues<K>)
    requires Valid(q) && CanEvict(q)
    ensures Valid(EvictOne(q)) && EvictOne(q).capacity == q.capacity
    ensures !Evicts(q) ==> EvictOne(q).entries.Keys == q.entries.Keys && EvictOne(q).evicted == q.evicted
    ensures Evicts(q) ==> exists k :: k in q.entries && EvictOne(q).entries == q.entries - {k}
    ensures |EvictOne(q).entries| == |q.entries| - if Evicts(q) then 1 else 0
  {
    if |q.small| >= SmallTarget(q.capacity) {
      if q.entries[q.small[0]].frequency > 1 { PromoteKeeps(q); } else { EvictSmallKeeps(q); }
    } else {
      if q.entries[q.main[0]].frequency > 0 { DemoteKeeps(q); } else { EvictMainKeeps(q); }
    }
  }

  lemma PromoteKeeps<K>(q: Queues<K>)
    requires Valid(q) && CanEvict(q) && |q.small| >= SmallTarget(q.capacity) && q.entries[q.small[0]].frequency > 1
    ensures Valid(EvictOne(q)) && EvictOne(q).entries.Keys == q.entries.Keys
    ensures |EvictOne(q).entries| == |q.entries|
  {
    var key, after := q.small[0], EvictOne(q);
    assert q.small == [key] + after.small;
    assert after.entries.Keys == q.entries.Keys;
    Rotated(key, after.small, q.main);
  }

  /** Moving the front key of the first queue to the back of the second loses nothing. */
  lemma Rotated<K>(key: K, rest: seq<K>, other: seq<K>)
    requires Distinct([key] + rest + other)
    ensures Distinct(rest + (other + [key])) && key !in rest && key !in other
  {
    var before, after := [key] + rest + other, rest + (other + [key]);
    assert before[0] == key;
    forall i | 0 <= i < |after|
      ensures after[i] == before[if i == |after| - 1 then 0 else i + 1]
    {
    }
    forall i | 0 <= i < |after| - 1
      ensures after[i] != key
    {
      assert before[i + 1] != before[0];
    }
    assert forall i :: 0 <= i < |rest| ==> rest[i] == after[i];
    assert forall i :: 0 <= i < |other| ==> other[i] == after[|rest| + i];
  }

  lemma EvictSmallKeeps<K>(q: Queues<K>)
    requires Valid(q) && CanEvict(q) && |q.small| >= SmallTarget(q.capacity) && q.entries[q.small[0]].frequency <= 1
    ensures Valid(EvictOne(q)) && EvictOne(q).entries == q.entries - {q.small[0]}
    ensures |EvictOne(q).entries| == |q.entries| - 1
  {
    var key, after := q.small[0], EvictOne(q);
    assert q.small == [key] + after.small;
    assert q.small + q.main == [key] + (after.small + q.main);
    assert (q.small + q.main)[0] == key;
    Tail(key, after.small + q.main);
    assert after.entries.Keys == q.entries.Keys - {key};
    Noted(q.evicted, key, GhostTarget(q.capacity));
  }

  lemma Tail<K>(key: K, rest: seq<K>)
    requires Distinct([key] + rest)
    ensures Distinct(rest) && key !in rest
  {
    assert ([key] + rest)[0] == key;
    forall i | 0 <= i < |rest|
      ensures ([key] + rest)[i + 1] == rest[i]
    {
    }
  }

  lemma Noted<K>(keys: seq<K>, key: K, target: nat)
    requires Distinct(keys) && key !in keys && target >= 1
    ensures Distinct(Trim(keys + [key], target)) && |Trim(keys + [key], target)| <= target
    ensures forall k :: k in Trim(keys + [key], target) ==> k in keys || k == key
  {
  }

  lemma DemoteKeeps<K>(q: Queues<K>)
    requires Valid(q) && CanEvict(q) && |q.small| < SmallTarget(q.capacity) && q.entries[q.main[0]].frequency > 0
    ensures Valid(EvictOne(q)) && EvictOne(q).entries.Keys == q.entries.Keys
    ensures |EvictOne(q).entries| == |q.entries|
  {
    var key, after := q.main[0], EvictOne(q);
    var rest := q.main[1..];
    assert q.main == [key] + rest;
    assert after.entries.Keys == q.entries.Keys;
    Cycled(q.small, key, rest);
  }

  lemma Cycled<K>(front: seq<K>, key: K, rest: seq<K>)
    requires Distinct(front + ([key] + rest))
    ensures Distinct(front + (rest + [key])) && key !in front && key !in rest
  {
    var before, after := front + ([key] + rest), front + (rest + [key]);
    assert before[|front|] == key;
    forall i | 0 <= i < |after|
      ensures after[i] == before[if i < |front| then i else if i == |after| - 1 then |front| else i + 1]
    {
    }
    forall i | 0 <= i < |front|
      ensures front[i] != key
    {
      assert before[i] == front[i];
    }
    forall i | 0 <= i < |rest|
      ensures rest[i] != key
    {
      assert before[|front| + 1 + i] == rest[i];
    }
  }

  lemma EvictMainKeeps<K>(q: Queues<K>)
    requires Valid(q) && CanEvict(q) && |q.small| < SmallTarget(q.capacity) && q.entries[q.main[0]].frequency == 0
    ensures Valid(EvictOne(q)) && EvictOne(q).entries == q.entries - {q.main[0]}
    ensures |EvictOne(q).entries| == |q.entries| - 1
  {
    var key, after := q.main[0], EvictOne(q);
    var rest := q.main[1..];
    assert q.main == [key] + rest;
    Cycled(q.small, key, rest);
    assert q.small + (rest + [key]) == (q.small + rest) + [key];
    assert after.entries.Keys == q.entries.Keys - {key};
    forall i, j | 0 <= i < j < |q.small + rest|
      ensures (q.small + rest)[i] != (q.small + rest)[j]
    {
      assert ((q.small + rest) + [key])[i] == (q.small + rest)[i];
      assert ((q.small + rest) + [key])[j] == (q.small + rest)[j];
    }
  }

  // ---- the potential ----

  ghost function FrequencySum<K>(entries: map<K, Entry>, keys: seq<K>): nat {
    if keys == [] then 0
    else (if keys[0] in entries then entries[keys[0]].frequency else 0) + FrequencySum(entries, keys[1..])
  }

  /** What a step that does not evict uses up. */
  ghost function Potential<K>(q: Queues<K>): nat {
    |q.small| + FrequencySum(q.entries, q.main)
  }

  lemma {:induction false} SumAppend<K>(entries: map<K, Entry>, keys: seq<K>, key: K)
    requires key in entries
    ensures FrequencySum(entries, keys + [key]) == FrequencySum(entries, keys) + entries[key].frequency
  {
    if keys == [] {
      assert keys + [key] == [key];
      assert [key][1..] == [];
    } else {
      assert (keys + [key])[1..] == keys[1..] + [key];
      SumAppend(entries, keys[1..], key);
    }
  }

  lemma {:induction false} SumElsewhere<K>(entries: map<K, Entry>, other: map<K, Entry>, keys: seq<K>)
    requires forall k :: k in keys ==> (k in entries <==> k in other) && (k in entries ==> entries[k] == other[k])
    ensures FrequencySum(entries, keys) == FrequencySum(other, keys)
  {
    if keys != [] {
      SumElsewhere(entries, other, keys[1..]);
    }
  }

  lemma {:induction false} SumBounded<K>(entries: map<K, Entry>, keys: seq<K>)
    requires forall k :: k in keys && k in entries ==> entries[k].frequency <= 3
    ensures FrequencySum(entries, keys) <= 3 * |keys|
  {
    if keys != [] {
      SumBounded(entries, keys[1..]);
    }
  }

  /** Every step that does not evict lowers the potential by exactly one. */
  lemma PotentialDrops<K>(q: Queues<K>)
    requires Valid(q) && CanEvict(q) && !Evicts(q)
    ensures Potential(EvictOne(q)) == Potential(q) - 1
  {
    var after := EvictOne(q);
    if |q.small| >= SmallTarget(q.capacity) {
      var key := q.small[0];
      assert key !in q.main by {
        assert (q.small + q.main)[0] == key;
        forall i | 0 <= i < |q.main|
          ensures q.main[i] != key
        {
          assert (q.small + q.main)[|q.small| + i] == q.main[i];
        }
      }
      SumElsewhere(q.entries, after.entries, q.main);
      SumAppend(after.entries, q.main, key);
    } else {
      var key, rest := q.main[0], q.main[1..];
      assert q.main == [key] + rest;
      Cycled(q.small, key, rest);
      SumElsewhere(q.entries, after.entries, rest);
      SumAppend(after.entries, rest, key);
    }
  }

  lemma PotentialBounded<K>(q: Queues<K>)
    requires Valid(q)
    ensures Potential(q) <= 3 * q.capacity
  {
    SumBounded(q.entries, q.main);
  }

  // ---- admission ----

  datatype Room<K> = Room(queues: Queues<K>, evictions: nat, steps: nat, rejected: bool)

  /** The loop of `admit`: steps until there is room or the budget is spent. */
  function MakeRoom<K(==)>(q: Queues<K>, budget: nat): (r: Room<K>)
    requires Valid(q)
    ensures Valid(r.queues) && r.queues.capacity == q.capacity
    ensures r.rejected ==> r.steps == budget && |r.queues.entries| >= q.capacity
    ensures !r.rejected ==> |r.queues.entries| < q.capacity
    ensures |r.queues.entries| == |q.entries| - r.evictions
    decreases budget
  {
    if |q.entries| < q.capacity then Room(q, 0, 0, false)
    else if budget == 0 then Room(q, 0, 0, true)
    else
      FullCanEvict(q);
      EvictOneKeeps(q);
      var evicts := Evicts(q);
      var r := MakeRoom(EvictOne(q), budget - 1);
      Room(r.queues, r.evictions + if evicts then 1 else 0, r.steps + 1, r.rejected)
  }

  function IndexIn<K(==)>(keys: seq<K>, key: K): (i: nat)
    requires key in keys
    ensures i < |keys| && keys[i] == key
  {
    if keys[0] == key then 0 else 1 + IndexIn(keys[1..], key)
  }

  function Forget<K(==)>(keys: seq<K>, key: K): (rest: seq<K>) {
    if key in keys then var i := IndexIn(keys, key); keys[..i] + keys[i + 1..] else keys
  }

  function Insert<K(==)>(q: Queues<K>, key: K, admission: Admission): (after: Queues<K>) {
    var toMain := admission == ExactReuse || key in q.evicted;
    q.(entries := q.entries[key := Entry(if toMain then Main else Small, 0)],
       small := if toMain then q.small else q.small + [key],
       main := if toMain then q.main + [key] else q.main,
       evicted := Forget(q.evicted, key))
  }

  datatype Admitted<K> = Admitted(queues: Queues<K>, outcome: Outcome)

  function Admit<K(==)>(q: Queues<K>, key: K, admission: Admission): (a: Admitted<K>)
    requires Valid(q)
  {
    if key in q.entries then Admitted(q, UNCHANGED)
    else
      var r := MakeRoom(q, StepLimit(q.capacity));
      if r.rejected then Admitted(r.queues, Outcome(r.evictions, r.steps, true))
      else Admitted(Insert(r.queues, key, admission), Outcome(r.evictions, r.steps, false))
  }

  function Access<K(==)>(q: Queues<K>, key: K): (after: Queues<K>) {
    if key in q.entries
    then q.(entries := q.entries[key := q.entries[key].(frequency := Min(q.entries[key].frequency + 1, 3))])
    else q
  }

  lemma AccessKeeps<K>(q: Queues<K>, key: K)
    requires Valid(q)
    ensures Valid(Access(q, key)) && Access(q, key).entries.Keys == q.entries.Keys
  {
  }

  lemma ForgetKeeps<K>(keys: seq<K>, key: K)
    requires Distinct(keys)
    ensures Distinct(Forget(keys, key)) && key !in Forget(keys, key)
    ensures |Forget(keys, key)| <= |keys|
    ensures forall k :: k in Forget(keys, key) ==> k in keys
  {
  }

  lemma InsertKeeps<K>(q: Queues<K>, key: K, admission: Admission)
    requires Valid(q) && key !in q.entries && |q.entries| < q.capacity
    ensures Valid(Insert(q, key, admission))
    ensures Insert(q, key, admission).entries.Keys == q.entries.Keys + {key}
  {
    hide Forget, Distinct, Valid;
    var after := Insert(q, key, admission);
    NotQueued(q, key);
    ForgetKeeps(q.evicted, key);
    InsertKeepsOrder(q, key, admission);
    if admission == ExactReuse || key in q.evicted {
      AppendedMain(q, key, after.evicted);
    } else {
      AppendedSmall(q, key, after.evicted);
    }
  }

  lemma NotQueued<K>(q: Queues<K>, key: K)
    requires Valid(q) && key !in q.entries
    ensures key !in q.small && key !in q.main
    ensures Distinct(q.small + q.main) && Distinct(q.evicted) && |q.evicted| <= GhostTarget(q.capacity)
    ensures forall k :: k in q.evicted ==> k !in q.entries
  {
  }

  lemma AppendedMain<K>(q: Queues<K>, key: K, evicted: seq<K>)
    requires Valid(q) && key !in q.entries && |q.entries| < q.capacity
    requires Distinct(q.small + (q.main + [key]))
    requires Distinct(evicted) && |evicted| <= GhostTarget(q.capacity)
    requires forall k :: k in evicted ==> k !in q.entries && k != key
    ensures var after := q.(entries := q.entries[key := Entry(Main, 0)], main := q.main + [key], evicted := evicted);
            Valid(after) && after.entries.Keys == q.entries.Keys + {key}
  {
  }

  lemma AppendedSmall<K>(q: Queues<K>, key: K, evicted: seq<K>)
    requires Valid(q) && key !in q.entries && |q.entries| < q.capacity
    requires Distinct((q.small + [key]) + q.main)
    requires Distinct(evicted) && |evicted| <= GhostTarget(q.capacity)
    requires forall k :: k in evicted ==> k !in q.entries && k != key
    ensures var after := q.(entries := q.entries[key := Entry(Small, 0)], small := q.small + [key], evicted := evicted);
            Valid(after) && after.entries.Keys == q.entries.Keys + {key}
  {
  }

  lemma InsertKeepsOrder<K>(q: Queues<K>, key: K, admission: Admission)
    requires Distinct(q.small + q.main) && key !in q.small && key !in q.main
    ensures var after := Insert(q, key, admission); Distinct(after.small + after.main)
  {
    if admission == ExactReuse || key in q.evicted {
      assert forall k :: k in q.small + q.main ==> k in q.small || k in q.main;
      Between(q.small + q.main, key, []);
      assert (q.small + q.main) + [] == q.small + q.main;
      assert ((q.small + q.main) + [key]) + [] == q.small + (q.main + [key]);
    } else {
      Between(q.small, key, q.main);
    }
  }

  lemma Between<K>(front: seq<K>, key: K, back: seq<K>)
    requires Distinct(front + back) && key !in front && key !in back
    ensures Distinct((front + [key]) + back)
  {
    var after := (front + [key]) + back;
    forall i | 0 <= i < |after| && i != |front|
      ensures after[i] == (front + back)[if i < |front| then i else i - 1]
    {
    }
  }

  /** An admission keeps the queues in order and accounts for every resident. */
  lemma AdmitKeeps<K>(q: Queues<K>, key: K, admission: Admission)
    requires Valid(q)
    ensures Valid(Admit(q, key, admission).queues) && Admit(q, key, admission).queues.capacity == q.capacity
    ensures var a := Admit(q, key, admission);
            |a.queues.entries| == |q.entries| - a.outcome.evictions
                                  + if key in q.entries || a.outcome.rejected then 0 else 1
  {
    if key !in q.entries {
      var r := MakeRoom(q, StepLimit(q.capacity));
      MakeRoomKeys(q, StepLimit(q.capacity));
      if !r.rejected {
        InsertKeeps(r.queues, key, admission);
      }
    }
  }

  lemma SizeWithin<K>(q: Queues<K>)
    requires Valid(q)
    ensures 1 <= q.capacity && |q.entries| == |q.small| + |q.main| <= q.capacity
  {
  }

  lemma {:induction false} MakeRoomKeys<K>(q: Queues<K>, budget: nat)
    requires Valid(q)
    ensures var r := MakeRoom(q, budget); r.queues.entries.Keys <= q.entries.Keys
    ensures var r := MakeRoom(q, budget);
            r.evictions == if |q.entries| < q.capacity || r.rejected then 0 else 1
    ensures var r := MakeRoom(q, budget); r.rejected ==> r.queues.entries.Keys == q.entries.Keys
    decreases budget
  {
    hide Valid, EvictOne, CanEvict, Evicts;
    SizeWithin(q);
    if |q.entries| >= q.capacity && budget > 0 {
      FullCanEvict(q);
      EvictOneKeeps(q);
      MakeRoomKeys(EvictOne(q), budget - 1);
    }
  }

  /** The loop ends with a victim after at most one step more than the potential. */
  lemma {:induction false} PotentialBuysRoom<K>(q: Queues<K>, budget: nat)
    requires Valid(q) && budget > Potential(q)
    ensures !MakeRoom(q, budget).rejected
    decreases budget
  {
    hide Valid, EvictOne, CanEvict, Evicts, Potential;
    SizeWithin(q);
    if |q.entries| >= q.capacity {
      FullCanEvict(q);
      EvictOneKeeps(q);
      if !Evicts(q) {
        PotentialDrops(q);
        PotentialBuysRoom(EvictOne(q), budget - 1);
      }
    }
  }

  /**
    With a capacity of at most 85 no admission is ever refused, and a full
    cache offered a new key evicts exactly one entry.
   */
  lemma SmallCachesNeverReject<K>(q: Queues<K>, key: K, admission: Admission)
    requires Valid(q) && 3 * q.capacity + 1 <= MAX_EVICTION_STEPS
    ensures !Admit(q, key, admission).outcome.rejected
    ensures key !in q.entries && |q.entries| == q.capacity ==>
              Admit(q, key, admission).outcome.evictions == 1
              && |Admit(q, key, admission).queues.entries| == q.capacity
  {
    if key !in q.entries {
      PotentialBounded(q);
      PotentialBuysRoom(q, StepLimit(q.capacity));
      MakeRoomKeys(q, StepLimit(q.capacity));
      AdmitKeeps(q, key, admission);
    }
  }

  // ---- the bound is exact ----

  /** Every key of `keys` has been used at least `n` times. */
  ghost predicate UsedAtLeast<K>(entries: map<K, Entry>, keys: seq<K>, n: int) {
    forall k :: k in keys ==> k in entries && entries[k].frequency >= n
  }

  /**
    A full main queue refuses when every entry still has uses to give up: the
    part `fresh` has not been demoted in this round, the part `used` has.
   */
  lemma {:induction false} BusyMainRejects<K>(q: Queues<K>, unused: seq<K>, used: seq<K>, n: nat, budget: nat)
    requires Valid(q) && |q.entries| == q.capacity && q.small == [] && q.main == unused + used
    requires n >= 1 && UsedAtLeast(q.entries, unused, n) && UsedAtLeast(q.entries, used, n - 1)
    requires budget <= |unused| + (n - 1) * q.capacity
    ensures MakeRoom(q, budget).rejected
    decreases budget, |used|
  {
    hide Valid, EvictOne, CanEvict, Evicts, UsedAtLeast;
    SizeWithin(q);
    if budget > 0 {
      FullCanEvict(q);
      if unused == [] {
        assert n > 1;
        assert used + [] == used && unused + used == used;
        assert (n - 1) * q.capacity == |used| + (n - 2) * q.capacity;
        UsedNothing(q.entries, n - 2);
        BusyMainRejects(q, used, [], n - 1, budget);
      } else {
        DemoteStep(q, unused, used, n);
        EvictOneKeeps(q);
        BusyMainRejects(EvictOne(q), unused[1..], used + [unused[0]], n, budget - 1);
      }
    }
  }

  lemma UsedNothing<K>(entries: map<K, Entry>, n: int)
    ensures UsedAtLeast(entries, [], n)
  {
  }

  lemma DemoteStep<K>(q: Queues<K>, unused: seq<K>, used: seq<K>, n: nat)
    requires Valid(q) && CanEvict(q) && q.small == [] && q.main == unused + used && unused != []
    requires n >= 1 && UsedAtLeast(q.entries, unused, n) && UsedAtLeast(q.entries, used, n - 1)
    ensures !Evicts(q) && EvictOne(q).small == []
    ensures EvictOne(q).main == unused[1..] + (used + [unused[0]])
    ensures UsedAtLeast(EvictOne(q).entries, unused[1..], n)
    ensures UsedAtLeast(EvictOne(q).entries, used + [unused[0]], n - 1)
  {
    var key, rest := q.main[0], q.main[1..];
    assert key == unused[0] && key in unused && rest == unused[1..] + used;
    assert q.main == [key] + rest;
    Cycled(q.small, key, rest);
    assert rest + [key] == unused[1..] + (used + [key]);
    forall k | k in unused[1..]
      ensures k in EvictOne(q).entries && EvictOne(q).entries[k].frequency >= n
    {
      assert k in rest && k in unused;
    }
    forall k | k in used + [key]
      ensures k in EvictOne(q).entries && EvictOne(q).entries[k].frequency >= n - 1
    {
      assert k == key || (k in used && k in rest);
    }
  }

  /** Offers key `key` for reuse and looks it up three times. */
  ghost function Warmed(q: Queues<nat>, key: nat): (after: Queues<nat>)
    requires Valid(q)
    ensures Valid(after)
  {
    AdmitKeeps(q, key, ExactReuse);
    var offered := Admit(q, key, ExactReuse).queues;
    AccessKeeps(offered, key);
    AccessKeeps(Access(offered, key), key);
    AccessKeeps(Access(Access(offered, key), key), key);
    Access(Access(Access(offered, key), key), key)
  }

  /** The run that warms keys 0, 1, ... in turn. */
  ghost function Warm(capacity: nat, n: nat): (q: Queues<nat>)
    requires 1 <= capacity
    ensures Valid(q)
  {
    if n == 0 then Empty(capacity) else Warmed(Warm(capacity, n - 1), n - 1)
  }

  lemma {:induction false} WarmFillsMain(capacity: nat, n: nat)
    requires 1 <= capacity && n <= capacity
    ensures var q := Warm(capacity, n);
            && q.capacity == capacity && q.small == [] && q.evicted == []
            && q.main == seq(n, i => i)
            && (forall k: nat :: k in q.entries <==> k < n)
            && UsedAtLeast(q.entries, q.main, 3)
  {
    hide Valid, Warmed;
    if n > 0 {
      var before := Warm(capacity, n - 1);
      WarmFillsMain(capacity, n - 1);
      SizeWithin(before);
      WarmOnce(before, n - 1);
      assert seq(n, i => i) == seq(n - 1, i => i) + [n - 1];
    }
  }

  lemma WarmOnce(q: Queues<nat>, key: nat)
    requires Valid(q) && key !in q.entries && |q.entries| < q.capacity && q.evicted == []
    ensures var used := Warmed(q, key);
            && used.capacity == q.capacity && used.small == q.small && used.evicted == []
            && used.main == q.main + [key]
            && used.entries == q.entries[key := Entry(Main, 3)]
  {
    hide Valid;
    assert Admit(q, key, ExactReuse).queues == Insert(q, key, ExactReuse);
  }

  /**
    85 is exact: for every larger capacity there is a run of offers and lookups
    after which a new key is refused.
   */
  lemma LargeCachesCanReject(capacity: nat)
    requires 3 * capacity + 1 > MAX_EVICTION_STEPS
    ensures Admit(Warm(capacity, capacity), capacity, Published).outcome.rejected
  {
    hide Valid, MakeRoom, Warm;
    var q := Warm(capacity, capacity);
    WarmFillsMain(capacity, capacity);
    SizeWithin(q);
    assert q.main == q.main + [];
    BusyMainRejects(q, q.main, [], 3, StepLimit(capacity));
  }
}
