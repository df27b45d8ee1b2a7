/**
  What S3-FIFO does for a key: how many lookups it takes to survive the small queue and
  the main queue, what is remembered of an evicted key, and where an offered key goes.
 */
module S3Chances {
  import opened Basics
  import opened CachePolicy
  import opened S3Queues

  /** The queues after `n` lookups of one key. */
  ghost function Looked<K>(q: Queues<K>, key: K, n: nat): Queues<K> {
    if n == 0 then q else Access(Looked(q, key, n - 1), key)
  }

  lemma {:induction false} LookedUp<K>(q: Queues<K>, key: K, n: nat)
    requires key in q.entries && q.entries[key].frequency <= 3
    ensures var used := q.entries[key].(frequency := Min(q.entries[key].frequency + n, 3));
            Looked(q, key, n) == q.(entries := q.entries[key := used])
  {
    if n == 0 {
      assert q.entries[key := q.entries[key]] == q.entries;
    } else {
      LookedUp(q, key, n - 1);
      var before := q.entries[key].(frequency := Min(q.entries[key].frequency + n - 1, 3));
      var after := q.entries[key].(frequency := Min(q.entries[key].frequency + n, 3));
      assert q.entries[key := before][key := after] == q.entries[key := after];
    }
  }

  /** Whether the next eviction step looks at the small queue. */
  ghost predicate SmallIsFull<K>(q: Queues<K>) {
    |q.small| >= Max(1, q.capacity / 10)
  }

  /**
    A new key at the front of the small queue: two lookups take it to the back of the
    main queue, fewer let it go, and then it is the newest of the remembered keys.
   */
  lemma TwoLookupsPromote<K>(q: Queues<K>, key: K, n: nat)
    requires Valid(q) && SmallIsFull(q) && q.small != [] && q.small[0] == key && q.entries[key].frequency == 0
    ensures CanEvict(Looked(q, key, n))
    ensures var after := EvictOne(Looked(q, key, n));
            && after.small == q.small[1..]
            && (forall k :: k in q.entries && k != key ==> k in after.entries && after.entries[k] == q.entries[k])
            && if n >= 2
               then after.main == q.main + [key] && key in after.entries && after.entries[key] == Entry(Main, 0)
                    && after.evicted == q.evicted
               else after.main == q.main && key !in after.entries
                    && after.evicted != [] && after.evicted[|after.evicted| - 1] == key
  {
    hide Valid;
    SmallFront(q);
    LookedUp(q, key, n);
    hide Looked;
  }

  lemma SmallFront<K>(q: Queues<K>)
    requires Valid(q) && q.small != []
    ensures q.small[0] in q.entries && q.entries[q.small[0]].place == Small && q.entries[q.small[0]].frequency <= 3
  {
  }

  lemma MainFront<K>(q: Queues<K>)
    requires Valid(q) && q.main != []
    ensures q.main[0] in q.entries && q.entries[q.main[0]].place == Main && q.entries[q.main[0]].frequency <= 3
  {
  }

  /**
    An unused key at the front of the main queue: each lookup, three at most, buys it one
    more turn, and without one it leaves and is not remembered.
   */
  lemma LookupsBuyTurns<K>(q: Queues<K>, key: K, n: nat)
    requires Valid(q) && !SmallIsFull(q) && q.main != [] && q.main[0] == key && q.entries[key].frequency == 0
    ensures CanEvict(Looked(q, key, n))
    ensures var after := EvictOne(Looked(q, key, n));
            && after.small == q.small && after.evicted == q.evicted
            && (forall k :: k in q.entries && k != key ==> k in after.entries && after.entries[k] == q.entries[k])
            && if n >= 1
               then after.main == q.main[1..] + [key] && key in after.entries
                    && after.entries[key] == Entry(Main, Min(n, 3) - 1)
               else after.main == q.main[1..] && key !in after.entries
  {
    hide Valid;
    MainFront(q);
    LookedUp(q, key, n);
    hide Looked;
  }

  // ---- what making room does to the remembered keys ----

  /** The oldest remembered key, when the memory is full and the next eviction may push it out. */
  ghost predicate AboutToBeForgotten<K>(q: Queues<K>, key: K) {
    |q.entries| >= q.capacity && q.evicted != [] && q.evicted[0] == key && |q.evicted| == GhostTarget(q.capacity)
  }

  lemma StepRemembers<K>(q: Queues<K>, key: K)
    requires Valid(q) && CanEvict(q)
    ensures key in q.evicted && (!Evicts(q) || |q.evicted| < GhostTarget(q.capacity) || key != q.evicted[0]) ==>
              key in EvictOne(q).evicted
    ensures key !in q.evicted && key !in q.entries ==> key !in EvictOne(q).evicted
    ensures !Evicts(q) ==> EvictOne(q).evicted == q.evicted
  {
    if |q.small| >= SmallTarget(q.capacity) && Evicts(q) {
      SmallFront(q);
      hide Valid;
      var more := q.evicted + [q.small[0]];
      if key in q.evicted {
        var i :| 0 <= i < |q.evicted| && q.evicted[i] == key;
        assert more[i] == key;
      }
    }
  }

  lemma {:induction false} RoomRemembers<K>(q: Queues<K>, budget: nat, key: K)
    requires Valid(q) && key !in q.entries
    ensures key in q.evicted && !AboutToBeForgotten(q, key) ==> key in MakeRoom(q, budget).queues.evicted
    ensures key !in q.evicted ==> key !in MakeRoom(q, budget).queues.evicted
    decreases budget
  {
    hide Valid, EvictOne, MakeRoom, Evicts, CanEvict, AboutToBeForgotten;
    RoomUnfolds(q, budget);
    if |q.entries| >= q.capacity && budget > 0 {
      StepFacts(q, key);
      RoomRemembers(EvictOne(q), budget - 1, key);
    }
  }

  lemma RoomUnfolds<K>(q: Queues<K>, budget: nat)
    requires Valid(q)
    ensures |q.entries| < q.capacity || budget == 0 ==> MakeRoom(q, budget).queues == q
    ensures |q.entries| >= q.capacity && budget > 0 ==>
              && CanEvict(q) && Valid(EvictOne(q))
              && MakeRoom(q, budget).queues == MakeRoom(EvictOne(q), budget - 1).queues
  {
    if |q.entries| >= q.capacity && budget > 0 {
      FullCanEvict(q);
      EvictOneKeeps(q);
    }
  }

  /** One step of a full cache: it evicts and has room, or it changes neither memory nor size. */
  lemma StepFacts<K>(q: Queues<K>, key: K)
    requires Valid(q) && CanEvict(q) && |q.entries| >= q.capacity && key !in q.entries
    ensures var after := EvictOne(q);
            && key !in after.entries && after.capacity == q.capacity
            && (key in q.evicted && !AboutToBeForgotten(q, key) ==>
                  key in after.evicted && !AboutToBeForgotten(after, key))
            && (key !in q.evicted ==> key !in after.evicted)
  {
    StepRemembers(q, key);
    EvictOneKeeps(q);
    assert |q.entries| == q.capacity && |q.evicted| <= GhostTarget(q.capacity);
    hide Valid, EvictOne;
    if Evicts(q) {
      assert |EvictOne(q).entries| < q.capacity;
      var k :| k in q.entries && EvictOne(q).entries == q.entries - {k};
    }
  }

  // ---- where an offered key goes ----

  /** The key stands at the back of the main queue, unused and no longer among the remembered. */
  ghost predicate EntersMain<K>(q: Queues<K>, key: K) {
    && key in q.entries && q.entries[key] == Entry(Main, 0)
    && q.main != [] && q.main[|q.main| - 1] == key && key !in q.evicted
  }

  ghost predicate EntersSmall<K>(q: Queues<K>, key: K) {
    && key in q.entries && q.entries[key] == Entry(Small, 0)
    && q.small != [] && q.small[|q.small| - 1] == key && key !in q.evicted
  }

  lemma InsertPlaces<K>(q: Queues<K>, key: K, admission: Admission)
    requires Valid(q)
    ensures var after := Insert(q, key, admission);
            if admission == ExactReuse || key in q.evicted then EntersMain(after, key) else EntersSmall(after, key)
  {
    ForgetKeeps(q.evicted, key);
    hide Valid, Forget;
  }

  /** A key evicted from the small queue and offered again while it is remembered goes to the main queue. */
  lemma SecondChance<K>(q: Queues<K>, key: K, admission: Admission)
    requires Valid(q) && key !in q.entries && key in q.evicted && !AboutToBeForgotten(q, key)
    requires !Admit(q, key, admission).outcome.rejected
    ensures EntersMain(Admit(q, key, admission).queues, key)
  {
    RoomRemembers(q, StepLimit(q.capacity), key);
    InsertPlaces(MakeRoom(q, StepLimit(q.capacity)).queues, key, admission);
    hide Valid, MakeRoom, Insert;
  }

  /** Published for the first time, or forgotten since, a key goes to the small queue. */
  lemma FirstChance<K>(q: Queues<K>, key: K)
    requires Valid(q) && key !in q.entries && key !in q.evicted
    requires !Admit(q, key, Published).outcome.rejected
    ensures EntersSmall(Admit(q, key, Published).queues, key)
  {
    RoomRemembers(q, StepLimit(q.capacity), key);
    InsertPlaces(MakeRoom(q, StepLimit(q.capacity)).queues, key, Published);
    hide Valid, MakeRoom, Insert;
  }

  /** An exact reuse goes to the main queue whatever is remembered of it. */
  lemma ReuseGoesToMain<K>(q: Queues<K>, key: K)
    requires Valid(q) && key !in q.entries && !Admit(q, key, ExactReuse).outcome.rejected
    ensures EntersMain(Admit(q, key, ExactReuse).queues, key)
  {
    InsertPlaces(MakeRoom(q, StepLimit(q.capacity)).queues, key, ExactReuse);
    hide Valid, MakeRoom, Insert;
  }

  /** Over one eviction and one offer: a key let go of the small queue and published again is back in main. */
  lemma EvictedComesBackToMain<K>(q: Queues<K>, key: K)
    requires Valid(q) && SmallIsFull(q) && q.small != [] && q.small[0] == key && q.entries[key].frequency == 0
    ensures CanEvict(q) && Valid(EvictOne(q))
    ensures var a := Admit(EvictOne(q), key, Published);
            a.outcome == UNCHANGED && EntersMain(a.queues, key)
  {
    TwoLookupsPromote(q, key, 0);
    EvictOneKeeps(q);
    InsertPlaces(EvictOne(q), key, Published);
    SizeWithin(q);
    var after := EvictOne(q);
    assert Evicts(q) && |after.entries| < after.capacity;
    assert key in after.evicted;
    hide Valid, EvictOne, Insert;
  }
}
