/** The S3-FIFO cache as the source runs it: maps and queues updated in place. */
module S3Fifo {
  import opened Basics
  import opened CachePolicy
  import opened S3Queues

  class S3Cache<K(==)> {
    const capacity: nat
    var entries: map<K, Entry>
    var small: seq<K>
    var main: seq<K>
    var evicted: seq<K>

    ghost function Model(): (q: Queues<K>)
      reads this
    {
      Queues(capacity, entries, small, main, evicted)
    }

    constructor (capacity: nat)
      requires 1 <= capacity
      ensures Model() == Empty(capacity) && Valid(Model())
    {
      this.capacity := capacity;
      entries, small, main, evicted := map[], [], [], [];
    }

    method Touch(key: K) returns (hit: bool)
      requires Valid(Model())
      modifies this`entries
      ensures Valid(Model())
      ensures hit == (key in old(entries)) && Model() == Access(old(Model()), key)
    {
      AccessKeeps(Model(), key);
      if key !in entries {
        return false;
      }
      entries := entries[key := entries[key].(frequency := Min(entries[key].frequency + 1, 3))];
      return true;
    }

    /** The trimming loop over the evicted keys. */
    method NoteEvicted(key: K)
      modifies this`evicted
      ensures evicted == Trim(old(evicted) + [key], GhostTarget(capacity))
    {
      var target := GhostTarget(capacity);
      hide GhostTarget;
      evicted := evicted + [key];
      ghost var all := evicted;
      while |evicted| > target
        invariant |evicted| <= |all| && evicted == all[|all| - |evicted|..]
        invariant |all| <= target ==> evicted == all
        invariant |all| > target ==> |evicted| >= target
      {
        evicted := evicted[1..];
      }
    }

    /** `evict_one` below its step limit: neither queue is empty when it is popped. */
    method EvictNext() returns (gone: bool)
      requires Valid(Model()) && |entries| >= capacity
      modifies this
      ensures CanEvict(old(Model())) && Valid(Model())
      ensures Model() == EvictOne(old(Model()))
      ensures gone == Evicts(old(Model()))
    {
      hide Valid;
      FullCanEvict(Model());
      EvictOneKeeps(Model());
      ghost var after := EvictOne(Model());
      if |small| >= SmallTarget(capacity) {
        var key := small[0];
        small := small[1..];
        if entries[key].frequency > 1 {
          entries := entries[key := Entry(Main, 0)];
          main := main + [key];
          gone := false;
        } else {
          entries := entries - {key};
          NoteEvicted(key);
          gone := true;
        }
      } else {
        var key := main[0];
        main := main[1..];
        if entries[key].frequency > 0 {
          entries := entries[key := Entry(entries[key].place, entries[key].frequency - 1)];
          main := main + [key];
          gone := false;
        } else {
          entries := entries - {key};
          gone := true;
        }
      }
      assert Model() == after;
    }

    /** The eviction loop of `admit`, bounded by the step limit. */
    method MakeSpace() returns (outcome: Outcome)
      requires Valid(Model())
      modifies this
      ensures Valid(Model())
      ensures MakeRoom(old(Model()), StepLimit(capacity))
           == Room(Model(), outcome.evictions, outcome.steps, outcome.rejected)
    {
      hide Valid, EvictOne, Evicts, CanEvict, MakeRoom, StepLimit;
      ghost var whole := MakeRoom(Model(), StepLimit(capacity));
      var limit, steps, evictions := StepLimit(capacity), 0, 0;
      while |entries| >= capacity
        invariant Valid(Model()) && steps <= limit
        invariant Continues(MakeRoom(Model(), limit - steps), evictions, steps, whole)
        decreases limit - steps
      {
        MakeRoomNext(Model(), limit - steps);
        if steps + 1 > limit {
          return Outcome(evictions, limit, true);
        }
        var gone := EvictNext();
        steps := steps + 1;
        if gone {
          evictions := evictions + 1;
        }
      }
      MakeRoomNext(Model(), limit - steps);
      return Outcome(evictions, steps, false);
    }

    /** The insertion at the end of `admit`. */
    method Place(key: K, admission: Admission)
      modifies this
      ensures Model() == Insert(old(Model()), key, admission)
    {
      var toMain := admission == ExactReuse || key in evicted;
      if key in evicted {
        var position := IndexIn(evicted, key);
        evicted := evicted[..position] + evicted[position + 1..];
      }
      entries := entries[key := Entry(if toMain then Main else Small, 0)];
      if toMain {
        main := main + [key];
      } else {
        small := small + [key];
      }
    }

    method Offer(key: K, admission: Admission) returns (outcome: Outcome)
      requires Valid(Model())
      modifies this
      ensures Valid(Model())
      ensures Admit(old(Model()), key, admission) == Admitted(Model(), outcome)
    {
      hide Valid, MakeRoom, Insert, StepLimit;
      AdmitKeeps(Model(), key, admission);
      if key in entries {
        return UNCHANGED;
      }
      outcome := MakeSpace();
      if !outcome.rejected {
        Place(key, admission);
      }
    }
  }

  /** What is still to come plus what is already counted makes up the whole loop. */
  ghost predicate Continues<K>(rest: Room<K>, evictions: nat, steps: nat, whole: Room<K>) {
    && rest.queues == whole.queues && rest.rejected == whole.rejected
    && rest.evictions + evictions == whole.evictions && rest.steps + steps == whole.steps
  }

  lemma MakeRoomNext<K>(q: Queues<K>, budget: nat)
    requires Valid(q)
    ensures |q.entries| < q.capacity ==> MakeRoom(q, budget) == Room(q, 0, 0, false)
    ensures |q.entries| >= q.capacity && budget == 0 ==> MakeRoom(q, budget) == Room(q, 0, 0, true)
    ensures |q.entries| >= q.capacity && budget > 0 ==>
              && CanEvict(q) && Valid(EvictOne(q))
              && Continues(MakeRoom(EvictOne(q), budget - 1), if Evicts(q) then 1 else 0, 1, MakeRoom(q, budget))
  {
    hide EvictOne, Evicts, CanEvict, Valid;
    if |q.entries| >= q.capacity {
      FullCanEvict(q);
      EvictOneKeeps(q);
    }
  }
}
