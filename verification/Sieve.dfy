/**
  The SIEVE cache as the source stores it: a doubly linked list inside an arena
  of slots, a free list of vacated slots, an index from key to slot, and a hand.
 */
module Sieve {
  import opened Basics
  import opened CachePolicy
  import Ring = SieveRing

  datatype Node<K> = Node(key: K, visited: bool, previous: Option<nat>, next: Option<nat>)

  type Arena<K> = seq<Option<Node<K>>>

  /** The node that slot `order[i]` must hold as far as its links are concerned. */
  ghost predicate LinkedAt<K>(nodes: Arena<K>, order: seq<nat>, i: nat)
    requires i < |order|
  {
    && order[i] < |nodes| && nodes[order[i]].Some?
    && nodes[order[i]].value.previous == (if i == 0 then None else Some(order[i - 1]))
    && nodes[order[i]].value.next == (if i == |order| - 1 then None else Some(order[i + 1]))
  }

  /** `order` lists the live slots from head to tail, and the links say the same. */
  ghost predicate Linked<K>(nodes: Arena<K>, order: seq<nat>) {
    && Distinct(order) && AllLive(nodes, order)
    && (forall i :: 0 <= i < |order| ==> LinkedAt(nodes, order, i))
    && (forall s: nat :: s < |nodes| && nodes[s].Some? ==> s in order)
  }

  /** The free list holds exactly the vacated slots, once each. */
  ghost predicate FreeList<K>(nodes: Arena<K>, free: seq<nat>) {
    && Distinct(free)
    && (forall s: nat :: s in free <==> s < |nodes| && nodes[s].None?)
  }

  /** The index and the live nodes are in bijection. */
  ghost predicate Indexed<K>(nodes: Arena<K>, index: map<K, nat>) {
    && (forall s: nat :: s < |nodes| && nodes[s].Some? ==>
          nodes[s].value.key in index && index[nodes[s].value.key] == s)
    && (forall k :: k in index ==> index[k] < |nodes| && nodes[index[k]].Some? && nodes[index[k]].value.key == k)
  }

  ghost predicate Ends(order: seq<nat>, head: Option<nat>, tail: Option<nat>) {
    if order == [] then head == None && tail == None
    else head == Some(order[0]) && tail == Some(order[|order| - 1])
  }

  ghost predicate AllLive<K>(nodes: Arena<K>, order: seq<nat>) {
    forall i :: 0 <= i < |order| ==> order[i] < |nodes| && nodes[order[i]].Some?
  }

  /** The residents in list order. */
  ghost function Residents<K>(nodes: Arena<K>, order: seq<nat>): (r: seq<Ring.Resident<K>>)
    requires AllLive(nodes, order)
    ensures |r| == |order|
    ensures forall i :: 0 <= i < |r| ==>
              r[i] == Ring.Resident(nodes[order[i]].value.key, nodes[order[i]].value.visited)
  {
    seq(|order|, i requires 0 <= i < |order| =>
          Ring.Resident(nodes[order[i]].value.key, nodes[order[i]].value.visited))
  }

  // ---- list surgery on the arena ----

  function SetNext<K>(nodes: Arena<K>, slot: nat, next: Option<nat>): (after: Arena<K>)
    requires slot < |nodes| && nodes[slot].Some?
  {
    nodes[slot := Some(nodes[slot].value.(next := next))]
  }

  function SetPrevious<K>(nodes: Arena<K>, slot: nat, previous: Option<nat>): (after: Arena<K>)
    requires slot < |nodes| && nodes[slot].Some?
  {
    nodes[slot := Some(nodes[slot].value.(previous := previous))]
  }

  function SetVisited<K>(nodes: Arena<K>, slot: nat, visited: bool): (after: Arena<K>)
    requires slot < |nodes| && nodes[slot].Some?
  {
    nodes[slot := Some(nodes[slot].value.(visited := visited))]
  }

  predicate Live<K>(nodes: Arena<K>, slot: nat) {
    slot < |nodes| && nodes[slot].Some?
  }

  predicate CanUnlink<K>(nodes: Arena<K>, slot: nat) {
    && Live(nodes, slot)
    && (nodes[slot].value.previous.Some? ==> Live(nodes, nodes[slot].value.previous.value))
    && (nodes[slot].value.next.Some? ==> Live(nodes, nodes[slot].value.next.value))
  }

  /** Bypasses the node at `slot` in both directions and vacates its slot. */
  function Unlinked<K>(nodes: Arena<K>, slot: nat): (after: Arena<K>)
    requires CanUnlink(nodes, slot)
  {
    var node := nodes[slot].value;
    var left := if node.previous.Some? then SetNext(nodes, node.previous.value, node.next) else nodes;
    var both := if node.next.Some? then SetPrevious(left, node.next.value, node.previous) else left;
    both[slot := None]
  }

  /** What slot `s` holds once the node at `slot` is bypassed. */
  ghost function Bypassed<K>(nodes: Arena<K>, slot: nat, s: nat): Option<Node<K>>
    requires Live(nodes, slot) && s < |nodes|
  {
    var node := nodes[slot].value;
    if s == slot || nodes[s].None? then None
    else
      var held := nodes[s].value;
      Some(held.(next := if node.previous == Some(s) then node.next else held.next,
                 previous := if node.next == Some(s) then node.previous else held.previous))
  }

  lemma UnlinkedIsBypassed<K>(nodes: Arena<K>, slot: nat)
    requires CanUnlink(nodes, slot)
    requires nodes[slot].value.previous != Some(slot) && nodes[slot].value.next != Some(slot)
    ensures |Unlinked(nodes, slot)| == |nodes|
    ensures forall s: nat :: s < |nodes| ==> Unlinked(nodes, slot)[s] == Bypassed(nodes, slot, s)
  {
  }

  /** The neighbours of the bypassed node are linked to each other, all others as before. */
  lemma BypassLinks<K>(nodes: Arena<K>, order: seq<nat>, p: nat, i: nat)
    requires Linked(nodes, order) && p < |order| && i < |order| - 1
    ensures var rest := Without(order, p);
            var held := Bypassed(nodes, order[p], rest[i]);
            && held.Some?
            && held.value.previous == (if i == 0 then None else Some(rest[i - 1]))
            && held.value.next == (if i == |rest| - 1 then None else Some(rest[i + 1]))
            && held.value.key == nodes[rest[i]].value.key && held.value.visited == nodes[rest[i]].value.visited
  {
    var j := if i < p then i else i + 1;
    assert LinkedAt(nodes, order, p) && LinkedAt(nodes, order, j);
    assert order[j] != order[p];
    if j > 0 && p > 0 { assert j - 1 == p - 1 || order[j - 1] != order[p - 1]; }
    if p < |order| - 1 && j != p + 1 { assert order[j] != order[p + 1]; }
    if p > 0 && j != p - 1 { assert order[j] != order[p - 1]; }
  }

  lemma UnlinkKeepsList<K>(nodes: Arena<K>, order: seq<nat>, p: nat)
    requires Linked(nodes, order) && p < |order|
    ensures CanUnlink(nodes, order[p])
    ensures var after, rest := Unlinked(nodes, order[p]), Without(order, p);
            && |after| == |nodes|
            && Linked(after, rest)
            && (forall s: nat :: s < |nodes| ==> (after[s].Some? <==> nodes[s].Some? && s != order[p]))
            && (forall s: nat :: s < |nodes| && after[s].Some? ==> after[s].value.key == nodes[s].value.key)
            && Residents(after, rest) == Without(Residents(nodes, order), p)
  {
    hide Unlinked, CanUnlink, Bypassed, LinkedAt;
    var rest := Without(order, p);
    UnlinkedAt(nodes, order, p);
    var after := Unlinked(nodes, order[p]);
    assert forall i :: 0 <= i < |rest| ==> rest[i] == order[if i < p then i else i + 1];
    forall s: nat | s < |after| && after[s].Some?
      ensures s in rest
    {
      var j :| 0 <= j < |order| && order[j] == s;
      assert rest[if j < p then j else j - 1] == s;
    }
    RestDistinct(order, p);
  }

  lemma RestDistinct(order: seq<nat>, p: nat)
    requires Distinct(order) && p < |order|
    ensures Distinct(Without(order, p))
  {
  }

  /** What the surgery leaves in every slot, and in particular along the shortened list. */
  lemma UnlinkedAt<K>(nodes: Arena<K>, order: seq<nat>, p: nat)
    requires Linked(nodes, order) && p < |order|
    ensures CanUnlink(nodes, order[p])
    ensures var after, rest := Unlinked(nodes, order[p]), Without(order, p);
            && |after| == |nodes|
            && (forall s: nat :: s < |nodes| ==> (after[s].Some? <==> nodes[s].Some? && s != order[p]))
            && (forall s: nat :: s < |nodes| && after[s].Some? ==> after[s].value.key == nodes[s].value.key)
            && (forall s: nat :: s < |nodes| && after[s].Some? ==> after[s].value.visited == nodes[s].value.visited)
            && (forall i :: 0 <= i < |rest| ==> LinkedAt(after, rest, i))
  {
    hide Unlinked;
    CanUnlinkAt(nodes, order, p);
    UnlinkedIsBypassed(nodes, order[p]);
    var after, rest := Unlinked(nodes, order[p]), Without(order, p);
    forall i | 0 <= i < |rest|
      ensures LinkedAt(after, rest, i)
    {
      BypassLinks(nodes, order, p, i);
    }
  }

  lemma CanUnlinkAt<K>(nodes: Arena<K>, order: seq<nat>, p: nat)
    requires Linked(nodes, order) && p < |order|
    ensures CanUnlink(nodes, order[p])
    ensures nodes[order[p]].value.previous != Some(order[p]) && nodes[order[p]].value.next != Some(order[p])
  {
    assert LinkedAt(nodes, order, p);
    if p > 0 { assert LinkedAt(nodes, order, p - 1) && order[p - 1] != order[p]; }
    if p < |order| - 1 { assert LinkedAt(nodes, order, p + 1); }
  }

  /** A new node at `slot`, linked in front of the old head. */
  function Prepended<K>(nodes: Arena<K>, slot: nat, head: Option<nat>, key: K): (after: Arena<K>)
    requires slot <= |nodes|
    requires head.Some? ==> head.value < |nodes| && nodes[head.value].Some? && head.value != slot
  {
    var node := Some(Node(key, false, None, head));
    var placed := if slot < |nodes| then nodes[slot := node] else nodes + [node];
    if head.Some? then SetPrevious(placed, head.value, Some(slot)) else placed
  }

  lemma PrependKeepsList<K>(nodes: Arena<K>, order: seq<nat>, slot: nat, head: Option<nat>, key: K)
    requires Linked(nodes, order) && slot <= |nodes| && !Live(nodes, slot)
    requires head == if order == [] then None else Some(order[0])
    ensures head.Some? ==> Live(nodes, head.value) && head.value != slot
    ensures var after := Prepended(nodes, slot, head, key);
            && |after| == (if slot < |nodes| then |nodes| else |nodes| + 1)
            && Linked(after, [slot] + order)
            && after[slot].Some? && after[slot].value.key == key
            && (forall s: nat :: s < |nodes| && s != slot ==>
                  (after[s].Some? <==> nodes[s].Some?)
                  && (after[s].Some? ==> after[s].value.key == nodes[s].value.key))
            && Residents(after, [slot] + order) == [Ring.Resident(key, false)] + Residents(nodes, order)
  {
    hide Prepended, LinkedAt;
    HeadIsLive(nodes, order, slot);
    PrependedAt(nodes, slot, head, key);
    PrependedLinks(nodes, order, slot, head, key);
    PrependedResidents(nodes, order, slot, head, key);
    hide Linked, Residents;
  }

  lemma PrependedResidents<K>(nodes: Arena<K>, order: seq<nat>, slot: nat, head: Option<nat>, key: K)
    requires slot <= |nodes| && !Live(nodes, slot) && AllLive(nodes, order)
    requires head.Some? ==> Live(nodes, head.value) && head.value != slot
    requires AllLive(Prepended(nodes, slot, head, key), [slot] + order)
    ensures Residents(Prepended(nodes, slot, head, key), [slot] + order)
            == [Ring.Resident(key, false)] + Residents(nodes, order)
  {
  }

  lemma HeadIsLive<K>(nodes: Arena<K>, order: seq<nat>, slot: nat)
    requires Linked(nodes, order) && !Live(nodes, slot)
    ensures forall i :: 0 <= i < |order| ==> Live(nodes, order[i]) && order[i] != slot
  {
  }

  lemma PrependedLinks<K>(nodes: Arena<K>, order: seq<nat>, slot: nat, head: Option<nat>, key: K)
    requires Linked(nodes, order) && slot <= |nodes| && !Live(nodes, slot)
    requires head == if order == [] then None else Some(order[0])
    requires head.Some? ==> Live(nodes, head.value) && head.value != slot
    ensures Linked(Prepended(nodes, slot, head, key), [slot] + order)
  {
    hide Prepended;
    PrependedAt(nodes, slot, head, key);
    var after, more := Prepended(nodes, slot, head, key), [slot] + order;
    forall i | 0 <= i < |more|
      ensures LinkedAt(after, more, i)
    {
      if i > 0 {
        var j := i - 1;
        assert LinkedAt(nodes, order, j) && order[j] != slot && more[i] == order[j];
        assert j > 0 ==> order[j] != order[0];
      }
    }
    PrependedOrder(nodes, order, slot);
    forall s: nat | s < |after| && after[s].Some?
      ensures s in more
    {
      if s != slot { assert s in order; }
    }
  }

  lemma PrependedOrder<K>(nodes: Arena<K>, order: seq<nat>, slot: nat)
    requires Distinct(order) && AllLive(nodes, order) && !Live(nodes, slot)
    ensures Distinct([slot] + order)
    ensures forall s :: s in order ==> s in [slot] + order
  {
  }

  lemma PrependedAt<K>(nodes: Arena<K>, slot: nat, head: Option<nat>, key: K)
    requires slot <= |nodes| && (head.Some? ==> Live(nodes, head.value) && head.value != slot)
    ensures var after := Prepended(nodes, slot, head, key);
            && |after| == (if slot < |nodes| then |nodes| else |nodes| + 1)
            && after[slot] == Some(Node(key, false, None, head))
            && (forall s: nat :: s < |nodes| && s != slot ==>
                  after[s] == if head == Some(s) then Some(nodes[s].value.(previous := Some(slot))) else nodes[s])
  {
  }

  lemma VisitKeepsList<K>(nodes: Arena<K>, order: seq<nat>, p: nat, visited: bool)
    requires Linked(nodes, order) && p < |order|
    ensures var after := SetVisited(nodes, order[p], visited);
            && |after| == |nodes|
            && Linked(after, order)
            && (forall s: nat :: s < |nodes| ==>
                  (after[s].Some? <==> nodes[s].Some?)
                  && (after[s].Some? ==> after[s].value.key == nodes[s].value.key))
            && Residents(after, order) ==
                 Residents(nodes, order)[p := Residents(nodes, order)[p].(visited := visited)]
  {
    var after := SetVisited(nodes, order[p], visited);
    forall i | 0 <= i < |order|
      ensures LinkedAt(after, order, i)
    {
      assert LinkedAt(nodes, order, i);
    }
  }

  /** Different live slots hold different keys, because the index tells them apart. */
  lemma KeysDistinct<K>(nodes: Arena<K>, order: seq<nat>, index: map<K, nat>)
    requires Linked(nodes, order) && Indexed(nodes, index)
    ensures Ring.DistinctKeys(Residents(nodes, order))
    ensures forall k :: k in index <==> Ring.Has(Residents(nodes, order), k)
  {
  }

  /** The position of a key in the list is where its slot stands. */
  lemma PositionOfSlot<K>(nodes: Arena<K>, order: seq<nat>, index: map<K, nat>, p: nat)
    requires Linked(nodes, order) && Indexed(nodes, index) && p < |order|
    ensures var r := Residents(nodes, order);
            Ring.Has(r, r[p].key) && Ring.PositionOf(r, r[p].key) == p
  {
  }

  // ---- the free list and the index ----

  ghost predicate SameSlots<K>(nodes: Arena<K>, after: Arena<K>) {
    && |after| == |nodes|
    && forall s: nat :: s < |nodes| ==>
         (after[s].Some? <==> nodes[s].Some?) && (after[s].Some? ==> after[s].value.key == nodes[s].value.key)
  }

  lemma SameSlotsKeep<K>(nodes: Arena<K>, after: Arena<K>, free: seq<nat>, index: map<K, nat>)
    requires SameSlots(nodes, after) && FreeList(nodes, free) && Indexed(nodes, index)
    ensures FreeList(after, free) && Indexed(after, index)
  {
  }

  lemma VacateKeeps<K>(nodes: Arena<K>, after: Arena<K>, slot: nat, free: seq<nat>, index: map<K, nat>)
    requires Live(nodes, slot) && |after| == |nodes|
    requires forall s: nat :: s < |nodes| ==> (after[s].Some? <==> nodes[s].Some? && s != slot)
    requires forall s: nat :: s < |nodes| && after[s].Some? ==> after[s].value.key == nodes[s].value.key
    requires FreeList(nodes, free) && Indexed(nodes, index)
    ensures FreeList(after, free + [slot]) && Indexed(after, index - {nodes[slot].value.key})
    ensures |index - {nodes[slot].value.key}| == |index| - 1
  {
  }

  /** The slot `allocate` hands out: the most recently vacated one, or a new one at the end. */
  function NextSlot<K>(nodes: Arena<K>, free: seq<nat>): nat {
    if free != [] then free[|free| - 1] else |nodes|
  }

  function FreeAfter(free: seq<nat>): seq<nat> {
    if free != [] then free[..|free| - 1] else []
  }

  lemma NextSlotIsVacant<K>(nodes: Arena<K>, free: seq<nat>)
    requires FreeList(nodes, free)
    ensures NextSlot(nodes, free) <= |nodes| && !Live(nodes, NextSlot(nodes, free))
  {
    if free != [] {
      assert free[|free| - 1] in free;
    }
  }

  lemma OccupyKeeps<K>(nodes: Arena<K>, after: Arena<K>, free: seq<nat>, index: map<K, nat>, key: K)
    requires FreeList(nodes, free) && Indexed(nodes, index) && key !in index
    requires var slot := NextSlot(nodes, free);
             && |after| == (if slot < |nodes| then |nodes| else |nodes| + 1)
             && slot < |after| && after[slot].Some? && after[slot].value.key == key
             && forall s: nat :: s < |nodes| && s != slot ==>
                  (after[s].Some? <==> nodes[s].Some?)
                  && (after[s].Some? ==> after[s].value.key == nodes[s].value.key)
    ensures FreeList(after, FreeAfter(free)) && Indexed(after, index[key := NextSlot(nodes, free)])
    ensures |after| == |nodes| + |FreeAfter(free)| + 1 - |free|
  {
    NextSlotIsVacant(nodes, free);
    var slot := NextSlot(nodes, free);
    assert free != [] ==> slot in free;
    OccupiedFree(nodes, after, free);
    forall k | k in index
      ensures index[k] != slot
    {
      assert nodes[index[k]].Some?;
    }
  }

  lemma OccupiedFree<K>(nodes: Arena<K>, after: Arena<K>, free: seq<nat>)
    requires FreeList(nodes, free)
    requires var slot := NextSlot(nodes, free);
             && |after| == (if slot < |nodes| then |nodes| else |nodes| + 1)
             && slot < |after| && after[slot].Some?
             && forall s: nat :: s < |nodes| && s != slot ==> (after[s].Some? <==> nodes[s].Some?)
    ensures FreeList(after, FreeAfter(free))
  {
    var slot := NextSlot(nodes, free);
    if free != [] {
      var rest := FreeAfter(free);
      assert free == rest + [slot];
      assert slot !in rest;
      forall s: nat
        ensures s in rest <==> s in free && s != slot
      {
      }
    }
  }

  // ---- the whole store ----

  datatype Store<K> = Store(
    capacity: nat,
    index: map<K, nat>,
    nodes: Arena<K>,
    free: seq<nat>,
    head: Option<nat>,
    tail: Option<nat>,
    hand: Option<nat>)

  /**
    The arena is a well-formed doubly linked list in bijection with the index,
    the hand is empty or live, and no more than `capacity` slots exist.
   */
  ghost predicate Represents<K>(s: Store<K>, order: seq<nat>) {
    && 1 <= s.capacity
    && Linked(s.nodes, order)
    && FreeList(s.nodes, s.free)
    && Indexed(s.nodes, s.index)
    && Ends(order, s.head, s.tail)
    && (s.hand.Some? ==> s.hand.value in order)
    && |s.index| == |order| <= s.capacity
    && |s.nodes| == |order| + |s.free| <= s.capacity
  }

  ghost function View<K>(s: Store<K>, order: seq<nat>): (r: Ring.Ring<K>)
    requires Represents(s, order)
    ensures r.capacity == s.capacity && |r.entries| == |order|
  {
    Ring.Ring(s.capacity, Residents(s.nodes, order),
              if s.hand.Some? then Some(s.nodes[s.hand.value].value.key) else None)
  }

  /** The arena represents a ring the policy accepts. */
  lemma ViewIsValid<K>(s: Store<K>, order: seq<nat>)
    requires Represents(s, order)
    ensures Ring.Valid(View(s, order))
    ensures forall k :: k in s.index <==> Ring.Has(View(s, order).entries, k)
    ensures order != [] ==> s.tail.Some?
    ensures order != [] ==>
              order[Ring.HandPosition(View(s, order))] == (if s.hand.Some? then s.hand.value else s.tail.value)
  {
    KeysDistinct(s.nodes, order, s.index);
    if s.hand.Some? {
      var p :| 0 <= p < |order| && order[p] == s.hand.value;
      PositionOfSlot(s.nodes, order, s.index, p);
    }
  }

  /** The index names the one slot that holds a key. */
  lemma IndexFinds<K>(s: Store<K>, order: seq<nat>, key: K)
    requires Represents(s, order)
    ensures forall i: nat :: i < |s.nodes| && s.nodes[i].Some? && s.nodes[i].value.key == key ==>
              key in s.index && s.index[key] == i
    ensures key in s.index ==>
              Live(s.nodes, s.index[key]) && s.nodes[s.index[key]].value.key == key
  {
  }

  /** What stands at list position `p`. */
  lemma Standing<K>(s: Store<K>, order: seq<nat>, p: nat)
    requires Represents(s, order) && p < |order|
    ensures CanUnlink(s.nodes, order[p])
    ensures var node := s.nodes[order[p]].value;
            && View(s, order).entries[p] == Ring.Resident(node.key, node.visited)
            && node.previous == (if p == 0 then None else Some(order[p - 1]))
            && node.next == (if p == |order| - 1 then None else Some(order[p + 1]))
            && node.key in s.index && s.index[node.key] == order[p]
            && Ring.Has(View(s, order).entries, node.key)
            && Ring.PositionOf(View(s, order).entries, node.key) == p
  {
    assert LinkedAt(s.nodes, order, p);
    CanUnlinkAt(s.nodes, order, p);
    PositionOfSlot(s.nodes, order, s.index, p);
  }

  lemma FindSlot<K>(s: Store<K>, order: seq<nat>, key: K) returns (p: nat)
    requires Represents(s, order) && key in s.index
    ensures p < |order| && order[p] == s.index[key] && Live(s.nodes, order[p]) && s.nodes[order[p]].value.key == key
  {
    p :| 0 <= p < |order| && order[p] == s.index[key];
  }

  lemma VisitedKeeps<K>(s: Store<K>, order: seq<nat>, p: nat, visited: bool)
    requires Represents(s, order) && p < |order|
    ensures Live(s.nodes, order[p])
    ensures var after := s.(nodes := SetVisited(s.nodes, order[p], visited));
            var entries := View(s, order).entries;
            && Represents(after, order)
            && View(after, order) == View(s, order).(entries := entries[p := entries[p].(visited := visited)])
  {
    hide LinkedAt;
    VisitKeepsList(s.nodes, order, p, visited);
    var after := SetVisited(s.nodes, order[p], visited);
    assert SameSlots(s.nodes, after);
    SameSlotsKeep(s.nodes, after, s.free, s.index);
  }

  /** `remove`, after the hand has moved to the victim's newer neighbour. */
  function Removed<K>(s: Store<K>, slot: nat): (after: Store<K>)
    requires CanUnlink(s.nodes, slot)
  {
    var node := s.nodes[slot].value;
    Store(s.capacity, s.index - {node.key}, Unlinked(s.nodes, slot), s.free + [slot],
          if node.previous.None? then node.next else s.head,
          if node.next.None? then node.previous else s.tail,
          node.previous)
  }

  lemma RemovedKeeps<K>(s: Store<K>, order: seq<nat>, p: nat)
    requires Represents(s, order) && p < |order|
    ensures CanUnlink(s.nodes, order[p])
    ensures var after, rest, ring := Removed(s, order[p]), Without(order, p), View(s, order);
            && Represents(after, rest)
            && View(after, rest) == Ring.Ring(s.capacity, Without(ring.entries, p),
                                              if p == 0 then None else Some(ring.entries[p - 1].key))
  {
    hide LinkedAt, Unlinked, Linked, FreeList, Indexed, Residents, Ends, Ring.Has, Ring.PositionOf;
    Standing(s, order, p);
    RemovedEnds(s, order, p);
    UnlinkKeepsList(s.nodes, order, p);
    VacateKeeps(s.nodes, Unlinked(s.nodes, order[p]), order[p], s.free, s.index);
    NeighbourStays(s.nodes, Unlinked(s.nodes, order[p]), order, p);
  }

  lemma RemovedEnds<K>(s: Store<K>, order: seq<nat>, p: nat)
    requires Represents(s, order) && p < |order| && CanUnlink(s.nodes, order[p])
    ensures Ends(Without(order, p), Removed(s, order[p]).head, Removed(s, order[p]).tail)
  {
    hide Linked, FreeList, Indexed, Residents, Unlinked, Ring.Has, Ring.PositionOf;
    Standing(s, order, p);
  }

  lemma NeighbourStays<K>(nodes: Arena<K>, after: Arena<K>, order: seq<nat>, p: nat)
    requires Linked(nodes, order) && p < |order| && |after| == |nodes|
    requires forall s: nat :: s < |nodes| ==> (after[s].Some? <==> nodes[s].Some? && s != order[p])
    requires forall s: nat :: s < |nodes| && after[s].Some? ==> after[s].value.key == nodes[s].value.key
    ensures p > 0 ==>
              && order[p - 1] in Without(order, p)
              && Live(nodes, order[p - 1]) && Live(after, order[p - 1])
              && after[order[p - 1]].value.key == nodes[order[p - 1]].value.key
  {
  }

  /** The insertion at the head. */
  function Pushed<K>(s: Store<K>, key: K): (after: Store<K>)
    requires s.head.Some? ==> Live(s.nodes, s.head.value) && s.head.value != NextSlot(s.nodes, s.free)
    requires NextSlot(s.nodes, s.free) <= |s.nodes|
  {
    var slot := NextSlot(s.nodes, s.free);
    Store(s.capacity, s.index[key := slot], Prepended(s.nodes, slot, s.head, key), FreeAfter(s.free),
          Some(slot), if s.head.None? then Some(slot) else s.tail, s.hand)
  }

  lemma PushedKeeps<K>(s: Store<K>, order: seq<nat>, key: K)
    requires Represents(s, order) && key !in s.index && |order| < s.capacity
    ensures var slot := NextSlot(s.nodes, s.free);
            && slot <= |s.nodes|
            && (s.head.Some? ==> Live(s.nodes, s.head.value) && s.head.value != slot)
            && Represents(Pushed(s, key), [slot] + order)
            && View(Pushed(s, key), [slot] + order) == Ring.Push(View(s, order), key)
  {
    hide LinkedAt, Prepended, Linked, FreeList, Indexed, Residents;
    NextSlotIsVacant(s.nodes, s.free);
    var slot := NextSlot(s.nodes, s.free);
    PrependKeepsList(s.nodes, order, slot, s.head, key);
    OccupyKeeps(s.nodes, Prepended(s.nodes, slot, s.head, key), s.free, s.index, key);
    if s.hand.Some? {
      ListedIsLive(s.nodes, order, s.hand.value);
    }
  }

  lemma ListedIsLive<K>(nodes: Arena<K>, order: seq<nat>, slot: nat)
    requires Linked(nodes, order) && slot in order
    ensures Live(nodes, slot)
  {
  }

  /** The walk that is under way ends as the whole walk does. */
  ghost predicate Continues<K>(entries: seq<Ring.Resident<K>>, p: nat, limit: nat, steps: nat, whole: Ring.Walk<K>)
    requires p < |entries| && steps <= limit
  {
    var w := Ring.Scan(entries, p, limit - steps);
    w.entries == whole.entries && w.found == whole.found && w.steps + steps == whole.steps
  }

  lemma ContinuesNext<K>(entries: seq<Ring.Resident<K>>, p: nat, limit: nat, steps: nat, whole: Ring.Walk<K>)
    requires p < |entries| && steps <= limit && Continues(entries, p, limit, steps, whole)
    ensures steps == limit ==> whole == Ring.Walk(entries, None, limit)
    ensures steps < limit && !entries[p].visited ==> whole == Ring.Walk(entries, Some(p), steps + 1)
    ensures steps < limit && entries[p].visited ==>
              var cleared := entries[p := entries[p].(visited := false)];
              Ring.Before(|entries|, p) < |cleared|
              && Continues(cleared, Ring.Before(|entries|, p), limit, steps + 1, whole)
  {
  }

  // ---- the cache, updated in place ----

  class SieveCache<K(==)> {
    const capacity: nat
    var index: map<K, nat>
    var nodes: Arena<K>
    var free: seq<nat>
    var head: Option<nat>
    var tail: Option<nat>
    var hand: Option<nat>
    ghost var order: seq<nat>

    ghost function Contents(): (s: Store<K>)
      reads this
    {
      Store(capacity, index, nodes, free, head, tail, hand)
    }

    ghost predicate Valid()
      reads this
    {
      Represents(Contents(), order)
    }

    ghost function Model(): (r: Ring.Ring<K>)
      reads this
      requires Valid()
    {
      View(Contents(), order)
    }

    constructor (capacity: nat)
      requires 1 <= capacity
      ensures Valid() && Model() == Ring.Ring(capacity, [], None)
      ensures this.capacity == capacity
    {
      this.capacity := capacity;
      index, nodes, free := map[], [], [];
      head, tail, hand, order := None, None, None, [];
    }

    /** Sets the visited bit of the node that holds the key, and touches no other slot or link. */
    method Access(key: K) returns (hit: bool)
      requires Valid()
      modifies this`nodes
      ensures Valid() && order == old(order)
      ensures hit <==> key in index
      ensures |nodes| == |old(nodes)|
      ensures forall s: nat :: s < |nodes| ==>
                nodes[s] == if old(nodes)[s].Some? && old(nodes)[s].value.key == key
                            then Some(old(nodes)[s].value.(visited := true)) else old(nodes)[s]
      ensures hit == old(Ring.Has(Model().entries, key))
      ensures Model() == Ring.Access(old(Model()), key)
    {
      hide Represents, View;
      ViewIsValid(Contents(), order);
      IndexFinds(Contents(), order, key);
      if key !in index {
        return false;
      }
      var slot := index[key];
      ghost var p := FindSlot(Contents(), order, key);
      Standing(Contents(), order, p);
      VisitedKeeps(Contents(), order, p, true);
      nodes := SetVisited(nodes, slot, true);
      return true;
    }

    /** The eviction loop of `admit`, up to the point where it has a victim or gives up. */
    method FindVictim() returns (found: bool, victim: nat, steps: nat)
      requires Valid() && order != []
      modifies this`nodes
      ensures Valid()
      ensures Model() == old(Model()).(entries := Model().entries)
      ensures var w := Ring.Scan(old(Model()).entries, Ring.HandPosition(old(Model())), Ring.StepLimit(capacity));
              && Model().entries == w.entries && steps == w.steps && found == w.found.Some?
              && (found ==> victim == order[w.found.value])
    {
      hide Represents, View, Ring.HandPosition, Ring.Valid, Ring.Has, Ring.PositionOf;
      ViewIsValid(Contents(), order);
      var limit := Ring.StepLimit(capacity);
      var candidate := if hand.Some? then hand.value else tail.value;
      ghost var p: nat := Ring.HandPosition(Model());
      ghost var whole := Ring.Scan(Model().entries, p, limit);
      steps := 0;
      while steps < limit
        invariant Valid() && Model() == old(Model()).(entries := Model().entries)
        invariant 0 <= steps <= limit && p < |order| && order[p] == candidate
        invariant Continues(Model().entries, p, limit, steps, whole)
      {
        hide Continues;
        ContinuesNext(Model().entries, p, limit, steps, whole);
        Standing(Contents(), order, p);
        TailIsLast(Contents(), order);
        var node := nodes[candidate].value;
        if !node.visited {
          return true, candidate, steps + 1;
        }
        VisitedKeeps(Contents(), order, p, false);
        nodes := SetVisited(nodes, candidate, false);
        candidate := if node.previous.Some? then node.previous.value else tail.value;
        p := Ring.Before(|order|, p);
        steps := steps + 1;
      }
      ContinuesNext(Model().entries, p, limit, steps, whole);
      return false, 0, steps;
    }

    /** `remove`, together with the move of the hand that precedes it. */
    method Remove(slot: nat, ghost p: nat)
      requires Valid() && p < |order| && order[p] == slot
      modifies this`nodes, this`free, this`index, this`head, this`tail, this`hand, this`order
      ensures Valid() && order == Without(old(order), p)
      ensures Model() == Ring.Ring(capacity, Without(old(Model()).entries, p),
                                   if p == 0 then None else Some(old(Model()).entries[p - 1].key))
    {
      hide Represents, View, Unlinked;
      RemovedKeeps(Contents(), order, p);
      ghost var after := Removed(Contents(), slot);
      var node := nodes[slot].value;
      hand := node.previous;
      if node.previous.None? {
        head := node.next;
      }
      if node.next.None? {
        tail := node.previous;
      }
      nodes := Unlinked(nodes, slot);
      free := free + [slot];
      index := index - {node.key};
      order := Without(order, p);
      assert Contents() == after;
    }

    method PushFront(key: K)
      requires Valid() && key !in index && |order| < capacity
      modifies this`nodes, this`free, this`index, this`head, this`tail, this`order
      ensures Valid() && Model() == Ring.Push(old(Model()), key)
    {
      hide Represents, View, Prepended;
      PushedKeeps(Contents(), order, key);
      ghost var after := Pushed(Contents(), key);
      var slot := NextSlot(nodes, free);
      nodes := Prepended(nodes, slot, head, key);
      free := FreeAfter(free);
      if head.None? {
        tail := Some(slot);
      }
      head := Some(slot);
      index := index[key := slot];
      order := [slot] + order;
      assert Contents() == after;
    }

    /** The eviction part of `admit`: walk the hand, and unlink the victim it finds. */
    method Evict() returns (outcome: Outcome)
      requires Valid() && order != []
      modifies this
      ensures Valid() && Ring.MadeRoom(old(Model())) == Ring.Admitted(Model(), outcome)
    {
      hide Represents, View, Ring.Scan, Ring.HandPosition;
      ghost var walk := Ring.Scan(Model().entries, Ring.HandPosition(Model()), Ring.StepLimit(capacity));
      var found, victim, walked := FindVictim();
      if !found {
        return Outcome(0, walked, true);
      }
      Remove(victim, walk.found.value);
      return Outcome(1, walked, false);
    }

    method Admit(key: K) returns (outcome: Outcome)
      requires Valid()
      modifies this
      ensures Valid()
      ensures Ring.Admit(old(Model()), key) == Ring.Admitted(Model(), outcome)
    {
      hide Represents, View, Ring.MadeRoom, Ring.Valid, Ring.Has;
      ViewIsValid(Contents(), order);
      SizeIsIndexSize(Contents(), order);
      if key in index {
        return UNCHANGED;
      }
      outcome := UNCHANGED;
      if |index| == capacity {
        Ring.MadeRoomKeeps(Model(), key);
        outcome := Evict();
        if outcome.rejected {
          return;
        }
        ViewIsValid(Contents(), order);
      }
      PushFront(key);
    }
  }

  lemma TailIsLast<K>(s: Store<K>, order: seq<nat>)
    requires Represents(s, order) && order != []
    ensures s.tail == Some(order[|order| - 1])
  {
  }

  lemma SizeIsIndexSize<K>(s: Store<K>, order: seq<nat>)
    requires Represents(s, order)
    ensures |s.index| == |order| <= s.capacity && 1 <= s.capacity
  {
  }
}
