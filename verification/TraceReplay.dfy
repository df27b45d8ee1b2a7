/** Replay of a recorded proof-cache trace against one of the two policies. */
module TraceReplay {
  import opened Basics
  import opened CachePolicy
  import opened TraceFormat
  import Ring = SieveRing
  import S3 = S3Queues
  import Chances = S3Chances
  import S3Store = S3Fifo
  import SieveStore = Sieve

  const BUDGET_BYTES_PER_PROOF: nat := 192

  // ---- one interface for both policies ----

  datatype PolicyName = S3Fifo | Sieve

  datatype Policy = S3Policy(queues: S3.Queues<Key>) | SievePolicy(ring: Ring.Ring<Key>)

  function Fresh(name: PolicyName, capacity: nat): (p: Policy)
    ensures name == Sieve <==> p.SievePolicy?
  {
    match name
    case S3Fifo => S3Policy(S3.Empty(capacity))
    case Sieve => SievePolicy(Ring.Ring(capacity, [], None))
  }

  ghost predicate Valid(p: Policy) {
    match p case S3Policy(q) => S3.Valid(q) case SievePolicy(r) => Ring.Valid(r)
  }

  predicate Resident(p: Policy, key: Key) {
    match p case S3Policy(q) => key in q.entries case SievePolicy(r) => Ring.Has(r.entries, key)
  }

  function Size(p: Policy): nat {
    match p case S3Policy(q) => |q.entries| case SievePolicy(r) => |r.entries|
  }

  function Capacity(p: Policy): nat {
    match p case S3Policy(q) => q.capacity case SievePolicy(r) => r.capacity
  }

  function Access(p: Policy, key: Key): (after: Policy) {
    match p
    case S3Policy(q) => S3Policy(S3.Access(q, key))
    case SievePolicy(r) => SievePolicy(Ring.Access(r, key))
  }

  datatype Admitted = Admitted(policy: Policy, outcome: Outcome)

  function Admit(p: Policy, key: Key, admission: Admission): (a: Admitted)
    requires Valid(p)
  {
    match p
    case S3Policy(q) => var a := S3.Admit(q, key, admission); Admitted(S3Policy(a.queues), a.outcome)
    case SievePolicy(r) => var a := Ring.Admit(r, key); Admitted(SievePolicy(a.ring), a.outcome)
  }

  lemma FreshIsValid(name: PolicyName, capacity: nat)
    requires capacity >= 1
    ensures Valid(Fresh(name, capacity)) && Size(Fresh(name, capacity)) == 0
    ensures Capacity(Fresh(name, capacity)) == capacity
    ensures forall k :: !Resident(Fresh(name, capacity), k)
  {
  }

  lemma AccessKeeps(p: Policy, key: Key)
    requires Valid(p)
    ensures Valid(Access(p, key)) && Capacity(Access(p, key)) == Capacity(p)
    ensures Size(Access(p, key)) == Size(p)
    ensures forall k :: Resident(Access(p, key), k) <==> Resident(p, k)
  {
    hide S3.Valid, Ring.Valid, Ring.Has;
    match p
    case S3Policy(q) => S3.AccessKeeps(q, key); assert |S3.Access(q, key).entries.Keys| == |q.entries.Keys|;
    case SievePolicy(r) => Ring.AccessKeeps(r, key);
  }

  /** Both policies account for every resident, and admit nothing but the offered key. */
  lemma AdmitKeeps(p: Policy, key: Key, admission: Admission)
    requires Valid(p)
    ensures Valid(Admit(p, key, admission).policy)
    ensures Capacity(Admit(p, key, admission).policy) == Capacity(p)
    ensures var a := Admit(p, key, admission);
            && Size(a.policy) + a.outcome.evictions ==
                 Size(p) + (if Resident(p, key) || a.outcome.rejected then 0 else 1)
            && a.outcome.evictions <= 1
            && (forall k :: Resident(a.policy, k) ==> Resident(p, k) || k == key)
  {
    match p
    case S3Policy(q) => S3AdmitKeeps(q, key, admission);
    case SievePolicy(r) => SieveAdmitKeeps(r, key);
  }

  lemma S3AdmitKeeps(q: S3.Queues<Key>, key: Key, admission: Admission)
    requires S3.Valid(q)
    ensures var a := S3.Admit(q, key, admission);
            && S3.Valid(a.queues) && a.queues.capacity == q.capacity
            && |a.queues.entries| + a.outcome.evictions ==
                 |q.entries| + (if key in q.entries || a.outcome.rejected then 0 else 1)
            && a.outcome.evictions <= 1
            && (forall k :: k in a.queues.entries ==> k in q.entries || k == key)
  {
    hide S3.Valid, S3.MakeRoom;
    S3.AdmitKeeps(q, key, admission);
    if key !in q.entries {
      S3.MakeRoomKeys(q, S3.StepLimit(q.capacity));
      var r := S3.MakeRoom(q, S3.StepLimit(q.capacity));
      assert forall k :: k in r.queues.entries ==> k in r.queues.entries.Keys;
    }
  }

  lemma SieveAdmitKeeps(r: Ring.Ring<Key>, key: Key)
    requires Ring.Valid(r)
    ensures var a := Ring.Admit(r, key);
            && Ring.Valid(a.ring) && a.ring.capacity == r.capacity
            && |a.ring.entries| + a.outcome.evictions ==
                 |r.entries| + (if Ring.Has(r.entries, key) || a.outcome.rejected then 0 else 1)
            && a.outcome.evictions <= 1
            && (forall k :: Ring.Has(a.ring.entries, k) ==> Ring.Has(r.entries, k) || k == key)
  {
    hide Ring.Has, Ring.Scan;
    Ring.AdmitKeeps(r, key);
  }

  lemma SizeWithin(p: Policy)
    requires Valid(p)
    ensures Size(p) <= Capacity(p)
  {
  }

  // ---- what a replay should report ----

  function AdmissionOf(e: Event): Admission
    requires !e.Lookup?
  {
    if e.AdmitPublished? then Published else ExactReuse
  }

  /** The policy after a trace. */
  ghost function After(p: Policy, events: seq<Event>): (after: Policy)
    requires Valid(p)
    ensures Valid(after) && Capacity(after) == Capacity(p)
  {
    if events == [] then p
    else
      var before, e := After(p, events[..|events| - 1]), events[|events| - 1];
      if e.Lookup? then AccessKeeps(before, e.key); Access(before, e.key)
      else AdmitKeeps(before, e.key, AdmissionOf(e)); Admit(before, e.key, AdmissionOf(e)).policy
  }

  /** The span under which a key was last admitted; nothing must be verified for an unknown key. */
  ghost function Span(events: seq<Event>, key: Key): nat {
    if events == [] then 0
    else
      var e := events[|events| - 1];
      if !e.Lookup? && e.key == key then e.verifyBytes else Span(events[..|events| - 1], key)
  }

  datatype Tally = Tally(
    lookups: nat, hits: nat, misses: nat, admissions: nat, rejections: nat, evictions: nat,
    avoided: nat, required: nat, maximumSteps: nat)

  const NOTHING: Tally := Tally(0, 0, 0, 0, 0, 0, 0, 0, 0)

  /** The contribution of one event, given the policy and the span known before it. */
  ghost function Count(t: Tally, p: Policy, span: nat, e: Event): (after: Tally)
    requires Valid(p)
  {
    match e
    case Lookup(key) =>
      if Resident(p, key) then t.(lookups := t.lookups + 1, hits := t.hits + 1, avoided := t.avoided + span)
      else t.(lookups := t.lookups + 1, misses := t.misses + 1, required := t.required + span)
    case _ =>
      var o := Admit(p, e.key, AdmissionOf(e)).outcome;
      t.(admissions := t.admissions + 1,
         rejections := t.rejections + (if o.rejected then 1 else 0),
         evictions := t.evictions + o.evictions,
         maximumSteps := Max(t.maximumSteps, o.steps))
  }

  ghost function Report(p: Policy, events: seq<Event>): (t: Tally)
    requires Valid(p)
  {
    if events == [] then NOTHING
    else
      var before, e := events[..|events| - 1], events[|events| - 1];
      Count(Report(p, before), After(p, before), Span(before, e.key), e)
  }

  /** Admissions of a key that is resident already. */
  ghost function Duplicates(p: Policy, events: seq<Event>): nat
    requires Valid(p)
  {
    if events == [] then 0
    else
      var before, e := events[..|events| - 1], events[|events| - 1];
      Duplicates(p, before) + if !e.Lookup? && Resident(After(p, before), e.key) then 1 else 0
  }

  /** Some key is admitted with two different spans. */
  ghost predicate Conflicting(events: seq<Event>) {
    exists i, j :: 0 <= i < j < |events| && Clash(events[i], events[j])
  }

  predicate Clash(a: Event, b: Event) {
    !a.Lookup? && !b.Lookup? && a.key == b.key && a.verifyBytes != b.verifyBytes
  }

  // ---- what every replay satisfies ----

  lemma {:induction false} ResidentsWereAdmitted(name: PolicyName, capacity: nat, events: seq<Event>, key: Key)
    requires capacity >= 1 && ValidTrace(events)
    requires Valid(Fresh(name, capacity)) && Resident(After(Fresh(name, capacity), events), key)
    ensures Span(events, key) >= 1
  {
    if events == [] {
      FreshIsValid(name, capacity);
    } else {
      var before, e := events[..|events| - 1], events[|events| - 1];
      var p := After(Fresh(name, capacity), before);
      hide Valid, Resident, Access, Admit;
      assert Meaningful(e);
      if e.Lookup? { AccessKeeps(p, e.key); } else { AdmitKeeps(p, e.key, AdmissionOf(e)); }
      if !(!e.Lookup? && e.key == key) {
        ResidentsWereAdmitted(name, capacity, before, key);
      }
    }
  }

  /**
    For every valid trace and either policy: each lookup is a hit or a miss,
    each hit avoids at least one byte, the cache holds exactly the admissions
    that were neither duplicate, refused nor evicted again, never more than its
    capacity, and no counter can leave 64 bits.
   */
  lemma {:induction false} ReplayBalances(name: PolicyName, capacity: nat, events: seq<Event>)
    requires capacity >= 1 && ValidTrace(events)
    requires Valid(Fresh(name, capacity))
    ensures var t := Report(Fresh(name, capacity), events);
            var p := After(Fresh(name, capacity), events);
            && t.hits + t.misses == t.lookups && t.lookups + t.admissions == |events|
            && t.hits <= t.avoided
            && Size(p) + Duplicates(Fresh(name, capacity), events) + t.rejections + t.evictions == t.admissions
            && Size(p) <= capacity
            && t.avoided + t.required <= |events| * U32
            && t.evictions <= t.admissions
  {
    var start := Fresh(name, capacity);
    FreshIsValid(name, capacity);
    SizeWithin(After(start, events));
    if events != [] {
      var before, e := events[..|events| - 1], events[|events| - 1];
      var p := After(start, before);
      hide Valid, Resident, Access, Admit, Fresh, Size, Capacity;
      ReplayBalances(name, capacity, before);
      SpanFits(before, e.key);
      if e.Lookup? {
        AccessKeeps(p, e.key);
        if Resident(p, e.key) { ResidentsWereAdmitted(name, capacity, before, e.key); }
      } else {
        AdmitKeeps(p, e.key, AdmissionOf(e));
      }
    }
  }

  // ---- what the tally counts ----

  /** The `i`-th event is a lookup that finds its key resident, or one that does not. */
  ghost predicate LooksUp(p: Policy, events: seq<Event>, i: nat, hit: bool)
    requires Valid(p) && i < |events|
  {
    events[i].Lookup? && Resident(After(p, events[..i]), events[i].key) == hit
  }

  /** The number of lookups with this outcome. */
  ghost function Lookups(p: Policy, events: seq<Event>, n: nat, hit: bool): nat
    requires Valid(p) && n <= |events|
  {
    if n == 0 then 0 else Lookups(p, events, n - 1, hit) + if LooksUp(p, events, n - 1, hit) then 1 else 0
  }

  /** The sum, over lookups with this outcome, of the span known for the key at that moment. */
  ghost function Spans(p: Policy, events: seq<Event>, n: nat, hit: bool): nat
    requires Valid(p) && n <= |events|
  {
    if n == 0 then 0
    else Spans(p, events, n - 1, hit)
         + if LooksUp(p, events, n - 1, hit) then Span(events[..n - 1], events[n - 1].key) else 0
  }

  ghost function OutcomeOf(p: Policy, events: seq<Event>, i: nat): Outcome
    requires Valid(p) && i < |events| && !events[i].Lookup?
  {
    Admit(After(p, events[..i]), events[i].key, if events[i].AdmitExactReuse? then ExactReuse else Published).outcome
  }

  /** The reported step count is reached by some admission and passed by none. */
  ghost predicate IsMaximum(p: Policy, events: seq<Event>, n: nat, steps: nat)
    requires Valid(p) && n <= |events|
  {
    && (forall i: nat :: i < n && !events[i].Lookup? ==> OutcomeOf(p, events, i).steps <= steps)
    && (steps == 0 || exists i: nat :: i < n && !events[i].Lookup? && OutcomeOf(p, events, i).steps == steps)
  }

  /** Hits avoid the span known for their key, misses require it, and the two sums are reported as they are. */
  lemma {:induction false} TallyMeans(p: Policy, events: seq<Event>, n: nat)
    requires Valid(p) && n <= |events|
    ensures var t := Report(p, events[..n]);
            && t.hits == Lookups(p, events, n, true) && t.misses == Lookups(p, events, n, false)
            && t.avoided == Spans(p, events, n, true) && t.required == Spans(p, events, n, false)
            && IsMaximum(p, events, n, t.maximumSteps)
  {
    hide Valid, Resident, Admit, Access;
    if n > 0 {
      assert events[..n][..n - 1] == events[..n - 1] && events[..n][n - 1] == events[n - 1];
      TallyMeans(p, events, n - 1);
      MaximumNext(p, events, n - 1, Report(p, events[..n - 1]).maximumSteps);
    }
  }

  lemma MaximumNext(p: Policy, events: seq<Event>, n: nat, steps: nat)
    requires Valid(p) && n < |events| && IsMaximum(p, events, n, steps)
    ensures IsMaximum(p, events, n + 1, if events[n].Lookup? then steps else Max(steps, OutcomeOf(p, events, n).steps))
  {
    hide Valid, After, Admit;
    if !events[n].Lookup? && OutcomeOf(p, events, n).steps > steps {
      assert OutcomeOf(p, events, n).steps == Max(steps, OutcomeOf(p, events, n).steps);
    } else if steps > 0 {
      var i: nat :| i < n && !events[i].Lookup? && OutcomeOf(p, events, i).steps == steps;
      assert i < n + 1;
    }
  }

  /**
    Under S3-FIFO, each kind of event does its own thing to a key that is not resident: a
    published key starts in the small queue unless it is remembered, an exact reuse goes
    to the main queue, and a lookup changes nothing.
   */
  lemma EventsPlace(q: S3.Queues<Key>, e: Event)
    requires S3.Valid(q) && e.key !in q.entries
    ensures e.Lookup? ==> Access(S3Policy(q), e.key) == S3Policy(q)
    ensures !e.Lookup? ==>
              var a := Admit(S3Policy(q), e.key, AdmissionOf(e));
              && a.policy.S3Policy?
              && (!a.outcome.rejected && e.AdmitExactReuse? ==> Chances.EntersMain(a.policy.queues, e.key))
              && (!a.outcome.rejected && e.AdmitPublished? && e.key !in q.evicted ==>
                    Chances.EntersSmall(a.policy.queues, e.key))
  {
    hide S3.Valid, S3.Admit;
    if e.AdmitExactReuse? && !S3.Admit(q, e.key, ExactReuse).outcome.rejected {
      Chances.ReuseGoesToMain(q, e.key);
    }
    if e.AdmitPublished? && e.key !in q.evicted && !S3.Admit(q, e.key, Published).outcome.rejected {
      Chances.FirstChance(q, e.key);
    }
  }

  lemma {:induction false} SpanFits(events: seq<Event>, key: Key)
    requires ValidTrace(events)
    ensures Span(events, key) < U32
  {
    if events != [] {
      assert Fits(events[|events| - 1]);
      SpanFits(events[..|events| - 1], key);
    }
  }

  // ---- the caches behind the interface ----

  /** `Box<dyn ReplayPolicy>`: one of the two caches. */
  datatype Cache = S3Box(s3: S3Store.S3Cache<Key>) | SieveBox(sieve: SieveStore.SieveCache<Key>) {

    ghost function Repr(): set<object> {
      match this case S3Box(c) => {c} case SieveBox(c) => {c}
    }

    ghost predicate Ready()
      reads Repr()
    {
      match this case S3Box(c) => S3.Valid(c.Model()) case SieveBox(c) => c.Valid()
    }

    ghost function Model(): (p: Policy)
      requires Ready()
      reads Repr()
    {
      match this case S3Box(c) => S3Policy(c.Model()) case SieveBox(c) => SievePolicy(c.Model())
    }
  }

  method NewCache(name: PolicyName, capacity: nat) returns (c: Cache)
    requires capacity >= 1
    ensures fresh(c.Repr()) && c.Ready() && c.Model() == Fresh(name, capacity)
  {
    match name {
      case S3Fifo =>
        var s3 := new S3Store.S3Cache<Key>(capacity);
        c := S3Box(s3);
      case Sieve =>
        var sieve := new SieveStore.SieveCache<Key>(capacity);
        c := SieveBox(sieve);
    }
  }

  method AccessCache(c: Cache, key: Key) returns (hit: bool)
    requires c.Ready()
    modifies c.Repr()
    ensures c.Ready() && c.Model() == Access(old(c.Model()), key)
    ensures hit == Resident(old(c.Model()), key)
  {
    match c {
      case S3Box(s3) => hit := s3.Touch(key);
      case SieveBox(sieve) => hit := sieve.Access(key);
    }
  }

  method AdmitCache(c: Cache, key: Key, admission: Admission) returns (outcome: Outcome)
    requires c.Ready() && Valid(c.Model())
    modifies c.Repr()
    ensures c.Ready() && Admit(old(c.Model()), key, admission) == Admitted(c.Model(), outcome)
  {
    match c {
      case S3Box(s3) => outcome := s3.Offer(key, admission);
      case SieveBox(sieve) => outcome := sieve.Admit(key);
    }
  }

  // ---- the replay loop ----

  datatype ReplayError = BudgetTooSmall | ConflictingVerificationSpan

  datatype ReplayResult = Replayed(tally: Tally) | Failed(error: ReplayError)

  /** The catalog holds the span of every key admitted so far. */
  ghost predicate Catalogs(spans: map<Key, nat>, events: seq<Event>) {
    && (forall i :: 0 <= i < |events| && !events[i].Lookup? ==>
          events[i].key in spans && spans[events[i].key] == events[i].verifyBytes)
    && (forall k :: k in spans ==> exists i :: 0 <= i < |events| && !events[i].Lookup? && events[i].key == k)
  }

  lemma {:induction false} CatalogGivesSpan(spans: map<Key, nat>, events: seq<Event>, key: Key)
    requires forall i :: 0 <= i < |events| && !events[i].Lookup? ==>
               events[i].key in spans && spans[events[i].key] == events[i].verifyBytes
    ensures (exists i :: 0 <= i < |events| && !events[i].Lookup? && events[i].key == key) ==>
              key in spans && Span(events, key) == spans[key]
    ensures (forall i :: 0 <= i < |events| && !events[i].Lookup? ==> events[i].key != key) ==> Span(events, key) == 0
  {
    if events != [] {
      CatalogGivesSpan(spans, events[..|events| - 1], key);
      if exists i :: 0 <= i < |events| && !events[i].Lookup? && events[i].key == key {
        var i :| 0 <= i < |events| && !events[i].Lookup? && events[i].key == key;
        if i < |events| - 1 {
          assert events[..|events| - 1][i] == events[i];
        }
      }
    }
  }

  lemma CatalogNext(spans: map<Key, nat>, events: seq<Event>, e: Event)
    requires Catalogs(spans, events)
    ensures !e.Lookup? && e.key in spans && spans[e.key] != e.verifyBytes ==> Conflicting(events + [e])
    ensures !e.Lookup? && !(e.key in spans && spans[e.key] != e.verifyBytes) ==>
              Catalogs(spans[e.key := e.verifyBytes], events + [e])
    ensures e.Lookup? ==> Catalogs(spans, events + [e])
    ensures Span(events, e.key) == if e.key in spans then spans[e.key] else 0
  {
    var more := events + [e];
    CatalogGivesSpan(spans, events, e.key);
    forall i | 0 <= i < |events|
      ensures more[i] == events[i]
    {
    }
    if e.key in spans {
      var i :| 0 <= i < |events| && !events[i].Lookup? && events[i].key == e.key;
      if !e.Lookup? && spans[e.key] != e.verifyBytes {
        assert Clash(more[i], more[|events|]);
      }
    }
    var after := if e.Lookup? then spans else spans[e.key := e.verifyBytes];
    forall k | k in after
      ensures exists i :: 0 <= i < |more| && !more[i].Lookup? && more[i].key == k
    {
      if k in spans {
        var i :| 0 <= i < |events| && !events[i].Lookup? && events[i].key == k;
        assert more[i].key == k;
      } else {
        assert more[|events|].key == k;
      }
    }
  }

  lemma CataloguedTraceDoesNotConflict(spans: map<Key, nat>, events: seq<Event>)
    requires Catalogs(spans, events)
    ensures !Conflicting(events)
  {
  }

  /**
    `replay_proof_cache_trace`. Overflow and impossible policy states do not
    occur: a replay fails exactly for a budget below one proof or for a key
    admitted with two spans, and otherwise reports the reference tally.
   */
  method Replay(events: seq<Event>, name: PolicyName, budget: nat) returns (r: ReplayResult)
    requires ValidTrace(events) && budget <= U64_MAX
    ensures budget < BUDGET_BYTES_PER_PROOF ==> r == Failed(BudgetTooSmall)
    ensures budget >= BUDGET_BYTES_PER_PROOF && Conflicting(events) ==> r == Failed(ConflictingVerificationSpan)
    ensures budget >= BUDGET_BYTES_PER_PROOF && !Conflicting(events) ==>
              Valid(Fresh(name, budget / BUDGET_BYTES_PER_PROOF))
              && r == Replayed(Report(Fresh(name, budget / BUDGET_BYTES_PER_PROOF), events))
  {
    var capacity := budget / BUDGET_BYTES_PER_PROOF;
    if capacity == 0 {
      return Failed(BudgetTooSmall);
    }
    FreshIsValid(name, capacity);
    hide Valid, Fresh, Conflicting, ValidTrace, Report, Cache.Ready, Cache.Model;
    var cache := NewCache(name, capacity);
    r := ReplayInto(cache, name, capacity, events);
  }

  /** `remember_verification_span`, with the span known before it. */
  method Remember(spans: map<Key, nat>, ghost before: seq<Event>, e: Event)
    returns (ok: bool, span: nat, after: map<Key, nat>)
    requires Catalogs(spans, before)
    ensures span == Span(before, e.key)
    ensures if ok then Catalogs(after, before + [e]) else Conflicting(before + [e])
  {
    CatalogNext(spans, before, e);
    hide Catalogs, Conflicting, Span;
    span := if e.key in spans then spans[e.key] else 0;
    after := if e.Lookup? then spans else spans[e.key := e.verifyBytes];
    ok := e.Lookup? || e.key !in spans || span == e.verifyBytes;
  }

  /** The replay loop over a fresh cache. */
  method ReplayInto(cache: Cache, ghost name: PolicyName, ghost capacity: nat, events: seq<Event>)
    returns (r: ReplayResult)
    requires ValidTrace(events) && capacity >= 1 && Valid(Fresh(name, capacity))
    requires cache.Ready() && cache.Model() == Fresh(name, capacity)
    modifies cache.Repr()
    ensures r == if Conflicting(events) then Failed(ConflictingVerificationSpan)
                 else Replayed(Report(Fresh(name, capacity), events))
  {
    ghost var start := Fresh(name, capacity);
    assert After(start, events[..0]) == start && Report(start, events[..0]) == NOTHING;
    hide Valid, Fresh, Admit, Access, Resident, Conflicting, Catalogs, Count, ValidTrace, Cache.Ready, Cache.Model;
    hide After, Report, Span, HasRoom;
    var spans: map<Key, nat> := map[];
    var tally := NOTHING;
    CatalogsNothing();
    var i := 0;
    while i < |events|
      invariant i <= |events|
      invariant Catalogs(spans, events[..i])
      invariant cache.Ready() && cache.Model() == After(start, events[..i])
      invariant tally == Report(start, events[..i])
    {
      var e := events[i];
      Extends(name, capacity, events, i);
      var ok, span;
      ok, span, spans := Remember(spans, events[..i], e);
      if !ok {
        ConflictingPrefix(events, i);
        return Failed(ConflictingVerificationSpan);
      }
      tally := Serve(cache, tally, span, e);
      i := i + 1;
    }
    assert events[..i] == events;
    CataloguedTraceDoesNotConflict(spans, events);
    return Replayed(tally);
  }

  /** One more event still fits every counter. */
  predicate HasRoom(t: Tally) {
    && t.lookups < U64_MAX && t.hits < U64_MAX && t.misses < U64_MAX && t.admissions < U64_MAX
    && t.rejections < U64_MAX && t.evictions < U64_MAX
    && t.avoided + U32 <= U64_MAX && t.required + U32 <= U64_MAX
  }

  /** The body of the replay loop. */
  method Serve(c: Cache, t: Tally, span: nat, e: Event) returns (tally: Tally)
    requires c.Ready() && Valid(c.Model()) && HasRoom(t) && span < U32
    modifies c.Repr()
    ensures c.Ready()
    ensures tally == Count(t, old(c.Model()), span, e)
    ensures c.Model() == if e.Lookup? then Access(old(c.Model()), e.key)
                         else Admit(old(c.Model()), e.key, AdmissionOf(e)).policy
  {
    hide Valid, Admit, Access, Resident, Cache.Ready, Cache.Model;
    match e {
      case Lookup(key) =>
        var hit := AccessCache(c, key);
        if hit {
          tally := t.(lookups := CheckedAdd(t.lookups, 1), hits := CheckedAdd(t.hits, 1),
                      avoided := CheckedAdd(t.avoided, span));
        } else {
          tally := t.(lookups := CheckedAdd(t.lookups, 1), misses := CheckedAdd(t.misses, 1),
                      required := CheckedAdd(t.required, span));
        }
      case _ =>
        AdmitKeeps(c.Model(), e.key, AdmissionOf(e));
        var outcome := AdmitCache(c, e.key, AdmissionOf(e));
        tally := t.(admissions := CheckedAdd(t.admissions, 1),
                    rejections := CheckedAdd(t.rejections, if outcome.rejected then 1 else 0),
                    evictions := CheckedAdd(t.evictions, outcome.evictions),
                    maximumSteps := Max(t.maximumSteps, outcome.steps));
    }
  }

  /** `checked_add`, with the overflow it tests for excluded. */
  function CheckedAdd(left: nat, right: nat): nat
    requires left + right <= U64_MAX
  {
    left + right
  }

  lemma CatalogsNothing()
    ensures Catalogs(map[], [])
  {
  }

  lemma ConflictingPrefix(events: seq<Event>, i: nat)
    requires i < |events| && Conflicting(events[..i] + [events[i]])
    ensures Conflicting(events)
  {
  }

  /** What the next event does to the reference, and room for it in every counter. */
  lemma Extends(name: PolicyName, capacity: nat, events: seq<Event>, i: nat)
    requires i < |events| && ValidTrace(events) && capacity >= 1
    requires Valid(Fresh(name, capacity))
    ensures events[..i + 1] == events[..i] + [events[i]]
    ensures var start := Fresh(name, capacity);
            var p, e := After(start, events[..i]), events[i];
            && Valid(p)
            && After(start, events[..i + 1]) ==
                 (if e.Lookup? then Access(p, e.key) else Admit(p, e.key, AdmissionOf(e)).policy)
            && Report(start, events[..i + 1]) == Count(Report(start, events[..i]), p, Span(events[..i], e.key), e)
    ensures HasRoom(Report(Fresh(name, capacity), events[..i]))
    ensures Span(events[..i], events[i].key) < U32
  {
    hide Valid, Fresh, Admit, Access, Resident, Count;
    assert events[..i + 1][..i] == events[..i];
    ReplayBalances(name, capacity, events[..i]);
    SpanFits(events[..i], events[i].key);
  }
}
