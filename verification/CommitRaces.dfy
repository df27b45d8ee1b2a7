/**
  Runs that over-commit. The first is a run of the governor as it is: a retirement
  falls between a reservation's test and its exchange. The others break a promise
  that the governor relies on, and show that the promise is needed.
 */
module CommitRaces {
  import opened Basics
  import opened TokenSums
  import opened CommitCapacity
  import opened CommitWorld
  import opened CommitSafety

  lemma {:induction false} Chain(w: World, a: seq<Step>, b: seq<Step>)
    requires Runs(w, a) && Runs(Final(w, a), b)
    ensures Runs(w, a + b) && Final(w, a + b) == Final(Final(w, a), b)
    decreases |a|
  {
    hide CanStep, Do;
    if a == [] {
      assert a + b == b;
    } else {
      Chain(Do(w, a[0]), a[1..], b);
      assert (a + b)[1..] == a[1..] + b;
    }
  }

  lemma One(w: World, a: Step)
    requires CanStep(w, a)
    ensures Runs(w, [a]) && Final(w, [a]) == Do(w, a)
  {
    hide CanStep, Do;
  }

  lemma Two(w: World, a: Step, b: Step)
    requires CanStep(w, a) && CanStep(Do(w, a), b)
    ensures Runs(w, [a, b]) && Final(w, [a, b]) == Do(Do(w, a), b)
  {
    hide CanStep, Do;
    One(w, a);
    One(Do(w, a), b);
    Chain(w, [a], [b]);
    assert [a] + [b] == [a, b];
  }

  lemma Three(w: World, a: Step, b: Step, c: Step)
    requires CanStep(w, a) && CanStep(Do(w, a), b) && CanStep(Do(Do(w, a), b), c)
    ensures Runs(w, [a, b, c]) && Final(w, [a, b, c]) == Do(Do(Do(w, a), b), c)
  {
    hide CanStep, Do;
    One(w, a);
    Two(Do(w, a), b, c);
    Chain(w, [a], [b, c]);
    assert [a] + [b, c] == [a, b, c];
  }

  lemma SumOne(k: Token, n: nat)
    ensures Sum(map[k := n]) == n
  {
    SumAdd(map[], k, n);
    assert map[k := n] == map[][k := n];
  }

  function DataBytes(n: nat): Bytes {
    Bytes(0, n, 0)
  }

  // ---- phases ----

  function Reservation(th: Thread, t: Tier, n: nat): seq<Step> {
    [LoadReserved(th, t, n), TestLimit(th), Exchange(th)]
  }

  /** A reservation that nothing disturbs adds its bytes in one go. */
  lemma ReserveAlone(w: World, th: Thread, t: Tier, n: nat)
    requires !w.panicked && th !in w.tickets && n > 0
    requires w.g.reserved.Of(t) + n <= w.g.limit.Of(t) <= U64_MAX
    ensures Runs(w, Reservation(th, t, n))
    ensures Final(w, Reservation(th, t, n))
            == w.(g := Reserve(w.g, t, n), inFlight := w.inFlight.With(t, w.inFlight.Of(t) + n))
  {
    hide Cover, Runs, Final;
    var loaded := w.(tickets := w.tickets[th := Loaded(t, n, w.g.reserved.Of(t))]);
    var tested := w.(tickets := w.tickets[th := Test(w, Loaded(t, n, w.g.reserved.Of(t)))]);
    assert Do(w, LoadReserved(th, t, n)) == loaded;
    SameWritten(w, loaded);
    assert Do(loaded, TestLimit(th)) == tested;
    assert tested.tickets - {th} == w.tickets;
    Three(w, LoadReserved(th, t, n), TestLimit(th), Exchange(th));
  }

  /** One that finds the tier too full ends at its test and leaves no trace. */
  lemma RefuseAlone(w: World, th: Thread, t: Tier, n: nat)
    requires !w.panicked && th !in w.tickets && n > 0
    requires w.g.reserved.Of(t) + n > w.g.limit.Of(t)
    ensures Runs(w, [LoadReserved(th, t, n), TestLimit(th)])
    ensures Final(w, [LoadReserved(th, t, n), TestLimit(th)]) == w
  {
    hide Cover, Runs, Final;
    var loaded := w.(tickets := w.tickets[th := Loaded(t, n, w.g.reserved.Of(t))]);
    assert Do(w, LoadReserved(th, t, n)) == loaded;
    assert loaded.tickets - {th} == w.tickets;
    Two(w, LoadReserved(th, t, n), TestLimit(th));
  }

  /**
    Load, test and exchange with nothing between them are `reserve_bounded` as the
    governor runs it alone: the same claims pass, with the same effect.
   */
  lemma AloneIsReserveBounded(w: World, th: Thread, t: Tier, n: nat)
    requires !w.panicked && th !in w.tickets && n > 0 && w.g.limit.Of(t) <= U64_MAX
    ensures CanReserve(w.g, t, n) <==> w.g.reserved.Of(t) + n <= w.g.limit.Of(t)
    ensures CanReserve(w.g, t, n) ==>
              && Runs(w, Reservation(th, t, n))
              && Final(w, Reservation(th, t, n))
                 == w.(g := Reserve(w.g, t, n), inFlight := w.inFlight.With(t, w.inFlight.Of(t) + n))
    ensures !CanReserve(w.g, t, n) ==>
              && Runs(w, Reservation(th, t, n)[..2]) && Final(w, Reservation(th, t, n)[..2]) == w
  {
    hide Runs, Final;
    if CanReserve(w.g, t, n) {
      ReserveAlone(w, th, t, n);
    } else {
      RefuseAlone(w, th, t, n);
      assert Reservation(th, t, n)[..2] == [LoadReserved(th, t, n), TestLimit(th)];
    }
  }

  /** A generation that claims `n` Data bytes, writes `early` of them, and is frozen and completed. */
  function Generation(n: nat, early: nat): seq<Step> {
    Reservation(0, Data, n)
    + [AcceptClaim(DataBytes(n), NONE), WriteBytes(ActiveBucket, Data, early)]
    + [FreezeCut(0), CompleteCut(0)]
  }

  /** The governor with `n` Data bytes reserved, wherever they are held. */
  ghost function Holding(n: nat, limit: nat, active: Bytes, frozen: map<Token, FrozenClaim>): Governor {
    Governor(Bytes(METADATA_FLOOR, limit, 0), Bytes(METADATA_FLOOR, n, 0), active, 0, frozen,
             Uncheckpointed(0, 0, Open))
  }

  ghost function Storage(g: Governor, inFlight: Bytes, free: nat, active: Bytes, frozen: map<Token, Bytes>): World {
    World(g, inFlight, Bytes(METADATA_FLOOR, free, 0), NONE, active, frozen, NONE, map[], {}, map[], false)
  }

  ghost function OneGeneration(n: nat, early: nat, limit: nat): World
    requires early <= limit
  {
    Storage(Holding(n, limit, NONE, map[0 := FrozenClaim(DataBytes(n), CompletedAfter(0))]), NONE,
            limit - early, NONE, map[0 := DataBytes(early)])
  }

  lemma TakeWhole(c: Bytes)
    ensures c.Covers(c) && c.Minus(c) == NONE
    ensures NONE.Covers(NONE) && NONE.Minus(NONE) == NONE
    ensures c.Covers(NONE) && NONE.Plus(c) == c && NONE.Plus(NONE) == NONE
  {
    assert c == Bytes(c.metadata, c.data, c.smallFile);
  }

  lemma AcceptWhole(w: World, c: Bytes)
    requires !w.panicked && w.inFlight == c && w.inFlightWritten == w.activeWritten == w.g.active == NONE
    requires c.metadata >= c.smallFile
    ensures CanStep(w, AcceptClaim(c, NONE))
    ensures Do(w, AcceptClaim(c, NONE)) == w.(g := w.g.(active := c), inFlight := NONE)
  {
    TakeWhole(c);
    hide Bytes.Covers, Bytes.Minus, Bytes.Plus;
  }

  lemma WriteData(n: nat, early: nat, limit: nat)
    requires early <= n <= limit
    ensures var w := Storage(Holding(n, limit, DataBytes(n), map[]), NONE, limit, NONE, map[]);
            && CanStep(w, WriteBytes(ActiveBucket, Data, early))
            && Do(w, WriteBytes(ActiveBucket, Data, early))
               == Storage(Holding(n, limit, DataBytes(n), map[]), NONE, limit - early, DataBytes(early), map[])
  {
  }

  lemma FreezeAndComplete(n: nat, early: nat, limit: nat)
    requires early <= n <= limit
    ensures var w := Storage(Holding(n, limit, DataBytes(n), map[]), NONE, limit - early, DataBytes(early), map[]);
            && CanStep(w, FreezeCut(0)) && CanStep(Do(w, FreezeCut(0)), CompleteCut(0))
            && Do(Do(w, FreezeCut(0)), CompleteCut(0)) == OneGeneration(n, early, limit)
  {
  }

  lemma ReserveData(n: nat, limit: nat)
    requires 0 < n <= limit <= U64_MAX
    ensures var w := Start(Bytes(METADATA_FLOOR, limit, 0));
            && Runs(w, Reservation(0, Data, n))
            && Final(w, Reservation(0, Data, n))
               == Storage(Holding(n, limit, NONE, map[]), DataBytes(n), limit, NONE, map[])
  {
    hide Runs, Final, CanStep, Do;
    ReserveAlone(Start(Bytes(METADATA_FLOOR, limit, 0)), 0, Data, n);
  }

  lemma UseData(n: nat, early: nat, limit: nat)
    requires early <= n <= limit
    ensures var w := Storage(Holding(n, limit, NONE, map[]), DataBytes(n), limit, NONE, map[]);
            var uses := [AcceptClaim(DataBytes(n), NONE), WriteBytes(ActiveBucket, Data, early)];
            && Runs(w, uses)
            && Final(w, uses)
               == Storage(Holding(n, limit, DataBytes(n), map[]), NONE, limit - early, DataBytes(early), map[])
  {
    hide Runs, Final, CanStep, Do;
    var w := Storage(Holding(n, limit, NONE, map[]), DataBytes(n), limit, NONE, map[]);
    AcceptWhole(w, DataBytes(n));
    WriteData(n, early, limit);
    Two(w, AcceptClaim(DataBytes(n), NONE), WriteBytes(ActiveBucket, Data, early));
  }

  lemma GenerationCompletes(n: nat, early: nat, limit: nat)
    requires early <= n <= limit <= U64_MAX && n > 0
    ensures var w := Start(Bytes(METADATA_FLOOR, limit, 0));
            Runs(w, Generation(n, early)) && Final(w, Generation(n, early)) == OneGeneration(n, early, limit)
  {
    hide Runs, Final, CanStep, Do, Start, Storage, Holding, Reservation;
    var w := Start(Bytes(METADATA_FLOOR, limit, 0));
    var uses := [AcceptClaim(DataBytes(n), NONE), WriteBytes(ActiveBucket, Data, early)];
    ReserveData(n, limit);
    UseData(n, early, limit);
    Chain(w, Reservation(0, Data, n), uses);
    FreezeAndComplete(n, early, limit);
    Two(Final(w, Reservation(0, Data, n) + uses), FreezeCut(0), CompleteCut(0));
    Chain(w, Reservation(0, Data, n) + uses, [FreezeCut(0), CompleteCut(0)]);
  }

  // ---- one observation ----

  function Observation(): seq<Step> {
    [BeginObservation] + [SampleTier(Metadata), SampleTier(Data), SampleTier(SmallFile)]
    + [PublishTier(Metadata), PublishTier(Data), PublishTier(SmallFile)]
  }

  ghost function Observed(w: World): World {
    w.(g := w.g.(epoch := w.g.epoch + 1, limit := w.free),
       sampled := map[Metadata := w.free.metadata, Data := w.free.data, SmallFile := w.free.smallFile],
       published := ALL_TIERS)
  }

  lemma Samples(w: World)
    requires !w.panicked && w.published == {} && forall t: Tier :: w.free.Of(t) <= U64_MAX
    ensures var s := Do(w, BeginObservation);
            && CanStep(w, BeginObservation) && CanStep(s, SampleTier(Metadata))
            && CanStep(Do(s, SampleTier(Metadata)), SampleTier(Data))
            && CanStep(Do(Do(s, SampleTier(Metadata)), SampleTier(Data)), SampleTier(SmallFile))
            && Do(Do(Do(s, SampleTier(Metadata)), SampleTier(Data)), SampleTier(SmallFile))
               == Observed(w).(g := Begin(w.g), published := {})
  {
  }

  lemma Publishes(w: World)
    requires !w.panicked && w.published == {}
    ensures var s := Observed(w).(g := Begin(w.g), published := {});
            && CanStep(s, PublishTier(Metadata)) && CanStep(Do(s, PublishTier(Metadata)), PublishTier(Data))
            && CanStep(Do(Do(s, PublishTier(Metadata)), PublishTier(Data)), PublishTier(SmallFile))
            && Do(Do(Do(s, PublishTier(Metadata)), PublishTier(Data)), PublishTier(SmallFile)) == Observed(w)
  {
  }

  lemma ObservationRuns(w: World)
    requires !w.panicked && w.published == {} && forall t: Tier :: w.free.Of(t) <= U64_MAX
    ensures Runs(w, Observation()) && Final(w, Observation()) == Observed(w)
  {
    Samples(w);
    Publishes(w);
    hide Runs, Final, CanStep, Do;
    var sampling := [SampleTier(Metadata), SampleTier(Data), SampleTier(SmallFile)];
    var publishing := [PublishTier(Metadata), PublishTier(Data), PublishTier(SmallFile)];
    One(w, BeginObservation);
    Three(Do(w, BeginObservation), SampleTier(Metadata), SampleTier(Data), SampleTier(SmallFile));
    Chain(w, [BeginObservation], sampling);
    Three(Final(w, [BeginObservation] + sampling), PublishTier(Metadata), PublishTier(Data), PublishTier(SmallFile));
    Chain(w, [BeginObservation] + sampling, publishing);
  }

  // ---- the retirement ----

  lemma OneTotals(n: nat, early: nat, stamp: Stamp, t: Tier)
    ensures FrozenTotal(map[0 := FrozenClaim(DataBytes(n), stamp)], t) == DataBytes(n).Of(t)
    ensures WrittenTotal(map[0 := DataBytes(early)], t) == DataBytes(early).Of(t)
    ensures FrozenTotal(map[], t) == 0 && WrittenTotal(map[], t) == 0
  {
    SumOne(0, DataBytes(n).Of(t));
    SumOne(0, DataBytes(early).Of(t));
    assert PerToken(map[0 := FrozenClaim(DataBytes(n), stamp)], t) == map[0 := DataBytes(n).Of(t)];
    assert PerTokenWritten(map[0 := DataBytes(early)], t) == map[0 := DataBytes(early).Of(t)];
    assert PerToken(map[], t) == map[] && PerTokenWritten(map[], t) == map[];
  }

  lemma RetiredTotals(w: World, n: nat, early: nat)
    requires w.g.epoch == 1 && w.g.frozen == map[0 := FrozenClaim(DataBytes(n), CompletedAfter(0))]
    requires w.frozenWritten == map[0 := DataBytes(early)]
    ensures Surviving(w.g.frozen, w.g.epoch) == map[] && StillOpen(w) == map[]
    ensures forall t: Tier :: RetiredFrozen(w.g, t) == DataBytes(n).Of(t)
    ensures forall t: Tier :: WrittenTotal(w.frozenWritten, t) == DataBytes(early).Of(t) && WrittenTotal(map[], t) == 0
  {
    hide FrozenTotal, WrittenTotal;
    assert Surviving(w.g.frozen, w.g.epoch) == map[] && StillOpen(w) == map[];
    forall t: Tier
      ensures RetiredFrozen(w.g, t) == DataBytes(n).Of(t)
      ensures WrittenTotal(w.frozenWritten, t) == DataBytes(early).Of(t) && WrittenTotal(map[], t) == 0
    {
      OneTotals(n, early, CompletedAfter(0), t);
    }
  }

  ghost predicate Holds(w: World, n: nat, early: nat) {
    && w.published == ALL_TIERS && w.g.epoch == 1 && w.g.reserved.data == n
    && w.g.frozen == map[0 := FrozenClaim(DataBytes(n), CompletedAfter(0))]
    && w.frozenWritten == map[0 := DataBytes(early)]
  }

  /** The observation may retire the generation: its claim leaves the counter. */
  lemma ClaimLeaves(w: World, n: nat, early: nat)
    requires Holds(w, n, early)
    ensures forall t: Tier :: 0 <= RetiredFrozen(w.g, t) <= w.g.reserved.Of(t)
    ensures FrozenRetired(w.g) == w.g.(reserved := w.g.reserved.(data := 0), frozen := map[])
  {
    RetiredTotals(w, n, early);
    hide RetiredFrozen, Surviving;
  }

  /** Its bytes leave the cover. */
  lemma BytesLeave(w: World, after: World, n: nat, early: nat)
    requires Holds(w, n, early)
    requires after == w.(g := after.g, frozenWritten := map[])
    ensures LostWritten(w, after) == DataBytes(early)
  {
    RetiredTotals(w, n, early);
    hide WrittenTotal, RetiredFrozen, Surviving, StillOpen;
  }

  lemma GenerationRetires(w: World, n: nat, early: nat)
    requires !w.panicked && Holds(w, n, early)
    ensures CanStep(w, RetireFrozen)
    ensures Do(w, RetireFrozen) == w.(g := w.g.(reserved := w.g.reserved.(data := 0), frozen := map[]),
                                      frozenWritten := map[], tickets := AllAged(w.tickets, DataBytes(early), NONE))
  {
    ClaimLeaves(w, n, early);
    RetiredTotals(w, n, early);
    BytesLeave(w, w.(g := FrozenRetired(w.g), frozenWritten := StillOpen(w)), n, early);
    hide RetiredFrozen, LostWritten, FrozenRetired, StillOpen, Surviving, WrittenTotal;
  }

  lemma NothingLeftOver(w: World)
    requires !w.panicked && w.published == ALL_TIERS && w.g.uncheckpointed == Uncheckpointed(0, 0, Open)
    ensures CanStep(w, RetireUncheckpointed)
    ensures Do(w, RetireUncheckpointed) == w.(sampled := map[], published := {})
  {
    hide WrittenTotal;
    var after := w.(sampled := map[], published := {});
    assert LostWritten(w, after) == NONE;
    assert AllAged(w.tickets, NONE, NONE) == w.tickets;
  }

  /** The world once the observation is over. */
  ghost function Over(w: World, early: nat): World {
    w.(g := w.g.(reserved := w.g.reserved.(data := 0), frozen := map[]), frozenWritten := map[],
       tickets := AllAged(w.tickets, DataBytes(early), NONE), sampled := map[], published := {})
  }

  lemma RetirementRuns(w: World, n: nat, early: nat)
    requires !w.panicked && Holds(w, n, early) && w.g.uncheckpointed == Uncheckpointed(0, 0, Open)
    ensures Runs(w, [RetireFrozen, RetireUncheckpointed])
    ensures Final(w, [RetireFrozen, RetireUncheckpointed]) == Over(w, early)
  {
    hide Runs, Final, CanStep, Do;
    GenerationRetires(w, n, early);
    NothingLeftOver(Do(w, RetireFrozen));
    Two(w, RetireFrozen, RetireUncheckpointed);
  }

  // ---- the stale exchange ----

  function Pause(n: nat): seq<Step> {
    [LoadReserved(1, Data, n), TestLimit(1)]
  }

  function Untouched(n: nat): seq<Step> {
    Generation(n, n) + Pause(n)
  }

  function Overtaken(n: nat): seq<Step> {
    Observation() + [RetireFrozen, RetireUncheckpointed] + Reservation(2, Data, n)
  }

  ghost function Paused(n: nat): World {
    OneGeneration(n, n, 2 * n).(tickets := map[1 := Tested(Data, n, n, 0, 0, 0)])
  }

  lemma PauseRuns(n: nat)
    requires 0 < n && 2 * n <= U64_MAX
    ensures var w := OneGeneration(n, n, 2 * n);
            Runs(w, Pause(n)) && Final(w, Pause(n)) == Paused(n)
  {
    hide WrittenTotal;
    var w := OneGeneration(n, n, 2 * n);
    OneTotals(n, n, CompletedAfter(0), Data);
    var loaded := Do(w, LoadReserved(1, Data, n));
    assert Do(loaded, TestLimit(1)) == Paused(n);
    Two(w, LoadReserved(1, Data, n), TestLimit(1));
  }

  lemma UntouchedRuns(n: nat)
    requires 0 < n && 2 * n <= U64_MAX
    ensures var w := Start(Bytes(METADATA_FLOOR, 2 * n, 0));
            Runs(w, Untouched(n)) && Final(w, Untouched(n)) == Paused(n)
  {
    hide Runs, Final, CanStep, Do, Start, OneGeneration;
    GenerationCompletes(n, n, 2 * n);
    PauseRuns(n);
    Chain(Start(Bytes(METADATA_FLOOR, 2 * n, 0)), Generation(n, n), Pause(n));
  }

  /** The reservation still stands, on a test that the retirement has made worthless. */
  ghost function Doomed(n: nat): World {
    World(Governor(Bytes(METADATA_FLOOR, n, 0), Bytes(METADATA_FLOOR, n, 0), NONE, 1, map[],
                   Uncheckpointed(0, 0, Open)),
          DataBytes(n), Bytes(METADATA_FLOOR, n, 0), NONE, NONE, map[], NONE, map[], {},
          map[1 := Tested(Data, n, n, 0, n, 0)], false)
  }

  lemma RetiredUnderneath(n: nat)
    requires 0 < n && 2 * n <= U64_MAX
    ensures var w := Paused(n);
            && Runs(w, Observation() + [RetireFrozen, RetireUncheckpointed])
            && Final(w, Observation() + [RetireFrozen, RetireUncheckpointed]) == Over(Observed(w), n)
  {
    hide Runs, Final, CanStep, Do;
    ObservationRuns(Paused(n));
    RetirementRuns(Observed(Paused(n)), n, n);
    Chain(Paused(n), Observation(), [RetireFrozen, RetireUncheckpointed]);
  }

  lemma OvertakenRuns(n: nat)
    requires 0 < n && 2 * n <= U64_MAX
    ensures Runs(Paused(n), Overtaken(n)) && Final(Paused(n), Overtaken(n)) == Doomed(n)
  {
    hide Runs, Final, CanStep, Do;
    RetiredUnderneath(n);
    var over := Over(Observed(Paused(n)), n);
    ReserveAlone(over, 2, Data, n);
    assert Final(over, Reservation(2, Data, n)) == Doomed(n);
    Chain(Paused(n), Observation() + [RetireFrozen, RetireUncheckpointed], Reservation(2, Data, n));
  }

  function StaleRun(n: nat): seq<Step> {
    Untouched(n) + Overtaken(n) + [Exchange(1)]
  }

  lemma DoomedExchange(n: nat)
    requires 0 < n && 2 * n <= U64_MAX
    ensures CanStep(Doomed(n), Exchange(1)) && Stale(Doomed(n), Exchange(1))
    ensures var after := Do(Doomed(n), Exchange(1));
            after.free.data == n && after.inFlight.data == 2 * n && !Safe(after)
  {
    hide WrittenTotal, FrozenTotal;
    var after := Do(Doomed(n), Exchange(1));
    OneTotals(n, n, Open, Data);
    assert Cover(after, Data) < Floor(Data) + Outstanding(after.g, after.inFlight, Data);
  }

  /**
    The governor over-commits. Of `2n` bytes, `n` are written by a completed
    generation. A reservation of `n` loads the counter and passes its test. An
    observation then publishes the `n` free bytes and retires the generation, and a
    second reservation of `n` brings the counter back to the value first loaded. The
    first exchange succeeds, and `n` free bytes are promised twice.
   */
  lemma StaleTestOvercommits(n: nat)
    requires 0 < n && 2 * n <= U64_MAX
    ensures var w := Start(Bytes(METADATA_FLOOR, 2 * n, 0));
            && Runs(w, StaleRun(n))
            && var after := Final(w, StaleRun(n));
               after.free.data == n && after.inFlight.data == 2 * n && !Safe(after)
  {
    hide Runs, Final, CanStep, Do, Start, Paused, Doomed, Safe;
    var w := Start(Bytes(METADATA_FLOOR, 2 * n, 0));
    UntouchedRuns(n);
    OvertakenRuns(n);
    Chain(w, Untouched(n), Overtaken(n));
    DoomedExchange(n);
    One(Doomed(n), Exchange(1));
    Chain(w, Untouched(n) + Overtaken(n), [Exchange(1)]);
  }

  // ---- promises that are needed ----

  function Sampled(n: nat): seq<Step> {
    Generation(n, 0) + Observation()
  }

  function Afterwards(n: nat): seq<Step> {
    [RetireFrozen, RetireUncheckpointed] + Reservation(1, Data, n)
  }

  lemma SampledRuns(n: nat)
    requires 0 < n <= U64_MAX
    ensures var w := Start(Bytes(METADATA_FLOOR, n, 0));
            Runs(w, Sampled(n)) && Final(w, Sampled(n)) == Observed(OneGeneration(n, 0, n))
  {
    hide Runs, Final, CanStep, Do, Start;
    GenerationCompletes(n, 0, n);
    ObservationRuns(OneGeneration(n, 0, n));
    Chain(Start(Bytes(METADATA_FLOOR, n, 0)), Generation(n, 0), Observation());
  }

  lemma AfterwardsRuns(n: nat)
    requires 0 < n <= U64_MAX
    ensures var late := Filled(Observed(OneGeneration(n, 0, n)), FrozenBucket(0), Data, n);
            && Runs(late, Afterwards(n))
            && var after := Final(late, Afterwards(n));
               after.free.data == 0 && after.inFlight.data == n && after.frozenWritten == map[]
               && after.inFlightWritten == after.activeWritten == after.uncheckpointedWritten == NONE
  {
    hide Runs, Final, CanStep, Do;
    var late := Filled(Observed(OneGeneration(n, 0, n)), FrozenBucket(0), Data, n);
    RetirementRuns(late, n, n);
    ReserveAlone(Over(late, n), 1, Data, n);
    Chain(late, [RetireFrozen, RetireUncheckpointed], Reservation(1, Data, n));
  }

  /**
    A claim must not be written once an observation may retire it. Here a completed
    generation writes its bytes after the sample, and the observation, which saw
    them free, retires the claim.
   */
  lemma LateWriteOvercommits(n: nat)
    requires 0 < n <= U64_MAX
    ensures var w := Start(Bytes(METADATA_FLOOR, n, 0));
            && Runs(w, Sampled(n))
            && var sampled := Final(w, Sampled(n));
               && !MayWrite(sampled, FrozenBucket(0)) && Fits(sampled, FrozenBucket(0), Data, n)
               && sampled.free.data == n
               && var late := Filled(sampled, FrozenBucket(0), Data, n);
                  Runs(late, Afterwards(n)) && !Safe(Final(late, Afterwards(n)))
  {
    hide Runs, Final, CanStep, Do, Start, WrittenTotal, FrozenTotal;
    SampledRuns(n);
    AfterwardsRuns(n);
    OneTotals(n, n, Open, Data);
    var late := Filled(Observed(OneGeneration(n, 0, n)), FrozenBucket(0), Data, n);
    var after := Final(late, Afterwards(n));
    assert Cover(after, Data) < Floor(Data) + Outstanding(after.g, after.inFlight, Data);
  }

  function MetadataUse(n: nat): seq<Step> {
    Reservation(0, Metadata, n) + [AcceptClaim(Bytes(n, 0, 0), NONE), WriteBytes(ActiveBucket, Metadata, n)]
  }

  lemma MetadataUsed(w: World, n: nat)
    requires !w.panicked && w.inFlight == Bytes(n, 0, 0) && w.inFlightWritten == w.activeWritten == w.g.active == NONE
    requires w.free.metadata >= n
    ensures var uses := [AcceptClaim(Bytes(n, 0, 0), NONE), WriteBytes(ActiveBucket, Metadata, n)];
            && Runs(w, uses)
            && Final(w, uses) == w.(g := w.g.(active := Bytes(n, 0, 0)), inFlight := NONE,
                                    free := w.free.(metadata := w.free.metadata - n), activeWritten := Bytes(n, 0, 0))
  {
    hide Runs, Final, CanStep, Do;
    AcceptWhole(w, Bytes(n, 0, 0));
    MetadataFilled(w.(g := w.g.(active := Bytes(n, 0, 0)), inFlight := NONE), n);
    Two(w, AcceptClaim(Bytes(n, 0, 0), NONE), WriteBytes(ActiveBucket, Metadata, n));
  }

  lemma MetadataFilled(w: World, n: nat)
    requires !w.panicked && w.activeWritten == NONE && w.g.active.metadata == n && w.free.metadata >= n
    ensures CanStep(w, WriteBytes(ActiveBucket, Metadata, n))
    ensures Do(w, WriteBytes(ActiveBucket, Metadata, n))
            == w.(free := w.free.(metadata := w.free.metadata - n), activeWritten := Bytes(n, 0, 0))
  {
  }

  /**
    `DropUncheckpointed` relies on dropped Metadata never having been written. Here a
    generation has written the Metadata it claimed, the claim is dropped as if it had
    not, and the governor then admits a claim that the tier cannot hold.
   */
  lemma DroppedMetadataMustBeUnwritten(n: nat)
    requires 0 < n && METADATA_FLOOR + n <= U64_MAX
    ensures var w := Start(Bytes(METADATA_FLOOR + n, 0, 0));
            && Runs(w, MetadataUse(n))
            && var used := Final(w, MetadataUse(n));
               && !CanStep(used, DropUncheckpointed) && AssertsHold(used, DropUncheckpointed)
               && var dropped := used.(g := FinishUncheckpointed(used.g), activeWritten := NONE);
                  && Runs(dropped, Reservation(1, Metadata, n))
                  && !Safe(Final(dropped, Reservation(1, Metadata, n)))
  {
    hide Runs, Final, Do, WrittenTotal, FrozenTotal;
    var w := Start(Bytes(METADATA_FLOOR + n, 0, 0));
    ReserveAlone(w, 0, Metadata, n);
    MetadataUsed(Final(w, Reservation(0, Metadata, n)), n);
    Chain(w, Reservation(0, Metadata, n),
          [AcceptClaim(Bytes(n, 0, 0), NONE), WriteBytes(ActiveBucket, Metadata, n)]);
    var used := Final(w, MetadataUse(n));
    var dropped := used.(g := FinishUncheckpointed(used.g), activeWritten := NONE);
    ReserveAlone(dropped, 1, Metadata, n);
    OneTotals(n, n, Open, Metadata);
    var after := Final(dropped, Reservation(1, Metadata, n));
    assert Cover(after, Metadata) < Floor(Metadata) + Outstanding(after.g, after.inFlight, Metadata);
  }
}
