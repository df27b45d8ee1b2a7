/**
  The governor together with the storage it guards. `free` is the true free
  space of each tier, which the governor never reads except through a sample
  taken between the beginning and the end of one observation. Admitted claims
  are the only consumers, each within its claim.

  A reservation is not one action: the counter is loaded, the limit is loaded and
  tested, and a compare-exchange installs the sum if the counter still holds the
  loaded value. Any other step may happen in between.
 */
module CommitWorld {
  import opened Basics
  import opened TokenSums
  import opened CommitCapacity

  type Thread = nat

  /**
    A reservation under way. A tested one remembers what its decision was worth:
    the headroom the test left below the true cover of the tier, the written bytes
    retired on the tier since, and the space gained on it since.
   */
  datatype Ticket =
    | Loaded(tier: Tier, bytes: nat, current: nat)
    | Tested(tier: Tier, bytes: nat, current: nat, headroom: int, lost: nat, gained: nat)

  datatype World = World(
    g: Governor,
    inFlight: Bytes,
    free: Bytes,
    inFlightWritten: Bytes,
    activeWritten: Bytes,
    frozenWritten: map<Token, Bytes>,
    uncheckpointedWritten: Bytes,
    sampled: map<Tier, nat>,
    published: set<Tier>,
    tickets: map<Thread, Ticket>,
    panicked: bool)

  /** Who writes: a claim not yet accepted, the open generation, a frozen one, or the leftovers. */
  datatype Bucket = InFlightBucket | ActiveBucket | FrozenBucket(token: Token) | UncheckpointedBucket

  datatype Step =
    | LoadReserved(thread: Thread, tier: Tier, bytes: nat)
    | TestLimit(thread: Thread)
    | Exchange(thread: Thread)
    | FailExchange(thread: Thread)
    | GiveBackTier(tier: Tier, bytes: nat)
    | AcceptClaim(claim: Bytes, written: Bytes)
    | ReverseMetadata(bytes: nat)
    | FreezeCut(token: Token)
    | CompleteCut(token: Token)
    | DropUncheckpointed
    | BeginObservation
    | SampleTier(tier: Tier)
    | PublishTier(tier: Tier)
    | RetireFrozen
    | RetireUncheckpointed
    | FailObservation
    | WriteBytes(bucket: Bucket, tier: Tier, bytes: nat)
    | GainSpace(tier: Tier, bytes: nat)

  function ClaimOf(w: World, b: Bucket): Bytes {
    match b
    case InFlightBucket => w.inFlight
    case ActiveBucket => w.g.active
    case FrozenBucket(k) => if k in w.g.frozen then w.g.frozen[k].bytes else NONE
    case UncheckpointedBucket => w.g.uncheckpointed.Charged()
  }

  function WrittenBy(w: World, b: Bucket): Bytes {
    match b
    case InFlightBucket => w.inFlightWritten
    case ActiveBucket => w.activeWritten
    case FrozenBucket(k) => if k in w.frozenWritten then w.frozenWritten[k] else NONE
    case UncheckpointedBucket => w.uncheckpointedWritten
  }

  /** The epoch rule's promise: nothing is written under a claim once an observation may retire it. */
  predicate MayWrite(w: World, b: Bucket) {
    match b
    case FrozenBucket(k) => k in w.g.frozen && !Expired(w.g.frozen[k].stamp, w.g.epoch)
    case UncheckpointedBucket => !Expired(w.g.uncheckpointed.stamp, w.g.epoch)
    case _ => true
  }

  predicate Fits(w: World, b: Bucket, t: Tier, n: nat) {
    WrittenBy(w, b).Of(t) + n <= ClaimOf(w, b).Of(t)
  }

  const ALL_TIERS: set<Tier> := {Metadata, Data, SmallFile}

  /** What callers promise: they give back only what they hold unwritten and write only what they claimed. */
  predicate CanStep(w: World, step: Step) {
    && !w.panicked
    && match step
       case LoadReserved(th, t, n) => th !in w.tickets && n > 0
       case TestLimit(th) => th in w.tickets && w.tickets[th].Loaded?
       case Exchange(th) => th in w.tickets && w.tickets[th].Tested?
       case FailExchange(th) => th in w.tickets && w.tickets[th].Tested?
       case GiveBackTier(t, n) => w.inFlight.Of(t) >= w.inFlightWritten.Of(t) + n
       case AcceptClaim(c, written) =>
         && w.inFlight.Covers(c) && c.Covers(written) && w.inFlightWritten.Covers(written)
         && w.inFlight.Minus(c).Covers(w.inFlightWritten.Minus(written))
         && c.metadata >= c.smallFile
       case ReverseMetadata(n) =>
         w.g.active.metadata >= w.g.active.smallFile + n && w.g.active.metadata >= w.activeWritten.metadata + n
       case FreezeCut(k) => k !in w.g.frozen
       case CompleteCut(k) => k in w.g.frozen && w.g.frozen[k].stamp == Open
       case DropUncheckpointed => w.activeWritten.metadata <= w.g.active.smallFile
       case BeginObservation => w.published == {}
       case SampleTier(t) => t !in w.published && w.free.Of(t) <= U64_MAX
       case PublishTier(t) => t in w.sampled
       case RetireFrozen => w.published == ALL_TIERS
       case RetireUncheckpointed => w.published == ALL_TIERS
       case FailObservation => true
       case WriteBytes(b, t, n) => MayWrite(w, b) && Fits(w, b, t, n) && w.free.Of(t) >= n
       case GainSpace(t, n) => true
  }

  /** The assertions of the governor: no counter is taken below zero. */
  ghost predicate AssertsHold(w: World, step: Step) {
    match step
    case GiveBackTier(t, n) => w.g.reserved.Of(t) >= n
    case ReverseMetadata(n) => w.g.active.metadata >= n && w.g.reserved.metadata >= n
    case DropUncheckpointed =>
      && w.g.active.metadata >= w.g.active.smallFile
      && w.g.reserved.metadata >= w.g.active.metadata - w.g.active.smallFile
    case RetireFrozen => forall t: Tier :: 0 <= RetiredFrozen(w.g, t) <= w.g.reserved.Of(t)
    case RetireUncheckpointed => w.g.reserved.Covers(RetiredLeftovers(w.g))
    case _ => true
  }

  // ---- accounts ----

  function StillOpen(w: World): map<Token, Bytes> {
    map k | k in w.frozenWritten && k in w.g.frozen && !Expired(w.g.frozen[k].stamp, w.g.epoch) :: w.frozenWritten[k]
  }

  ghost function PerTokenWritten(m: map<Token, Bytes>, t: Tier): map<Token, nat> {
    map k | k in m :: m[k].Of(t)
  }

  ghost function WrittenTotal(m: map<Token, Bytes>, t: Tier): nat {
    Sum(PerTokenWritten(m, t))
  }

  /** Bytes already written under claims that are not retired. */
  ghost function Written(w: World, t: Tier): nat {
    w.inFlightWritten.Of(t) + w.activeWritten.Of(t) + WrittenTotal(w.frozenWritten, t) + w.uncheckpointedWritten.Of(t)
  }

  /** The same, without the claims that the current observation may retire. */
  ghost function OpenWritten(w: World, t: Tier): nat {
    w.inFlightWritten.Of(t) + w.activeWritten.Of(t) + WrittenTotal(StillOpen(w), t)
    + if Expired(w.g.uncheckpointed.stamp, w.g.epoch) then 0 else w.uncheckpointedWritten.Of(t)
  }

  /** What the tier is worth to its unretired claims: space they have filled and space they may fill. */
  ghost function Cover(w: World, t: Tier): nat {
    w.free.Of(t) + Written(w, t)
  }

  ghost function OpenCover(w: World, t: Tier): nat {
    w.free.Of(t) + OpenWritten(w, t)
  }

  function Less(a: nat, b: nat): nat {
    if a >= b then a - b else 0
  }

  ghost function LostWritten(before: World, after: World): Bytes {
    Bytes(Less(Written(before, Metadata), Written(after, Metadata)),
          Less(Written(before, Data), Written(after, Data)),
          Less(Written(before, SmallFile), Written(after, SmallFile)))
  }

  function Aged(k: Ticket, lost: Bytes, gained: Bytes): Ticket {
    if k.Tested? then k.(lost := k.lost + lost.Of(k.tier), gained := k.gained + gained.Of(k.tier)) else k
  }

  function AllAged(tickets: map<Thread, Ticket>, lost: Bytes, gained: Bytes): map<Thread, Ticket> {
    map th | th in tickets :: Aged(tickets[th], lost, gained)
  }

  /** A retirement, noted by every reservation it may have disturbed. */
  ghost function Noticed(w: World, after: World): World {
    after.(tickets := AllAged(w.tickets, LostWritten(w, after), NONE))
  }

  // ---- steps ----

  ghost function Test(w: World, k: Ticket): Ticket
    requires k.Loaded?
  {
    Tested(k.tier, k.bytes, k.current, Cover(w, k.tier) - (k.current + k.bytes), 0, 0)
  }

  function Admits(w: World, k: Ticket): bool {
    k.current + k.bytes <= U64_MAX && k.current + k.bytes <= w.g.limit.Of(k.tier)
  }

  ghost function Wrote(w: World, b: Bucket, written: Bytes): World {
    match b
    case InFlightBucket => w.(inFlightWritten := written)
    case ActiveBucket => w.(activeWritten := written)
    case FrozenBucket(k) => w.(frozenWritten := w.frozenWritten[k := written])
    case UncheckpointedBucket => w.(uncheckpointedWritten := written)
  }

  /** The bytes leave the free space and are charged to their writer. */
  ghost function Filled(w: World, b: Bucket, t: Tier, n: nat): World
    requires w.free.Of(t) >= n
  {
    Wrote(w.(free := w.free.With(t, w.free.Of(t) - n)), b, WrittenBy(w, b).With(t, WrittenBy(w, b).Of(t) + n))
  }

  ghost function Effect(w: World, step: Step): World
    requires CanStep(w, step) && AssertsHold(w, step)
  {
    match step
    case LoadReserved(th, t, n) => w.(tickets := w.tickets[th := Loaded(t, n, w.g.reserved.Of(t))])
    case TestLimit(th) =>
      var k := w.tickets[th];
      if Admits(w, k) then w.(tickets := w.tickets[th := Test(w, k)]) else w.(tickets := w.tickets - {th})
    case Exchange(th) =>
      var k := w.tickets[th];
      if w.g.reserved.Of(k.tier) == k.current then
        w.(g := Reserve(w.g, k.tier, k.bytes),
           inFlight := w.inFlight.With(k.tier, w.inFlight.Of(k.tier) + k.bytes),
           tickets := w.tickets - {th})
      else w.(tickets := w.tickets[th := Loaded(k.tier, k.bytes, w.g.reserved.Of(k.tier))])
    case FailExchange(th) =>
      var k := w.tickets[th];
      w.(tickets := w.tickets[th := Loaded(k.tier, k.bytes, w.g.reserved.Of(k.tier))])
    case GiveBackTier(t, n) =>
      w.(g := Release(w.g, t, n), inFlight := w.inFlight.With(t, w.inFlight.Of(t) - n))
    case AcceptClaim(c, written) =>
      w.(g := Accept(w.g, c), inFlight := w.inFlight.Minus(c),
         inFlightWritten := w.inFlightWritten.Minus(written), activeWritten := w.activeWritten.Plus(written))
    case ReverseMetadata(n) => w.(g := ReleaseActiveMetadata(w.g, n))
    case FreezeCut(k) =>
      w.(g := Freeze(w.g, k), frozenWritten := w.frozenWritten[k := w.activeWritten], activeWritten := NONE)
    case CompleteCut(k) => w.(g := Complete(w.g, k))
    case DropUncheckpointed =>
      w.(g := FinishUncheckpointed(w.g),
         uncheckpointedWritten := w.uncheckpointedWritten.Plus(w.activeWritten), activeWritten := NONE)
    case BeginObservation => w.(g := Begin(w.g), sampled := map[])
    case SampleTier(t) => w.(sampled := w.sampled[t := w.free.Of(t)])
    case PublishTier(t) => w.(g := PublishLimit(w.g, t, w.sampled[t]), published := w.published + {t})
    case RetireFrozen => Noticed(w, w.(g := FrozenRetired(w.g), frozenWritten := StillOpen(w)))
    case RetireUncheckpointed =>
      Noticed(w, w.(g := LeftoversRetired(w.g),
                    uncheckpointedWritten := if Expired(w.g.uncheckpointed.stamp, w.g.epoch) then NONE
                                             else w.uncheckpointedWritten,
                    sampled := map[], published := {}))
    case FailObservation => w.(g := ObservationFailed(w.g), sampled := map[], published := {})
    case WriteBytes(b, t, n) => Filled(w, b, t, n)
    case GainSpace(t, n) =>
      w.(free := w.free.With(t, w.free.Of(t) + n), tickets := AllAged(w.tickets, NONE, NONE.With(t, n)))
  }

  /** A step that fails one of the governor's assertions panics. */
  ghost function Do(w: World, step: Step): World
    requires CanStep(w, step)
  {
    if AssertsHold(w, step) then Effect(w, step) else w.(panicked := true)
  }

  ghost function Start(free: Bytes): World {
    World(Fresh(free), NONE, free, NONE, NONE, map[], NONE, map[], {}, map[], false)
  }

  // ---- runs ----

  ghost predicate Runs(w: World, steps: seq<Step>)
    decreases |steps|
  {
    steps == [] || (CanStep(w, steps[0]) && Runs(Do(w, steps[0]), steps[1..]))
  }

  ghost function Final(w: World, steps: seq<Step>): World
    requires Runs(w, steps)
    decreases |steps|
  {
    if steps == [] then w else Final(Do(w, steps[0]), steps[1..])
  }
}
