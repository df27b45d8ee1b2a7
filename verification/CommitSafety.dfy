/**
  No physical over-commit. Conservation and the governor's assertions hold in every
  run. Space is never over-committed in any run without a stale exchange, and a
  stale exchange over-commits at once.
 */
module CommitSafety {
  import opened Basics
  import opened TokenSums
  import opened CommitCapacity
  import opened CommitWorld

  ghost predicate WithinClaims(w: World) {
    && w.frozenWritten.Keys == w.g.frozen.Keys
    && w.inFlight.Covers(w.inFlightWritten)
    && w.g.active.Covers(w.activeWritten)
    && (forall k :: k in w.g.frozen ==> w.g.frozen[k].bytes.Covers(w.frozenWritten[k]))
    && w.g.uncheckpointed.Charged().Covers(w.uncheckpointedWritten)
  }

  /** A limit is worth no more than what is free plus what was written under live claims. */
  ghost predicate LimitsCovered(w: World) {
    forall t: Tier :: w.g.limit.Of(t) <= Cover(w, t)
  }

  ghost predicate SamplesCovered(w: World) {
    && (forall t: Tier :: t in w.sampled ==> w.sampled[t] <= OpenCover(w, t) && w.sampled[t] <= U64_MAX)
    && (forall t: Tier :: t in w.published ==> w.g.limit.Of(t) <= OpenCover(w, t))
  }

  /** Since a test, the cover of its tier has moved by exactly what the ticket recorded. */
  ghost predicate TicketTrue(w: World, k: Ticket) {
    && k.bytes > 0
    && (k.Tested? ==>
          && k.headroom >= 0 && k.current + k.bytes <= U64_MAX
          && k.headroom + k.current + k.bytes + k.gained == Cover(w, k.tier) + k.lost)
  }

  ghost predicate TicketsTrue(w: World) {
    forall th :: th in w.tickets ==> TicketTrue(w, w.tickets[th])
  }

  /** What holds in every run, over-committed or not. */
  ghost predicate Accounts(w: World) {
    && !w.panicked && Conserved(w.g, w.inFlight) && Bounded(w.g) && WithinClaims(w)
    && LimitsCovered(w) && SamplesCovered(w) && TicketsTrue(w)
  }

  /**
    No physical over-commit: the true free space of each tier covers its floor
    and everything that unretired claims may still write.
   */
  ghost predicate Safe(w: World) {
    forall t: Tier :: Cover(w, t) >= Floor(t) + Outstanding(w.g, w.inFlight, t)
  }

  lemma StartAccounts(free: Bytes)
    requires free.metadata >= METADATA_FLOOR && forall t: Tier :: free.Of(t) <= U64_MAX
    ensures Accounts(Start(free)) && Safe(Start(free))
  {
  }

  lemma OpenIsPart(w: World, t: Tier)
    requires WithinClaims(w)
    ensures OpenCover(w, t) <= Cover(w, t)
  {
    SumAtMost(PerTokenWritten(StillOpen(w), t), PerTokenWritten(w.frozenWritten, t));
  }

  // ---- the shape of a step that moves no cover ----

  ghost predicate SameCover(w: World, after: World) {
    forall t: Tier :: Cover(after, t) == Cover(w, t) && OpenCover(after, t) >= OpenCover(w, t)
  }

  lemma Settles(w: World, after: World)
    requires Accounts(w) && SameCover(w, after)
    requires !after.panicked && Conserved(after.g, after.inFlight) && Bounded(after.g) && WithinClaims(after)
    requires after.g.limit == w.g.limit && after.sampled == w.sampled && after.published == w.published
    requires forall th :: th in after.tickets && (th !in w.tickets || after.tickets[th] != w.tickets[th]) ==>
               TicketTrue(after, after.tickets[th])
    ensures Accounts(after)
  {
    hide Conserved, Bounded, WithinClaims, Cover, OpenCover;
  }

  lemma SameWritten(w: World, after: World)
    requires after.free == w.free && after.inFlightWritten == w.inFlightWritten
    requires after.activeWritten == w.activeWritten && after.frozenWritten == w.frozenWritten
    requires after.uncheckpointedWritten == w.uncheckpointedWritten
    requires after.g.frozen == w.g.frozen && after.g.epoch == w.g.epoch && after.g.uncheckpointed == w.g.uncheckpointed
    ensures SameCover(w, after)
    ensures forall t: Tier :: OpenCover(after, t) == OpenCover(w, t)
  {
    assert StillOpen(after) == StillOpen(w);
  }

  // ---- reservations ----

  lemma TicketStepKeeps(w: World, step: Step)
    requires Accounts(w) && CanStep(w, step)
    requires step.LoadReserved? || step.TestLimit? || step.FailExchange?
    ensures Accounts(Do(w, step))
    ensures Safe(w) ==> Safe(Do(w, step))
  {
    hide Cover, OpenCover, Outstanding, Bounded, Conserved;
    SameWritten(w, Do(w, step));
    Settles(w, Do(w, step));
  }

  ghost predicate Hits(w: World, th: Thread) {
    th in w.tickets && w.tickets[th].Tested? && w.g.reserved.Of(w.tickets[th].tier) == w.tickets[th].current
  }

  /** An exchange that succeeds although more was retired since its test than the test and new space leave room for. */
  ghost predicate Stale(w: World, step: Step) {
    && step.Exchange? && Hits(w, step.thread)
    && var k := w.tickets[step.thread]; k.lost > k.headroom + k.gained
  }

  lemma ExchangeConserves(w: World, th: Thread)
    requires Accounts(w) && CanStep(w, Exchange(th))
    ensures var after := Do(w, Exchange(th)); Conserved(after.g, after.inFlight) && Bounded(after.g)
  {
    hide Cover, OpenCover, FrozenTotal, LimitsCovered, SamplesCovered, WithinClaims;
    assert TicketTrue(w, w.tickets[th]);
    if Hits(w, th) {
      var after := Do(w, Exchange(th));
      forall u: Tier
        ensures after.g.reserved.Of(u) == Floor(u) + Outstanding(after.g, after.inFlight, u) <= U64_MAX
      {
        assert w.g.reserved.Of(u) == Floor(u) + Outstanding(w.g, w.inFlight, u) <= U64_MAX;
      }
    }
  }

  lemma ExchangeKeeps(w: World, th: Thread)
    requires Accounts(w) && CanStep(w, Exchange(th))
    ensures Accounts(Do(w, Exchange(th)))
  {
    hide Cover, OpenCover, Conserved, Bounded, Outstanding;
    var after := Do(w, Exchange(th));
    assert TicketTrue(w, w.tickets[th]);
    ExchangeConserves(w, th);
    SameWritten(w, after);
    Settles(w, after);
  }

  /** Exactness of one exchange: it keeps the space safe if and only if it is not stale. */
  lemma ExchangeSafeIff(w: World, th: Thread)
    requires Accounts(w) && Safe(w) && CanStep(w, Exchange(th))
    ensures Safe(Do(w, Exchange(th))) <==> !Stale(w, Exchange(th))
  {
    hide Cover, OpenCover, FrozenTotal, Bounded, LimitsCovered, SamplesCovered, WithinClaims;
    var after, k := Do(w, Exchange(th)), w.tickets[th];
    assert TicketTrue(w, k);
    SameWritten(w, after);
    assert w.g.reserved.Of(k.tier) == Floor(k.tier) + Outstanding(w.g, w.inFlight, k.tier);
    if Hits(w, th) {
      forall u: Tier
        ensures Outstanding(after.g, after.inFlight, u)
                == Outstanding(w.g, w.inFlight, u) + if u == k.tier then k.bytes else 0
      {
      }
    }
  }

  lemma GiveBackConserves(w: World, t: Tier, n: nat)
    requires Accounts(w) && CanStep(w, GiveBackTier(t, n))
    ensures AssertsHold(w, GiveBackTier(t, n))
    ensures var after := Do(w, GiveBackTier(t, n)); Conserved(after.g, after.inFlight) && Bounded(after.g)
    ensures forall u: Tier :: Do(w, GiveBackTier(t, n)).g.reserved.Of(u) <= w.g.reserved.Of(u)
  {
    hide Cover, OpenCover, FrozenTotal, LimitsCovered, SamplesCovered, TicketsTrue, WithinClaims;
    assert w.g.reserved.Of(t) == Floor(t) + Outstanding(w.g, w.inFlight, t);
    var after := Do(w, GiveBackTier(t, n));
    forall u: Tier
      ensures after.g.reserved.Of(u) == Floor(u) + Outstanding(after.g, after.inFlight, u)
      ensures after.g.reserved.Of(u) <= w.g.reserved.Of(u)
    {
      assert w.g.reserved.Of(u) == Floor(u) + Outstanding(w.g, w.inFlight, u);
    }
  }

  lemma GiveBackKeeps(w: World, t: Tier, n: nat)
    requires Accounts(w) && CanStep(w, GiveBackTier(t, n))
    ensures Accounts(Do(w, GiveBackTier(t, n)))
    ensures Safe(w) ==> Safe(Do(w, GiveBackTier(t, n)))
  {
    hide Cover, OpenCover, Outstanding, Bounded, LimitsCovered, SamplesCovered, TicketsTrue;
    GiveBackConserves(w, t, n);
    SameWritten(w, Do(w, GiveBackTier(t, n)));
    Settles(w, Do(w, GiveBackTier(t, n)));
    LessOutstanding(w, Do(w, GiveBackTier(t, n)));
  }

  lemma LessOutstanding(w: World, after: World)
    requires Conserved(w.g, w.inFlight) && Conserved(after.g, after.inFlight) && SameCover(w, after)
    requires forall u: Tier :: after.g.reserved.Of(u) <= w.g.reserved.Of(u)
    ensures Safe(w) ==> Safe(after)
  {
    hide Cover, OpenCover, Outstanding;
    forall u: Tier
      ensures Outstanding(after.g, after.inFlight, u) <= Outstanding(w.g, w.inFlight, u)
    {
      assert w.g.reserved.Of(u) == Floor(u) + Outstanding(w.g, w.inFlight, u);
      assert after.g.reserved.Of(u) == Floor(u) + Outstanding(after.g, after.inFlight, u);
    }
  }

  // ---- claims on their way ----

  lemma AcceptCovers(w: World, c: Bytes, written: Bytes)
    requires CanStep(w, AcceptClaim(c, written))
    ensures SameCover(w, Do(w, AcceptClaim(c, written)))
  {
    hide WrittenTotal;
    assert StillOpen(Do(w, AcceptClaim(c, written))) == StillOpen(w);
  }

  lemma AcceptKeeps(w: World, c: Bytes, written: Bytes)
    requires Accounts(w) && CanStep(w, AcceptClaim(c, written))
    ensures Accounts(Do(w, AcceptClaim(c, written)))
    ensures Safe(w) ==> Safe(Do(w, AcceptClaim(c, written)))
  {
    hide Cover, OpenCover, FrozenTotal, LimitsCovered, SamplesCovered, TicketsTrue;
    var after := Do(w, AcceptClaim(c, written));
    AcceptCovers(w, c, written);
    forall u: Tier
      ensures Outstanding(after.g, after.inFlight, u) == Outstanding(w.g, w.inFlight, u)
    {
    }
    Settles(w, after);
  }

  lemma ReverseConserves(w: World, n: nat)
    requires Accounts(w) && CanStep(w, ReverseMetadata(n))
    ensures AssertsHold(w, ReverseMetadata(n))
    ensures var after := Do(w, ReverseMetadata(n)); Conserved(after.g, after.inFlight) && Bounded(after.g)
  {
    hide Cover, OpenCover, FrozenTotal, LimitsCovered, SamplesCovered, TicketsTrue, WithinClaims;
    assert w.g.reserved.Of(Metadata) == Floor(Metadata) + Outstanding(w.g, w.inFlight, Metadata);
    var after := Do(w, ReverseMetadata(n));
    forall u: Tier
      ensures after.g.reserved.Of(u) == Floor(u) + Outstanding(after.g, after.inFlight, u)
    {
      assert w.g.reserved.Of(u) == Floor(u) + Outstanding(w.g, w.inFlight, u);
    }
  }

  lemma ReverseKeeps(w: World, n: nat)
    requires Accounts(w) && CanStep(w, ReverseMetadata(n))
    ensures Accounts(Do(w, ReverseMetadata(n)))
    ensures Safe(w) ==> Safe(Do(w, ReverseMetadata(n)))
  {
    hide Cover, OpenCover, Outstanding, Conserved, Bounded, LimitsCovered, SamplesCovered, TicketsTrue;
    ReverseConserves(w, n);
    SameWritten(w, Do(w, ReverseMetadata(n)));
    Settles(w, Do(w, ReverseMetadata(n)));
    LessOutstanding(w, Do(w, ReverseMetadata(n)));
  }

  lemma WrittenAdd(m: map<Token, Bytes>, k: Token, b: Bytes, t: Tier)
    requires k !in m
    ensures WrittenTotal(m[k := b], t) == WrittenTotal(m, t) + b.Of(t)
  {
    SumAdd(PerTokenWritten(m, t), k, b.Of(t));
    assert PerTokenWritten(m[k := b], t) == PerTokenWritten(m, t)[k := b.Of(t)];
  }

  lemma WrittenUpdate(m: map<Token, Bytes>, k: Token, b: Bytes, t: Tier)
    requires k in m
    ensures WrittenTotal(m[k := b], t) + m[k].Of(t) == WrittenTotal(m, t) + b.Of(t)
  {
    SumUpdate(PerTokenWritten(m, t), k, b.Of(t));
    assert PerTokenWritten(m[k := b], t) == PerTokenWritten(m, t)[k := b.Of(t)];
  }

  lemma FreezeCovers(w: World, k: Token)
    requires WithinClaims(w) && CanStep(w, FreezeCut(k))
    ensures SameCover(w, Do(w, FreezeCut(k)))
  {
    hide WrittenTotal;
    var after := Do(w, FreezeCut(k));
    assert StillOpen(after) == StillOpen(w)[k := w.activeWritten];
    forall t: Tier
      ensures Cover(after, t) == Cover(w, t) && OpenCover(after, t) == OpenCover(w, t)
    {
      WrittenAdd(w.frozenWritten, k, w.activeWritten, t);
      WrittenAdd(StillOpen(w), k, w.activeWritten, t);
    }
  }

  lemma FreezeKeeps(w: World, k: Token)
    requires Accounts(w) && CanStep(w, FreezeCut(k))
    ensures Accounts(Do(w, FreezeCut(k)))
    ensures Safe(w) ==> Safe(Do(w, FreezeCut(k)))
  {
    hide Cover, OpenCover, FrozenTotal, LimitsCovered, SamplesCovered, TicketsTrue;
    var after := Do(w, FreezeCut(k));
    FreezeConserves(w.g, w.inFlight, k);
    FreezeCovers(w, k);
    forall u: Tier
      ensures Outstanding(after.g, after.inFlight, u) == Outstanding(w.g, w.inFlight, u)
    {
    }
    Settles(w, after);
  }

  /** A generation completing now is stamped with the current epoch, so nothing leaves the open part. */
  lemma CompleteCovers(w: World, k: Token)
    requires CanStep(w, CompleteCut(k))
    ensures SameCover(w, Do(w, CompleteCut(k)))
  {
    hide WrittenTotal;
    assert StillOpen(Do(w, CompleteCut(k))) == StillOpen(w);
  }

  lemma CompleteKeeps(w: World, k: Token)
    requires Accounts(w) && CanStep(w, CompleteCut(k))
    ensures Accounts(Do(w, CompleteCut(k)))
    ensures Safe(w) ==> Safe(Do(w, CompleteCut(k)))
  {
    hide Cover, OpenCover, FrozenTotal, Outstanding, LimitsCovered, SamplesCovered, TicketsTrue;
    CompleteConserves(w.g, w.inFlight, k);
    CompleteCovers(w, k);
    Settles(w, Do(w, CompleteCut(k)));
    LessOutstanding(w, Do(w, CompleteCut(k)));
  }

  lemma DropCovers(w: World)
    requires Accounts(w) && CanStep(w, DropUncheckpointed) && AssertsHold(w, DropUncheckpointed)
    ensures SameCover(w, Do(w, DropUncheckpointed))
  {
    hide WrittenTotal, LimitsCovered, SamplesCovered, TicketsTrue, Conserved;
    assert StillOpen(Do(w, DropUncheckpointed)) == StillOpen(w);
  }

  lemma DropKeeps(w: World)
    requires Accounts(w) && CanStep(w, DropUncheckpointed)
    ensures Accounts(Do(w, DropUncheckpointed))
    ensures Safe(w) ==> Safe(Do(w, DropUncheckpointed))
  {
    hide Cover, OpenCover, FrozenTotal, LimitsCovered, SamplesCovered, TicketsTrue;
    FinishUncheckpointedConserves(w.g, w.inFlight);
    var after := Do(w, DropUncheckpointed);
    DropCovers(w);
    forall u: Tier
      ensures Outstanding(after.g, after.inFlight, u) <= Outstanding(w.g, w.inFlight, u)
      ensures after.g.reserved.Of(u) <= w.g.reserved.Of(u)
    {
    }
    Settles(w, after);
  }

  // ---- observations ----

  lemma BeginKeeps(w: World)
    requires Accounts(w) && CanStep(w, BeginObservation)
    ensures Accounts(Do(w, BeginObservation))
    ensures Safe(w) ==> Safe(Do(w, BeginObservation))
  {
    hide FrozenTotal, WrittenTotal;
  }

  lemma SampleFits(w: World, t: Tier)
    ensures w.free.Of(t) <= OpenCover(w, t)
  {
    hide WrittenTotal;
  }

  lemma SampleKeeps(w: World, t: Tier)
    requires Accounts(w) && CanStep(w, SampleTier(t))
    ensures Accounts(Do(w, SampleTier(t)))
    ensures Safe(w) ==> Safe(Do(w, SampleTier(t)))
  {
    hide FrozenTotal, WrittenTotal, Conserved, Bounded, Cover, OpenCover;
    var after := Do(w, SampleTier(t));
    SameWritten(w, after);
    forall th | th in after.tickets
      ensures TicketTrue(after, after.tickets[th])
    {
      assert TicketTrue(w, w.tickets[th]);
    }
    SampleFits(w, t);
  }

  /** Publishing or zeroing limits keeps everything, provided each limit stays covered. */
  lemma LimitKeeps(w: World, after: World)
    requires Accounts(w)
    requires after == w.(g := w.g.(limit := after.g.limit), sampled := after.sampled, published := after.published)
    requires forall t: Tier :: after.g.limit.Of(t) <= Cover(w, t) && after.g.limit.Of(t) <= U64_MAX
    requires forall t: Tier :: t in after.sampled ==> t in w.sampled && after.sampled[t] == w.sampled[t]
    requires forall t: Tier :: t in after.published ==> after.g.limit.Of(t) <= OpenCover(w, t)
    ensures Accounts(after)
    ensures Safe(w) ==> Safe(after)
  {
    hide Cover, OpenCover, FrozenTotal, Conserved, Bounded;
    SameWritten(w, after);
    LimitDoesNotMatter(w.g, after.g, w.inFlight);
    BoundedStays(w.g, after.g.limit);
    forall th | th in after.tickets
      ensures TicketTrue(after, after.tickets[th])
    {
      assert TicketTrue(w, w.tickets[th]);
    }
  }

  lemma PublishKeeps(w: World, t: Tier)
    requires Accounts(w) && CanStep(w, PublishTier(t))
    ensures Accounts(Do(w, PublishTier(t)))
    ensures Safe(w) ==> Safe(Do(w, PublishTier(t)))
  {
    hide Cover, OpenCover, Conserved, WithinClaims, TicketsTrue;
    var after := Do(w, PublishTier(t));
    OpenIsPart(w, t);
    forall u: Tier
      ensures after.g.limit.Of(u) <= Cover(w, u) && after.g.limit.Of(u) <= U64_MAX
      ensures u in after.published ==> after.g.limit.Of(u) <= OpenCover(w, u)
    {
      if u != t {
        assert after.g.limit.Of(u) == w.g.limit.Of(u);
      }
    }
    LimitKeeps(w, after);
  }

  lemma FailKeeps(w: World)
    requires Accounts(w) && CanStep(w, FailObservation)
    ensures Accounts(Do(w, FailObservation))
    ensures Safe(w) ==> Safe(Do(w, FailObservation))
  {
    hide Cover, OpenCover, Conserved, WithinClaims, TicketsTrue;
    LimitKeeps(w, Do(w, FailObservation));
  }

  /** A retirement: the written bytes of expired claims leave the cover, the whole claims leave the counters. */
  ghost predicate Retires(w: World, after: World) {
    && after.free == w.free && after.published <= w.published && after.sampled.Keys <= w.sampled.Keys
    && (forall t: Tier :: t in after.sampled ==> after.sampled[t] == w.sampled[t])
    && after.inFlight == w.inFlight && after.g.limit == w.g.limit
    && after.tickets == AllAged(w.tickets, LostWritten(w, after), NONE)
    && (forall t: Tier :: OpenCover(after, t) == OpenCover(w, t) <= Cover(after, t) <= Cover(w, t))
    && (forall t: Tier ::
          w.g.reserved.Of(t) - after.g.reserved.Of(t) >= Cover(w, t) - Cover(after, t))
  }

  lemma RetirementKeeps(w: World, after: World)
    requires Accounts(w) && w.published == ALL_TIERS && Retires(w, after)
    requires !after.panicked && Conserved(after.g, after.inFlight) && Bounded(after.g) && WithinClaims(after)
    ensures Accounts(after)
    ensures Safe(w) ==> Safe(after)
  {
    hide OpenCover, Bounded, WithinClaims, FrozenTotal, Written;
    forall t: Tier
      ensures w.g.reserved.Of(t) == Floor(t) + Outstanding(w.g, w.inFlight, t)
      ensures after.g.reserved.Of(t) == Floor(t) + Outstanding(after.g, after.inFlight, t)
      ensures LostWritten(w, after).Of(t) == Cover(w, t) - Cover(after, t)
      ensures t in w.published
    {
    }
    forall th | th in after.tickets
      ensures TicketTrue(after, after.tickets[th])
    {
      assert TicketTrue(w, w.tickets[th]);
    }
  }

  lemma ExpiredDropped(w: World, t: Tier, expired: set<Token>)
    requires w.frozenWritten.Keys == w.g.frozen.Keys
    requires expired == set k | k in w.g.frozen && Expired(w.g.frozen[k].stamp, w.g.epoch)
    ensures PerToken(w.g.frozen, t) - expired == PerToken(Surviving(w.g.frozen, w.g.epoch), t)
    ensures PerTokenWritten(w.frozenWritten, t) - expired == PerTokenWritten(StillOpen(w), t)
  {
  }

  lemma FrozenWrittenRetired(w: World, t: Tier)
    requires WithinClaims(w)
    ensures 0 <= WrittenTotal(w.frozenWritten, t) - WrittenTotal(StillOpen(w), t) <= RetiredFrozen(w.g, t)
  {
    hide Sum, Surviving, StillOpen;
    var expired := set k | k in w.g.frozen && Expired(w.g.frozen[k].stamp, w.g.epoch);
    ExpiredDropped(w, t, expired);
    DropTakesLess(PerTokenWritten(w.frozenWritten, t), PerToken(w.g.frozen, t), expired);
    SumAtMost(PerTokenWritten(w.frozenWritten, t) - expired, PerTokenWritten(w.frozenWritten, t));
  }

  lemma RetireFrozenRetires(w: World)
    requires Accounts(w) && CanStep(w, RetireFrozen) && AssertsHold(w, RetireFrozen)
    ensures Retires(w, Do(w, RetireFrozen))
  {
    hide Conserved, Bounded, LimitsCovered, SamplesCovered, TicketsTrue, WrittenTotal, RetiredFrozen;
    var after := Do(w, RetireFrozen);
    assert StillOpen(after) == StillOpen(w) == after.frozenWritten;
    forall t: Tier
      ensures OpenCover(after, t) == OpenCover(w, t) <= Cover(after, t) <= Cover(w, t)
      ensures w.g.reserved.Of(t) - after.g.reserved.Of(t) >= Cover(w, t) - Cover(after, t)
    {
      FrozenWrittenRetired(w, t);
    }
    SameLoss(w, w.(g := FrozenRetired(w.g), frozenWritten := StillOpen(w)), after);
  }

  lemma SameLoss(w: World, a: World, b: World)
    requires forall t: Tier :: Written(a, t) == Written(b, t)
    ensures LostWritten(w, a) == LostWritten(w, b)
  {
  }

  lemma RetireFrozenKeeps(w: World)
    requires Accounts(w) && CanStep(w, RetireFrozen)
    ensures Accounts(Do(w, RetireFrozen))
    ensures Safe(w) ==> Safe(Do(w, RetireFrozen))
  {
    hide Cover, OpenCover, FrozenTotal, LimitsCovered, SamplesCovered, TicketsTrue, LostWritten;
    RetiredIsReserved(w.g, w.inFlight);
    var after := Do(w, RetireFrozen);
    FrozenRetiredConserves(w.g, w.inFlight);
    RetireFrozenRetires(w);
    RetirementKeeps(w, after);
  }

  lemma RetireLeftoversRetires(w: World)
    requires Accounts(w) && CanStep(w, RetireUncheckpointed) && AssertsHold(w, RetireUncheckpointed)
    ensures Retires(w, Do(w, RetireUncheckpointed))
  {
    hide Conserved, Bounded, LimitsCovered, SamplesCovered, TicketsTrue, WrittenTotal;
    var after := Do(w, RetireUncheckpointed);
    assert StillOpen(after) == StillOpen(w);
    forall t: Tier
      ensures OpenCover(after, t) == OpenCover(w, t) <= Cover(after, t) <= Cover(w, t)
      ensures w.g.reserved.Of(t) - after.g.reserved.Of(t) >= Cover(w, t) - Cover(after, t)
    {
      FrozenWrittenRetired(w, t);
      assert w.g.uncheckpointed.Charged().Of(t) >= w.uncheckpointedWritten.Of(t);
    }
  }

  lemma RetireLeftoversKeeps(w: World)
    requires Accounts(w) && CanStep(w, RetireUncheckpointed)
    ensures Accounts(Do(w, RetireUncheckpointed))
    ensures Safe(w) ==> Safe(Do(w, RetireUncheckpointed))
  {
    hide Cover, OpenCover, FrozenTotal, LimitsCovered, SamplesCovered, TicketsTrue, LostWritten;
    RetiredIsReserved(w.g, w.inFlight);
    var after := Do(w, RetireUncheckpointed);
    LeftoversRetiredConserves(w.g, w.inFlight);
    RetireLeftoversRetires(w);
    RetirementKeeps(w, after);
  }

  // ---- space written and gained ----

  lemma WriteFrozenCovers(w: World, k: Token, t: Tier, n: nat)
    requires WithinClaims(w) && CanStep(w, WriteBytes(FrozenBucket(k), t, n))
    ensures SameCover(w, Filled(w, FrozenBucket(k), t, n))
  {
    hide WrittenTotal;
    var after := Filled(w, FrozenBucket(k), t, n);
    var now := after.frozenWritten[k];
    assert StillOpen(after) == StillOpen(w)[k := now];
    forall u: Tier
      ensures Cover(after, u) == Cover(w, u) && OpenCover(after, u) == OpenCover(w, u)
    {
      WrittenUpdate(w.frozenWritten, k, now, u);
      WrittenUpdate(StillOpen(w), k, now, u);
    }
  }

  lemma WriteLooseCovers(w: World, b: Bucket, t: Tier, n: nat, u: Tier)
    requires w.free.Of(t) >= n && MayWrite(w, b) && !b.FrozenBucket?
    ensures var after := Filled(w, b, t, n);
            Cover(after, u) == Cover(w, u) && OpenCover(after, u) == OpenCover(w, u)
  {
    hide WrittenTotal, StillOpen;
    SameFrozenOpen(w, Filled(w, b, t, n));
  }

  lemma SameFrozenOpen(w: World, after: World)
    requires after.frozenWritten == w.frozenWritten && after.g.frozen == w.g.frozen && after.g.epoch == w.g.epoch
    ensures StillOpen(after) == StillOpen(w)
  {
  }

  lemma WriteCovers(w: World, b: Bucket, t: Tier, n: nat)
    requires WithinClaims(w) && CanStep(w, WriteBytes(b, t, n))
    ensures SameCover(w, Filled(w, b, t, n))
  {
    if b.FrozenBucket? {
      WriteFrozenCovers(w, b.token, t, n);
    } else {
      forall u: Tier {
        WriteLooseCovers(w, b, t, n, u);
      }
    }
  }

  lemma WriteKeeps(w: World, b: Bucket, t: Tier, n: nat)
    requires Accounts(w) && CanStep(w, WriteBytes(b, t, n))
    ensures Accounts(Do(w, WriteBytes(b, t, n)))
    ensures Safe(w) ==> Safe(Do(w, WriteBytes(b, t, n)))
  {
    hide Cover, OpenCover, Outstanding, LimitsCovered, SamplesCovered, TicketsTrue, Conserved, Bounded;
    assert Do(w, WriteBytes(b, t, n)) == Filled(w, b, t, n);
    WriteCovers(w, b, t, n);
    Settles(w, Filled(w, b, t, n));
  }

  lemma GainKeeps(w: World, t: Tier, n: nat)
    requires Accounts(w) && CanStep(w, GainSpace(t, n))
    ensures Accounts(Do(w, GainSpace(t, n)))
    ensures Safe(w) ==> Safe(Do(w, GainSpace(t, n)))
  {
    hide WrittenTotal, Outstanding, Conserved, Bounded;
    var after := Do(w, GainSpace(t, n));
    assert StillOpen(after) == StillOpen(w);
    forall u: Tier
      ensures Cover(after, u) == Cover(w, u) + NONE.With(t, n).Of(u)
      ensures OpenCover(after, u) == OpenCover(w, u) + NONE.With(t, n).Of(u)
    {
    }
    forall th | th in after.tickets
      ensures TicketTrue(after, after.tickets[th])
    {
      assert TicketTrue(w, w.tickets[th]);
    }
  }

  // ---- every step ----

  lemma StepKeeps(w: World, step: Step)
    requires Accounts(w) && CanStep(w, step)
    ensures Accounts(Do(w, step))
    ensures Safe(w) ==> (Safe(Do(w, step)) <==> !Stale(w, step))
  {
    hide Accounts, Do, Safe;
    match step
    case LoadReserved(_, _, _) => TicketStepKeeps(w, step);
    case TestLimit(_) => TicketStepKeeps(w, step);
    case FailExchange(_) => TicketStepKeeps(w, step);
    case Exchange(th) =>
      ExchangeKeeps(w, th);
      if Safe(w) {
        ExchangeSafeIff(w, th);
      }
    case GiveBackTier(t, n) => GiveBackKeeps(w, t, n);
    case AcceptClaim(c, written) => AcceptKeeps(w, c, written);
    case ReverseMetadata(n) => ReverseKeeps(w, n);
    case FreezeCut(k) => FreezeKeeps(w, k);
    case CompleteCut(k) => CompleteKeeps(w, k);
    case DropUncheckpointed => DropKeeps(w);
    case BeginObservation => BeginKeeps(w);
    case SampleTier(t) => SampleKeeps(w, t);
    case PublishTier(t) => PublishKeeps(w, t);
    case RetireFrozen => RetireFrozenKeeps(w);
    case RetireUncheckpointed => RetireLeftoversKeeps(w);
    case FailObservation => FailKeeps(w);
    case WriteBytes(b, t, n) => WriteKeeps(w, b, t, n);
    case GainSpace(t, n) => GainKeeps(w, t, n);
  }

  // ---- every run ----

  /** Conservation, the cover of every limit, and no failed assertion, in every run. */
  lemma {:induction false} RunKeeps(w: World, steps: seq<Step>)
    requires Accounts(w) && Runs(w, steps)
    ensures Accounts(Final(w, steps))
    decreases |steps|
  {
    hide Accounts, CanStep, Do, Stale, Safe;
    if steps != [] {
      StepKeeps(w, steps[0]);
      RunKeeps(Do(w, steps[0]), steps[1..]);
    }
  }

  lemma AccountsHold(free: Bytes, steps: seq<Step>)
    requires free.metadata >= METADATA_FLOOR && forall t: Tier :: free.Of(t) <= U64_MAX
    requires Runs(Start(free), steps)
    ensures var w := Final(Start(free), steps);
            !w.panicked && Conserved(w.g, w.inFlight) && forall t: Tier :: w.g.limit.Of(t) <= Cover(w, t)
  {
    StartAccounts(free);
    RunKeeps(Start(free), steps);
  }

  /** Every state of the run is safe. */
  ghost predicate AlwaysSafe(w: World, steps: seq<Step>)
    requires Runs(w, steps)
    decreases |steps|
  {
    Safe(w) && (steps == [] || AlwaysSafe(Do(w, steps[0]), steps[1..]))
  }

  ghost predicate NeverStale(w: World, steps: seq<Step>)
    requires Runs(w, steps)
    decreases |steps|
  {
    steps == [] || (!Stale(w, steps[0]) && NeverStale(Do(w, steps[0]), steps[1..]))
  }

  lemma {:induction false} RunSafeIff(w: World, steps: seq<Step>)
    requires Accounts(w) && Safe(w) && Runs(w, steps)
    ensures AlwaysSafe(w, steps) <==> NeverStale(w, steps)
    decreases |steps|
  {
    hide Accounts, CanStep, Do, Stale, Safe;
    if steps != [] {
      StepKeeps(w, steps[0]);
      if Safe(Do(w, steps[0])) {
        RunSafeIff(Do(w, steps[0]), steps[1..]);
      }
    }
  }

  /** Main result: in every run, space is never over-committed if and only if no exchange is stale. */
  lemma NeverOvercommitted(free: Bytes, steps: seq<Step>)
    requires free.metadata >= METADATA_FLOOR && forall t: Tier :: free.Of(t) <= U64_MAX
    requires Runs(Start(free), steps)
    ensures AlwaysSafe(Start(free), steps) <==> NeverStale(Start(free), steps)
  {
    StartAccounts(free);
    RunSafeIff(Start(free), steps);
  }

  lemma {:induction false} EndIsSafe(w: World, steps: seq<Step>)
    requires Runs(w, steps) && AlwaysSafe(w, steps)
    ensures Safe(Final(w, steps))
    decreases |steps|
  {
    hide CanStep, Do, Safe;
    if steps != [] {
      EndIsSafe(Do(w, steps[0]), steps[1..]);
    }
  }

  // ---- runs that no retirement disturbs ----

  ghost predicate StandsTested(w: World, t: Tier) {
    exists th :: th in w.tickets && w.tickets[th].Tested? && w.tickets[th].tier == t
  }

  /** A retirement takes written bytes of a tier while a reservation there stands between test and exchange. */
  ghost predicate Disturbs(w: World, step: Step)
    requires CanStep(w, step)
  {
    (step.RetireFrozen? || step.RetireUncheckpointed?)
    && exists t: Tier :: StandsTested(w, t) && Written(Do(w, step), t) < Written(w, t)
  }

  ghost predicate Undisturbed(w: World, steps: seq<Step>)
    requires Runs(w, steps)
    decreases |steps|
  {
    steps == [] || (!Disturbs(w, steps[0]) && Undisturbed(Do(w, steps[0]), steps[1..]))
  }

  ghost predicate NothingLost(w: World) {
    forall th :: th in w.tickets && w.tickets[th].Tested? ==> w.tickets[th].lost == 0
  }

  lemma UndisturbedStep(w: World, step: Step)
    requires Accounts(w) && NothingLost(w) && CanStep(w, step) && !Disturbs(w, step)
    ensures NothingLost(Do(w, step)) && !Stale(w, step)
  {
    hide Conserved, Bounded, WithinClaims, LimitsCovered, SamplesCovered, Written, RetiredFrozen, StillOpen;
    var after := Do(w, step);
    if step.Exchange? && Hits(w, step.thread) {
      assert TicketTrue(w, w.tickets[step.thread]);
    }
    forall th | th in after.tickets && after.tickets[th].Tested?
      ensures after.tickets[th].lost == 0
    {
      if (step.RetireFrozen? || step.RetireUncheckpointed?) && AssertsHold(w, step) {
        assert StandsTested(w, w.tickets[th].tier);
        LossIsLoss(w, step);
      }
    }
  }

  lemma LossIsLoss(w: World, step: Step)
    requires CanStep(w, step) && AssertsHold(w, step) && (step.RetireFrozen? || step.RetireUncheckpointed?)
    ensures var after := Do(w, step);
            after.tickets == AllAged(w.tickets, LostWritten(w, after), NONE)
  {
    var after := Do(w, step);
    if step.RetireFrozen? {
      SameLoss(w, w.(g := FrozenRetired(w.g), frozenWritten := StillOpen(w)), after);
    } else {
      assert forall t: Tier :: Written(after.(tickets := w.tickets), t) == Written(after, t);
      SameLoss(w, after.(tickets := w.tickets), after);
    }
  }

  lemma {:induction false} UndisturbedIsFresh(w: World, steps: seq<Step>)
    requires Accounts(w) && NothingLost(w) && Runs(w, steps) && Undisturbed(w, steps)
    ensures NeverStale(w, steps)
    decreases |steps|
  {
    hide Accounts, NothingLost, CanStep, Do, Stale, Safe, Disturbs;
    if steps != [] {
      StepKeeps(w, steps[0]);
      UndisturbedStep(w, steps[0]);
      UndisturbedIsFresh(Do(w, steps[0]), steps[1..]);
    }
  }

  /** Nothing is over-committed when no retirement falls between a reservation's test and its exchange. */
  lemma UndisturbedNeverOvercommits(free: Bytes, steps: seq<Step>)
    requires free.metadata >= METADATA_FLOOR && forall t: Tier :: free.Of(t) <= U64_MAX
    requires Runs(Start(free), steps) && Undisturbed(Start(free), steps)
    ensures AlwaysSafe(Start(free), steps)
  {
    StartAccounts(free);
    UndisturbedIsFresh(Start(free), steps);
    RunSafeIff(Start(free), steps);
  }

  // ---- what a writer and a generation may count on ----

  lemma BucketWithinOutstanding(w: World, b: Bucket, t: Tier)
    requires WithinClaims(w)
    ensures ClaimOf(w, b).Of(t) - WrittenBy(w, b).Of(t) <= Outstanding(w.g, w.inFlight, t) - Written(w, t)
  {
    hide Sum;
    var claims, writes := PerToken(w.g.frozen, t), PerTokenWritten(w.frozenWritten, t);
    SumAtMost(writes, claims);
    if b.FrozenBucket? && b.token in w.g.frozen {
      DropTakesLess(writes, claims, {b.token});
      SumRemove(writes, b.token);
      SumRemove(claims, b.token);
      SumAtMost(writes - {b.token}, claims - {b.token});
    }
  }

  /** A claim of any kind that stays within its bytes never finds its tier full and never eats the floor. */
  lemma ClaimedWriteFits(free: Bytes, steps: seq<Step>, b: Bucket, t: Tier, n: nat)
    requires free.metadata >= METADATA_FLOOR && forall u: Tier :: free.Of(u) <= U64_MAX
    requires Runs(Start(free), steps) && NeverStale(Start(free), steps)
    requires Fits(Final(Start(free), steps), b, t, n)
    ensures Final(Start(free), steps).free.Of(t) >= Floor(t) + n
  {
    hide Outstanding, Written, ClaimOf, WrittenBy;
    StartAccounts(free);
    RunKeeps(Start(free), steps);
    RunSafeIff(Start(free), steps);
    EndIsSafe(Start(free), steps);
    BucketWithinOutstanding(Final(Start(free), steps), b, t);
  }

  lemma StepKeepsUnexpired(w: World, step: Step, k: Token)
    requires CanStep(w, step) && !step.BeginObservation?
    requires k in w.g.frozen && !Expired(w.g.frozen[k].stamp, w.g.epoch)
    ensures var after := Do(w, step);
            && k in after.g.frozen && !Expired(after.g.frozen[k].stamp, after.g.epoch)
            && after.g.frozen[k].bytes == w.g.frozen[k].bytes
  {
    hide Cover, Written, RetiredFrozen, FrozenTotal, StillOpen, LostWritten, AllAged, Test;
  }

  /**
    Whatever else happens, a claim that is open, or was completed after the last
    observation began, is held in full until another observation begins.
   */
  lemma {:induction false} CompletionOutlivesObservation(w: World, steps: seq<Step>, k: Token)
    requires Runs(w, steps) && BeginObservation !in steps
    requires k in w.g.frozen && !Expired(w.g.frozen[k].stamp, w.g.epoch)
    ensures var after := Final(w, steps);
            k in after.g.frozen && after.g.frozen[k].bytes == w.g.frozen[k].bytes
    decreases |steps|
  {
    hide CanStep, Do, Expired;
    if steps != [] {
      StepKeepsUnexpired(w, steps[0], k);
      CompletionOutlivesObservation(Do(w, steps[0]), steps[1..], k);
    }
  }

  lemma StepKeepsOpen(w: World, step: Step, k: Token)
    requires CanStep(w, step) && step != CompleteCut(k) && k in w.g.frozen && w.g.frozen[k].stamp == Open
    ensures k in Do(w, step).g.frozen && Do(w, step).g.frozen[k] == w.g.frozen[k]
  {
    hide Cover, Written, RetiredFrozen, FrozenTotal, StillOpen, LostWritten, AllAged, Test;
  }

  lemma {:induction false} StaysOpen(w: World, steps: seq<Step>, k: Token)
    requires Runs(w, steps) && CompleteCut(k) !in steps && k in w.g.frozen && w.g.frozen[k].stamp == Open
    ensures k in Final(w, steps).g.frozen && Final(w, steps).g.frozen[k] == w.g.frozen[k]
    decreases |steps|
  {
    hide CanStep, Do;
    if steps != [] {
      StepKeepsOpen(w, steps[0], k);
      StaysOpen(Do(w, steps[0]), steps[1..], k);
    }
  }

  /** A frozen generation holds exactly what was active at its cut until it is completed, through any observations. */
  lemma UncompletedIsHeld(w: World, k: Token, steps: seq<Step>)
    requires CanStep(w, FreezeCut(k)) && Runs(Do(w, FreezeCut(k)), steps) && CompleteCut(k) !in steps
    ensures var end := Final(Do(w, FreezeCut(k)), steps);
            k in end.g.frozen && end.g.frozen[k].bytes == w.g.active
  {
    StaysOpen(Do(w, FreezeCut(k)), steps, k);
  }

  // ---- what an observation gives back ----

  /** The claim was completed before the current observation began, or is gone already. */
  ghost predicate Due(w: World, k: Token) {
    k in w.g.frozen ==> Expired(w.g.frozen[k].stamp, w.g.epoch)
  }

  lemma StepKeepsDue(w: World, step: Step, k: Token)
    requires CanStep(w, step) && step != FreezeCut(k) && Due(w, k)
    ensures Due(Do(w, step), k)
  {
    hide Cover, Written, RetiredFrozen, FrozenTotal, StillOpen, LostWritten, AllAged, Test;
  }

  lemma {:induction false} StaysDue(w: World, steps: seq<Step>, k: Token)
    requires Runs(w, steps) && FreezeCut(k) !in steps && Due(w, k)
    ensures Due(Final(w, steps), k)
    decreases |steps|
  {
    hide CanStep, Do, Due;
    if steps != [] {
      StepKeepsDue(w, steps[0], k);
      StaysDue(Do(w, steps[0]), steps[1..], k);
    }
  }

  lemma BeginMakesDue(w: World, k: Token)
    requires Accounts(w) && CanStep(w, BeginObservation)
    requires k in w.g.frozen && w.g.frozen[k].stamp.CompletedAfter?
    ensures Due(Do(w, BeginObservation), k)
  {
  }

  lemma RetireTakesDue(w: World, k: Token)
    requires Accounts(w) && CanStep(w, RetireFrozen) && Due(w, k)
    ensures k !in Do(w, RetireFrozen).g.frozen
  {
    hide RetiredFrozen, StillOpen, LostWritten, AllAged, FrozenTotal;
    RetiredIsReserved(w.g, w.inFlight);
  }

  /**
    The other half of the epoch rule: a claim completed before an observation begins is
    retired when that observation, or any later one, reaches its frozen pass.
   */
  lemma CompletedIsRetired(w: World, steps: seq<Step>, k: Token)
    requires Accounts(w) && CanStep(w, BeginObservation)
    requires k in w.g.frozen && w.g.frozen[k].stamp.CompletedAfter?
    requires Runs(Do(w, BeginObservation), steps) && FreezeCut(k) !in steps
    requires CanStep(Final(Do(w, BeginObservation), steps), RetireFrozen)
    ensures k !in Do(Final(Do(w, BeginObservation), steps), RetireFrozen).g.frozen
  {
    hide Accounts, CanStep, Do, Due, Runs, Final, Stale, Safe;
    StepKeeps(w, BeginObservation);
    BeginMakesDue(w, k);
    StaysDue(Do(w, BeginObservation), steps, k);
    RunKeeps(Do(w, BeginObservation), steps);
    RetireTakesDue(Final(Do(w, BeginObservation), steps), k);
  }
}
