/**
  The commit capacity governor: admission counters for three storage tiers, the
  claims of the open commit generation, the claims frozen per commit token, and
  the physical claims that no checkpoint will ever cover.
 */
module CommitCapacity {
  import opened Basics
  import opened TokenSums

  const METADATA_FLOOR: nat := 64 * 1024 * 1024

  datatype Tier = Metadata | Data | SmallFile

  datatype Bytes = Bytes(metadata: nat, data: nat, smallFile: nat) {
    function Of(t: Tier): nat {
      match t case Metadata => metadata case Data => data case SmallFile => smallFile
    }

    function Plus(o: Bytes): Bytes {
      Bytes(metadata + o.metadata, data + o.data, smallFile + o.smallFile)
    }

    predicate Covers(o: Bytes) {
      metadata >= o.metadata && data >= o.data && smallFile >= o.smallFile
    }

    function Minus(o: Bytes): Bytes
      requires Covers(o)
    {
      Bytes(metadata - o.metadata, data - o.data, smallFile - o.smallFile)
    }

    function With(t: Tier, n: nat): Bytes {
      match t
      case Metadata => this.(metadata := n)
      case Data => this.(data := n)
      case SmallFile => this.(smallFile := n)
    }
  }

  const NONE: Bytes := Bytes(0, 0, 0)

  datatype Stamp = Open | CompletedAfter(epoch: nat)

  /** The claim was completed before the observation `epoch` began. */
  predicate Expired(s: Stamp, epoch: nat) {
    s.CompletedAfter? && s.epoch < epoch
  }

  datatype FrozenClaim = FrozenClaim(bytes: Bytes, stamp: Stamp)

  datatype Uncheckpointed = Uncheckpointed(data: nat, smallFile: nat, stamp: Stamp) {
    /** Small-file bytes occupy the Metadata tier as well. */
    function Charged(): Bytes {
      Bytes(smallFile, data, smallFile)
    }
  }

  datatype Governor = Governor(
    limit: Bytes,
    reserved: Bytes,
    active: Bytes,
    epoch: nat,
    frozen: map<Token, FrozenClaim>,
    uncheckpointed: Uncheckpointed)

  function Floor(t: Tier): nat {
    if t == Metadata then METADATA_FLOOR else 0
  }

  function FloorBytes(): Bytes {
    Bytes(METADATA_FLOOR, 0, 0)
  }

  // ---- the updates ----

  function Fresh(snapshot: Bytes): (g: Governor) {
    Governor(snapshot, FloorBytes(), NONE, 0, map[], Uncheckpointed(0, 0, Open))
  }

  /** `reserve_bounded` on one tier. */
  predicate CanReserve(g: Governor, t: Tier, bytes: nat) {
    bytes == 0 || g.reserved.Of(t) + bytes <= g.limit.Of(t)
  }

  function Reserve(g: Governor, t: Tier, bytes: nat): (after: Governor) {
    g.(reserved := g.reserved.With(t, g.reserved.Of(t) + bytes))
  }

  /** `subtract_reserved` on one tier, with its assertion as a precondition. */
  function Release(g: Governor, t: Tier, bytes: nat): (after: Governor)
    requires g.reserved.Of(t) >= bytes
  {
    g.(reserved := g.reserved.With(t, g.reserved.Of(t) - bytes))
  }

  function Accept(g: Governor, claim: Bytes): (after: Governor) {
    g.(active := g.active.Plus(claim))
  }

  function ReleaseActiveMetadata(g: Governor, bytes: nat): (after: Governor)
    requires g.active.metadata >= bytes && g.reserved.metadata >= bytes
  {
    g.(active := g.active.(metadata := g.active.metadata - bytes),
       reserved := g.reserved.(metadata := g.reserved.metadata - bytes))
  }

  function Freeze(g: Governor, token: Token): (after: Governor) {
    g.(active := NONE, frozen := g.frozen[token := FrozenClaim(g.active, Open)])
  }

  function Complete(g: Governor, token: Token): (after: Governor)
    requires token in g.frozen
  {
    g.(frozen := g.frozen[token := g.frozen[token].(stamp := CompletedAfter(g.epoch))])
  }

  function FinishUncheckpointed(g: Governor): (after: Governor)
    requires g.active.metadata >= g.active.smallFile
    requires g.reserved.metadata >= g.active.metadata - g.active.smallFile
  {
    var kept := g.(active := NONE,
                   reserved := g.reserved.(metadata := g.reserved.metadata - (g.active.metadata - g.active.smallFile)));
    if g.active.data == 0 && g.active.smallFile == 0 then kept
    else
      var u := g.uncheckpointed;
      var stamp := if u.stamp.CompletedAfter? && u.stamp.epoch > g.epoch then u.stamp else CompletedAfter(g.epoch);
      kept.(uncheckpointed := Uncheckpointed(u.data + g.active.data, u.smallFile + g.active.smallFile, stamp))
  }

  function Begin(g: Governor): (after: Governor) {
    g.(epoch := g.epoch + 1)
  }

  function PublishLimit(g: Governor, t: Tier, available: nat): (after: Governor) {
    g.(limit := g.limit.With(t, available))
  }

  function ObservationFailed(g: Governor): (after: Governor) {
    g.(limit := NONE)
  }

  function Surviving(frozen: map<Token, FrozenClaim>, epoch: nat): (rest: map<Token, FrozenClaim>)
    ensures rest.Keys <= frozen.Keys
  {
    map k | k in frozen && !Expired(frozen[k].stamp, epoch) :: frozen[k]
  }

  ghost function PerToken(frozen: map<Token, FrozenClaim>, t: Tier): (m: map<Token, nat>) {
    map k | k in frozen :: frozen[k].bytes.Of(t)
  }

  ghost function FrozenTotal(frozen: map<Token, FrozenClaim>, t: Tier): nat {
    Sum(PerToken(frozen, t))
  }

  /** What the frozen claims completed before this observation hold of a tier. */
  ghost function RetiredFrozen(g: Governor, t: Tier): (bytes: int) {
    FrozenTotal(g.frozen, t) - FrozenTotal(Surviving(g.frozen, g.epoch), t)
  }

  /** The `retain` half of `finish_observation`, with its assertions as preconditions. */
  ghost function FrozenRetired(g: Governor): (after: Governor)
    requires forall t: Tier :: 0 <= RetiredFrozen(g, t) <= g.reserved.Of(t)
    ensures forall t: Tier :: after.reserved.Of(t) == g.reserved.Of(t) - RetiredFrozen(g, t)
  {
    assert forall t: Tier :: g.reserved.Of(t) - RetiredFrozen(g, t) >= 0;
    g.(reserved := Bytes(g.reserved.Of(Metadata) - RetiredFrozen(g, Metadata),
                         g.reserved.Of(Data) - RetiredFrozen(g, Data),
                         g.reserved.Of(SmallFile) - RetiredFrozen(g, SmallFile)),
       frozen := Surviving(g.frozen, g.epoch))
  }

  function RetiredLeftovers(g: Governor): Bytes {
    if Expired(g.uncheckpointed.stamp, g.epoch) then g.uncheckpointed.Charged() else NONE
  }

  /** Its other half, over the claims no checkpoint covers. */
  function LeftoversRetired(g: Governor): (after: Governor)
    requires g.reserved.Covers(RetiredLeftovers(g))
  {
    if Expired(g.uncheckpointed.stamp, g.epoch)
    then g.(reserved := g.reserved.Minus(g.uncheckpointed.Charged()), uncheckpointed := Uncheckpointed(0, 0, Open))
    else g
  }

  // ---- conservation ----

  ghost function Outstanding(g: Governor, inFlight: Bytes, t: Tier): nat {
    inFlight.Of(t) + g.active.Of(t) + FrozenTotal(g.frozen, t) + g.uncheckpointed.Charged().Of(t)
  }

  /**
    Each tier's counter is its floor plus every claim still outstanding on it:
    reserved but not yet accepted, active, frozen, or uncheckpointed.
   */
  ghost predicate Conserved(g: Governor, inFlight: Bytes) {
    forall t: Tier :: g.reserved.Of(t) == Floor(t) + Outstanding(g, inFlight, t)
  }

  ghost predicate Bounded(g: Governor) {
    && (forall t: Tier :: g.limit.Of(t) <= U64_MAX && g.reserved.Of(t) <= U64_MAX)
    && (forall k :: k in g.frozen && g.frozen[k].stamp.CompletedAfter? ==> g.frozen[k].stamp.epoch <= g.epoch)
    && (g.uncheckpointed.stamp.CompletedAfter? ==> g.uncheckpointed.stamp.epoch <= g.epoch)
    && g.active.metadata >= g.active.smallFile
  }

  lemma FreshConserved(snapshot: Bytes)
    ensures Conserved(Fresh(snapshot), NONE)
  {
  }

  lemma FreezeConserves(g: Governor, inFlight: Bytes, token: Token)
    requires Conserved(g, inFlight) && token !in g.frozen
    ensures Conserved(Freeze(g, token), inFlight)
    ensures forall t: Tier :: FrozenTotal(Freeze(g, token).frozen, t) == FrozenTotal(g.frozen, t) + g.active.Of(t)
  {
    forall t: Tier
      ensures FrozenTotal(Freeze(g, token).frozen, t) == FrozenTotal(g.frozen, t) + g.active.Of(t)
    {
      SumAdd(PerToken(g.frozen, t), token, g.active.Of(t));
      assert PerToken(Freeze(g, token).frozen, t) == PerToken(g.frozen, t)[token := g.active.Of(t)];
    }
  }

  lemma CompleteConserves(g: Governor, inFlight: Bytes, token: Token)
    requires Conserved(g, inFlight) && token in g.frozen
    ensures Conserved(Complete(g, token), inFlight)
    ensures forall t: Tier :: FrozenTotal(Complete(g, token).frozen, t) == FrozenTotal(g.frozen, t)
  {
    forall t: Tier
      ensures FrozenTotal(Complete(g, token).frozen, t) == FrozenTotal(g.frozen, t)
    {
      assert PerToken(Complete(g, token).frozen, t) == PerToken(g.frozen, t);
    }
  }

  lemma FinishUncheckpointedConserves(g: Governor, inFlight: Bytes)
    requires Conserved(g, inFlight) && g.active.metadata >= g.active.smallFile
    ensures g.reserved.metadata >= g.active.metadata - g.active.smallFile
    ensures Conserved(FinishUncheckpointed(g), inFlight)
  {
    assert g.reserved.Of(Metadata) == Floor(Metadata) + Outstanding(g, inFlight, Metadata);
    var after := FinishUncheckpointed(g);
    forall t: Tier
      ensures after.reserved.Of(t) == Floor(t) + Outstanding(after, inFlight, t)
    {
      assert g.reserved.Of(t) == Floor(t) + Outstanding(g, inFlight, t);
    }
  }

  lemma BoundedStays(g: Governor, snapshot: Bytes)
    requires Bounded(g) && forall t: Tier :: snapshot.Of(t) <= U64_MAX
    ensures Bounded(g.(limit := snapshot))
  {
  }

  lemma LimitBounded(g: Governor)
    requires Bounded(g)
    ensures forall t: Tier :: g.limit.Of(t) <= U64_MAX
  {
  }

  /** Conservation says nothing about the limits. */
  lemma LimitDoesNotMatter(g: Governor, h: Governor, inFlight: Bytes)
    requires Conserved(g, inFlight)
    requires h == g.(limit := h.limit)
    ensures Conserved(h, inFlight)
  {
  }

  /** What is retired was reserved, so neither subtraction can underflow. */
  lemma RetiredIsReserved(g: Governor, inFlight: Bytes)
    requires Conserved(g, inFlight)
    ensures forall t: Tier :: 0 <= RetiredFrozen(g, t) <= g.reserved.Of(t)
    ensures g.reserved.Covers(RetiredLeftovers(g))
  {
    hide FrozenTotal;
    forall t: Tier
      ensures 0 <= RetiredFrozen(g, t) <= g.reserved.Of(t)
      ensures RetiredLeftovers(g).Of(t) <= g.reserved.Of(t)
    {
      SurvivingIsPart(g, t);
      assert g.reserved.Of(t) == Floor(t) + Outstanding(g, inFlight, t);
    }
    assert RetiredLeftovers(g).Of(Metadata) <= g.reserved.Of(Metadata);
    assert RetiredLeftovers(g).Of(Data) <= g.reserved.Of(Data);
    assert RetiredLeftovers(g).Of(SmallFile) <= g.reserved.Of(SmallFile);
  }

  lemma SurvivingIsPart(g: Governor, t: Tier)
    ensures FrozenTotal(Surviving(g.frozen, g.epoch), t) <= FrozenTotal(g.frozen, t)
  {
    SumAtMost(PerToken(Surviving(g.frozen, g.epoch), t), PerToken(g.frozen, t));
  }

  lemma FrozenRetiredConserves(g: Governor, inFlight: Bytes)
    requires Conserved(g, inFlight) && forall t: Tier :: 0 <= RetiredFrozen(g, t) <= g.reserved.Of(t)
    ensures Conserved(FrozenRetired(g), inFlight)
  {
    hide FrozenTotal;
    var after := FrozenRetired(g);
    forall t: Tier
      ensures after.reserved.Of(t) == Floor(t) + Outstanding(after, inFlight, t)
    {
      assert g.reserved.Of(t) == Floor(t) + Outstanding(g, inFlight, t);
    }
  }

  lemma LeftoversRetiredConserves(g: Governor, inFlight: Bytes)
    requires Conserved(g, inFlight) && g.reserved.Covers(RetiredLeftovers(g))
    ensures Conserved(LeftoversRetired(g), inFlight)
  {
    hide FrozenTotal;
    var after := LeftoversRetired(g);
    forall t: Tier
      ensures after.reserved.Of(t) == Floor(t) + Outstanding(after, inFlight, t)
    {
      assert g.reserved.Of(t) == Floor(t) + Outstanding(g, inFlight, t);
    }
  }

  // ---- the governor, updated in place ----

  /** One tier without room refuses the whole claim. */
  lemma Overfull(g: Governor, claim: Bytes, t: Tier)
    requires !CanReserve(g, t, claim.Of(t))
    ensures claim.Of(t) > 0 && g.reserved.Of(t) + claim.Of(t) > g.limit.Of(t)
    ensures !forall u: Tier :: CanReserve(g, u, claim.Of(u))
  {
  }

  lemma AllFit(g: Governor, reserved: Bytes, claim: Bytes)
    requires reserved == g.reserved.Plus(claim)
    requires CanReserve(g, Metadata, claim.metadata) && CanReserve(g, Data, claim.data)
    requires CanReserve(g, SmallFile, claim.smallFile)
    ensures forall t: Tier :: CanReserve(g, t, claim.Of(t))
    ensures forall t: Tier :: claim.Of(t) > 0 ==> reserved.Of(t) <= g.limit.Of(t)
  {
  }

  class CommitCapacityGovernor {
    var limit: Bytes
    var reserved: Bytes
    var active: Bytes
    var epoch: nat
    var frozen: map<Token, FrozenClaim>
    var uncheckpointed: Uncheckpointed
    /** Claims reserved by callers that have neither accepted nor cancelled them. */
    ghost var inFlight: Bytes

    ghost function View(): (g: Governor)
      reads this
    {
      Governor(limit, reserved, active, epoch, frozen, uncheckpointed)
    }

    ghost predicate Valid()
      reads this
    {
      Conserved(View(), inFlight) && Bounded(View())
    }

    /** The caller has checked `snapshot.metadata >= METADATA_FLOOR`, as `new` does. */
    constructor (snapshot: Bytes)
      requires snapshot.metadata >= METADATA_FLOOR
      requires forall t: Tier :: snapshot.Of(t) <= U64_MAX
      ensures View() == Fresh(snapshot) && inFlight == NONE && Valid()
    {
      limit, reserved, active, epoch := snapshot, FloorBytes(), NONE, 0;
      frozen, uncheckpointed := map[], Uncheckpointed(0, 0, Open);
      inFlight := NONE;
      new;
      FreshConserved(snapshot);
      assert forall t: Tier :: FloorBytes().Of(t) == Floor(t) <= U64_MAX;
    }

    /** `compare_exchange_weak`: installs `next` over `current`, or reports what it found; it may fail on its own. */
    method CompareExchange(t: Tier, current: nat, next: nat, spurious: bool) returns (ok: bool, observed: nat)
      requires Valid() && current <= next <= U64_MAX
      modifies this`reserved, this`inFlight
      ensures Valid() && observed == old(reserved).Of(t)
      ensures ok <==> observed == current && !spurious
      ensures if ok then View() == Reserve(old(View()), t, next - current)
                         && inFlight == old(inFlight).With(t, old(inFlight).Of(t) + (next - current))
              else View() == old(View()) && inFlight == old(inFlight)
    {
      hide FrozenTotal;
      observed := reserved.Of(t);
      ok := observed == current && !spurious;
      if ok {
        ghost var before := View();
        reserved := reserved.With(t, next);
        inFlight := inFlight.With(t, inFlight.Of(t) + (next - current));
        forall u: Tier
          ensures reserved.Of(u) == Floor(u) + Outstanding(View(), inFlight, u)
        {
          assert before.reserved.Of(u) == Floor(u) + Outstanding(before, old(inFlight), u);
        }
      }
    }

    /**
      `reserve_bounded` when no other thread interferes: load, test and exchange,
      again after each of the `spurious` failures of the weak exchange. What it
      reserves fits under the limit, and what it refuses would not have.
     */
    method ReserveBounded(t: Tier, bytes: nat, spurious: nat) returns (ok: bool)
      requires Valid()
      modifies this`reserved, this`inFlight
      ensures Valid()
      ensures ok == CanReserve(old(View()), t, bytes)
      ensures ok && bytes > 0 ==> reserved.Of(t) <= limit.Of(t)
      ensures !ok ==> bytes > 0 && old(reserved).Of(t) + bytes > limit.Of(t)
      ensures if ok then View() == Reserve(old(View()), t, bytes)
                         && inFlight == old(inFlight).With(t, old(inFlight).Of(t) + bytes)
              else View() == old(View()) && inFlight == old(inFlight)
    {
      hide Conserved, Bounded;
      LimitBounded(View());
      if bytes == 0 {
        return true;
      }
      var current, failures := reserved.Of(t), spurious;
      while true
        invariant Valid() && View() == old(View()) && inFlight == old(inFlight)
        invariant current == reserved.Of(t)
        decreases failures
      {
        var next := current + bytes;
        if next > U64_MAX || next > limit.Of(t) {
          return false;
        }
        var done, observed := CompareExchange(t, current, next, failures > 0);
        if done {
          return true;
        }
        current, failures := observed, failures - 1;
      }
    }

    /** Gives back bytes that are still in flight; the source asserts they were reserved. */
    method SubtractReserved(t: Tier, bytes: nat)
      requires Valid() && inFlight.Of(t) >= bytes
      modifies this`reserved, this`inFlight
      ensures Valid()
      ensures old(View()).reserved.Of(t) >= bytes
      ensures View() == Release(old(View()), t, bytes)
      ensures inFlight == old(inFlight).With(t, old(inFlight).Of(t) - bytes)
    {
      hide FrozenTotal;
      ghost var before := View();
      assert before.reserved.Of(t) == Floor(t) + Outstanding(before, inFlight, t);
      reserved := reserved.With(t, reserved.Of(t) - bytes);
      inFlight := inFlight.With(t, inFlight.Of(t) - bytes);
      forall u: Tier
        ensures reserved.Of(u) == Floor(u) + Outstanding(View(), inFlight, u)
      {
        assert before.reserved.Of(u) == Floor(u) + Outstanding(before, old(inFlight), u);
      }
    }

    /**
      All three tiers or nothing. An admitted claim leaves every tier it charges within
      its limit; a refused one would have passed a limit, and leaves every counter as it was.
     */
    method TryReserve(claim: Bytes, spurious: nat) returns (ok: bool)
      requires Valid()
      modifies this`reserved, this`inFlight
      ensures Valid()
      ensures ok <==> forall t: Tier :: CanReserve(old(View()), t, claim.Of(t))
      ensures ok ==> forall t: Tier :: claim.Of(t) > 0 ==> reserved.Of(t) <= limit.Of(t)
      ensures !ok ==> exists t: Tier :: claim.Of(t) > 0 && old(reserved).Of(t) + claim.Of(t) > limit.Of(t)
      ensures if ok then reserved == old(reserved).Plus(claim) && inFlight == old(inFlight).Plus(claim)
              else View() == old(View()) && inFlight == old(inFlight)
    {
      hide Conserved, Bounded, Outstanding;
      ghost var before := View();
      var metadata := ReserveBounded(Metadata, claim.metadata, spurious);
      if !metadata {
        Overfull(before, claim, Metadata);
        return false;
      }
      var rest := ReserveFiles(claim, spurious);
      if !rest {
        Overfull(before, claim, if CanReserve(before, Data, claim.data) then SmallFile else Data);
        SubtractReserved(Metadata, claim.metadata);
        return false;
      }
      AllFit(before, reserved, claim);
      return true;
    }

    /** The Data and small-file part of a claim, after its Metadata part. */
    method ReserveFiles(claim: Bytes, spurious: nat) returns (ok: bool)
      requires Valid()
      modifies this`reserved, this`inFlight
      ensures Valid()
      ensures ok <==> CanReserve(old(View()), Data, claim.data) && CanReserve(old(View()), SmallFile, claim.smallFile)
      ensures if ok then reserved == old(reserved).Plus(claim.(metadata := 0))
                         && inFlight == old(inFlight).Plus(claim.(metadata := 0))
              else View() == old(View()) && inFlight == old(inFlight)
    {
      hide Conserved, Bounded, Outstanding;
      var data := ReserveBounded(Data, claim.data, spurious);
      if !data {
        return false;
      }
      var smallFile := ReserveBounded(SmallFile, claim.smallFile, spurious);
      if !smallFile {
        SubtractReserved(Data, claim.data);
        return false;
      }
      return true;
    }

    method Cancel(claim: Bytes)
      requires Valid() && inFlight.Covers(claim)
      modifies this`reserved, this`inFlight
      ensures Valid() && old(reserved).Covers(claim)
      ensures reserved == old(reserved).Minus(claim) && inFlight == old(inFlight).Minus(claim)
    {
      SubtractReserved(Metadata, claim.metadata);
      SubtractReserved(Data, claim.data);
      SubtractReserved(SmallFile, claim.smallFile);
    }

    /** Small-file claims are Metadata claims too, as every caller builds them. */
    method AcceptClaim(claim: Bytes)
      requires Valid() && inFlight.Covers(claim) && claim.metadata >= claim.smallFile
      modifies this`active, this`inFlight
      ensures Valid()
      ensures View() == Accept(old(View()), claim) && inFlight == old(inFlight).Minus(claim)
      ensures forall t: Tier :: active.Of(t) <= U64_MAX
    {
      ghost var before := View();
      active := active.Plus(claim);
      inFlight := inFlight.Minus(claim);
      forall t: Tier
        ensures reserved.Of(t) == Floor(t) + Outstanding(View(), inFlight, t)
      {
        assert before.reserved.Of(t) == Floor(t) + Outstanding(before, old(inFlight), t);
      }
      assert forall t: Tier :: active.Of(t) <= reserved.Of(t);
    }

    method ReleaseMetadata(bytes: nat)
      requires Valid() && active.metadata >= active.smallFile + bytes
      modifies this`active, this`reserved
      ensures Valid()
      ensures old(reserved).metadata >= bytes
      ensures View() == ReleaseActiveMetadata(old(View()), bytes)
    {
      ghost var before := View();
      assert before.reserved.Of(Metadata) == Floor(Metadata) + Outstanding(before, inFlight, Metadata);
      active := active.(metadata := active.metadata - bytes);
      reserved := reserved.(metadata := reserved.metadata - bytes);
      forall t: Tier
        ensures reserved.Of(t) == Floor(t) + Outstanding(View(), inFlight, t)
      {
        assert before.reserved.Of(t) == Floor(t) + Outstanding(before, inFlight, t);
      }
    }

    method FreezeCut(token: Token)
      requires Valid() && token !in frozen
      modifies this`active, this`frozen
      ensures Valid() && View() == Freeze(old(View()), token)
    {
      FreezeConserves(View(), inFlight, token);
      frozen := frozen[token := FrozenClaim(active, Open)];
      active := NONE;
    }

    method CompleteCut(token: Token)
      requires Valid() && token in frozen && frozen[token].stamp == Open
      modifies this`frozen
      ensures Valid() && View() == Complete(old(View()), token)
    {
      CompleteConserves(View(), inFlight, token);
      frozen := frozen[token := frozen[token].(stamp := CompletedAfter(epoch))];
    }

    method FinishUncheckpointedActive()
      requires Valid()
      modifies this`active, this`reserved, this`uncheckpointed
      ensures Valid()
      ensures old(reserved.metadata >= active.metadata - active.smallFile)
      ensures View() == FinishUncheckpointed(old(View()))
      ensures active == Bytes(0, 0, 0) && reserved.data == old(reserved).data
      ensures reserved.smallFile == old(reserved).smallFile
      ensures reserved.metadata == old(reserved).metadata - (old(active).metadata - old(active).smallFile)
      ensures uncheckpointed.data == old(uncheckpointed).data + old(active).data
      ensures uncheckpointed.smallFile == old(uncheckpointed).smallFile + old(active).smallFile
      ensures old(active).data > 0 || old(active).smallFile > 0 ==> uncheckpointed.stamp == CompletedAfter(epoch)
      ensures uncheckpointed.data <= U64_MAX && uncheckpointed.smallFile <= U64_MAX
    {
      FinishUncheckpointedConserves(View(), inFlight);
      var taken := active;
      active := NONE;
      reserved := reserved.(metadata := reserved.metadata - (taken.metadata - taken.smallFile));
      if taken.data != 0 || taken.smallFile != 0 {
        var u := uncheckpointed;
        var stamp := if u.stamp.CompletedAfter? && u.stamp.epoch > epoch then u.stamp else CompletedAfter(epoch);
        uncheckpointed := Uncheckpointed(u.data + taken.data, u.smallFile + taken.smallFile, stamp);
      }
      assert View() == FinishUncheckpointed(old(View()));
      assert reserved.Of(Data) == Floor(Data) + Outstanding(View(), inFlight, Data);
      assert reserved.Of(SmallFile) == Floor(SmallFile) + Outstanding(View(), inFlight, SmallFile);
    }

    method BeginObservation() returns (started: nat)
      requires Valid() && epoch < U64_MAX
      modifies this`epoch
      ensures Valid() && View() == Begin(old(View())) && started == epoch == old(epoch) + 1
    {
      epoch := epoch + 1;
      return epoch;
    }

    /** The `retain` pass: drops the frozen claims completed before `epoch` and adds up their bytes. */
    method RetainPass() returns (kept: map<Token, FrozenClaim>, released: Bytes)
      requires Valid()
      ensures kept == Surviving(frozen, epoch)
      ensures forall t: Tier :: released.Of(t) == FrozenTotal(frozen, t) - FrozenTotal(kept, t)
    {
      kept, released := frozen, NONE;
      var remaining := frozen.Keys;
      while remaining != {}
        invariant remaining <= kept.Keys <= frozen.Keys
        invariant forall k :: k in kept ==> kept[k] == frozen[k]
        invariant forall k :: k in frozen && k !in kept ==> Expired(frozen[k].stamp, epoch)
        invariant forall k :: k in kept && k !in remaining ==> !Expired(frozen[k].stamp, epoch)
        invariant forall t: Tier :: released.Of(t) == FrozenTotal(frozen, t) - FrozenTotal(kept, t)
      {
        var token :| token in remaining;
        remaining := remaining - {token};
        if Expired(kept[token].stamp, epoch) {
          ghost var before := kept;
          released := released.Plus(kept[token].bytes);
          kept := kept - {token};
          forall t: Tier
            ensures FrozenTotal(before, t) == before[token].bytes.Of(t) + FrozenTotal(kept, t)
          {
            SumRemove(PerToken(before, t), token);
            assert PerToken(kept, t) == PerToken(before, t) - {token};
          }
        }
      }
      assert kept == Surviving(frozen, epoch);
    }

    /** Drops the expired frozen claims and gives their bytes back, tier by tier. */
    method RetireFrozenClaims()
      requires Valid()
      modifies this`reserved, this`frozen
      ensures Valid()
      ensures old(forall t: Tier :: 0 <= RetiredFrozen(View(), t) <= View().reserved.Of(t))
      ensures View() == FrozenRetired(old(View()))
    {
      hide Conserved, FrozenTotal;
      ghost var g := View();
      RetiredIsReserved(g, inFlight);
      FrozenRetiredConserves(g, inFlight);
      var kept, released := RetainPass();
      assert released.Of(Metadata) == RetiredFrozen(g, Metadata);
      assert released.Of(Data) == RetiredFrozen(g, Data);
      assert released.Of(SmallFile) == RetiredFrozen(g, SmallFile);
      assert reserved.Of(Metadata) >= released.Of(Metadata);
      assert reserved.Of(Data) >= released.Of(Data);
      assert reserved.Of(SmallFile) >= released.Of(SmallFile);
      frozen := kept;
      reserved := reserved.Minus(released);
    }

    method RetireUncheckpointedClaims()
      requires Valid()
      modifies this`reserved, this`uncheckpointed
      ensures Valid() && old(reserved.Covers(RetiredLeftovers(View())))
      ensures View() == LeftoversRetired(old(View()))
    {
      hide FrozenTotal;
      RetiredIsReserved(View(), inFlight);
      LeftoversRetiredConserves(View(), inFlight);
      if Expired(uncheckpointed.stamp, epoch) {
        reserved := reserved.Minus(uncheckpointed.Charged());
        uncheckpointed := Uncheckpointed(0, 0, Open);
      }
    }

    /**
      Publishes a fresh sample and retires only the claims that completed before
      its observation began. The source asserts that observations do not overlap.
     */
    method FinishObservation(started: nat, snapshot: Bytes)
      requires Valid() && started == epoch
      requires forall t: Tier :: snapshot.Of(t) <= U64_MAX
      modifies this`limit, this`reserved, this`frozen, this`uncheckpointed
      ensures Valid() && limit == snapshot
      ensures frozen == Surviving(old(frozen), epoch)
      ensures forall k :: k in old(frozen) ==>
                var stamp := old(frozen)[k].stamp;
                && (k in frozen <==> !(stamp.CompletedAfter? && stamp.epoch < started))
                && (k in frozen ==> frozen[k] == old(frozen)[k])
      ensures uncheckpointed == if Expired(old(uncheckpointed).stamp, epoch) then Uncheckpointed(0, 0, Open)
                                else old(uncheckpointed)
      ensures active == old(active) && inFlight == old(inFlight)
      ensures forall t: Tier ::
                reserved.Of(t) + RetiredFrozen(old(View()), t) + RetiredLeftovers(old(View())).Of(t)
                == old(reserved).Of(t)
    {
      hide Conserved, FrozenTotal, Bounded;
      BoundedStays(View(), snapshot);
      limit := snapshot;
      LimitDoesNotMatter(old(View()), View(), inFlight);
      RetireFrozenClaims();
      RetireUncheckpointedClaims();
    }

    /** Nothing more is admitted until an observation succeeds, and nothing is given back. */
    method FailObservation(started: nat)
      requires Valid() && started == epoch
      modifies this`limit
      ensures Valid() && View() == ObservationFailed(old(View()))
      ensures limit == Bytes(0, 0, 0)
      ensures forall t: Tier, bytes: nat :: CanReserve(View(), t, bytes) ==> bytes == 0
    {
      limit := NONE;
      LimitDoesNotMatter(old(View()), View(), inFlight);
    }
  }
}
