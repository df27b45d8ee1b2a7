/**
  Binding two pool roots to one appliance: the identity publication of one root,
  the pair's initialize-or-open, and what survives any number of crashed attempts.
 */
module PoolBinding {
  import opened Basics
  import opened PoolStorage

  datatype Error =
    | InvalidIdentityLength(role: Role)
    | Format(role: Role)
    | RoleMismatch(expected: Role)
    | ApplianceIdMismatch
    | DuplicatePoolId
    | Populated(role: Role)

  // ---- publishing one identity ----

  /** How far `publish_identity` has come. */
  datatype Stage = Begin | Removed | Ready | Created | Written | Fixed | Synced | Published | Done

  function NextOp(stage: Stage, r: Root, record: Record): Op
    requires stage != Done
  {
    match stage
    case Begin => if Temp in Live(r) then RemoveTemp else CreateTemp
    case Removed => SyncRoot
    case Ready => CreateTemp
    case Created => WriteTemp(record)
    case Written => FixLength
    case Fixed => SyncTemp
    case Synced => PublishTemp
    case Published => SyncRoot
  }

  function NextStage(stage: Stage, r: Root): Stage
    requires stage != Done
  {
    match stage
    case Begin => if Temp in Live(r) then Removed else Created
    case Removed => Ready
    case Ready => Created
    case Created => Written
    case Written => Fixed
    case Fixed => Synced
    case Synced => Published
    case Published => Done
  }

  /** Steps still to go, at most. */
  function Left(stage: Stage): nat {
    match stage
    case Begin => 8
    case Removed => 7
    case Ready => 6
    case Created => 5
    case Written => 4
    case Fixed => 3
    case Synced => 2
    case Published => 1
    case Done => 0
  }

  ghost predicate TempWritten(r: Root, record: Record) {
    Temp in Live(r) && Live(r)[Temp] in r.objects && r.objects[Live(r)[Temp]].content == Whole(record)
  }

  /** The root shows this identity: durable with nothing pending, or published and not yet synced. */
  ghost predicate Shows(r: Root, record: Record, role: Role) {
    && OnlyPublishes(r, record) && Identity in Live(r)
    && (if Identity in r.synced then r.pending == [] else Bootstrap(r, role))
  }

  /** What holds of the root when the publication stands at `stage`. */
  ghost predicate At(r: Root, stage: Stage, record: Record, role: Role) {
    && Sane(r) && record.role == role
    && (stage != Done ==> Bootstrap(r, role))
    && (!stage.Published? && stage != Done ==> Unpublished(r))
    && match stage
       case Begin => true
       case Removed => Temp !in Live(r)
       case Ready => Temp !in Live(r)
       case Created => Temp in Live(r) && Live(r)[Temp] in r.objects
       case Written => TempWritten(r, record)
       case Fixed => TempWritten(r, record)
       case Synced => Temp in Live(r) && Holds(r, Live(r)[Temp], record)
       case Published => Shows(r, record, role) && Identity !in r.synced
       case Done => Shows(r, record, role)
  }

  lemma UnpublishedLive(r: Root)
    requires Unpublished(r)
    ensures Identity !in Live(r)
  {
    if Identity in Live(r) {
      BindingOrigin(r.synced, r.pending, Identity);
    }
  }

  /** A root sync turns every possible outcome into the one the process sees. */
  lemma SyncKeeps(r: Root, record: Record, role: Role)
    requires Sane(r) && Bootstrap(r, role)
    ensures var s := Do(r, SyncRoot);
            && Sane(s) && Bootstrap(s, role) && Live(s) == Live(r)
            && (Unpublished(r) ==> Unpublished(s))
            && (OnlyPublishes(r, record) ==> OnlyPublishes(s, record))
  {
    var s := Do(r, SyncRoot);
    forall n | n in s.synced
      ensures s.synced[n] in s.objects && (n == Identity || Allowed(n, role))
    {
      BindingOrigin(r.synced, r.pending, n);
    }
    if Identity in s.synced {
      BindingOrigin(r.synced, r.pending, Identity);
    }
  }

  lemma SyncStep(r: Root, stage: Stage, record: Record, role: Role)
    requires At(r, stage, record, role) && (stage.Removed? || stage.Published?)
    ensures Possible(r, SyncRoot)
    ensures At(Do(r, SyncRoot), if stage.Removed? then Ready else Done, record, role)
    ensures stage.Published? ==> Identity in Do(r, SyncRoot).synced
  {
    SyncKeeps(r, record, role);
  }

  lemma RemoveStep(r: Root, record: Record, role: Role)
    requires At(r, Begin, record, role) && Temp in Live(r)
    ensures Possible(r, RemoveTemp) && At(Do(r, RemoveTemp), Removed, record, role)
  {
  }

  /** A new temporary file is a new inode, so nothing durable is touched by writing it. */
  lemma CreateStep(r: Root, record: Record, role: Role)
    requires Sane(r) && record.role == role && Bootstrap(r, role) && Unpublished(r) && Temp !in Live(r)
    ensures Possible(r, CreateTemp) && At(Do(r, CreateTemp), Created, record, role)
  {
  }

  /** Writing, sizing and syncing the temporary file leave the directory alone. */
  lemma ContentStep(r: Root, op: Op, stage: Stage, next: Stage, record: Record, role: Role)
    requires At(r, stage, record, role)
    requires (op, stage, next) in {(WriteTemp(record), Created, Written), (FixLength, Written, Fixed),
                                   (SyncTemp, Fixed, Synced)}
    ensures Possible(r, op) && At(Do(r, op), next, record, role)
  {
  }

  lemma PublishStep(r: Root, record: Record, role: Role)
    requires At(r, Synced, record, role)
    ensures Possible(r, PublishTemp) && At(Do(r, PublishTemp), Published, record, role)
  {
    var i := Live(r)[Temp];
    UnpublishedLive(r);
    var s := Do(r, PublishTemp);
    AppliedTwo(r.synced, r.pending, Bind(Identity, i), Unbind(Temp));
    assert Live(s) == Live(r)[Identity := i] - {Temp};
    forall j | 0 <= j < |s.pending|
      ensures s.pending[j].name == Temp || s.pending[j] == Bind(Identity, i)
      ensures s.pending[j].Bind? ==> s.pending[j].inode in s.objects
    {
      if j < |r.pending| {
        assert s.pending[j] == r.pending[j];
      }
    }
  }

  /** The next storage operation can be carried out, and the publication advances. */
  lemma StageStep(r: Root, stage: Stage, record: Record, role: Role)
    requires At(r, stage, record, role) && stage != Done
    ensures Possible(r, NextOp(stage, r, record))
    ensures At(Do(r, NextOp(stage, r, record)), NextStage(stage, r), record, role)
    ensures NextStage(stage, r) == Done ==> Identity in Do(r, NextOp(stage, r, record)).synced
  {
    hide Live, Possible, TempWritten;
    match stage
    case Begin => if Temp in Live(r) { RemoveStep(r, record, role); } else { CreateStep(r, record, role); }
    case Removed => SyncStep(r, Removed, record, role);
    case Ready => CreateStep(r, record, role);
    case Created => ContentStep(r, WriteTemp(record), Created, Written, record, role);
    case Written => ContentStep(r, FixLength, Written, Fixed, record, role);
    case Fixed => ContentStep(r, SyncTemp, Fixed, Synced, record, role);
    case Synced => PublishStep(r, record, role);
    case Published => SyncStep(r, Published, record, role);
  }

  // ---- publications cut short ----

  /** A root between attempts whose identity, if it shows one, is this record. */
  ghost predicate Settled(r: Root, record: Record, role: Role) {
    && Sane(r) && record.role == role
    && (if Identity in Live(r) then Shows(r, record, role) else Bootstrap(r, role) && Unpublished(r))
  }

  /** A killed process leaves the root as it stands. */
  lemma StageKilled(r: Root, stage: Stage, record: Record, role: Role)
    requires At(r, stage, record, role)
    ensures Settled(r, record, role)
  {
    if !stage.Published? && stage != Done {
      UnpublishedLive(r);
    }
  }

  lemma SurvivorOrigin(r: Root, s: Root, n: Name)
    requires Crashed(r, s) && n in s.synced
    ensures (n in r.synced && s.synced[n] == r.synced[n]) || Bind(n, s.synced[n]) in r.pending
  {
    var keep: seq<bool> :| |keep| == |r.pending| && s.synced == AppliedAll(r.synced, Kept(r.pending, keep));
    var changes := Kept(r.pending, keep);
    BindingOrigin(r.synced, changes, n);
    if exists j :: 0 <= j < |changes| && changes[j] == Bind(n, s.synced[n]) {
      KeptFrom(r.pending, keep, Bind(n, s.synced[n]));
    }
  }

  /** Whatever a loss of power keeps, the root is at rest with this identity or with none. */
  lemma StageCrash(r: Root, stage: Stage, record: Record, role: Role, s: Root)
    requires At(r, stage, record, role) && Crashed(r, s)
    ensures Settled(s, record, role) && s.pending == []
    ensures stage == Done && Identity in r.synced ==> Identity in s.synced
  {
    hide Crashed;
    CrashedFacts(r, s);
    forall n | n in s.synced
      ensures s.synced[n] in s.objects
      ensures stage != Done || Identity !in r.synced ==> n == Identity || Allowed(n, role)
      ensures n == Identity ==> Holds(s, s.synced[n], record)
    {
      SurvivorOrigin(r, s, n);
    }
    if stage == Done && Identity in r.synced {
      assert s.synced == r.synced;
    }
  }

  lemma CrashedFacts(r: Root, s: Root)
    requires Crashed(r, s)
    ensures s.pending == [] && s.next == r.next && s.objects.Keys == r.objects.Keys
    ensures forall i :: i in r.objects && r.objects[i].stable ==> s.objects[i] == r.objects[i]
    ensures r.pending == [] ==> s.synced == r.synced
  {
  }

  // ---- the pair ----

  datatype Pools = Pools(metadata: Root, data: Root)

  /** The draws an attempt may make from the entropy source. */
  datatype Entropy = Entropy(appliance: nat, metadataPool: nat, dataPool: nat)

  /** `read_optional`. */
  function ReadOptional(r: Root, role: Role): Result<Option<Record>, Error> {
    if Identity !in Live(r) || Live(r)[Identity] !in r.objects then Ok(None)
    else
      match r.objects[Live(r)[Identity]].content
      case Whole(record) => Ok(Some(record))
      case Torn(exactLength) => Err(if exactLength then Format(role) else InvalidIdentityLength(role))
  }

  predicate BootstrapOnly(r: Root, role: Role) {
    forall n :: n in Live(r) ==> Allowed(n, role)
  }

  /** `validate`. */
  function Validated(m: Record, d: Record): Result<(Record, Record), Error> {
    if m.role != Metadata then Err(RoleMismatch(Metadata))
    else if d.role != Data then Err(RoleMismatch(Data))
    else if m.appliance != d.appliance then Err(ApplianceIdMismatch)
    else if m.pool == d.pool then Err(DuplicatePoolId)
    else Ok((m, d))
  }

  /** One call of `initialize_or_open` in progress: the binding it is after and how far each root is. */
  datatype Attempt = Attempt(pools: Pools, metadata: Record, data: Record, metadataAt: Stage, dataAt: Stage)

  /** The decisions taken before the first mutation. */
  function Begun(pools: Pools, drawn: Entropy): Result<Attempt, Error> {
    var m := ReadOptional(pools.metadata, Metadata);
    var d := ReadOptional(pools.data, Data);
    if m.Err? then Err(m.error)
    else if d.Err? then Err(d.error)
    else match (m.value, d.value)
      case (Some(have), Some(other)) =>
        var both := Validated(have, other);
        if both.Err? then Err(both.error) else Ok(Attempt(pools, have, other, Done, Done))
      case (None, None) =>
        if !BootstrapOnly(pools.metadata, Metadata) then Err(Populated(Metadata))
        else if !BootstrapOnly(pools.data, Data) then Err(Populated(Data))
        else Ok(Attempt(pools, Record(drawn.appliance, drawn.metadataPool, Metadata),
                        Record(drawn.appliance, drawn.dataPool, Data), Begin, Begin))
      case (Some(have), None) =>
        if have.role != Metadata then Err(RoleMismatch(Metadata))
        else if !BootstrapOnly(pools.data, Data) then Err(Populated(Data))
        else Ok(Attempt(pools, have, Record(have.appliance, drawn.dataPool, Data), Done, Begin))
      case (None, Some(other)) =>
        if other.role != Data then Err(RoleMismatch(Data))
        else if !BootstrapOnly(pools.metadata, Metadata) then Err(Populated(Metadata))
        else Ok(Attempt(pools, Record(other.appliance, drawn.metadataPool, Metadata), other, Begin, Done))
  }

  /** What an open finds under the identity name, if anything. */
  ghost function Found(r: Root): Option<Content> {
    if Identity in Live(r) && Live(r)[Identity] in r.objects then Some(r.objects[Live(r)[Identity]].content) else None
  }

  /** An identity that decodes under its own root's role, or no identity and bootstrap names only. */
  ghost predicate RootAcceptable(r: Root, role: Role) {
    match Found(r)
    case Some(content) => content.Whole? && content.record.role == role
    case None =>
      forall n :: n in Live(r) ==> n == Temp || (role == Metadata && (n == Lease || n == Latch))
  }

  /** Both roots are acceptable, and two identities share one appliance and name different pools. */
  ghost predicate Acceptable(pools: Pools) {
    && RootAcceptable(pools.metadata, Metadata) && RootAcceptable(pools.data, Data)
    && (Found(pools.metadata).Some? && Found(pools.data).Some? ==>
          var m, d := Found(pools.metadata).value.record, Found(pools.data).value.record;
          m.appliance == d.appliance && m.pool != d.pool)
  }

  /** A root of the pair that breaks the rule a refusal names. */
  ghost predicate Breaks(pools: Pools, error: Error) {
    var m, d := Found(pools.metadata), Found(pools.data);
    match error
    case InvalidIdentityLength(role) => (if role == Metadata then m else d) == Some(Torn(false))
    case Format(role) => (if role == Metadata then m else d) == Some(Torn(true))
    case RoleMismatch(role) =>
      var found := if role == Metadata then m else d;
      found.Some? && found.value.Whole? && found.value.record.role != role
    case ApplianceIdMismatch =>
      && m.Some? && d.Some? && m.value.Whole? && d.value.Whole?
      && m.value.record.appliance != d.value.record.appliance
    case DuplicatePoolId =>
      m.Some? && d.Some? && m.value.Whole? && d.value.Whole? && m.value.record.pool == d.value.record.pool
    case Populated(role) =>
      var r := if role == Metadata then pools.metadata else pools.data;
      Found(r).None? && exists n :: n in Live(r) && n != Temp && !(role == Metadata && (n == Lease || n == Latch))
  }

  lemma FoundIsRead(r: Root, role: Role)
    ensures ReadOptional(r, role).Ok? <==> Found(r).None? || Found(r).value.Whole?
    ensures ReadOptional(r, role).Ok? ==>
              ReadOptional(r, role).value == if Found(r).None? then None else Some(Found(r).value.record)
    ensures ReadOptional(r, role).Err? ==>
              ReadOptional(r, role).error == if Found(r).value == Torn(true) then Format(role)
                                             else InvalidIdentityLength(role)
  {
  }

  /**
    A pair is taken on exactly when it is acceptable: every identity present decodes under
    its own role, two of them agree on the appliance and differ in the pool, and a root
    without one holds bootstrap names only. A refusal names a rule the pair breaks, and an
    accepted pair keeps every identity that was read.
   */
  lemma BegunIff(pools: Pools, drawn: Entropy)
    ensures Begun(pools, drawn).Ok? <==> Acceptable(pools)
    ensures Begun(pools, drawn).Err? ==> Breaks(pools, Begun(pools, drawn).error)
    ensures Begun(pools, drawn).Ok? ==>
              var a := Begun(pools, drawn).value;
              && a.pools == pools
              && a.metadataAt == (if Found(pools.metadata).Some? then Done else Begin)
              && a.dataAt == (if Found(pools.data).Some? then Done else Begin)
              && (Found(pools.metadata).Some? ==> Found(pools.metadata) == Some(Whole(a.metadata)))
              && (Found(pools.data).Some? ==> Found(pools.data) == Some(Whole(a.data)))
              && a.metadata.role == Metadata && a.data.role == Data && a.metadata.appliance == a.data.appliance
  {
    FoundIsRead(pools.metadata, Metadata);
    FoundIsRead(pools.data, Data);
    hide Found, ReadOptional, Live;
  }

  /** What `random_pool_id` guarantees: a new pool identity avoids the one it must differ from. */
  predicate Drawn(pools: Pools, drawn: Entropy) {
    var m := ReadOptional(pools.metadata, Metadata);
    var d := ReadOptional(pools.data, Data);
    && (m == Ok(None) && d == Ok(None) ==> drawn.metadataPool != drawn.dataPool)
    && (m.Ok? && m.value.Some? ==> drawn.dataPool != m.value.value.pool)
    && (d.Ok? && d.value.Some? ==> drawn.metadataPool != d.value.value.pool)
  }

  /** With a draw that avoids the pool it must differ from, the pair after the attempt is a valid one. */
  lemma BegunValidates(pools: Pools, drawn: Entropy)
    requires Drawn(pools, drawn) && Begun(pools, drawn).Ok?
    ensures Validated(Begun(pools, drawn).value.metadata, Begun(pools, drawn).value.data)
            == Ok((Begun(pools, drawn).value.metadata, Begun(pools, drawn).value.data))
  {
    BegunIff(pools, drawn);
    FoundIsRead(pools.metadata, Metadata);
    FoundIsRead(pools.data, Data);
    hide Found, ReadOptional, Live;
  }

  // ---- what the steps of a publication do to any root at all ----

  lemma WriteFills(r: Root, record: Record)
    requires Possible(r, WriteTemp(record))
    ensures TempWritten(Do(r, WriteTemp(record)), record)
  {
  }

  lemma ContentStays(r: Root, op: Op, record: Record)
    requires Possible(r, op) && (op == FixLength || op == SyncTemp) && TempWritten(r, record)
    ensures TempWritten(Do(r, op), record)
  {
  }

  lemma PublishShows(r: Root, record: Record)
    requires Possible(r, PublishTemp) && TempWritten(r, record)
    ensures Found(Do(r, PublishTemp)) == Some(Whole(record))
  {
    AppliedTwo(r.synced, r.pending, Bind(Identity, Live(r)[Temp]), Unbind(Temp));
  }

  lemma SyncShows(r: Root)
    ensures Found(Do(r, SyncRoot)) == Found(r)
  {
  }

  /** One storage operation: the Metadata root is finished before the Data root is touched. */
  ghost function Tick(a: Attempt): Attempt
    requires Running(a)
  {
    if a.metadataAt != Done then
      var r := a.pools.metadata;
      StageStep(r, a.metadataAt, a.metadata, Metadata);
      a.(pools := a.pools.(metadata := Do(r, NextOp(a.metadataAt, r, a.metadata))),
         metadataAt := NextStage(a.metadataAt, r))
    else if a.dataAt != Done then
      var r := a.pools.data;
      StageStep(r, a.dataAt, a.data, Data);
      a.(pools := a.pools.(data := Do(r, NextOp(a.dataAt, r, a.data))),
         dataAt := NextStage(a.dataAt, r))
    else a
  }

  ghost predicate Running(a: Attempt) {
    && At(a.pools.metadata, a.metadataAt, a.metadata, Metadata)
    && At(a.pools.data, a.dataAt, a.data, Data)
    && Validated(a.metadata, a.data).Ok?
  }

  lemma TickKeeps(a: Attempt)
    requires Running(a)
    ensures Running(Tick(a)) && Tick(a).metadata == a.metadata && Tick(a).data == a.data
    ensures Left(Tick(a).metadataAt) + Left(Tick(a).dataAt) < Left(a.metadataAt) + Left(a.dataAt)
            || (a.metadataAt == Done && a.dataAt == Done && Tick(a) == a)
    ensures a.metadataAt == Done ==> Tick(a).metadataAt == Done && Tick(a).pools.metadata == a.pools.metadata
    ensures a.dataAt == Done ==> Tick(a).dataAt == Done && Tick(a).pools.data == a.pools.data
    ensures a.metadataAt != Done && Tick(a).metadataAt == Done ==> Identity in Tick(a).pools.metadata.synced
    ensures a.dataAt != Done && Tick(a).dataAt == Done ==> Identity in Tick(a).pools.data.synced
  {
    hide At;
    if a.metadataAt != Done {
      StageStep(a.pools.metadata, a.metadataAt, a.metadata, Metadata);
    } else if a.dataAt != Done {
      StageStep(a.pools.data, a.dataAt, a.data, Data);
    }
  }

  /** The attempt after `k` of its storage operations. */
  ghost function Ticks(a: Attempt, k: nat): (b: Attempt)
    requires Running(a)
    ensures Running(b) && b.metadata == a.metadata && b.data == a.data
    ensures a.metadataAt == Done ==> b.metadataAt == Done && b.pools.metadata == a.pools.metadata
    ensures a.dataAt == Done ==> b.dataAt == Done && b.pools.data == a.pools.data
    ensures a.metadataAt != Done && b.metadataAt == Done ==> Identity in b.pools.metadata.synced
    ensures a.dataAt != Done && b.dataAt == Done ==> Identity in b.pools.data.synced
    ensures k >= Left(a.metadataAt) + Left(a.dataAt) ==> b.metadataAt == Done && b.dataAt == Done
    decreases k
  {
    if k == 0 then a
    else
      TickKeeps(a);
      Ticks(Tick(a), k - 1)
  }

  /** The Data root is not touched before the Metadata root is finished. */
  lemma {:induction false} MetadataFirst(a: Attempt, k: nat)
    requires Running(a)
    ensures Ticks(a, k).pools.data != a.pools.data ==> Ticks(a, k).metadataAt == Done
    decreases k
  {
    hide At;
    if k > 0 && a.metadataAt != Done {
      TickKeeps(a);
      MetadataFirst(Tick(a), k - 1);
    }
  }

  // ---- pools that can be opened ----

  /** The durable identity. */
  ghost function IdentityOf(r: Root): Option<Record> {
    if Identity in r.synced && r.synced[Identity] in r.objects && r.objects[r.synced[Identity]].content.Whole?
    then Some(r.objects[r.synced[Identity]].content.record) else None
  }

  /** Roots that agree: both show an identity, one of them does, or both are bootstrap-only. */
  ghost predicate Recoverable(pools: Pools, m: Record, d: Record) {
    Settled(pools.metadata, m, Metadata) && Settled(pools.data, d, Data) && Validated(m, d).Ok?
  }

  ghost predicate Openable(pools: Pools) {
    exists m, d :: Recoverable(pools, m, d)
  }

  /** No durable identity is replaced or lost. */
  ghost predicate Keeps(before: Pools, after: Pools) {
    && (IdentityOf(before.metadata).Some? ==> IdentityOf(after.metadata) == IdentityOf(before.metadata))
    && (IdentityOf(before.data).Some? ==> IdentityOf(after.data) == IdentityOf(before.data))
  }

  /** Every identity that an open would read is durable. */
  ghost predicate ReadDurably(pools: Pools) {
    && (Identity in Live(pools.metadata) ==> Identity in pools.metadata.synced)
    && (Identity in Live(pools.data) ==> Identity in pools.data.synced)
  }

  lemma ShownIsRead(r: Root, record: Record, role: Role)
    requires Sane(r) && Shows(r, record, role)
    ensures ReadOptional(r, role) == Ok(Some(record))
    ensures IdentityOf(r) == if Identity in r.synced then Some(record) else None
  {
    BindingOrigin(r.synced, r.pending, Identity);
  }

  lemma SettledReads(r: Root, record: Record, role: Role)
    requires Settled(r, record, role)
    ensures ReadOptional(r, role) == Ok(if Identity in Live(r) then Some(record) else None)
    ensures IdentityOf(r) == if Identity in r.synced then Some(record) else None
    ensures Identity in r.synced ==> Identity in Live(r)
    ensures Identity in Live(r) ==> At(r, Done, record, role)
    ensures Identity !in Live(r) ==>
              BootstrapOnly(r, role) && forall other: Record :: other.role == role ==> At(r, Begin, other, role)
  {
    if Identity in Live(r) {
      ShownIsRead(r, record, role);
    } else {
      NamesAreAllowed(r, role);
    }
  }

  lemma NamesAreAllowed(r: Root, role: Role)
    requires Bootstrap(r, role) && Identity !in Live(r)
    ensures BootstrapOnly(r, role)
  {
    forall n | n in Live(r)
      ensures Allowed(n, role)
    {
      BindingOrigin(r.synced, r.pending, n);
    }
  }

  /** A root as a loss of power leaves it: nothing pending, every content stable. */
  ghost predicate AtRest(r: Root) {
    Sane(r) && r.pending == [] && forall i :: i in r.objects ==> r.objects[i].stable
  }

  /** At rest, the pairs that an open takes on are exactly those that every theorem here starts from. */
  lemma OpenableIffAcceptable(pools: Pools)
    requires AtRest(pools.metadata) && AtRest(pools.data)
    ensures Openable(pools) <==> Acceptable(pools)
  {
    if Openable(pools) {
      var m, d :| Recoverable(pools, m, d);
      SettledFound(pools.metadata, m, Metadata);
      SettledFound(pools.data, d, Data);
    }
    if Acceptable(pools) {
      var m := if Found(pools.metadata).Some? then Found(pools.metadata).value.record
               else if Found(pools.data).Some?
               then Record(Found(pools.data).value.record.appliance, Found(pools.data).value.record.pool + 1, Metadata)
               else Record(0, 0, Metadata);
      var d := if Found(pools.data).Some? then Found(pools.data).value.record
               else Record(m.appliance, m.pool + 1, Data);
      AcceptableSettles(pools.metadata, m, Metadata);
      AcceptableSettles(pools.data, d, Data);
      assert Recoverable(pools, m, d);
    }
  }

  lemma SettledFound(r: Root, record: Record, role: Role)
    requires Settled(r, record, role)
    ensures RootAcceptable(r, role)
    ensures Found(r).Some? ==> Found(r) == Some(Whole(record))
  {
    SettledReads(r, record, role);
    FoundIsRead(r, role);
    if Identity in Live(r) {
      BindingOrigin(r.synced, r.pending, Identity);
    }
  }

  lemma AcceptableSettles(r: Root, record: Record, role: Role)
    requires AtRest(r) && RootAcceptable(r, role) && record.role == role
    requires Found(r).Some? ==> Found(r).value == Whole(record)
    ensures Settled(r, record, role)
  {
  }

  /** Openable roots are accepted, and the attempt keeps whatever identity is already there. */
  lemma OpenableBegins(pools: Pools, drawn: Entropy)
    requires Openable(pools) && Drawn(pools, drawn)
    ensures Begun(pools, drawn).Ok?
    ensures var a := Begun(pools, drawn).value;
            && Running(a) && a.pools == pools
            && a.metadataAt == (if Identity in Live(pools.metadata) then Done else Begin)
            && a.dataAt == (if Identity in Live(pools.data) then Done else Begin)
            && (IdentityOf(pools.metadata).Some? ==>
                  a.metadataAt == Done && IdentityOf(pools.metadata) == Some(a.metadata))
            && (IdentityOf(pools.data).Some? ==>
                  a.dataAt == Done && IdentityOf(pools.data) == Some(a.data))
  {
    hide At, Settled, IdentityOf, ReadOptional, BootstrapOnly, Live;
    var m, d :| Recoverable(pools, m, d);
    SettledReads(pools.metadata, m, Metadata);
    SettledReads(pools.data, d, Data);
  }

  lemma DoneIdentity(r: Root, record: Record, role: Role)
    requires At(r, Done, record, role)
    ensures IdentityOf(r) == (if Identity in r.synced then Some(record) else None) && Settled(r, record, role)
  {
    ShownIsRead(r, record, role);
  }

  /** A finished, synced root survives any loss of power with the same identity. */
  lemma DoneSurvives(r: Root, record: Record, role: Role, s: Root)
    requires At(r, Done, record, role) && Identity in r.synced && Crashed(r, s)
    ensures IdentityOf(s) == Some(record)
  {
  }

  // ---- attempts cut short ----

  /** How an attempt ends early: the power goes, or only the process dies. */
  datatype Ending = PowerLoss | Killed

  /** One attempt cut after any number of storage operations. */
  ghost predicate CutTo(pools: Pools, drawn: Entropy, k: nat, ending: Ending, after: Pools) {
    && Drawn(pools, drawn) && Begun(pools, drawn).Ok? && Running(Begun(pools, drawn).value)
    && var left := Ticks(Begun(pools, drawn).value, k).pools;
       match ending
       case PowerLoss => Crashed(left.metadata, after.metadata) && Crashed(left.data, after.data)
       case Killed => after == left
  }

  lemma LossRecovers(pools: Pools, drawn: Entropy, k: nat, after: Pools)
    requires Openable(pools) && CutTo(pools, drawn, k, PowerLoss, after)
    ensures Openable(after) && Keeps(pools, after) && ReadDurably(after)
  {
    hide At, Crashed, IdentityOf, Settled, Begun, Drawn;
    OpenableBegins(pools, drawn);
    var b := Ticks(Begun(pools, drawn).value, k);
    StageCrash(b.pools.metadata, b.metadataAt, b.metadata, Metadata, after.metadata);
    StageCrash(b.pools.data, b.dataAt, b.data, Data, after.data);
    assert Recoverable(after, b.metadata, b.data);
    if IdentityOf(pools.metadata).Some? {
      DurableIsSynced(pools.metadata);
      DoneSurvives(b.pools.metadata, b.metadata, Metadata, after.metadata);
    }
    if IdentityOf(pools.data).Some? {
      DurableIsSynced(pools.data);
      DoneSurvives(b.pools.data, b.data, Data, after.data);
    }
  }

  lemma DurableIsSynced(r: Root)
    requires IdentityOf(r).Some?
    ensures Identity in r.synced
  {
  }

  lemma KillRecovers(pools: Pools, drawn: Entropy, k: nat)
    requires Openable(pools) && Drawn(pools, drawn) && Begun(pools, drawn).Ok? && Running(Begun(pools, drawn).value)
    ensures var after := Ticks(Begun(pools, drawn).value, k).pools;
            Openable(after) && Keeps(pools, after)
  {
    hide At, IdentityOf, Settled, Begun, Drawn;
    OpenableBegins(pools, drawn);
    var b := Ticks(Begun(pools, drawn).value, k);
    StageKilled(b.pools.metadata, b.metadataAt, b.metadata, Metadata);
    StageKilled(b.pools.data, b.dataAt, b.data, Data);
    assert Recoverable(b.pools, b.metadata, b.data);
  }

  /** However it ends, an attempt leaves roots that can be opened and every durable identity. */
  lemma CutRecovers(pools: Pools, drawn: Entropy, k: nat, ending: Ending, after: Pools)
    requires Openable(pools) && CutTo(pools, drawn, k, ending, after)
    ensures Openable(after) && Keeps(pools, after)
    ensures ending == PowerLoss ==> ReadDurably(after)
  {
    hide Openable, Keeps, ReadDurably, Begun, Drawn, Crashed;
    if ending == PowerLoss {
      LossRecovers(pools, drawn, k, after);
    } else {
      KillRecovers(pools, drawn, k);
    }
  }

  datatype Cut = Cut(drawn: Entropy, k: nat, ending: Ending, after: Pools)

  /** Any number of attempts, each cut somewhere by a loss of power or a killed process. */
  ghost predicate CrashRun(pools: Pools, cuts: seq<Cut>, after: Pools)
    decreases |cuts|
  {
    if cuts == [] then after == pools
    else CutTo(pools, cuts[0].drawn, cuts[0].k, cuts[0].ending, cuts[0].after)
         && CrashRun(cuts[0].after, cuts[1..], after)
  }

  lemma {:induction false} CrashesRecover(pools: Pools, cuts: seq<Cut>, after: Pools)
    requires Openable(pools) && CrashRun(pools, cuts, after)
    ensures Openable(after) && Keeps(pools, after)
    ensures cuts != [] && cuts[|cuts| - 1].ending == PowerLoss ==> ReadDurably(after)
    decreases |cuts|
  {
    hide Openable, IdentityOf, CutTo, ReadDurably;
    if cuts != [] {
      CutRecovers(pools, cuts[0].drawn, cuts[0].k, cuts[0].ending, cuts[0].after);
      CrashesRecover(cuts[0].after, cuts[1..], after);
    }
  }

  /** Two freshly made roots: nothing but bootstrap names, nothing pending. */
  ghost predicate Blank(pools: Pools) {
    && Sane(pools.metadata) && Sane(pools.data)
    && pools.metadata.pending == [] && pools.data.pending == []
    && Identity !in pools.metadata.synced && Identity !in pools.data.synced
    && Bootstrap(pools.metadata, Metadata) && Bootstrap(pools.data, Data)
  }

  /** Both identities durable: the binding every later open returns. */
  ghost predicate Bound(pools: Pools, m: Record, d: Record) {
    Recoverable(pools, m, d) && IdentityOf(pools.metadata) == Some(m) && IdentityOf(pools.data) == Some(d)
  }

  /** Sixteen operations always suffice for an uninterrupted attempt. */
  ghost function Finished(pools: Pools, drawn: Entropy): (b: Attempt)
    requires Openable(pools) && Drawn(pools, drawn)
  {
    OpenableBegins(pools, drawn);
    Ticks(Begun(pools, drawn).value, 16)
  }

  /** An uninterrupted open returns a consistent pair; it is bound if and only if what was read was durable. */
  lemma OpenFinishes(pools: Pools, drawn: Entropy)
    requires Openable(pools) && Drawn(pools, drawn)
    ensures var b := Finished(pools, drawn);
            && b.metadataAt == Done && b.dataAt == Done
            && Recoverable(b.pools, b.metadata, b.data) && Keeps(pools, b.pools)
            && (Bound(b.pools, b.metadata, b.data) <==> ReadDurably(pools))
  {
    hide At, IdentityOf, Settled, Begun, Drawn;
    OpenableBegins(pools, drawn);
    var b := Finished(pools, drawn);
    DoneIdentity(b.pools.metadata, b.metadata, Metadata);
    DoneIdentity(b.pools.data, b.data, Data);
  }

  /**
    Main theorem: from blank roots, after any number of attempts cut short, the next
    uninterrupted one returns both roots under one appliance and distinct pools and
    replaces no durable identity. It binds them for good exactly when the identities
    it read were durable, as they are after a loss of power.
   */
  lemma InitializationIsCrashSafe(pools: Pools, cuts: seq<Cut>, after: Pools, drawn: Entropy)
    requires Blank(pools) && CrashRun(pools, cuts, after)
    ensures Openable(after)
    ensures cuts == [] || cuts[|cuts| - 1].ending == PowerLoss ==> ReadDurably(after)
    ensures Drawn(after, drawn) ==>
              var b := Finished(after, drawn);
              && b.metadataAt == Done && b.dataAt == Done && Keeps(after, b.pools)
              && b.metadata.appliance == b.data.appliance && b.metadata.pool != b.data.pool
              && (Bound(b.pools, b.metadata, b.data) <==> ReadDurably(after))
  {
    hide At;
    assert Recoverable(pools, Record(0, 0, Metadata), Record(0, 1, Data));
    CrashesRecover(pools, cuts, after);
    if Drawn(after, drawn) {
      OpenFinishes(after, drawn);
    }
  }

  /** Once bound, every later attempt, however it ends, sees and leaves the same binding. */
  lemma BindingIsForever(pools: Pools, m: Record, d: Record, cuts: seq<Cut>, after: Pools, drawn: Entropy)
    requires Bound(pools, m, d) && CrashRun(pools, cuts, after)
    ensures Openable(after) && IdentityOf(after.metadata) == Some(m) && IdentityOf(after.data) == Some(d)
    ensures Begun(after, drawn) == Ok(Attempt(after, m, d, Done, Done))
  {
    hide CrashRun, At, IdentityOf, Settled, ReadOptional;
    CrashesRecover(pools, cuts, after);
    var n, e :| Recoverable(after, n, e);
    SettledReads(after.metadata, n, Metadata);
    SettledReads(after.data, e, Data);
  }

  // ---- a binding that is returned and then lost ----

  /** Power loss that keeps none of the pending directory changes. */
  ghost function Dropped(r: Root): Root {
    r.(pending := [], objects := map i | i in r.objects :: r.objects[i].(stable := true))
  }

  lemma {:induction false} KeptNothing(changes: seq<Change>)
    ensures Kept(changes, seq(|changes|, _ => false)) == []
  {
    if changes != [] {
      var n := |changes| - 1;
      KeptNothing(changes[..n]);
      assert seq(|changes|, _ => false)[..n] == seq(n, _ => false);
    }
  }

  lemma DroppedIsCrash(r: Root)
    ensures Crashed(r, Dropped(r))
  {
    KeptNothing(r.pending);
    var keep := seq(|r.pending|, _ => false);
    assert Dropped(r).synced == AppliedAll(r.synced, Kept(r.pending, keep));
  }

  /** A process dying between publication and root sync leaves an identity that is shown and not durable. */
  lemma {:induction false} ReachesPublished(a: Attempt) returns (k: nat)
    requires Running(a) && !a.metadataAt.Published? && a.metadataAt != Done
    ensures Ticks(a, k).metadataAt == Published
    decreases Left(a.metadataAt)
  {
    hide At;
    TickKeeps(a);
    if Tick(a).metadataAt == Published {
      k := 1;
      assert Ticks(Tick(a), 0) == Tick(a);
    } else {
      var more := ReachesPublished(Tick(a));
      k := more + 1;
    }
  }

  /**
    From any blank roots: an attempt is killed between publishing the Metadata identity
    and syncing it, the next open reads that identity and succeeds, and a loss of power
    then leaves the Metadata root with no identity at all.
   */
  lemma ReturnedBindingCanBeLost(pools: Pools, drawn: Entropy, again: Entropy)
    requires Blank(pools) && Drawn(pools, drawn)
    ensures exists k: nat, after: Pools ::
              && CutTo(pools, drawn, k, Killed, after) && Openable(after)
              && (Drawn(after, again) ==>
                    var b := Finished(after, again);
                    && b.metadataAt == Done && b.dataAt == Done
                    && Crashed(b.pools.metadata, Dropped(b.pools.metadata))
                    && IdentityOf(Dropped(b.pools.metadata)) == None)
  {
    hide At;
    assert Recoverable(pools, Record(0, 0, Metadata), Record(0, 1, Data));
    OpenableBegins(pools, drawn);
    var a := Begun(pools, drawn).value;
    var k := ReachesPublished(a);
    var after := Ticks(a, k).pools;
    assert CutTo(pools, drawn, k, Killed, after);
    CutRecovers(pools, drawn, k, Killed, after);
    PublishedIsShown(after.metadata, Ticks(a, k).metadata);
    if Drawn(after, again) {
      OpenableBegins(after, again);
      OpenFinishes(after, again);
      DroppedIsCrash(Finished(after, again).pools.metadata);
    }
  }

  lemma PublishedIsShown(r: Root, record: Record)
    requires At(r, Published, record, Metadata)
    ensures Identity in Live(r) && Identity !in r.synced
  {
  }
}
