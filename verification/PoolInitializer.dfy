/**
  The initializer as the appliance runs it: ordered storage mutations on two
  mutable roots, checked against the crash model's stages.
 */
module PoolInitializer {
  import opened Basics
  import opened PoolStorage
  import opened PoolBinding

  /** What a step reports: the backend refused an operation, or a binding rule was broken. */
  datatype Outcome<+T> = Good(value: T) | Refused | Failed(error: Error) | PublicationMismatch(role: Role)

  class StorageRoot {
    var root: Root

    constructor (root: Root)
      ensures this.root == root
    {
      this.root := root;
    }

    /** One storage operation: carried out completely or refused without effect. */
    method Perform(op: Op) returns (ok: bool)
      modifies this
      ensures ok <==> Possible(old(root), op)
      ensures root == if ok then Do(old(root), op) else old(root)
    {
      ok := Possible(root, op);
      if ok {
        root := Do(root, op);
      }
    }

    /** `require_bootstrap_only`: the directory is scanned name by name. */
    method RequireBootstrapOnly(role: Role) returns (ok: bool)
      ensures ok <==> BootstrapOnly(root, role)
    {
      var names := Live(root).Keys;
      while names != {}
        invariant names <= Live(root).Keys
        invariant forall n :: n in Live(root) && n !in names ==> Allowed(n, role)
        decreases |names|
      {
        var n :| n in names;
        if !Allowed(n, role) {
          return false;
        }
        names := names - {n};
      }
      return true;
    }

    /**
      `publish_identity`: clear the temporary name, write, sync, publish, sync, read back.
      Whatever the root, the read-back finds the record just published; only the backend
      can stop the publication.
     */
    method PublishIdentity(record: Record) returns (r: Outcome<()>)
      modifies this
      ensures r.Good? || r.Refused?
      ensures r.Good? ==> Found(root) == Some(Whole(record))
      ensures At(old(root), Begin, record, record.role) ==>
                r == Good(()) && At(root, Done, record, record.role) && Identity in root.synced
    {
      hide At, Live, Do, Possible, Found, TempWritten;
      ghost var began := At(root, Begin, record, record.role);
      ghost var stage := Begin;
      var ok := true;
      if Temp in Live(root) {
        stage := Advanced(root, stage, record, began);
        ok := Perform(RemoveTemp);
        if !ok { return Refused; }
        stage := Advanced(root, stage, record, began);
        ok := Perform(SyncRoot);
        if !ok { return Refused; }
      }
      stage := Advanced(root, stage, record, began);
      ok := Perform(CreateTemp);
      if !ok { return Refused; }
      stage := Advanced(root, stage, record, began);
      ghost var before := root;
      ok := Perform(WriteTemp(record));
      if !ok { return Refused; }
      WriteFills(before, record);
      stage := Advanced(root, stage, record, began);
      before := root;
      ok := Perform(FixLength);
      if !ok { return Refused; }
      ContentStays(before, FixLength, record);
      stage := Advanced(root, stage, record, began);
      before := root;
      ok := Perform(SyncTemp);
      if !ok { return Refused; }
      ContentStays(before, SyncTemp, record);
      stage := Advanced(root, stage, record, began);
      before := root;
      ok := Perform(PublishTemp);
      if !ok { return Refused; }
      PublishShows(before, record);
      SyncShows(root);
      stage := Advanced(root, stage, record, began);
      ok := Perform(SyncRoot);
      if !ok { return Refused; }
      r := ReadBack(record);
    }

    /** The published name must now read as the record just written. */
    method ReadBack(record: Record) returns (r: Outcome<()>)
      ensures Found(root) == Some(Whole(record)) ==> r == Good(())
    {
      FoundIsRead(root, record.role);
      hide Found, ReadOptional;
      var published := ReadOptional(root, record.role);
      if published.Err? {
        return Failed(published.error);
      }
      if published.value != Some(record) {
        return PublicationMismatch(record.role);
      }
      return Good(());
    }
  }

  /** The stage the next operation leads to, with what it then establishes. */
  ghost method Advanced(root: Root, stage: Stage, record: Record, began: bool) returns (next: Stage)
    requires stage != Done
    requires began ==> At(root, stage, record, record.role)
    ensures next == NextStage(stage, root)
    ensures began ==> Possible(root, NextOp(stage, root, record))
    ensures began ==> At(Do(root, NextOp(stage, root, record)), next, record, record.role)
    ensures began && next == Done ==> Identity in Do(root, NextOp(stage, root, record)).synced
  {
    next := NextStage(stage, root);
    if began {
      StageStep(root, stage, record, record.role);
    }
  }

  function Forwarded(r: Outcome<()>): Outcome<(Record, Record)>
    requires !r.Good?
  {
    match r
    case Refused => Refused
    case Failed(error) => Failed(error)
    case PublicationMismatch(role) => PublicationMismatch(role)
  }

  function Reported(r: Result<(Record, Record), Error>): Outcome<(Record, Record)> {
    match r
    case Ok(both) => Good(both)
    case Err(error) => Failed(error)
  }

  /** Everything `initialize_or_open` settles before it mutates a root. */
  method Decide(metadata: StorageRoot, data: StorageRoot, drawn: Entropy) returns (r: Result<Attempt, Error>)
    ensures r == Begun(Pools(metadata.root, data.root), drawn)
    ensures r.Ok? <==> Acceptable(Pools(metadata.root, data.root))
    ensures r.Err? ==> Breaks(Pools(metadata.root, data.root), r.error)
  {
    BegunIff(Pools(metadata.root, data.root), drawn);
    hide Acceptable, Breaks, ReadOptional, BootstrapOnly, Live;
    var pools := Pools(metadata.root, data.root);
    var m := ReadOptional(metadata.root, Metadata);
    if m.Err? {
      return Err(m.error);
    }
    var d := ReadOptional(data.root, Data);
    if d.Err? {
      return Err(d.error);
    }
    if m.value.Some? && d.value.Some? {
      var both := Validated(m.value.value, d.value.value);
      if both.Err? {
        return Err(both.error);
      }
      return Ok(Attempt(pools, m.value.value, d.value.value, Done, Done));
    }
    if m.value.Some? && m.value.value.role != Metadata {
      return Err(RoleMismatch(Metadata));
    }
    if d.value.Some? && d.value.value.role != Data {
      return Err(RoleMismatch(Data));
    }
    if m.value.None? {
      var clean := metadata.RequireBootstrapOnly(Metadata);
      if !clean {
        return Err(Populated(Metadata));
      }
    }
    if d.value.None? {
      var clean := data.RequireBootstrapOnly(Data);
      if !clean {
        return Err(Populated(Data));
      }
    }
    var appliance := if m.value.Some? then m.value.value.appliance
                     else if d.value.Some? then d.value.value.appliance else drawn.appliance;
    return Ok(Attempt(
      pools,
      if m.value.Some? then m.value.value else Record(appliance, drawn.metadataPool, Metadata),
      if d.value.Some? then d.value.value else Record(appliance, drawn.dataPool, Data),
      if m.value.Some? then Done else Begin,
      if d.value.Some? then Done else Begin));
  }

  /**
    `initialize_or_open`. A pair that is not acceptable is refused, for a rule it breaks,
    and left untouched. An acceptable pair can be stopped only by the backend, and on
    success the roots show the records returned, those that were read among them.
   */
  method InitializeOrOpen(metadata: StorageRoot, data: StorageRoot, drawn: Entropy)
    returns (r: Outcome<(Record, Record)>)
    requires metadata != data
    requires Drawn(Pools(metadata.root, data.root), drawn)
    modifies metadata, data
    ensures Begun(old(Pools(metadata.root, data.root)), drawn).Err? ==>
              && r == Failed(Begun(old(Pools(metadata.root, data.root)), drawn).error)
              && unchanged(metadata) && unchanged(data)
    ensures !old(Acceptable(Pools(metadata.root, data.root))) ==>
              && r.Failed? && Breaks(old(Pools(metadata.root, data.root)), r.error)
              && unchanged(metadata) && unchanged(data)
    ensures old(Acceptable(Pools(metadata.root, data.root))) ==>
              && (r.Good? || r.Refused?)
              && (r.Good? ==>
                    && Acceptable(Pools(metadata.root, data.root))
                    && Found(metadata.root) == Some(Whole(r.value.0)) && Found(data.root) == Some(Whole(r.value.1))
                    && (old(Found(metadata.root)).Some? ==> unchanged(metadata))
                    && (old(Found(data.root)).Some? ==> unchanged(data)))
    ensures old(Acceptable(Pools(metadata.root, data.root))) && !unchanged(data) ==>
              Found(metadata.root).Some? && Found(metadata.root).value.Whole?
    ensures old(Openable(Pools(metadata.root, data.root))) ==>
              && r.Good? && Recoverable(Pools(metadata.root, data.root), r.value.0, r.value.1)
              && Keeps(old(Pools(metadata.root, data.root)), Pools(metadata.root, data.root))
              && (Bound(Pools(metadata.root, data.root), r.value.0, r.value.1)
                  <==> old(ReadDurably(Pools(metadata.root, data.root))))
  {
    ghost var before := Pools(metadata.root, data.root);
    ghost var open := Openable(before);
    BegunIff(before, drawn);
    if Begun(before, drawn).Ok? {
      BegunValidates(before, drawn);
    }
    hide At, Settled, IdentityOf, Begun, Live, Breaks, Found;
    if open {
      OpenableBegins(before, drawn);
    }
    var begun := Decide(metadata, data, drawn);
    if begun.Err? {
      return Failed(begun.error);
    }
    var m, d := begun.value.metadata, begun.value.data;
    if begun.value.metadataAt != Done {
      var published := metadata.PublishIdentity(m);
      if !published.Good? {
        return Forwarded(published);
      }
    }
    if begun.value.dataAt != Done {
      var published := data.PublishIdentity(d);
      if !published.Good? {
        return Forwarded(published);
      }
    }
    if open {
      DoneIdentity(metadata.root, m, Metadata);
      DoneIdentity(data.root, d, Data);
    }
    return Reported(Validated(m, d));
  }
}
