/**
  One pool root as a crash-prone directory: file contents are stable only after a
  file sync, directory changes only after a root sync, and a loss of power keeps an
  arbitrary subset of the directory changes still pending. A killed process loses
  nothing: the next one sees the pending changes as if they were durable.
 */
module PoolStorage {

  datatype Role = Metadata | Data

  datatype Record = Record(appliance: nat, pool: nat, role: Role)

  /** Canonical identity, its temporary name, the two lease names, or any repository object. */
  datatype Name = Identity | Temp | Lease | Latch | Other(n: nat)

  /** File contents: one complete encoded record, or anything that does not decode. */
  datatype Content = Whole(record: Record) | Torn(exactLength: bool)

  datatype Object = Object(content: Content, stable: bool)

  datatype Change = Bind(name: Name, inode: nat) | Unbind(name: Name)

  type Directory = map<Name, nat>

  datatype Root = Root(objects: map<nat, Object>, next: nat, synced: Directory, pending: seq<Change>)

  function Applied(d: Directory, c: Change): Directory {
    match c
    case Bind(name, inode) => d[name := inode]
    case Unbind(name) => d - {name}
  }

  function AppliedAll(d: Directory, changes: seq<Change>): Directory {
    if changes == [] then d
    else Applied(AppliedAll(d, changes[..|changes| - 1]), changes[|changes| - 1])
  }

  /** The directory a running process sees. */
  function Live(r: Root): Directory {
    AppliedAll(r.synced, r.pending)
  }

  // ---- storage operations of a publication ----

  datatype Op = RemoveTemp | CreateTemp | WriteTemp(record: Record) | FixLength | SyncTemp | PublishTemp | SyncRoot

  /** What the backend demands before it carries the operation out. */
  predicate Possible(r: Root, op: Op) {
    match op
    case CreateTemp => Temp !in Live(r)
    case SyncRoot => true
    case PublishTemp => Temp in Live(r) && Live(r)[Temp] in r.objects && Identity !in Live(r)
    case _ => Temp in Live(r) && Live(r)[Temp] in r.objects
  }

  function Do(r: Root, op: Op): (after: Root)
    requires Possible(r, op)
  {
    match op
    case RemoveTemp => r.(pending := r.pending + [Unbind(Temp)])
    case CreateTemp =>
      r.(objects := r.objects[r.next := Object(Torn(false), false)],
         next := r.next + 1,
         pending := r.pending + [Bind(Temp, r.next)])
    case WriteTemp(record) => r.(objects := r.objects[Live(r)[Temp] := Object(Whole(record), false)])
    case FixLength =>
      var i := Live(r)[Temp];
      r.(objects := r.objects[i := r.objects[i].(stable := false)])
    case SyncTemp =>
      var i := Live(r)[Temp];
      r.(objects := r.objects[i := r.objects[i].(stable := true)])
    case PublishTemp => r.(pending := r.pending + [Bind(Identity, Live(r)[Temp]), Unbind(Temp)])
    case SyncRoot => r.(synced := Live(r), pending := [])
  }

  // ---- crashes ----

  /** The pending changes a crash happened to keep. */
  function Kept(changes: seq<Change>, keep: seq<bool>): seq<Change>
    requires |changes| == |keep|
  {
    if changes == [] then []
    else
      var n := |changes| - 1;
      Kept(changes[..n], keep[..n]) + if keep[n] then [changes[n]] else []
  }

  /** Power loss: some pending changes took effect, stable contents survived, the rest is anything. */
  ghost predicate Crashed(r: Root, s: Root) {
    && s.pending == [] && s.next == r.next && s.objects.Keys == r.objects.Keys
    && (exists keep: seq<bool> :: |keep| == |r.pending| && s.synced == AppliedAll(r.synced, Kept(r.pending, keep)))
    && (forall i :: i in r.objects && r.objects[i].stable ==> s.objects[i] == r.objects[i])
    && (forall i :: i in s.objects ==> s.objects[i].stable)
  }

  // ---- what a publication in progress keeps ----

  /** Every inode mentioned anywhere exists and is older than the next one. */
  ghost predicate Sane(r: Root) {
    && (forall i :: i in r.objects ==> i < r.next)
    && (forall n :: n in r.synced ==> r.synced[n] in r.objects)
    && (forall j :: 0 <= j < |r.pending| && r.pending[j].Bind? ==> r.pending[j].inode in r.objects)
  }

  predicate Allowed(n: Name, role: Role) {
    n == Temp || (role == Metadata && (n == Lease || n == Latch))
  }

  /** Only bootstrap names beside a possible identity, in every directory a crash could leave. */
  ghost predicate Bootstrap(r: Root, role: Role) {
    && (forall n :: n in r.synced ==> n == Identity || Allowed(n, role))
    && (forall j :: 0 <= j < |r.pending| ==> r.pending[j].name == Temp || r.pending[j].name == Identity)
  }

  /** No directory a crash could leave holds an identity. */
  ghost predicate Unpublished(r: Root) {
    && Identity !in r.synced
    && (forall j :: 0 <= j < |r.pending| ==> r.pending[j].name == Temp)
  }

  ghost predicate Holds(r: Root, i: nat, record: Record) {
    i in r.objects && r.objects[i] == Object(Whole(record), true)
  }

  /** Any identity a crash could leave is this record, complete and stable. */
  ghost predicate OnlyPublishes(r: Root, record: Record) {
    && (Identity in r.synced ==> Holds(r, r.synced[Identity], record))
    && (forall j :: 0 <= j < |r.pending| && r.pending[j].name == Identity ==>
          r.pending[j].Bind? && Holds(r, r.pending[j].inode, record))
  }

  lemma AppliedOne(d: Directory, changes: seq<Change>, c: Change)
    ensures AppliedAll(d, changes + [c]) == Applied(AppliedAll(d, changes), c)
  {
  }

  lemma AppliedTwo(d: Directory, changes: seq<Change>, b: Change, c: Change)
    ensures AppliedAll(d, changes + [b, c]) == Applied(Applied(AppliedAll(d, changes), b), c)
  {
    assert changes + [b, c] == (changes + [b]) + [c];
    AppliedOne(d, changes + [b], c);
    AppliedOne(d, changes, b);
  }

  /** A binding that survives came from the synced directory or from one of the changes. */
  lemma {:induction false} BindingOrigin(d: Directory, changes: seq<Change>, n: Name)
    requires n in AppliedAll(d, changes)
    ensures (n in d && AppliedAll(d, changes)[n] == d[n])
            || exists j :: 0 <= j < |changes| && changes[j] == Bind(n, AppliedAll(d, changes)[n])
  {
    if changes != [] {
      var front, last := changes[..|changes| - 1], changes[|changes| - 1];
      if last.Bind? && last.name == n {
        assert changes[|changes| - 1] == Bind(n, AppliedAll(d, changes)[n]);
      } else {
        BindingOrigin(d, front, n);
        if exists j :: 0 <= j < |front| && front[j] == Bind(n, AppliedAll(d, front)[n]) {
          var j :| 0 <= j < |front| && front[j] == Bind(n, AppliedAll(d, front)[n]);
          assert changes[j] == front[j];
        }
      }
    }
  }

  lemma {:induction false} KeptFrom(changes: seq<Change>, keep: seq<bool>, c: Change)
    requires |changes| == |keep| && c in Kept(changes, keep)
    ensures c in changes
  {
    var n := |changes| - 1;
    if changes != [] && c in Kept(changes[..n], keep[..n]) {
      KeptFrom(changes[..n], keep[..n], c);
    }
  }
}
