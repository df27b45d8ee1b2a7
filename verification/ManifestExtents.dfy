/**
  A file manifest as a partition into extents: its bytes, the validation it has
  passed, and the flat recipe's range lookup over cumulative extent ends.
 */
module ManifestExtents {
  import opened Basics

  const MAX_LOGICAL_CHUNK_BYTES: nat := 256 * 1024

  /** A chunk identity; the store below says which bytes it names. */
  type ChunkId = nat

  /** Content addressing: one immutable byte string per chunk identity. */
  type Store = ChunkId -> seq<Byte>

  datatype Extent =
    | Data(length: nat, chunk: ChunkId)
    | DataSlice(length: nat, chunk: ChunkId, chunkLength: nat, chunkOffset: nat)
    | Hole(length: nat)
    | Fill(length: nat, value: Byte)

  datatype Located = Located(at: nat, extent: Extent)

  // ---- meaning ----

  /** The chunk an extent names really has the length the extent relies on. */
  ghost predicate Resolves(e: Extent, store: Store) {
    match e
    case Data(length, chunk) => |store(chunk)| == length
    case DataSlice(length, chunk, chunkLength, chunkOffset) =>
      |store(chunk)| == chunkLength && chunkOffset + length <= chunkLength
    case _ => true
  }

  ghost function ExtentBytes(e: Extent, store: Store): (bytes: seq<Byte>)
    requires Resolves(e, store)
    ensures |bytes| == e.length
  {
    match e
    case Data(_, chunk) => store(chunk)
    case DataSlice(length, chunk, _, chunkOffset) => store(chunk)[chunkOffset..chunkOffset + length]
    case Hole(length) => seq(length, _ => 0)
    case Fill(length, value) => seq(length, _ => value)
  }

  ghost predicate AllResolve(extents: seq<Extent>, store: Store) {
    forall i :: 0 <= i < |extents| ==> Resolves(extents[i], store)
  }

  /** Where the `n`-th extent starts. */
  function StartOf(extents: seq<Extent>, n: nat): nat
    requires n <= |extents|
  {
    if n == 0 then 0 else StartOf(extents, n - 1) + extents[n - 1].length
  }

  /** The bytes of the first `n` extents. */
  ghost function FileBytes(extents: seq<Extent>, n: nat, store: Store): (bytes: seq<Byte>)
    requires n <= |extents| && AllResolve(extents, store)
    ensures |bytes| == StartOf(extents, n)
  {
    if n == 0 then [] else FileBytes(extents, n - 1, store) + ExtentBytes(extents[n - 1], store)
  }

  /** A located extent tells the truth about the file. */
  ghost predicate Agrees(l: Located, file: seq<Byte>, store: Store) {
    && Resolves(l.extent, store)
    && l.at + l.extent.length <= |file|
    && ExtentBytes(l.extent, store) == file[l.at..l.at + l.extent.length]
  }

  lemma {:induction false} StartsRise(extents: seq<Extent>, m: nat, n: nat)
    requires m <= n <= |extents|
    ensures StartOf(extents, m) <= StartOf(extents, n)
    ensures (forall i :: 0 <= i < |extents| ==> extents[i].length > 0) && m < n
            ==> StartOf(extents, m) < StartOf(extents, n)
  {
    if m < n {
      StartsRise(extents, m, n - 1);
    }
  }

  lemma {:induction false} ExtentInFile(extents: seq<Extent>, i: nat, n: nat, store: Store)
    requires i < n <= |extents| && AllResolve(extents, store)
    ensures StartOf(extents, i + 1) <= StartOf(extents, n)
    ensures FileBytes(extents, n, store)[StartOf(extents, i)..StartOf(extents, i + 1)]
         == ExtentBytes(extents[i], store)
  {
    hide ExtentBytes, Resolves;
    StartsRise(extents, i + 1, n);
    var front, last := FileBytes(extents, n - 1, store), ExtentBytes(extents[n - 1], store);
    if i + 1 < n {
      ExtentInFile(extents, i, n - 1, store);
      assert (front + last)[..|front|] == front;
    } else {
      assert (front + last)[|front|..] == last;
    }
  }

  // ---- validation ----

  predicate ValidExtent(e: Extent) {
    && e.length > 0
    && (e.Data? ==> e.length <= MAX_LOGICAL_CHUNK_BYTES)
    && (e.DataSlice? ==>
          && 0 < e.chunkLength <= MAX_LOGICAL_CHUNK_BYTES
          && e.chunkOffset + e.length <= e.chunkLength)
  }

  /** What a verified manifest satisfies. */
  predicate ValidPartition(fileLength: nat, extents: seq<Extent>) {
    && (forall i :: 0 <= i < |extents| ==> ValidExtent(extents[i]))
    && StartOf(extents, |extents|) == fileLength <= U64_MAX
  }

  /** `validate_partition`: a checked running end over every extent. */
  method ValidatePartition(fileLength: nat, extents: seq<Extent>) returns (ok: bool)
    requires fileLength <= U64_MAX
    ensures ok <==> ValidPartition(fileLength, extents)
    ensures ok ==> forall i :: 0 <= i < |extents| ==>
                     var e := extents[i];
                     && 0 < e.length && (e.Data? ==> e.length <= 262_144)
                     && (e.DataSlice? ==> e.chunkOffset + e.length <= e.chunkLength <= 262_144)
  {
    var end, i := 0, 0;
    while i < |extents|
      invariant 0 <= i <= |extents| && end == StartOf(extents, i) <= U64_MAX
      invariant forall j :: 0 <= j < i ==> ValidExtent(extents[j])
    {
      var length := extents[i].length;
      if length == 0 {
        return false;
      }
      match extents[i] {
        case Data(_, _) =>
          if length > MAX_LOGICAL_CHUNK_BYTES {
            return false;
          }
        case DataSlice(_, _, chunkLength, chunkOffset) =>
          if chunkOffset + length > U64_MAX || chunkLength == 0
             || chunkLength > MAX_LOGICAL_CHUNK_BYTES || chunkOffset + length > chunkLength {
            return false;
          }
        case _ =>
      }
      StartsRise(extents, i + 1, |extents|);
      if end + length > U64_MAX {
        return false;
      }
      end, i := end + length, i + 1;
    }
    StartsRise(extents, 0, |extents|);
    return end == fileLength && (fileLength == 0) == (|extents| == 0);
  }

  // ---- the flat recipe's range lookup ----

  /** How many of the first `n` extents end below `bound`. */
  function EndingBelow(extents: seq<Extent>, n: nat, bound: nat): (r: nat)
    requires n <= |extents|
    ensures r <= n
    ensures r > 0 ==> StartOf(extents, r) < bound
    ensures r < n ==> bound <= StartOf(extents, r + 1)
  {
    if n == 0 then 0
    else if StartOf(extents, n) < bound then n
    else EndingBelow(extents, n - 1, bound)
  }

  function LocatedSlice(extents: seq<Extent>, first: nat, last: nat): (r: seq<Located>)
    requires first <= last <= |extents|
    ensures |r| == last - first
    ensures forall i :: 0 <= i < |r| ==> r[i] == Located(StartOf(extents, first + i), extents[first + i])
  {
    if first == last then []
    else LocatedSlice(extents, first, last - 1) + [Located(StartOf(extents, last - 1), extents[last - 1])]
  }

  /** The extents a range touches, at their file positions. */
  function RangeExtents(extents: seq<Extent>, offset: nat, end: nat): seq<Located>
    requires offset < end <= StartOf(extents, |extents|)
  {
    var first := EndingBelow(extents, |extents|, offset + 1);
    var last := EndingBelow(extents, |extents|, end);
    RangeWindow(extents, offset, end);
    LocatedSlice(extents, first, last + 1)
  }

  /** The lookup window holds exactly the extents that intersect the range. */
  lemma {:induction false} RangeWindow(extents: seq<Extent>, offset: nat, end: nat)
    requires offset < end <= StartOf(extents, |extents|)
    ensures var first := EndingBelow(extents, |extents|, offset + 1);
            var last := EndingBelow(extents, |extents|, end);
            && first <= last < |extents|
            && StartOf(extents, first) <= offset < StartOf(extents, first + 1)
            && StartOf(extents, last) < end <= StartOf(extents, last + 1)
  {
    var first := EndingBelow(extents, |extents|, offset + 1);
    var last := EndingBelow(extents, |extents|, end);
    if last < first {
      StartsRise(extents, last + 1, first);
    }
  }

  /** Consecutive extents without gaps whose first and last straddle the range's ends. */
  ghost predicate Covers(located: seq<Located>, offset: nat, end: nat) {
    && |located| > 0
    && located[0].at <= offset < located[0].at + located[0].extent.length
    && Contiguous(located)
    && located[|located| - 1].at < end <= located[|located| - 1].at + located[|located| - 1].extent.length
  }

  ghost predicate Contiguous(located: seq<Located>) {
    forall i :: 0 < i < |located| ==>
      located[i].at == located[i - 1].at + located[i - 1].extent.length
  }

  lemma {:induction false} RangeCovers(extents: seq<Extent>, offset: nat, end: nat)
    requires offset < end <= StartOf(extents, |extents|)
    ensures Covers(RangeExtents(extents, offset, end), offset, end)
  {
  }

  lemma {:induction false} RangeAgrees(extents: seq<Extent>, offset: nat, end: nat, store: Store, l: Located)
    requires offset < end <= StartOf(extents, |extents|) && AllResolve(extents, store)
    requires l in RangeExtents(extents, offset, end)
    ensures Agrees(l, FileBytes(extents, |extents|, store), store)
  {
    hide ExtentBytes, FileBytes, EndingBelow;
    var first := EndingBelow(extents, |extents|, offset + 1);
    var i :| 0 <= i < |RangeExtents(extents, offset, end)| && RangeExtents(extents, offset, end)[i] == l;
    RangeWindow(extents, offset, end);
    ExtentInFile(extents, first + i, |extents|, store);
  }

  ghost predicate Touches(extents: seq<Extent>, i: nat, offset: nat, end: nat)
    requires i < |extents|
  {
    StartOf(extents, i) < end && offset < StartOf(extents, i + 1)
  }

  /** Nothing in the range is missed and nothing outside it is returned. */
  lemma {:induction false} RangeIsIntersection(extents: seq<Extent>, offset: nat, end: nat, i: nat)
    requires offset < end <= StartOf(extents, |extents|) && i < |extents|
    ensures var first := EndingBelow(extents, |extents|, offset + 1);
            var last := EndingBelow(extents, |extents|, end);
            first <= i <= last <==> Touches(extents, i, offset, end)
  {
    var first := EndingBelow(extents, |extents|, offset + 1);
    var last := EndingBelow(extents, |extents|, end);
    RangeWindow(extents, offset, end);
    hide EndingBelow;
    if i < first { StartsRise(extents, i + 1, first); }
    if first <= i { StartsRise(extents, first + 1, i + 1); }
    if i <= last { StartsRise(extents, i, last); }
    if last < i { StartsRise(extents, last + 1, i); }
  }

  /** The process-local positions beside a flat manifest; a single extent needs none. */
  datatype FlatRecipe = FlatRecipe(extents: seq<Extent>, extentEnds: seq<nat>)

  ghost predicate Indexed(flat: FlatRecipe) {
    if |flat.extents| > 1
    then |flat.extentEnds| == |flat.extents|
         && forall i :: 0 <= i < |flat.extents| ==> flat.extentEnds[i] == StartOf(flat.extents, i + 1)
    else flat.extentEnds == []
  }

  method NewFlatRecipe(fileLength: nat, extents: seq<Extent>) returns (flat: FlatRecipe)
    requires ValidPartition(fileLength, extents)
    ensures flat.extents == extents && Indexed(flat)
  {
    var ends: seq<nat> := [];
    var end, i := 0, 0;
    while i < |extents|
      invariant 0 <= i <= |extents| && end == StartOf(extents, i)
      invariant |ends| == if |extents| > 1 then i else 0
      invariant forall j :: 0 <= j < |ends| ==> ends[j] == StartOf(extents, j + 1)
    {
      end := end + extents[i].length;
      if |extents| > 1 {
        ends := ends + [end];
      }
      i := i + 1;
    }
    return FlatRecipe(extents, ends);
  }

  /** `partition_point` over the cumulative ends, by bisection. */
  method PartitionPoint(flat: FlatRecipe, bound: nat) returns (r: nat)
    requires Indexed(flat) && |flat.extents| > 1
    ensures r == EndingBelow(flat.extents, |flat.extents|, bound)
  {
    var lo, hi := 0, |flat.extentEnds|;
    while lo < hi
      invariant 0 <= lo <= hi <= |flat.extents|
      invariant lo > 0 ==> StartOf(flat.extents, lo) < bound
      invariant hi < |flat.extents| ==> bound <= StartOf(flat.extents, hi + 1)
    {
      var mid := (lo + hi) / 2;
      if flat.extentEnds[mid] < bound {
        lo := mid + 1;
      } else {
        hi := mid;
      }
    }
    SplitUnique(flat.extents, lo, bound);
    return lo;
  }

  lemma {:induction false} SplitUnique(extents: seq<Extent>, r: nat, bound: nat)
    requires r <= |extents|
    requires r > 0 ==> StartOf(extents, r) < bound
    requires r < |extents| ==> bound <= StartOf(extents, r + 1)
    ensures r == EndingBelow(extents, |extents|, bound)
  {
    var s := EndingBelow(extents, |extents|, bound);
    if s < r { StartsRise(extents, s + 1, r); }
    if r < s { StartsRise(extents, r + 1, s); }
  }

  /** `intersecting`: the window of extents a range touches and where it starts. */
  method Intersecting(flat: FlatRecipe, offset: nat, length: nat) returns (first: nat, last: nat, start: nat)
    requires Indexed(flat)
    requires length > 0 && offset + length <= StartOf(flat.extents, |flat.extents|)
    ensures first == EndingBelow(flat.extents, |flat.extents|, offset + 1)
    ensures last == EndingBelow(flat.extents, |flat.extents|, offset + length) + 1
    ensures first < last <= |flat.extents| && start == StartOf(flat.extents, first)
  {
    RangeWindow(flat.extents, offset, offset + length);
    first, last, start := 0, |flat.extents|, 0;
    if |flat.extentEnds| > 0 {
      first := PartitionPoint(flat, offset + 1);
      last := PartitionPoint(flat, offset + length);
      last := last + 1;
      start := if first == 0 then 0 else flat.extentEnds[first - 1];
    }
  }

  /** `read_range` of a flat recipe: locate the window, then number its extents. */
  method ReadRange(flat: FlatRecipe, offset: nat, length: nat) returns (located: seq<Located>)
    requires Indexed(flat)
    requires length > 0 && offset + length <= StartOf(flat.extents, |flat.extents|)
    ensures located == RangeExtents(flat.extents, offset, offset + length)
  {
    var first, last, start := Intersecting(flat, offset, length);
    hide EndingBelow, Indexed;
    located := [];
    var i := first;
    while i < last
      invariant first <= i <= last && start == StartOf(flat.extents, i)
      invariant located == LocatedSlice(flat.extents, first, i)
    {
      assert LocatedSlice(flat.extents, first, i + 1)
          == LocatedSlice(flat.extents, first, i) + [Located(start, flat.extents[i])];
      located := located + [Located(start, flat.extents[i])];
      start, i := start + flat.extents[i].length, i + 1;
    }
  }
}
