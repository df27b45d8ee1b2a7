/**
  Range-clone admission: rewriting the manifest extents under a byte range into
  prepared recipes that reproduce exactly those bytes without reading any DATA.
 */
module CloneExtents {
  import opened Basics
  import opened ManifestExtents

  datatype Error = FileTooLarge | InvalidArgument | Io

  /** A manifest root identity; zero is the invalid one. */
  type Root = nat

  datatype Recipe =
    | Chunk(chunk: ChunkId)
    | ChunkSlice(chunk: ChunkId, chunkLength: nat, chunkOffset: nat)
    | Repeat(value: Byte)

  datatype Retained = Retained(root: Root, sourceOffset: nat)

  datatype Prepared = Prepared(offset: nat, length: nat, recipe: Recipe, retained: Option<Retained>)

  // ---- the code's steps ----

  /** `try_new` and `try_new_retained`. */
  function NewPrepared(offset: nat, length: nat, recipe: Recipe, root: Option<Root>): Result<Prepared, Error> {
    if length == 0 || offset + length > U64_MAX || root == Some(0) then Err(InvalidArgument)
    else Ok(Prepared(offset, length, recipe,
                     if root.Some? then Some(Retained(root.value, offset)) else None))
  }

  /** The recipe for a clipped extent: None for a hole, which a clone does not describe. */
  function RecipeOf(l: Located, start: nat, length: nat): Result<Option<Recipe>, Error>
    requires l.at <= start
  {
    var skip := start - l.at;
    match l.extent
    case Data(whole, chunk) =>
      if skip == 0 && length == whole then Ok(Some(Chunk(chunk)))
      else if whole > U32_MAX || skip > U32_MAX then Err(Io)
      else Ok(Some(ChunkSlice(chunk, whole, skip)))
    case DataSlice(_, chunk, chunkLength, chunkOffset) =>
      if skip > U32_MAX || chunkOffset + skip > U32_MAX then Err(Io)
      else Ok(Some(ChunkSlice(chunk, chunkLength, chunkOffset + skip)))
    case Fill(_, value) => Ok(Some(Repeat(value)))
    case Hole(_) => Ok(None)
  }

  datatype Walk = Going(prepared: seq<Prepared>, cursor: nat) | Sparse | Failed(error: Error)

  /** One turn of the loop: clip the extent, demand it continues at the cursor, add its recipe. */
  function Advance(w: Walk, l: Located, root: Option<Root>, offset: nat, end: nat): Walk {
    if !w.Going? then w
    else if l.at + l.extent.length > U64_MAX then Failed(Io)
    else
      var start, stop := Max(l.at, offset), Min(l.at + l.extent.length, end);
      if start != w.cursor || start >= stop then Failed(Io)
      else
        var recipe := RecipeOf(l, start, stop - start);
        if recipe.Err? then Failed(recipe.error)
        else if recipe.value.None? then Sparse
        else
          var next := NewPrepared(start, stop - start, recipe.value.value, root);
          if next.Err? then Failed(next.error) else Going(w.prepared + [next.value], stop)
  }

  function Walked(located: seq<Located>, root: Option<Root>, offset: nat, end: nat): Walk {
    if located == [] then Going([], offset)
    else Advance(Walked(located[..|located| - 1], root, offset, end), located[|located| - 1], root, offset, end)
  }

  /** `prepared_clone_extents` once the range's extents have been looked up. */
  function Rewrite(located: seq<Located>, root: Option<Root>, offset: nat, end: nat)
    : Result<Option<seq<Prepared>>, Error>
  {
    match Walked(located, root, offset, end)
    case Failed(error) => Err(error)
    case Sparse => Ok(None)
    case Going(prepared, cursor) => if cursor == end then Ok(Some(prepared)) else Err(Io)
  }

  lemma {:induction false} StoppedStays(located: seq<Located>, i: nat, root: Option<Root>, offset: nat, end: nat)
    requires i <= |located| && !Walked(located[..i], root, offset, end).Going?
    ensures Walked(located, root, offset, end) == Walked(located[..i], root, offset, end)
  {
    if i == |located| {
      assert located[..i] == located;
    } else {
      assert located[..|located| - 1][..i] == located[..i];
      StoppedStays(located[..|located| - 1], i, root, offset, end);
    }
  }

  lemma {:induction false} WalkedNext(located: seq<Located>, i: nat, root: Option<Root>, offset: nat, end: nat)
    requires i < |located|
    ensures Walked(located[..i + 1], root, offset, end)
         == Advance(Walked(located[..i], root, offset, end), located[i], root, offset, end)
  {
    hide Advance;
    assert located[..i + 1][..i] == located[..i];
  }

  /** What the walk does with the outcome of one extent. */
  function Extended(prepared: seq<Prepared>, r: Result<Option<Prepared>, Error>): Walk {
    if r.Err? then Failed(r.error)
    else if r.value.None? then Sparse
    else Going(prepared + [r.value.value], r.value.value.offset + r.value.value.length)
  }

  /** One extent of the loop: clipped to the range, refused off the cursor, turned into its recipe. */
  method PrepareOne(l: Located, root: Option<Root>, cursor: nat, offset: nat, end: nat)
    returns (r: Result<Option<Prepared>, Error>)
    ensures forall prepared :: Advance(Going(prepared, cursor), l, root, offset, end) == Extended(prepared, r)
  {
    hide RecipeOf;
    var extentEnd := l.at + l.extent.length;
    if extentEnd > U64_MAX {
      return Err(Io);
    }
    var start, stop := Max(l.at, offset), Min(extentEnd, end);
    if start != cursor || start >= stop {
      return Err(Io);
    }
    var recipe := RecipeOf(l, start, stop - start);
    if recipe.Err? {
      return Err(recipe.error);
    }
    if recipe.value.None? {
      return Ok(None);
    }
    var piece := NewPrepared(start, stop - start, recipe.value.value, root);
    if piece.Err? {
      return Err(piece.error);
    }
    return Ok(Some(piece.value));
  }

  /** The loop itself, with its early returns. */
  method PrepareLocated(located: seq<Located>, root: Option<Root>, offset: nat, end: nat)
    returns (r: Result<Option<seq<Prepared>>, Error>)
    ensures r == Rewrite(located, root, offset, end)
  {
    var prepared: seq<Prepared> := [];
    var cursor: nat, i: nat := offset, 0;
    assert Walked(located[..0], root, offset, end) == Going(prepared, cursor);
    hide Walked, Advance;
    while i < |located|
      invariant 0 <= i <= |located|
      invariant Walked(located[..i], root, offset, end) == Going(prepared, cursor)
    {
      WalkedNext(located, i, root, offset, end);
      var piece := PrepareOne(located[i], root, cursor, offset, end);
      if piece.Err? {
        StoppedStays(located, i + 1, root, offset, end);
        return Err(piece.error);
      }
      if piece.value.None? {
        StoppedStays(located, i + 1, root, offset, end);
        return Ok(None);
      }
      prepared, i := prepared + [piece.value.value], i + 1;
      cursor := piece.value.value.offset + piece.value.value.length;
    }
    assert located[..i] == located;
    if cursor != end {
      return Err(Io);
    }
    return Ok(Some(prepared));
  }

  // ---- what prepared extents mean ----

  /** The recipe stays inside its chunk. */
  ghost predicate Inside(p: Prepared, store: Store) {
    match p.recipe
    case Chunk(chunk) => |store(chunk)| == p.length
    case ChunkSlice(chunk, chunkLength, chunkOffset) =>
      |store(chunk)| == chunkLength && chunkOffset + p.length <= chunkLength
    case Repeat(_) => true
  }

  ghost function RecipeBytes(p: Prepared, store: Store): (bytes: seq<Byte>)
    requires Inside(p, store)
    ensures |bytes| == p.length
  {
    match p.recipe
    case Chunk(chunk) => store(chunk)
    case ChunkSlice(chunk, _, chunkOffset) => store(chunk)[chunkOffset..chunkOffset + p.length]
    case Repeat(value) => seq(p.length, _ => value)
  }

  /** Nonempty pieces, back to back, from `offset` to `end`. */
  ghost predicate Tiles(prepared: seq<Prepared>, offset: nat, end: nat) {
    if prepared == [] then offset == end
    else
      var last := prepared[|prepared| - 1];
      && last.length > 0 && last.offset + last.length == end
      && Tiles(prepared[..|prepared| - 1], offset, last.offset)
  }

  ghost predicate AllInside(prepared: seq<Prepared>, store: Store) {
    forall i :: 0 <= i < |prepared| ==> Inside(prepared[i], store)
  }

  ghost function CloneBytes(prepared: seq<Prepared>, store: Store): seq<Byte>
    requires AllInside(prepared, store)
  {
    if prepared == [] then []
    else CloneBytes(prepared[..|prepared| - 1], store) + RecipeBytes(prepared[|prepared| - 1], store)
  }

  /** Each piece claims the manifest it came from, at the place it came from. */
  ghost predicate Claims(prepared: seq<Prepared>, root: Option<Root>) {
    forall i :: 0 <= i < |prepared| ==>
      prepared[i].retained == if root.Some? then Some(Retained(root.value, prepared[i].offset)) else None
  }

  // ---- soundness: whatever is accepted reproduces the file ----

  lemma {:induction false} SliceOfSlice(s: seq<Byte>, a: nat, b: nat, c: nat, d: nat)
    requires a <= b <= |s| && c <= d <= b - a
    ensures s[a..b][c..d] == s[a + c..a + d]
  {
    forall i | 0 <= i < d - c
      ensures s[a..b][c..d][i] == s[a + c..a + d][i]
    {
      assert s[a..b][c + i] == s[a + c + i];
    }
  }

  /** Clipping an extent's bytes is clipping the file. */
  lemma {:induction false} ClippedBytes(l: Located, start: nat, stop: nat, file: seq<Byte>, store: Store)
    requires Agrees(l, file, store)
    requires l.at <= start < stop <= l.at + l.extent.length
    ensures ExtentBytes(l.extent, store)[start - l.at..stop - l.at] == file[start..stop]
  {
    hide ExtentBytes;
    SliceOfSlice(file, l.at, l.at + l.extent.length, start - l.at, stop - l.at);
  }

  /** A clipped extent's recipe stays in its chunk and yields exactly the clipped bytes. */
  lemma {:induction false} RecipeExact(l: Located, p: Prepared, store: Store)
    requires Resolves(l.extent, store)
    requires l.at <= p.offset && p.length > 0 && p.offset + p.length <= l.at + l.extent.length
    requires RecipeOf(l, p.offset, p.length) == Ok(Some(p.recipe))
    ensures Inside(p, store)
    ensures RecipeBytes(p, store) == ExtentBytes(l.extent, store)[p.offset - l.at..p.offset - l.at + p.length]
  {
    var skip := p.offset - l.at;
    match l.extent
    case DataSlice(length, chunk, _, chunkOffset) =>
      SliceOfSlice(store(chunk), chunkOffset, chunkOffset + length, skip, skip + p.length);
    case _ =>
  }

  lemma {:induction false} PieceAppended(prepared: seq<Prepared>, p: Prepared, store: Store, file: seq<Byte>,
                                         offset: nat, cursor: nat)
    requires AllInside(prepared, store) && Inside(p, store)
    requires offset <= cursor == p.offset && p.length > 0 && cursor + p.length <= |file|
    requires Tiles(prepared, offset, cursor) && CloneBytes(prepared, store) == file[offset..cursor]
    requires RecipeBytes(p, store) == file[cursor..cursor + p.length]
    ensures AllInside(prepared + [p], store) && Tiles(prepared + [p], offset, cursor + p.length)
    ensures CloneBytes(prepared + [p], store) == file[offset..cursor + p.length]
  {
    assert (prepared + [p])[..|prepared|] == prepared;
    assert file[offset..cursor] + file[cursor..cursor + p.length] == file[offset..cursor + p.length];
  }

  ghost predicate Sofar(prepared: seq<Prepared>, cursor: nat, root: Option<Root>, offset: nat, end: nat,
                        file: seq<Byte>, store: Store) {
    && offset <= cursor <= end <= |file|
    && AllInside(prepared, store) && Tiles(prepared, offset, cursor) && Claims(prepared, root)
    && CloneBytes(prepared, store) == file[offset..cursor]
  }

  lemma {:induction false} AdvanceSound(w: Walk, l: Located, root: Option<Root>, offset: nat, end: nat,
                                        file: seq<Byte>, store: Store)
    requires w.Going? && Sofar(w.prepared, w.cursor, root, offset, end, file, store)
    requires Agrees(l, file, store)
    ensures var v := Advance(w, l, root, offset, end);
            v.Going? ==> Sofar(v.prepared, v.cursor, root, offset, end, file, store)
  {
    hide Agrees, Tiles, CloneBytes, RecipeBytes, ExtentBytes, Inside, Advance, RecipeOf, Resolves;
    var v := Advance(w, l, root, offset, end);
    if v.Going? {
      var p := AdvancePiece(w, l, root, offset, end);
      AgreesResolves(l, file, store);
      RecipeExact(l, p, store);
      ClippedBytes(l, p.offset, p.offset + p.length, file, store);
      PieceAppended(w.prepared, p, store, file, offset, w.cursor);
    }
  }

  lemma {:induction false} AgreesResolves(l: Located, file: seq<Byte>, store: Store)
    requires Agrees(l, file, store)
    ensures Resolves(l.extent, store)
  {
  }

  /** The piece a successful turn adds. */
  lemma {:induction false} AdvancePiece(w: Walk, l: Located, root: Option<Root>, offset: nat,
                                        end: nat) returns (p: Prepared)
    requires w.Going? && Advance(w, l, root, offset, end).Going?
    ensures Advance(w, l, root, offset, end) == Going(w.prepared + [p], p.offset + p.length)
    ensures l.at <= p.offset == w.cursor && p.length > 0
    ensures p.offset + p.length <= l.at + l.extent.length && p.offset + p.length <= end
    ensures RecipeOf(l, p.offset, p.length) == Ok(Some(p.recipe))
    ensures p.retained == if root.Some? then Some(Retained(root.value, p.offset)) else None
  {
    hide RecipeOf;
    var start, stop := Max(l.at, offset), Min(l.at + l.extent.length, end);
    p := NewPrepared(start, stop - start, RecipeOf(l, start, stop - start).value.value, root).value;
  }

  lemma {:induction false} WalkSound(located: seq<Located>, root: Option<Root>, offset: nat, end: nat,
                                     file: seq<Byte>, store: Store)
    requires offset <= end <= |file|
    requires forall l :: l in located ==> Agrees(l, file, store)
    ensures var w := Walked(located, root, offset, end);
            w.Going? ==> Sofar(w.prepared, w.cursor, root, offset, end, file, store)
  {
    hide Advance, Agrees, Sofar;
    if located == [] {
      NothingYet(root, offset, end, file, store);
    } else {
      var front := located[..|located| - 1];
      WalkSound(front, root, offset, end, file, store);
      if Walked(front, root, offset, end).Going? {
        AdvanceSound(Walked(front, root, offset, end), located[|located| - 1], root, offset, end, file, store);
      } else {
        StoppedWalk(Walked(front, root, offset, end), located[|located| - 1], root, offset, end);
      }
    }
  }

  lemma {:induction false} NothingYet(root: Option<Root>, offset: nat, end: nat, file: seq<Byte>, store: Store)
    requires offset <= end <= |file|
    ensures Sofar([], offset, root, offset, end, file, store)
  {
  }

  lemma {:induction false} StoppedWalk(w: Walk, l: Located, root: Option<Root>, offset: nat, end: nat)
    requires !w.Going?
    ensures Advance(w, l, root, offset, end) == w
  {
  }

  /** Main theorem: an accepted clone tiles the range and reproduces its bytes, whoever looked it up. */
  lemma {:induction false} CloneReproducesBytes(located: seq<Located>, root: Option<Root>, offset: nat, end: nat,
                                                file: seq<Byte>, store: Store)
    requires offset <= end <= |file|
    requires forall l :: l in located ==> Agrees(l, file, store)
    requires Rewrite(located, root, offset, end).Ok? && Rewrite(located, root, offset, end).value.Some?
    ensures var prepared := Rewrite(located, root, offset, end).value.value;
            && Tiles(prepared, offset, end) && Claims(prepared, root)
            && AllInside(prepared, store) && CloneBytes(prepared, store) == file[offset..end]
  {
    WalkSound(located, root, offset, end, file, store);
  }

  // ---- completeness: a valid manifest is refused only for a hole ----

  ghost predicate AllFilled(located: seq<Located>) {
    forall i :: 0 <= i < |located| ==> !located[i].extent.Hole?
  }

  /** A gapless stretch of valid extents that begins under `offset` and does not begin past `end`. */
  ghost predicate Stretch(located: seq<Located>, offset: nat, end: nat) {
    && |located| > 0 && Contiguous(located)
    && (forall i :: 0 <= i < |located| ==> ValidExtent(located[i].extent))
    && located[0].at <= offset < located[0].at + located[0].extent.length
    && located[|located| - 1].at < end <= U64_MAX
    && located[|located| - 1].at + located[|located| - 1].extent.length <= U64_MAX
  }

  lemma {:induction false} StretchRises(located: seq<Located>, offset: nat, end: nat)
    requires Stretch(located, offset, end)
    ensures |located| > 1 ==> offset < located[|located| - 1].at
    ensures |located| > 1 ==> Stretch(located[..|located| - 1], offset, end)
  {
    var n := |located|;
    if n > 1 {
      var front := located[..n - 1];
      assert located[n - 1].at == located[n - 2].at + located[n - 2].extent.length;
      assert ValidExtent(located[n - 2].extent);
      assert Contiguous(front) by {
        forall i | 0 < i < |front|
          ensures front[i].at == front[i - 1].at + front[i - 1].extent.length
        {
          assert located[i].at == located[i - 1].at + located[i - 1].extent.length;
        }
      }
      StretchRises(front, offset, end);
    }
  }

  /** One turn over a valid extent that starts where the walk stands. */
  lemma {:induction false} AdvanceTakes(w: Walk, l: Located, offset: nat, end: nat)
    requires w.Going? && ValidExtent(l.extent) && l.at + l.extent.length <= U64_MAX && l.at < end <= U64_MAX
    requires Max(l.at, offset) == w.cursor < Min(l.at + l.extent.length, end)
    ensures var v := Advance(w, l, None, offset, end);
            if l.extent.Hole? then v == Sparse else v.Going? && v.cursor == Min(l.at + l.extent.length, end)
  {
  }

  lemma {:induction false} WalkOutcome(located: seq<Located>, offset: nat, end: nat)
    requires Stretch(located, offset, end) && offset < end
    ensures var w, last := Walked(located, None, offset, end), located[|located| - 1];
            if AllFilled(located) then w.Going? && w.cursor == Min(last.at + last.extent.length, end)
            else w == Sparse
  {
    hide Advance, Stretch, ValidExtent;
    var n := |located|;
    StretchFacts(located, offset, end);
    if n == 1 {
      assert located[..0] == [];
      AdvanceTakes(Going([], offset), located[0], offset, end);
    } else {
      var front := located[..n - 1];
      StretchRises(located, offset, end);
      WalkOutcome(front, offset, end);
      var w := Walked(front, None, offset, end);
      if AllFilled(front) {
        AdvanceTakes(w, located[n - 1], offset, end);
      } else {
        StoppedWalk(w, located[n - 1], None, offset, end);
      }
    }
  }

  lemma {:induction false} StretchFacts(located: seq<Located>, offset: nat, end: nat)
    requires Stretch(located, offset, end)
    ensures var last := located[|located| - 1];
            && |located| > 0 && ValidExtent(last.extent) && last.extent.length > 0
            && last.at < end <= U64_MAX && last.at + last.extent.length <= U64_MAX
    ensures |located| == 1 ==> located[0].at <= offset < located[0].at + located[0].extent.length
    ensures |located| > 1 ==>
              located[|located| - 1].at == located[|located| - 2].at + located[|located| - 2].extent.length
  {
  }

  lemma {:induction false} RangeStretches(fileLength: nat, extents: seq<Extent>, offset: nat, end: nat)
    requires ValidPartition(fileLength, extents) && offset < end <= fileLength
    ensures var located := RangeExtents(extents, offset, end);
            Stretch(located, offset, end) && Covers(located, offset, end)
  {
    hide EndingBelow;
    RangeCovers(extents, offset, end);
    RangeWindow(extents, offset, end);
    StartsRise(extents, EndingBelow(extents, |extents|, end) + 1, |extents|);
  }

  ghost predicate NoHoleUnder(extents: seq<Extent>, offset: nat, end: nat) {
    forall i: nat :: i < |extents| && Touches(extents, i, offset, end) ==> !extents[i].Hole?
  }

  lemma {:induction false} FilledIffNoHole(extents: seq<Extent>, offset: nat, end: nat)
    requires offset < end <= StartOf(extents, |extents|)
    ensures AllFilled(RangeExtents(extents, offset, end)) <==> NoHoleUnder(extents, offset, end)
  {
    hide EndingBelow, Touches;
    var located := RangeExtents(extents, offset, end);
    var first, last := EndingBelow(extents, |extents|, offset + 1), EndingBelow(extents, |extents|, end);
    RangeWindow(extents, offset, end);
    if AllFilled(located) {
      forall i: nat | i < |extents| && Touches(extents, i, offset, end)
        ensures !extents[i].Hole?
      {
        RangeIsIntersection(extents, offset, end, i);
        assert located[i - first].extent == extents[i];
      }
    }
    if NoHoleUnder(extents, offset, end) {
      forall i | 0 <= i < |located|
        ensures !located[i].extent.Hole?
      {
        RangeIsIntersection(extents, offset, end, first + i);
      }
    }
  }

  /** Main theorem: in a valid manifest every range without a hole clones, and nothing else does. */
  lemma {:induction false} ValidFileClones(fileLength: nat, extents: seq<Extent>, offset: nat, end: nat)
    requires ValidPartition(fileLength, extents) && offset < end <= fileLength
    ensures var r := Rewrite(RangeExtents(extents, offset, end), None, offset, end);
            r.Ok? && (r.value.Some? <==> NoHoleUnder(extents, offset, end))
  {
    hide Stretch, Walked;
    RangeStretches(fileLength, extents, offset, end);
    WalkOutcome(RangeExtents(extents, offset, end), offset, end);
    FilledIffNoHole(extents, offset, end);
  }

  /** `prepared_clone_extents` on a file backed by a flat manifest. */
  method PreparedCloneExtents(flat: FlatRecipe, fileLength: nat, offset: nat, length: nat, ghost store: Store)
    returns (r: Result<Option<seq<Prepared>>, Error>)
    requires ValidPartition(fileLength, flat.extents) && Indexed(flat) && AllResolve(flat.extents, store)
    ensures r == Err(FileTooLarge) <==> offset + length > U64_MAX
    ensures r == Err(InvalidArgument) <==> offset + length <= U64_MAX && (length == 0 || offset + length > fileLength)
    ensures r != Err(Io)
    ensures r.Ok? ==> (r.value.Some? <==> NoHoleUnder(flat.extents, offset, offset + length))
    ensures r.Ok? && r.value.Some? ==>
              && Tiles(r.value.value, offset, offset + length) && AllInside(r.value.value, store)
              && CloneBytes(r.value.value, store)
                 == FileBytes(flat.extents, |flat.extents|, store)[offset..offset + length]
  {
    hide Walked, Rewrite, Tiles, CloneBytes, RecipeBytes, FileBytes, Touches, Indexed;
    if offset + length > U64_MAX {
      return Err(FileTooLarge);
    }
    var end := offset + length;
    if length == 0 || end > fileLength {
      return Err(InvalidArgument);
    }
    var located := ReadRange(flat, offset, length);
    ghost var file := FileBytes(flat.extents, |flat.extents|, store);
    forall l | l in located
      ensures Agrees(l, file, store)
    {
      RangeAgrees(flat.extents, offset, end, store, l);
    }
    ValidFileClones(fileLength, flat.extents, offset, end);
    r := PrepareLocated(located, None, offset, end);
    if r.value.Some? {
      CloneReproducesBytes(located, None, offset, end, file, store);
    }
  }
}
