/**
  What one clone job does to the files: the request check made by the worker
  thread just before the copy, and the copy itself.
 */
module CloneContract {
  import Basics

  const CHECKSUM_NONE: nat := 0
  const CHECKSUM_CRC32: nat := 1
  const CHECKSUM_CRC64: nat := 2

  type FileId = nat

  /** The integrity attribute of a file: absent, a stored algorithm, or bytes that do not decode. */
  datatype Attribute = Absent | Stored(algorithm: nat) | Malformed

  datatype File = File(bytes: seq<Basics.Byte>, integrity: Attribute)

  type Files = map<FileId, File>

  datatype Request = Request(
    source: FileId, target: FileId,
    sourceOffset: nat, targetOffset: nat, length: nat,
    alignment: nat, maximum: nat)

  datatype Status =
    | Ok
    | InvalidParameter
    | CloneTooLarge
    | SourceOutOfBounds
    | TargetNotPresized
    | Overlap
    | DataError
    | IntegrityMismatch

  predicate PowerOfTwo(value: nat)
    decreases value
  {
    value == 1 || (value > 1 && value % 2 == 0 && PowerOfTwo(value / 2))
  }

  /** `fastdup_validate_clone_v1`, with the sizes the worker just read. */
  function Validate(r: Request, sourceSize: nat, targetSize: nat): (s: Status)
    ensures s == Ok <==>
            && 0 < r.length <= r.maximum
            && PowerOfTwo(r.alignment) && r.alignment >= 4096
            && r.sourceOffset + r.length <= Basics.U64_MAX && r.targetOffset + r.length <= Basics.U64_MAX
            && r.sourceOffset + r.length <= sourceSize
            && r.targetOffset + r.length <= targetSize
            && (r.source == r.target ==>
                  || r.sourceOffset + r.length <= r.targetOffset
                  || r.targetOffset + r.length <= r.sourceOffset)
    ensures s == CloneTooLarge ==> r.length > r.maximum
    ensures s == SourceOutOfBounds ==> r.sourceOffset + r.length > sourceSize
    ensures s == TargetNotPresized ==> r.sourceOffset + r.length <= sourceSize && r.targetOffset + r.length > targetSize
    ensures s == Overlap ==>
              && r.source == r.target && r.sourceOffset + r.length <= sourceSize
              && r.targetOffset + r.length <= targetSize
  {
    if r.length == 0 || !PowerOfTwo(r.alignment) || r.alignment < 4096 || r.maximum == 0 then InvalidParameter
    else if r.length > r.maximum then CloneTooLarge
    else if r.sourceOffset > Basics.U64_MAX - r.length || r.targetOffset > Basics.U64_MAX - r.length
    then InvalidParameter
    else if r.sourceOffset + r.length > sourceSize then SourceOutOfBounds
    else if r.targetOffset + r.length > targetSize then TargetNotPresized
    else if r.source == r.target
            && r.sourceOffset < r.targetOffset + r.length
            && r.targetOffset < r.sourceOffset + r.length then Overlap
    else Ok
  }

  /**
    The algorithm presented for a stored attribute, or nothing when it does not decode. The
    source narrows the alignment to 32 bits here, which changes nothing: a connection admits
    no alignment above its maximum clone size, and that is below 2^31.
   */
  function EffectiveIntegrity(a: Attribute, alignment: nat): (algorithm: int)
    ensures -1 <= algorithm <= CHECKSUM_CRC64
  {
    match a
    case Absent => CHECKSUM_NONE
    case Malformed => -1
    case Stored(stored) =>
      if stored > CHECKSUM_CRC64 || !PowerOfTwo(alignment) || alignment < 4096 then -1
      else if stored == CHECKSUM_NONE then CHECKSUM_NONE
      else if alignment == 4096 then CHECKSUM_CRC32
      else CHECKSUM_CRC64
  }

  /** The checks of `fastdup_clone_do`, read from the current files. */
  function Verdict(files: Files, r: Request): (s: Status)
    requires r.source in files && r.target in files
  {
    var source, target := files[r.source], files[r.target];
    var sourceIntegrity := EffectiveIntegrity(source.integrity, r.alignment);
    var targetIntegrity := EffectiveIntegrity(target.integrity, r.alignment);
    if sourceIntegrity == -1 || targetIntegrity == -1 then DataError
    else if sourceIntegrity != targetIntegrity then IntegrityMismatch
    else Validate(r, |source.bytes|, |target.bytes|)
  }

  // ---- what the checks mean ----

  ghost predicate Plain(a: Attribute) {
    a == Absent || a == Stored(CHECKSUM_NONE)
  }

  ghost predicate Checksummed(a: Attribute) {
    a == Stored(CHECKSUM_CRC32) || a == Stored(CHECKSUM_CRC64)
  }

  /** Neither file carries checksums, or both do; which checksum was stored does not matter. */
  ghost predicate Agree(a: Attribute, b: Attribute) {
    (Plain(a) && Plain(b)) || (Checksummed(a) && Checksummed(b))
  }

  ghost predicate ValidAlignment(alignment: nat) {
    PowerOfTwo(alignment) && alignment >= 4096
  }

  /** An attribute that the volume's geometry cannot present: nothing but an absent one is safe from that. */
  ghost predicate Unreadable(a: Attribute, alignment: nat) {
    || a == Malformed
    || (a.Stored? && (a.algorithm > CHECKSUM_CRC64 || !ValidAlignment(alignment)))
  }

  /** The byte ranges and the geometry are those of a clone the files can take. */
  ghost predicate InRange(r: Request, sourceSize: nat, targetSize: nat) {
    && 0 < r.length <= r.maximum && ValidAlignment(r.alignment)
    && r.sourceOffset + r.length <= Basics.Min(Basics.U64_MAX, sourceSize)
    && r.targetOffset + r.length <= Basics.Min(Basics.U64_MAX, targetSize)
    && (r.source == r.target ==>
          || r.sourceOffset + r.length <= r.targetOffset
          || r.targetOffset + r.length <= r.sourceOffset)
  }

  /** A job is accepted exactly when both files agree on checksums and its ranges fit. */
  lemma AcceptedIff(files: Files, r: Request)
    requires r.source in files && r.target in files
    ensures Verdict(files, r) == Ok <==>
              && Agree(files[r.source].integrity, files[r.target].integrity)
              && InRange(r, |files[r.source].bytes|, |files[r.target].bytes|)
  {
  }

  /** The two refusals over attributes come first, whatever the ranges are. */
  lemma IntegrityRefusals(files: Files, r: Request)
    requires r.source in files && r.target in files
    ensures var s, t := files[r.source].integrity, files[r.target].integrity;
            && (Verdict(files, r) == DataError <==> Unreadable(s, r.alignment) || Unreadable(t, r.alignment))
            && (Verdict(files, r) == IntegrityMismatch <==>
                  && !Unreadable(s, r.alignment) && !Unreadable(t, r.alignment)
                  && ((Plain(s) && Checksummed(t)) || (Checksummed(s) && Plain(t))))
  {
  }

  /** The file `target` after `copy_file_range` reported `copied` bytes. */
  function Copied(source: File, target: File, r: Request, copied: nat): (f: File)
    requires copied <= r.length
    requires r.sourceOffset + r.length <= |source.bytes|
    requires r.targetOffset + r.length <= |target.bytes|
    ensures |f.bytes| == |target.bytes| && f.integrity == target.integrity
    ensures forall i :: 0 <= i < |f.bytes| ==>
              f.bytes[i] == if r.targetOffset <= i < r.targetOffset + copied
                            then source.bytes[r.sourceOffset + (i - r.targetOffset)]
                            else target.bytes[i]
  {
    var range := source.bytes[r.sourceOffset..r.sourceOffset + copied];
    File(target.bytes[..r.targetOffset] + range + target.bytes[r.targetOffset + copied..], target.integrity)
  }

  /**
    What the worker does to the files when the system call reports `copied`
    bytes (a negative number for an error): nothing unless the check passes.
   */
  function Perform(files: Files, r: Request, copied: int): (after: Files)
    requires r.source in files && r.target in files
    requires copied <= r.length
    ensures after.Keys == files.Keys
    ensures forall id :: id in files && id != r.target ==> after[id] == files[id]
    ensures after != files ==>
              && Agree(files[r.source].integrity, files[r.target].integrity)
              && InRange(r, |files[r.source].bytes|, |files[r.target].bytes|) && copied > 0
    ensures Agree(files[r.source].integrity, files[r.target].integrity)
            && InRange(r, |files[r.source].bytes|, |files[r.target].bytes|) && copied > 0 ==>
              after[r.target] == Copied(files[r.source], files[r.target], r, copied)
  {
    AcceptedIff(files, r);
    if Verdict(files, r) == Ok && copied > 0
    then files[r.target := Copied(files[r.source], files[r.target], r, copied)]
    else files
  }

  /** `fastdup_clone_conflict`: the two jobs may not be reordered. */
  predicate Conflict(a: Request, b: Request) {
    a.target == b.target || a.source == b.target || a.target == b.source
  }

  /** Clones of one source into different files run side by side; what a job writes, no other may touch. */
  lemma SharingASourceIsNoConflict(a: Request, b: Request)
    ensures a.source == b.source && a.target != b.target && a.source != a.target && b.source != b.target ==>
              !Conflict(a, b)
    ensures Conflict(a, b) <==> a.target in {b.source, b.target} || b.target in {a.source, a.target}
  {
  }

  /** Jobs that do not conflict commute, and neither changes what the other is told. */
  lemma Commute(files: Files, a: Request, aCopied: int, b: Request, bCopied: int)
    requires a.source in files && a.target in files && b.source in files && b.target in files
    requires aCopied <= a.length && bCopied <= b.length
    requires !Conflict(a, b)
    ensures Perform(Perform(files, a, aCopied), b, bCopied) == Perform(Perform(files, b, bCopied), a, aCopied)
    ensures Verdict(Perform(files, a, aCopied), b) == Verdict(files, b)
    ensures Verdict(Perform(files, b, bCopied), a) == Verdict(files, a)
  {
  }
}
