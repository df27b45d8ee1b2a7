/**
  Proof-cache trace events and the Trace v1 byte image: a 64-byte header and one
  56-byte record per event, authenticated by a hash of the records. The hash
  function is a parameter.
 */
module TraceFormat {
  import opened Basics

  type Digest = d: seq<Byte> | |d| == 32 witness ZERO_DIGEST

  const ZERO_DIGEST: seq<Byte> := seq(32, _ => 0)
  const MAGIC: seq<Byte> := [0x46, 0x44, 0x50, 0x54, 0x52, 0x43, 0x30, 0x31]
  const VERSION: nat := 1
  const HEADER_BYTES: nat := 64
  const RECORD_BYTES: nat := 56
  const MAX_EVENTS: nat := 4_194_304
  const U32: nat := 0x1_0000_0000

  datatype Key = Key(chunk: Digest, length: nat)

  datatype Event =
    | Lookup(key: Key)
    | AdmitPublished(key: Key, verifyBytes: nat)
    | AdmitExactReuse(key: Key, verifyBytes: nat)

  datatype Error =
    | InvalidTraceHeader
    | TraceTooLarge
    | InvalidTraceBounds
    | TraceHashMismatch
    | InvalidEvent

  type Parsed = Result<seq<Event>, Error>

  function VerifyBytes(e: Event): nat {
    if e.Lookup? then 0 else e.verifyBytes
  }

  function Kind(e: Event): (k: Byte)
    ensures 1 <= k <= 3
  {
    match e case Lookup(_) => 1 case AdmitPublished(_, _) => 2 case AdmitExactReuse(_, _) => 3
  }

  /** Both numbers are 32-bit in the source. */
  predicate Fits(e: Event) {
    e.key.length < U32 && VerifyBytes(e) < U32
  }

  predicate Meaningful(e: Event) {
    e.key.length != 0 && (!e.Lookup? ==> e.verifyBytes != 0)
  }

  /** The traces `ProofCacheTrace::new` accepts. */
  predicate ValidTrace(events: seq<Event>) {
    |events| <= MAX_EVENTS && forall i :: 0 <= i < |events| ==> Fits(events[i]) && Meaningful(events[i])
  }

  // ---- little-endian fields ----

  function LE(value: nat, width: nat): (bytes: seq<Byte>)
    ensures |bytes| == width
  {
    if width == 0 then [] else [value % 256] + LE(value / 256, width - 1)
  }

  function FromLE(bytes: seq<Byte>): (value: nat) {
    if bytes == [] then 0 else bytes[0] + 256 * FromLE(bytes[1..])
  }

  function Pow256(n: nat): (p: nat)
    ensures p >= 1
  {
    if n == 0 then 1 else 256 * Pow256(n - 1)
  }

  lemma Widths()
    ensures Pow256(2) == 0x1_0000 && Pow256(4) == U32 && Pow256(8) == 0x1_0000_0000_0000_0000
  {
  }

  lemma {:induction false} ReadBack(value: nat, width: nat)
    requires value < Pow256(width)
    ensures FromLE(LE(value, width)) == value
  {
    if width > 0 {
      ReadBack(value / 256, width - 1);
      assert LE(value, width)[1..] == LE(value / 256, width - 1);
    }
  }

  lemma {:induction false} WriteBack(bytes: seq<Byte>)
    ensures FromLE(bytes) < Pow256(|bytes|)
    ensures LE(FromLE(bytes), |bytes|) == bytes
  {
    if bytes != [] {
      WriteBack(bytes[1..]);
      assert FromLE(bytes) / 256 == FromLE(bytes[1..]);
      assert bytes == [bytes[0]] + bytes[1..];
    }
  }

  // ---- the image ----

  function Record(e: Event, index: nat): (bytes: seq<Byte>)
    ensures |bytes| == RECORD_BYTES
  {
    [Kind(e), 0, 0, 0] + LE(e.key.length, 4) + LE(VerifyBytes(e), 4) + [0, 0, 0, 0]
    + e.key.chunk + LE(index + 1, 8)
  }

  function Records(events: seq<Event>, index: nat): (bytes: seq<Byte>)
    ensures |bytes| == RECORD_BYTES * |events|
  {
    if events == [] then [] else Record(events[0], index) + Records(events[1..], index + 1)
  }

  function Header(count: nat, digest: Digest): (bytes: seq<Byte>)
    ensures |bytes| == HEADER_BYTES
  {
    MAGIC + LE(VERSION, 2) + LE(HEADER_BYTES, 2) + LE(RECORD_BYTES, 2) + [0, 0]
    + LE(count, 8) + LE(RECORD_BYTES * count, 8) + digest
  }

  function Image(events: seq<Event>, hash: seq<Byte> -> Digest): (bytes: seq<Byte>)
    ensures |bytes| == HEADER_BYTES + RECORD_BYTES * |events|
  {
    var payload := Records(events, 0);
    Header(|events|, hash(payload)) + payload
  }

  // ---- reading ----

  function Field(bytes: seq<Byte>, offset: nat, width: nat): (value: nat)
    requires offset + width <= |bytes|
  {
    FromLE(bytes[offset..offset + width])
  }

  /** One record, or nothing when it is malformed. */
  function ParseRecord(record: seq<Byte>, index: nat): (r: Parsed)
    requires |record| == RECORD_BYTES
    ensures r.Ok? ==> |r.value| == 1
  {
    if record[1..4] != [0, 0, 0] || record[12..16] != [0, 0, 0, 0] || Field(record, 48, 8) != index + 1
    then Err(InvalidEvent)
    else
      var key := Key(record[16..48], Field(record, 4, 4));
      var verify := Field(record, 8, 4);
      if record[0] == 1 && verify == 0 then Ok([Lookup(key)])
      else if record[0] == 2 then Ok([AdmitPublished(key, verify)])
      else if record[0] == 3 then Ok([AdmitExactReuse(key, verify)])
      else Err(InvalidEvent)
  }

  function ParseRecords(payload: seq<Byte>, index: nat): (r: Parsed)
    requires |payload| % RECORD_BYTES == 0
    ensures r.Ok? ==> RECORD_BYTES * |r.value| == |payload|
    decreases |payload|
  {
    if payload == [] then Ok([])
    else
      match ParseRecord(payload[..RECORD_BYTES], index)
      case Err(e) => Err(e)
      case Ok(first) =>
        match ParseRecords(payload[RECORD_BYTES..], index + 1)
        case Err(e) => Err(e)
        case Ok(rest) => Ok(first + rest)
  }

  /** `ProofCacheTrace::new`. */
  function Checked(events: seq<Event>): (r: Parsed) {
    if |events| > MAX_EVENTS then Err(TraceTooLarge)
    else if exists i :: 0 <= i < |events| && !Meaningful(events[i]) then Err(InvalidEvent)
    else Ok(events)
  }

  /** The checks `decode` makes before it looks at any record. */
  function HeaderError(bytes: seq<Byte>, hash: seq<Byte> -> Digest): (r: Parsed)
    ensures r.Ok? ==> |bytes| >= HEADER_BYTES && (|bytes| - HEADER_BYTES) % RECORD_BYTES == 0
  {
    if |bytes| < HEADER_BYTES || bytes[0..8] != MAGIC then Err(InvalidTraceHeader)
    else if Field(bytes, 8, 2) != VERSION || Field(bytes, 10, 2) != HEADER_BYTES
            || Field(bytes, 12, 2) != RECORD_BYTES || bytes[14..16] != [0, 0] then Err(InvalidTraceHeader)
    else
      var count := Field(bytes, 16, 8);
      if count > MAX_EVENTS then Err(TraceTooLarge)
      else if Field(bytes, 24, 8) != RECORD_BYTES * count || |bytes| != HEADER_BYTES + RECORD_BYTES * count
      then Err(InvalidTraceBounds)
      else if bytes[32..64] != hash(bytes[64..]) then Err(TraceHashMismatch)
      else Ok([])
  }

  function Parse(bytes: seq<Byte>, hash: seq<Byte> -> Digest): (r: Parsed) {
    var header := HeaderError(bytes, hash);
    if header.Err? then header
    else
      var records := ParseRecords(bytes[HEADER_BYTES..], 0);
      if records.Err? then records else Checked(records.value)
  }

  // ---- records round trip ----

  /** The fields of a 56-byte record, each at its offset. */
  ghost predicate HoldsEvent(r: seq<Byte>, e: Event, index: nat) {
    && |r| == 56
    && r[0] == (if e.Lookup? then 1 else if e.AdmitPublished? then 2 else 3) && r[1..4] == [0, 0, 0]
    && Field(r, 4, 4) == e.key.length && Field(r, 8, 4) == (if e.Lookup? then 0 else e.verifyBytes)
    && r[12..16] == [0, 0, 0, 0] && r[16..48] == e.key.chunk && Field(r, 48, 8) == index + 1
  }

  lemma RecordFields(e: Event, index: nat)
    requires Fits(e) && index < MAX_EVENTS
    ensures ParseRecord(Record(e, index), index) == Ok([e])
    ensures HoldsEvent(Record(e, index), e, index)
  {
    hide LE, FromLE, Pow256;
    Widths();
    var r := Record(e, index);
    assert r[0] == Kind(e) && r[1..4] == [0, 0, 0] && r[12..16] == [0, 0, 0, 0];
    assert r[4..8] == LE(e.key.length, 4);
    assert r[8..12] == LE(VerifyBytes(e), 4);
    assert r[16..48] == e.key.chunk;
    assert r[48..56] == LE(index + 1, 8);
    ReadBack(e.key.length, 4);
    ReadBack(VerifyBytes(e), 4);
    ReadBack(index + 1, 8);
  }

  lemma RecordIsCanonical(record: seq<Byte>, index: nat)
    requires |record| == RECORD_BYTES && ParseRecord(record, index).Ok?
    ensures var e := ParseRecord(record, index).value[0]; Fits(e) && Record(e, index) == record
  {
    Widths();
    var e := ParseRecord(record, index).value[0];
    WriteBack(record[4..8]);
    WriteBack(record[8..12]);
    WriteBack(record[48..56]);
    assert record == record[0..1] + record[1..4] + record[4..8] + record[8..12] + record[12..16] + record[16..48]
                     + record[48..56];
    assert [Kind(e), 0, 0, 0] == record[0..1] + record[1..4];
  }

  lemma {:induction false} RecordsParse(events: seq<Event>, index: nat)
    requires forall i :: 0 <= i < |events| ==> Fits(events[i])
    requires index + |events| <= MAX_EVENTS
    ensures ParseRecords(Records(events, index), index) == Ok(events)
    decreases |events|
  {
    hide Record, ParseRecord, Fits;
    if events != [] {
      var bytes := Records(events, index);
      RecordFields(events[0], index);
      RecordsParse(events[1..], index + 1);
      assert bytes[..RECORD_BYTES] == Record(events[0], index);
      assert bytes[RECORD_BYTES..] == Records(events[1..], index + 1);
      assert events == [events[0]] + events[1..];
    }
  }

  lemma {:induction false} RecordsAreCanonical(payload: seq<Byte>, index: nat)
    requires |payload| % RECORD_BYTES == 0 && ParseRecords(payload, index).Ok?
    ensures var events := ParseRecords(payload, index).value;
            (forall i :: 0 <= i < |events| ==> Fits(events[i])) && Records(events, index) == payload
    decreases |payload|
  {
    if payload != [] {
      RecordIsCanonical(payload[..RECORD_BYTES], index);
      RecordsAreCanonical(payload[RECORD_BYTES..], index + 1);
      var first := ParseRecord(payload[..RECORD_BYTES], index).value;
      var rest := ParseRecords(payload[RECORD_BYTES..], index + 1).value;
      assert first == [first[0]] && (first + rest)[0] == first[0] && (first + rest)[1..] == rest;
      assert payload == payload[..RECORD_BYTES] + payload[RECORD_BYTES..];
    }
  }

  // ---- images round trip ----

  lemma HeaderFields(count: nat, digest: Digest, payload: seq<Byte>)
    requires count <= MAX_EVENTS
    ensures var b := Header(count, digest) + payload;
            && b[0..8] == MAGIC && Field(b, 8, 2) == VERSION && Field(b, 10, 2) == HEADER_BYTES
            && Field(b, 12, 2) == RECORD_BYTES && b[14..16] == [0, 0]
            && Field(b, 16, 8) == count && Field(b, 24, 8) == RECORD_BYTES * count
            && b[32..64] == digest && b[64..] == payload
  {
    hide LE, FromLE, Pow256;
    Widths();
    var b := Header(count, digest) + payload;
    assert b[0..8] == MAGIC;
    assert b[8..10] == LE(VERSION, 2);
    assert b[10..12] == LE(HEADER_BYTES, 2);
    assert b[12..14] == LE(RECORD_BYTES, 2);
    assert b[14..16] == [0, 0];
    assert b[16..24] == LE(count, 8);
    assert b[24..32] == LE(RECORD_BYTES * count, 8);
    assert b[32..64] == digest;
    ReadBack(VERSION, 2);
    ReadBack(HEADER_BYTES, 2);
    ReadBack(RECORD_BYTES, 2);
    ReadBack(count, 8);
    ReadBack(RECORD_BYTES * count, 8);
  }

  lemma {:induction false} RecordAt(events: seq<Event>, index: nat, i: nat)
    requires i < |events|
    ensures Records(events, index)[56 * i..56 * (i + 1)] == Record(events[i], index + i)
    decreases i
  {
    hide Record;
    var first, rest := Record(events[0], index), Records(events[1..], index + 1);
    if i == 0 {
      assert (first + rest)[..56] == first;
    } else {
      RecordAt(events[1..], index + 1, i - 1);
      assert (first + rest)[56 * i..56 * (i + 1)] == rest[56 * (i - 1)..56 * i];
    }
  }

  /** Where everything is: the header's fields, and event number `i` in its own 56 bytes. */
  lemma ImageLayout(events: seq<Event>, hash: seq<Byte> -> Digest, i: nat)
    requires ValidTrace(events) && i < |events|
    ensures var b := Image(events, hash);
            && |b| == 64 + 56 * |events|
            && b[0..8] == [0x46, 0x44, 0x50, 0x54, 0x52, 0x43, 0x30, 0x31]
            && Field(b, 8, 2) == 1 && Field(b, 10, 2) == 64 && Field(b, 12, 2) == 56 && b[14..16] == [0, 0]
            && Field(b, 16, 8) == |events| && Field(b, 24, 8) == 56 * |events| && b[32..64] == hash(b[64..])
            && HoldsEvent(b[64 + 56 * i..64 + 56 * (i + 1)], events[i], i)
  {
    hide Record, Records, Header, HoldsEvent, Field;
    var payload := Records(events, 0);
    HeaderFields(|events|, hash(payload), payload);
    RecordAt(events, 0, i);
    RecordFields(events[i], i);
    var b := Image(events, hash);
    assert b[64 + 56 * i..64 + 56 * (i + 1)] == payload[56 * i..56 * (i + 1)];
  }

  /** Every valid trace is read back from its own image. */
  lemma DecodeEncode(events: seq<Event>, hash: seq<Byte> -> Digest)
    requires ValidTrace(events)
    ensures Parse(Image(events, hash), hash) == Ok(events)
  {
    hide Header, Records, ParseRecords, Field;
    var payload := Records(events, 0);
    HeaderFields(|events|, hash(payload), payload);
    RecordsParse(events, 0);
    assert (RECORD_BYTES * |events|) % RECORD_BYTES == 0;
  }

  lemma HeaderIsCanonical(bytes: seq<Byte>, hash: seq<Byte> -> Digest)
    requires HeaderError(bytes, hash).Ok?
    ensures var count := Field(bytes, 16, 8);
            && count <= MAX_EVENTS && |bytes| == HEADER_BYTES + RECORD_BYTES * count
            && bytes == Header(count, hash(bytes[64..])) + bytes[64..]
  {
    WriteBack(bytes[8..10]);
    WriteBack(bytes[10..12]);
    WriteBack(bytes[12..14]);
    WriteBack(bytes[16..24]);
    WriteBack(bytes[24..32]);
    assert bytes == bytes[0..8] + bytes[8..10] + bytes[10..12] + bytes[12..14] + bytes[14..16]
                    + bytes[16..24] + bytes[24..32] + bytes[32..64] + bytes[64..];
  }

  /** Whatever is accepted is a valid trace, and encoding it gives the same bytes again. */
  lemma EncodeDecode(bytes: seq<Byte>, hash: seq<Byte> -> Digest)
    requires Parse(bytes, hash).Ok?
    ensures ValidTrace(Parse(bytes, hash).value)
    ensures Image(Parse(bytes, hash).value, hash) == bytes
  {
    var events := Parse(bytes, hash).value;
    HeaderIsCanonical(bytes, hash);
    RecordsAreCanonical(bytes[HEADER_BYTES..], 0);
  }

  /** So an image has one trace, and decoding accepts exactly the images of valid traces. */
  lemma AcceptsExactlyImages(bytes: seq<Byte>, events: seq<Event>, hash: seq<Byte> -> Digest)
    ensures Parse(bytes, hash) == Ok(events) <==> ValidTrace(events) && Image(events, hash) == bytes
  {
    if Parse(bytes, hash) == Ok(events) {
      EncodeDecode(bytes, hash);
    }
    if ValidTrace(events) && Image(events, hash) == bytes {
      DecodeEncode(events, hash);
    }
  }
}
