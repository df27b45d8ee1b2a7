/** Trace v1 as the source encodes and decodes it: fields put at offsets of one buffer, records read in a loop. */
module TraceCodec {
  import opened Basics
  import opened TraceFormat

  /** Overwrites `bytes` in `buffer` from `offset` on. */
  function Patched(buffer: seq<Byte>, offset: nat, bytes: seq<Byte>): (after: seq<Byte>)
    requires offset + |bytes| <= |buffer|
    ensures |after| == |buffer|
    ensures forall k :: 0 <= k < |buffer| ==>
              after[k] == if offset <= k < offset + |bytes| then bytes[k - offset] else buffer[k]
  {
    buffer[..offset] + bytes + buffer[offset + |bytes|..]
  }

  method Put(buffer: array<Byte>, offset: nat, bytes: seq<Byte>)
    requires offset + |bytes| <= buffer.Length
    modifies buffer
    ensures buffer[..] == Patched(old(buffer[..]), offset, bytes)
  {
    var i := 0;
    while i < |bytes|
      invariant i <= |bytes|
      invariant forall k :: 0 <= k < buffer.Length ==>
                  buffer[k] == if offset <= k < offset + i then bytes[k - offset] else old(buffer[k])
    {
      buffer[offset + i] := bytes[i];
      i := i + 1;
    }
    assert buffer[..] == Patched(old(buffer[..]), offset, bytes);
  }

  method PutField(buffer: array<Byte>, offset: nat, value: nat, width: nat)
    requires offset + width <= buffer.Length
    modifies buffer
    ensures buffer[..] == Patched(old(buffer[..]), offset, LE(value, width))
  {
    Put(buffer, offset, LE(value, width));
  }

  ghost predicate Zeroed(buffer: seq<Byte>, from: nat, to: nat) {
    forall k :: from <= k < to && k < |buffer| ==> buffer[k] == 0
  }

  function Zeros(n: nat): (z: seq<Byte>)
    ensures |z| == n && forall i :: 0 <= i < n ==> z[i] == 0
  {
    seq(n, _ => 0)
  }

  /** The five writes that fill one zeroed record. */
  function RecordPatched(buffer: seq<Byte>, offset: nat, e: Event, index: nat): (after: seq<Byte>)
    requires offset + RECORD_BYTES <= |buffer|
  {
    var b1 := Patched(buffer, offset, [Kind(e)]);
    var b2 := Patched(b1, offset + 4, LE(e.key.length, 4));
    var b3 := Patched(b2, offset + 8, LE(VerifyBytes(e), 4));
    var b4 := Patched(b3, offset + 16, e.key.chunk);
    Patched(b4, offset + 48, LE(index + 1, 8))
  }

  lemma RecordWritten(buffer: seq<Byte>, offset: nat, e: Event, index: nat)
    requires offset + RECORD_BYTES <= |buffer| && Zeroed(buffer, offset, offset + RECORD_BYTES)
    ensures RecordPatched(buffer, offset, e, index) == Patched(buffer, offset, Record(e, index))
  {
  }

  method PutRecord(buffer: array<Byte>, offset: nat, e: Event, index: nat)
    requires offset + RECORD_BYTES <= buffer.Length
    requires Zeroed(buffer[..], offset, offset + RECORD_BYTES)
    modifies buffer
    ensures buffer[..] == Patched(old(buffer[..]), offset, Record(e, index))
  {
    RecordWritten(buffer[..], offset, e, index);
    Put(buffer, offset, [Kind(e)]);
    PutField(buffer, offset + 4, e.key.length, 4);
    PutField(buffer, offset + 8, VerifyBytes(e), 4);
    Put(buffer, offset + 16, e.key.chunk);
    PutField(buffer, offset + 48, index + 1, 8);
  }

  function HeaderPatched(buffer: seq<Byte>, count: nat): (after: seq<Byte>)
    requires |buffer| >= HEADER_BYTES
  {
    var b1 := Patched(buffer, 0, MAGIC);
    var b2 := Patched(b1, 8, LE(VERSION, 2));
    var b3 := Patched(b2, 10, LE(HEADER_BYTES, 2));
    var b4 := Patched(b3, 12, LE(RECORD_BYTES, 2));
    var b5 := Patched(b4, 16, LE(count, 8));
    Patched(b5, 24, LE(RECORD_BYTES * count, 8))
  }

  lemma HeaderWritten(buffer: seq<Byte>, count: nat)
    requires |buffer| >= HEADER_BYTES && Zeroed(buffer, 0, HEADER_BYTES)
    ensures HeaderPatched(buffer, count) == Patched(buffer, 0, Header(count, Zeros(32)))
  {
    hide Patched, LE, Zeros;
    var left, right := HeaderPatched(buffer, count), Patched(buffer, 0, Header(count, Zeros(32)));
    forall k | 0 <= k < |buffer|
      ensures left[k] == right[k]
    {
    }
  }

  method PutHeader(buffer: array<Byte>, count: nat)
    requires buffer.Length >= HEADER_BYTES && Zeroed(buffer[..], 0, HEADER_BYTES)
    modifies buffer
    ensures buffer[..] == Patched(old(buffer[..]), 0, Header(count, Zeros(32)))
  {
    HeaderWritten(buffer[..], count);
    Put(buffer, 0, MAGIC);
    PutField(buffer, 8, VERSION, 2);
    PutField(buffer, 10, HEADER_BYTES, 2);
    PutField(buffer, 12, RECORD_BYTES, 2);
    PutField(buffer, 16, count, 8);
    PutField(buffer, 24, RECORD_BYTES * count, 8);
  }

  /** The buffer once the header and the first `index` records are in place. */
  ghost predicate Filled(buffer: seq<Byte>, events: seq<Event>, index: nat)
    requires index <= |events|
  {
    && |buffer| == HEADER_BYTES + RECORD_BYTES * |events|
    && buffer == Header(|events|, Zeros(32)) + Records(events[..index], 0) + Zeros(RECORD_BYTES * (|events| - index))
  }

  lemma {:induction false} RecordsAppend(events: seq<Event>, e: Event, index: nat)
    ensures Records(events + [e], index) == Records(events, index) + Record(e, index + |events|)
    decreases |events|
  {
    hide Record;
    if events == [] {
      assert Records([e], index) == Record(e, index) + Records([e][1..], index + 1);
      assert [] + [e] == [e];
    } else {
      RecordsAppend(events[1..], e, index + 1);
      assert (events + [e])[1..] == events[1..] + [e];
      assert (events + [e])[0] == events[0];
    }
  }

  /** Overwriting the first record of the zeroed rest completes one more record. */
  lemma PatchNext(front: seq<Byte>, more: nat, record: seq<Byte>)
    requires |record| <= more
    ensures Patched(front + Zeros(more), |front|, record) == front + record + Zeros(more - |record|)
    ensures Zeroed(front + Zeros(more), |front|, |front| + more)
  {
  }

  lemma FilledNext(buffer: seq<Byte>, events: seq<Event>, index: nat)
    requires index < |events| && Filled(buffer, events, index)
    ensures var offset := HEADER_BYTES + RECORD_BYTES * index;
            && offset + RECORD_BYTES <= |buffer|
            && Zeroed(buffer, offset, offset + RECORD_BYTES)
            && Filled(Patched(buffer, offset, Record(events[index], index)), events, index + 1)
  {
    hide Record, Header, Patched, Zeros, Records;
    RecordsAppend(events[..index], events[index], 0);
    assert events[..index + 1] == events[..index] + [events[index]];
    var front := Header(|events|, Zeros(32)) + Records(events[..index], 0);
    PatchNext(front, RECORD_BYTES * (|events| - index), Record(events[index], index));
    assert front + Record(events[index], index) == Header(|events|, Zeros(32)) + Records(events[..index + 1], 0);
  }

  /** The last write puts the digest of the records where the header left zeros. */
  lemma Sealed(events: seq<Event>, digest: Digest, payload: seq<Byte>)
    ensures Patched(Header(|events|, Zeros(32)) + payload, 32, digest) == Header(|events|, digest) + payload
  {
  }

  method PutRecords(buffer: array<Byte>, events: seq<Event>)
    requires Filled(buffer[..], events, 0)
    modifies buffer
    ensures Filled(buffer[..], events, |events|)
  {
    hide Filled, Patched;
    var index := 0;
    while index < |events|
      invariant index <= |events| && Filled(buffer[..], events, index)
    {
      FilledNext(buffer[..], events, index);
      PutRecord(buffer, HEADER_BYTES + RECORD_BYTES * index, events[index], index);
      index := index + 1;
    }
  }

  lemma FilledWithHeader(buffer: seq<Byte>, events: seq<Event>)
    requires buffer == Zeros(HEADER_BYTES + RECORD_BYTES * |events|)
    ensures Zeroed(buffer, 0, HEADER_BYTES)
    ensures Filled(Patched(buffer, 0, Header(|events|, Zeros(32))), events, 0)
  {
  }

  lemma FilledCompletely(buffer: seq<Byte>, events: seq<Event>)
    requires Filled(buffer, events, |events|)
    ensures |buffer| >= HEADER_BYTES
    ensures buffer[HEADER_BYTES..] == Records(events, 0)
    ensures buffer == Header(|events|, Zeros(32)) + Records(events, 0)
  {
    hide Header, Records;
    assert events[..|events|] == events;
  }

  /** `encode`: the buffer ends up as the trace's image. */
  method Encode(events: seq<Event>, hash: seq<Byte> -> Digest) returns (encoded: seq<Byte>)
    requires ValidTrace(events)
    ensures encoded == Image(events, hash)
    ensures Parse(encoded, hash) == Ok(events)
  {
    hide Filled, Patched, Header, Records, Parse;
    var total := HEADER_BYTES + RECORD_BYTES * |events|;
    var buffer := new Byte[total](_ => 0);
    assert buffer[..] == Zeros(total);
    FilledWithHeader(buffer[..], events);
    PutHeader(buffer, |events|);
    PutRecords(buffer, events);
    FilledCompletely(buffer[..], events);
    assert buffer[HEADER_BYTES..] == buffer[..][HEADER_BYTES..];
    var digest := hash(buffer[HEADER_BYTES..]);
    Sealed(events, digest, Records(events, 0));
    Put(buffer, 32, digest);
    encoded := buffer[..];
    DecodeEncode(events, hash);
  }

  function Joined(events: seq<Event>, rest: Parsed): Parsed {
    match rest case Err(e) => Err(e) case Ok(more) => Ok(events + more)
  }

  lemma ParseNext(events: seq<Event>, payload: seq<Byte>, index: nat)
    requires |payload| % RECORD_BYTES == 0 && payload != []
    ensures var record := ParseRecord(payload[..RECORD_BYTES], index);
            Joined(events, ParseRecords(payload, index)) ==
            if record.Err? then record
            else Joined(events + record.value, ParseRecords(payload[RECORD_BYTES..], index + 1))
  {
    hide ParseRecord;
    var record := ParseRecord(payload[..RECORD_BYTES], index);
    var rest := ParseRecords(payload[RECORD_BYTES..], index + 1);
    if record.Ok? && rest.Ok? {
      assert events + (record.value + rest.value) == events + record.value + rest.value;
    }
  }

  lemma JoinedNothing(events: seq<Event>, r: Parsed)
    ensures Joined([], r) == r && Joined(events, Ok([])) == Ok(events)
  {
    assert r.Ok? ==> [] + r.value == r.value;
    assert events + [] == events;
  }

  /** The record loop of `decode`. */
  method DecodeRecords(payload: seq<Byte>, count: nat) returns (r: Parsed)
    requires |payload| == RECORD_BYTES * count
    ensures r == ParseRecords(payload, 0)
  {
    hide ParseRecord;
    var events: seq<Event> := [];
    var index := 0;
    assert payload[0..] == payload;
    JoinedNothing(events, ParseRecords(payload, 0));
    while index < count
      invariant index <= count
      invariant Joined(events, ParseRecords(payload[RECORD_BYTES * index..], index)) == ParseRecords(payload, 0)
    {
      var offset := RECORD_BYTES * index;
      ghost var rest := payload[offset..];
      ParseNext(events, rest, index);
      assert rest[..RECORD_BYTES] == payload[offset..offset + RECORD_BYTES];
      assert rest[RECORD_BYTES..] == payload[RECORD_BYTES * (index + 1)..];
      var record := ParseRecord(payload[offset..offset + RECORD_BYTES], index);
      if record.Err? {
        return record;
      }
      events := events + record.value;
      index := index + 1;
    }
    assert payload[RECORD_BYTES * index..] == [];
    JoinedNothing(events, ParseRecords([], index));
    return Ok(events);
  }

  /** `decode`: accepts exactly the images of valid traces, and returns that trace. */
  method Decode(bytes: seq<Byte>, hash: seq<Byte> -> Digest) returns (r: Parsed)
    ensures r == Parse(bytes, hash)
    ensures forall events :: r == Ok(events) <==> ValidTrace(events) && Image(events, hash) == bytes
  {
    hide ParseRecords, Image, ValidTrace;
    forall events
      ensures Parse(bytes, hash) == Ok(events) <==> ValidTrace(events) && Image(events, hash) == bytes
    {
      AcceptsExactlyImages(bytes, events, hash);
    }
    var header := HeaderError(bytes, hash);
    if header.Err? {
      return header;
    }
    var records := DecodeRecords(bytes[HEADER_BYTES..], Field(bytes, 16, 8));
    if records.Err? {
      return records;
    }
    return Checked(records.value);
  }
}
