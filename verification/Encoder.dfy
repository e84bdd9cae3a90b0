/**
 The frame encoder used for tests and device simulation
 (packages/teltonika/src/testing.ts). Node's `write…` calls throw on a value
 that does not fit; `Buffer.from([n])` keeps n modulo 256. Omitted optional
 fields are passed as their defaults, and coordinates are the raw int32.
 */
module Encoder {
  import opened Wrappers
  import opened Bytes
  import opened Avl
  import Crc

  datatype EncodableIo = EncodableIo(id: int, value: int, width: Width)

  datatype EncodableVariable = EncodableVariable(id: int, value: seq<byte>)

  datatype EncodableGps = EncodableGps(
    longitude: int, latitude: int, altitudeM: int, angleDeg: int, satellites: int, speedKph: int)

  datatype EncodableRecord = EncodableRecord(
    timestampMs: int,
    priority: int,
    gps: Option<EncodableGps>,
    eventIoId: int,
    io: seq<EncodableIo>,
    ioVariable: seq<EncodableVariable>)

  datatype EncodeOptions = EncodeOptions(
    codec: CodecId,
    crcOverride: Option<int>,
    trailingCountOverride: Option<int>,
    dataLengthOverride: Option<int>,
    preambleOverride: Option<int>)

  function Plain(codec: CodecId): EncodeOptions {
    EncodeOptions(codec, None, None, None, None)
  }

  function Or(override: Option<int>, otherwise: int): int {
    if override.Some? then override.value else otherwise
  }

  // ---------- specification ----------

  /** `first` and then `rest`, if `rest` could be encoded. */
  function Then(first: seq<byte>, rest: Encoded): Encoded {
    if rest.Success? then Success(first + rest.value) else rest
  }

  function EncodeGps(gps: Option<EncodableGps>): (r: Encoded)
    ensures r.Success? ==> |r.value| == 15
  {
    if gps.None? then Success(seq(15, _ => 0)) else
      var longitude :- WriteSigned(4, gps.value.longitude);
      var latitude :- WriteSigned(4, gps.value.latitude);
      var altitudeM :- WriteSigned(2, gps.value.altitudeM);
      var angleDeg :- WriteUnsigned(2, gps.value.angleDeg);
      var satellites :- WriteUnsigned(1, gps.value.satellites);
      var speedKph :- WriteUnsigned(2, gps.value.speedKph);
      Success(longitude + (latitude + (altitudeM + (angleDeg + (satellites + speedKph)))))
  }

  function OfWidth(io: seq<EncodableIo>, width: Width): (group: seq<EncodableIo>)
    ensures |group| <= |io|
    ensures forall e :: e in group ==> e in io && e.width == width
  {
    if io == [] then []
    else if io[0].width == width then [io[0]] + OfWidth(io[1..], width)
    else OfWidth(io[1..], width)
  }

  function EncodeElements(group: seq<EncodableIo>, width: Width, extended: bool): Encoded {
    if group == [] then Success([]) else
      var id :- WriteUnsigned(IdWidth(extended), group[0].id);
      var value :- WriteUnsigned(width, group[0].value);
      Then(id + value, EncodeElements(group[1..], width, extended))
  }

  function EncodeGroups(io: seq<EncodableIo>, widths: seq<Width>, extended: bool): Encoded
    decreases |widths|
  {
    if widths == [] then Success([]) else
      var group := OfWidth(io, widths[0]);
      var count :- WriteUnsigned(IdWidth(extended), |group|);
      var elements :- EncodeElements(group, widths[0], extended);
      Then(count + elements, EncodeGroups(io, widths[1..], extended))
  }

  function EncodeVariableElements(elements: seq<EncodableVariable>): Encoded {
    if elements == [] then Success([]) else
      var id :- WriteUnsigned(2, elements[0].id);
      var length :- WriteUnsigned(2, |elements[0].value|);
      Then(id + (length + elements[0].value), EncodeVariableElements(elements[1..]))
  }

  function EncodeVariable(elements: seq<EncodableVariable>, extended: bool): Encoded {
    if !extended then Success([]) else
      var count :- WriteUnsigned(2, |elements|);
      Then(count, EncodeVariableElements(elements))
  }

  function EncodeHead(record: EncodableRecord, extended: bool): Encoded {
    var timestamp :- WriteUnsigned(8, record.timestampMs);
    var gps :- EncodeGps(record.gps);
    var eventIoId :- WriteUnsigned(IdWidth(extended), record.eventIoId);
    var total :- WriteUnsigned(IdWidth(extended), |record.io| + |record.ioVariable|);
    Success(timestamp + ([record.priority % 256] + (gps + (eventIoId + total))))
  }

  function EncodeRecord(record: EncodableRecord, extended: bool): Encoded {
    var head :- EncodeHead(record, extended);
    var io :- EncodeGroups(record.io, WIDTHS, extended);
    var ioVariable :- EncodeVariable(record.ioVariable, extended);
    Success(head + (io + ioVariable))
  }

  function EncodeRecords(records: seq<EncodableRecord>, extended: bool): Encoded {
    if records == [] then Success([]) else
      var first :- EncodeRecord(records[0], extended);
      Then(first, EncodeRecords(records[1..], extended))
  }

  function CodecByte(codec: CodecId): byte {
    if codec == Codec8E then CODEC_8_EXTENDED else CODEC_8
  }

  function EncodeData(records: seq<EncodableRecord>, codec: CodecId, trailing: int): Encoded {
    var body :- EncodeRecords(records, codec == Codec8E);
    Success([CodecByte(codec)] + ([|records| % 256] + (body + [trailing % 256])))
  }

  function EncodeFrame(records: seq<EncodableRecord>, options: EncodeOptions): Encoded {
    var data :- EncodeData(records, options.codec, Or(options.trailingCountOverride, |records|));
    var preamble :- WriteUnsigned(4, Or(options.preambleOverride, 0));
    var length :- WriteUnsigned(4, Or(options.dataLengthOverride, |data|));
    var crc :- WriteUnsigned(4, Or(options.crcOverride, Crc.Checksum(data)));
    Success(preamble + (length + (data + crc)))
  }

  // ---------- the encoders ----------

  /** A `write…` call: puts the bytes of one field into a buffer. */
  method Put(buf: array<byte>, offset: nat, bytes: seq<byte>)
    requires offset + |bytes| <= buf.Length
    modifies buf
    ensures buf[..offset + |bytes|] == old(buf[..offset]) + bytes
    ensures buf[offset + |bytes|..] == old(buf[offset + |bytes|..])
  {
    for i := 0 to |bytes|
      invariant buf[..offset + i] == old(buf[..offset]) + bytes[..i]
      invariant buf[offset + i..] == old(buf[offset + i..])
    {
      buf[offset + i] := bytes[i];
    }
  }

  method WriteGps(gps: Option<EncodableGps>) returns (r: Encoded)
    ensures r == EncodeGps(gps)
  {
    var buf := new byte[15](_ => 0);
    if gps.None? {
      assert buf[..] == seq(15, _ => 0);
      return Success(buf[..]);
    }
    var longitude :- WriteSigned(4, gps.value.longitude);
    Put(buf, 0, longitude);
    var latitude :- WriteSigned(4, gps.value.latitude);
    Put(buf, 4, latitude);
    var altitudeM :- WriteSigned(2, gps.value.altitudeM);
    Put(buf, 8, altitudeM);
    var angleDeg :- WriteUnsigned(2, gps.value.angleDeg);
    Put(buf, 10, angleDeg);
    var satellites :- WriteUnsigned(1, gps.value.satellites);
    Put(buf, 12, satellites);
    var speedKph :- WriteUnsigned(2, gps.value.speedKph);
    Put(buf, 13, speedKph);
    assert buf[..] == buf[..15];
    SixParts(longitude, latitude, altitudeM, angleDeg, satellites, speedKph);
    r := Success(buf[..]);
  }

  lemma SixParts(a: seq<byte>, b: seq<byte>, c: seq<byte>, d: seq<byte>, e: seq<byte>, f: seq<byte>)
    ensures [] + a + b + c + d + e + f == a + (b + (c + (d + (e + f))))
  {
  }

  /** The group of one width: its count and then its elements. */
  method WriteGroup(io: seq<EncodableIo>, width: Width, extended: bool) returns (r: Encoded)
    ensures r == match WriteUnsigned(IdWidth(extended), |OfWidth(io, width)|)
                 case Failure(e) => Failure(e)
                 case Success(count) => Then(count, EncodeElements(OfWidth(io, width), width, extended))
  {
    var group := OfWidth(io, width);
    var count :- WriteUnsigned(IdWidth(extended), |group|);
    var parts: seq<byte> := count;
    ghost var whole := Then(count, EncodeElements(group, width, extended));
    for i := 0 to |group|
      invariant Then(parts, EncodeElements(group[i..], width, extended)) == whole
    {
      assert group[i..][1..] == group[i + 1..];
      var id :- WriteUnsigned(IdWidth(extended), group[i].id);
      var value :- WriteUnsigned(width, group[i].value);
      ThenConcat(parts, id + value, EncodeElements(group[i + 1..], width, extended));
      parts := parts + (id + value);
    }
    assert parts + [] == parts;
    r := Success(parts);
  }

  lemma ThenNothing(rest: Encoded)
    ensures Then([], rest) == rest
  {
    if rest.Success? {
      assert [] + rest.value == rest.value;
    }
  }

  lemma ThenConcat(a: seq<byte>, b: seq<byte>, rest: Encoded)
    ensures Then(a + b, rest) == Then(a, Then(b, rest))
  {
    if rest.Success? {
      assert (a + b) + rest.value == a + (b + rest.value);
    }
  }

  method WriteGroups(io: seq<EncodableIo>, extended: bool) returns (r: Encoded)
    ensures r == EncodeGroups(io, WIDTHS, extended)
  {
    var parts: seq<byte> := [];
    ThenNothing(EncodeGroups(io, WIDTHS, extended));
    for g := 0 to |WIDTHS|
      invariant Then(parts, EncodeGroups(io, WIDTHS[g..], extended)) == EncodeGroups(io, WIDTHS, extended)
    {
      assert WIDTHS[g..][1..] == WIDTHS[g + 1..];
      var group :- WriteGroup(io, WIDTHS[g], extended);
      ThenConcat(parts, group, EncodeGroups(io, WIDTHS[g + 1..], extended));
      parts := parts + group;
    }
    assert parts + [] == parts;
    r := Success(parts);
  }

  method WriteVariable(elements: seq<EncodableVariable>, extended: bool) returns (r: Encoded)
    ensures r == EncodeVariable(elements, extended)
  {
    if !extended {
      return Success([]);
    }
    var parts :- WriteUnsigned(2, |elements|);
    for i := 0 to |elements|
      invariant Then(parts, EncodeVariableElements(elements[i..])) == EncodeVariable(elements, true)
    {
      assert elements[i..][1..] == elements[i + 1..];
      var id :- WriteUnsigned(2, elements[i].id);
      var length :- WriteUnsigned(2, |elements[i].value|);
      var part := id + (length + elements[i].value);
      ThenConcat(parts, part, EncodeVariableElements(elements[i + 1..]));
      parts := parts + part;
    }
    assert parts + [] == parts;
    r := Success(parts);
  }

  method WriteHead(record: EncodableRecord, extended: bool) returns (r: Encoded)
    ensures r == EncodeHead(record, extended)
  {
    var timestamp :- WriteUnsigned(8, record.timestampMs);
    var gps :- WriteGps(record.gps);
    var eventIoId :- WriteUnsigned(IdWidth(extended), record.eventIoId);
    var total :- WriteUnsigned(IdWidth(extended), |record.io| + |record.ioVariable|);
    r := Success(timestamp + ([record.priority % 256] + (gps + (eventIoId + total))));
  }

  method WriteRecord(record: EncodableRecord, extended: bool) returns (r: Encoded)
    ensures r == EncodeRecord(record, extended)
  {
    var head :- WriteHead(record, extended);
    var io :- WriteGroups(record.io, extended);
    var ioVariable :- WriteVariable(record.ioVariable, extended);
    r := Success(head + (io + ioVariable));
  }

  method WriteData(records: seq<EncodableRecord>, codec: CodecId, trailing: int) returns (r: Encoded)
    ensures r == EncodeData(records, codec, trailing)
  {
    var extended := codec == Codec8E;
    var body: seq<byte> := [];
    ThenNothing(EncodeRecords(records, extended));
    for i := 0 to |records|
      invariant Then(body, EncodeRecords(records[i..], extended)) == EncodeRecords(records, extended)
    {
      assert records[i..][1..] == records[i + 1..];
      var record :- WriteRecord(records[i], extended);
      ThenConcat(body, record, EncodeRecords(records[i + 1..], extended));
      body := body + record;
    }
    assert body + [] == body;
    r := Success([CodecByte(codec)] + ([|records| % 256] + (body + [trailing % 256])));
  }

  /** The frame, with each override in the place of the value it replaces; nothing if one does not fit. */
  method EncodeAvlFrame(records: seq<EncodableRecord>, options: EncodeOptions) returns (r: Encoded)
    ensures r == EncodeFrame(records, options)
  {
    var data :- WriteData(records, options.codec, Or(options.trailingCountOverride, |records|));
    var preamble :- WriteUnsigned(4, Or(options.preambleOverride, 0));
    var length :- WriteUnsigned(4, Or(options.dataLengthOverride, |data|));
    var computed := Crc.Crc16Ibm(data);
    var crc :- WriteUnsigned(4, Or(options.crcOverride, computed));
    r := Success(preamble + (length + (data + crc)));
  }
}
