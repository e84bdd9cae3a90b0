/**
 The Codec 8 / Codec 8 Extended packet parser (packages/teltonika/src/avl.ts).
 Each reader is a function on offsets; the loops over a moving cursor are proved
 against those functions. Coordinates stay the raw int32 of the wire.
 */
module Avl {
  import opened Wrappers
  import opened Bytes
  import opened Cursors
  import Crc

  const CODEC_8: byte := 0x08
  const CODEC_8_EXTENDED: byte := 0x8e
  const FRAME_HEADER_BYTES: nat := 8
  const FRAME_CRC_BYTES: nat := 4
  const WIDTHS: seq<Width> := [1, 2, 4, 8]

  datatype CodecId = Codec8 | Codec8E

  datatype GpsElement = GpsElement(
    longitude: int, latitude: int, altitudeM: int, angleDeg: nat, satellites: nat, speedKph: nat)

  datatype AvlRecord = AvlRecord(
    timestampMs: nat,
    priority: nat,
    gps: GpsElement,
    eventIoId: nat,
    io: map<nat, nat>,
    ioVariable: map<nat, seq<byte>>)

  datatype AvlPacket =
    | Intact(codec: CodecId, records: seq<AvlRecord>)
    | Corrupt(declaredCrc: nat, computedCrc: nat)

  function ToCodecId(b: nat): Result<CodecId, ParseError> {
    if b == CODEC_8 then Success(Codec8)
    else if b == CODEC_8_EXTENDED then Success(Codec8E)
    else Failure(UnsupportedCodec(b))
  }

  /** How many bytes an id or a count takes. */
  function IdWidth(extended: bool): (w: Width) {
    if extended then 2 else 1
  }

  // ---------- specification ----------

  function ParseGps(buf: seq<byte>, offset: nat): (p: Parsed<GpsElement>)
    requires offset <= |buf|
    ensures p.Got? ==> p.next == offset + 15 <= |buf|
  {
    var (longitude, o1) :- ReadSigned(buf, offset, 4, GpsLongitude);
    var (latitude, o2) :- ReadSigned(buf, o1, 4, GpsLatitude);
    var (altitudeM, o3) :- ReadSigned(buf, o2, 2, GpsAltitude);
    var (angleDeg, o4) :- ReadUnsigned(buf, o3, 2, GpsAngle);
    var (satellites, o5) :- ReadUnsigned(buf, o4, 1, GpsSatellites);
    var (speedKph, o6) :- ReadUnsigned(buf, o5, 2, GpsSpeed);
    Got(GpsElement(longitude, latitude, altitudeM, angleDeg, satellites, speedKph), o6)
  }

  /** `count` fixed-width elements; a repeated id overwrites. */
  function ParseElements(
    buf: seq<byte>, offset: nat, width: Width, count: nat, extended: bool, io: map<nat, nat>
  ): (p: Parsed<map<nat, nat>>)
    requires offset <= |buf|
    ensures p.Got? ==> offset <= p.next <= |buf|
    decreases count
  {
    if count == 0 then Got(io, offset) else
      var (id, o1) :- ReadUnsigned(buf, offset, IdWidth(extended), IoId(width));
      var (value, o2) :- ReadUnsigned(buf, o1, width, IoValue);
      ParseElements(buf, o2, width, count - 1, extended, io[id := value])
  }

  /** One counted group of elements for each width. */
  function ParseGroups(
    buf: seq<byte>, offset: nat, widths: seq<Width>, extended: bool, io: map<nat, nat>
  ): (p: Parsed<map<nat, nat>>)
    requires offset <= |buf|
    ensures p.Got? ==> offset <= p.next <= |buf|
    decreases |widths|
  {
    if widths == [] then Got(io, offset) else
      var (count, o1) :- ReadUnsigned(buf, offset, IdWidth(extended), IoCount(widths[0]));
      var (more, o2) :- ParseElements(buf, o1, widths[0], count, extended, io);
      ParseGroups(buf, o2, widths[1..], extended, more)
  }

  function ParseVariableElements(
    buf: seq<byte>, offset: nat, count: nat, io: map<nat, seq<byte>>
  ): (p: Parsed<map<nat, seq<byte>>>)
    requires offset <= |buf|
    ensures p.Got? ==> offset <= p.next <= |buf|
    decreases count
  {
    if count == 0 then Got(io, offset) else
      var (id, o1) :- ReadUnsigned(buf, offset, 2, VariableIoId);
      var (length, o2) :- ReadUnsigned(buf, o1, 2, VariableIoLength);
      var (value, o3) :- ReadBytes(buf, o2, length, VariableIoValue);
      ParseVariableElements(buf, o3, count - 1, io[id := value])
  }

  function ParseVariable(buf: seq<byte>, offset: nat, extended: bool): (p: Parsed<map<nat, seq<byte>>>)
    requires offset <= |buf|
    ensures p.Got? ==> offset <= p.next <= |buf|
  {
    if !extended then Got(map[], offset) else
      var (count, o1) :- ReadUnsigned(buf, offset, 2, VariableIoCount);
      ParseVariableElements(buf, o1, count, map[])
  }

  function ParseRecord(buf: seq<byte>, offset: nat, extended: bool): (p: Parsed<AvlRecord>)
    requires offset <= |buf|
    ensures p.Got? ==> offset <= p.next <= |buf|
  {
    var (timestampMs, o1) :- ReadUnsigned(buf, offset, 8, RecordTimestamp);
    var (priority, o2) :- ReadUnsigned(buf, o1, 1, RecordPriority);
    var (gps, o3) :- ParseGps(buf, o2);
    var (eventIoId, o4) :- ReadUnsigned(buf, o3, IdWidth(extended), EventIoId);
    var (_, o5) :- ReadUnsigned(buf, o4, IdWidth(extended), TotalIoCount);
    var (io, o6) :- ParseGroups(buf, o5, WIDTHS, extended, map[]);
    var (ioVariable, o7) :- ParseVariable(buf, o6, extended);
    Got(AvlRecord(timestampMs, priority, gps, eventIoId, io, ioVariable), o7)
  }

  function ParseRecords(
    buf: seq<byte>, offset: nat, count: nat, extended: bool, records: seq<AvlRecord>
  ): (p: Parsed<seq<AvlRecord>>)
    requires offset <= |buf|
    ensures p.Got? ==> offset <= p.next <= |buf|
    decreases count
  {
    if count == 0 then Got(records, offset) else
      var (record, o1) :- ParseRecord(buf, offset, extended);
      ParseRecords(buf, o1, count - 1, extended, records + [record])
  }

  /** The data field: codec id, count, records, count again. What follows is ignored. */
  function ParseData(data: seq<byte>): (p: Parsed<AvlPacket>) {
    var (codecByte, o1) :- ReadUnsigned(data, 0, 1, CodecIdByte);
    match ToCodecId(codecByte)
    case Failure(error) => Bad(error)
    case Success(codec) =>
      var (declared, o2) :- ReadUnsigned(data, o1, 1, RecordCount);
      var (records, o3) :- ParseRecords(data, o2, declared, codec == Codec8E, []);
      var (trailing, o4) :- ReadUnsigned(data, o3, 1, TrailingRecordCount);
      if trailing != declared then Bad(RecordCountMismatch(declared, trailing))
      else Got(Intact(codec, records), o4)
  }

  function ParseFrame(frame: seq<byte>): (r: Result<AvlPacket, ParseError>) {
    match ReadUnsigned(frame, 0, 4, Preamble)
    case Bad(error) => Failure(error)
    case Got(preamble, o1) =>
      if preamble != 0 then Failure(PreambleNotZero(preamble)) else
      match ReadUnsigned(frame, o1, 4, DataFieldLength)
      case Bad(error) => Failure(error)
      case Got(dataLength, dataStart) =>
        var crcStart := dataStart + dataLength;
        if |frame| < crcStart + FRAME_CRC_BYTES then
          Failure(DataFieldMissing(dataLength, |frame| - dataStart))
        else
          var data := frame[dataStart..crcStart];
          var declaredCrc := FromBigEndian(frame[crcStart..crcStart + 4]);
          var computedCrc := Crc.Checksum(data);
          if declaredCrc != computedCrc then Success(Corrupt(declaredCrc, computedCrc)) else
          match ParseData(data)
          case Bad(error) => Failure(error)
          case Got(packet, _) => Success(packet)
  }

  // ---------- the loops ----------

  method ReadId(cursor: Cursor, extended: bool, field: Field) returns (r: Result<nat, ParseError>)
    requires cursor.Valid()
    modifies cursor
    ensures cursor.Valid()
    ensures Matches(r, cursor.offset, ReadUnsigned(cursor.buf, old(cursor.offset), IdWidth(extended), field))
  {
    if extended {
      r := cursor.U16(field);
    } else {
      r := cursor.U8(field);
    }
  }

  method ReadIoValue(cursor: Cursor, width: Width) returns (r: Result<nat, ParseError>)
    requires cursor.Valid()
    modifies cursor
    ensures cursor.Valid()
    ensures Matches(r, cursor.offset, ReadUnsigned(cursor.buf, old(cursor.offset), width, IoValue))
  {
    match width
    case 1 => r := cursor.U8(IoValue);
    case 2 => r := cursor.U16(IoValue);
    case 4 => r := cursor.U32(IoValue);
    case 8 => r := cursor.U64(IoValue);
  }

  method ReadGps(cursor: Cursor) returns (r: Result<GpsElement, ParseError>)
    requires cursor.Valid()
    modifies cursor
    ensures cursor.Valid()
    ensures Matches(r, cursor.offset, ParseGps(cursor.buf, old(cursor.offset)))
  {
    var longitude :- cursor.I32(GpsLongitude);
    var latitude :- cursor.I32(GpsLatitude);
    var altitudeM :- cursor.I16(GpsAltitude);
    var angleDeg :- cursor.U16(GpsAngle);
    var satellites :- cursor.U8(GpsSatellites);
    var speedKph :- cursor.U16(GpsSpeed);
    r := Success(GpsElement(longitude, latitude, altitudeM, angleDeg, satellites, speedKph));
  }

  /** One counted group: the inner loop. */
  method ReadGroup(cursor: Cursor, width: Width, extended: bool, before: map<nat, nat>)
    returns (r: Result<map<nat, nat>, ParseError>)
    requires cursor.Valid()
    modifies cursor
    ensures cursor.Valid()
    ensures match ReadUnsigned(cursor.buf, old(cursor.offset), IdWidth(extended), IoCount(width))
            case Bad(error) => r == Failure(error)
            case Got(count, start) =>
              Matches(r, cursor.offset, ParseElements(cursor.buf, start, width, count, extended, before))
  {
    hide ReadUnsigned;
    var io := before;
    var count :- ReadId(cursor, extended, IoCount(width));
    ghost var group := ParseElements(cursor.buf, cursor.offset, width, count, extended, io);
    for i := 0 to count
      invariant cursor.Valid()
      invariant ParseElements(cursor.buf, cursor.offset, width, count - i, extended, io) == group
    {
      var id :- ReadId(cursor, extended, IoId(width));
      var value :- ReadIoValue(cursor, width);
      io := io[id := value];
    }
    r := Success(io);
  }

  method ReadGroups(cursor: Cursor, extended: bool) returns (r: Result<map<nat, nat>, ParseError>)
    requires cursor.Valid()
    modifies cursor
    ensures cursor.Valid()
    ensures Matches(r, cursor.offset, ParseGroups(cursor.buf, old(cursor.offset), WIDTHS, extended, map[]))
  {
    var io: map<nat, nat> := map[];
    ghost var whole := ParseGroups(cursor.buf, cursor.offset, WIDTHS, extended, map[]);
    for g := 0 to |WIDTHS|
      invariant cursor.Valid()
      invariant ParseGroups(cursor.buf, cursor.offset, WIDTHS[g..], extended, io) == whole
    {
      assert WIDTHS[g..][1..] == WIDTHS[g + 1..];
      io :- ReadGroup(cursor, WIDTHS[g], extended, io);
    }
    r := Success(io);
  }

  method ReadVariable(cursor: Cursor, extended: bool) returns (r: Result<map<nat, seq<byte>>, ParseError>)
    requires cursor.Valid()
    modifies cursor
    ensures cursor.Valid()
    ensures Matches(r, cursor.offset, ParseVariable(cursor.buf, old(cursor.offset), extended))
  {
    var io: map<nat, seq<byte>> := map[];
    if extended {
      var count :- cursor.U16(VariableIoCount);
      ghost var whole := ParseVariableElements(cursor.buf, cursor.offset, count, io);
      for i := 0 to count
        invariant cursor.Valid()
        invariant ParseVariableElements(cursor.buf, cursor.offset, count - i, io) == whole
      {
        var id :- cursor.U16(VariableIoId);
        var length :- cursor.U16(VariableIoLength);
        var value :- cursor.ReadValue(length, VariableIoValue);
        io := io[id := value];
      }
    }
    r := Success(io);
  }

  method ReadRecord(cursor: Cursor, extended: bool) returns (r: Result<AvlRecord, ParseError>)
    requires cursor.Valid()
    modifies cursor
    ensures cursor.Valid()
    ensures Matches(r, cursor.offset, ParseRecord(cursor.buf, old(cursor.offset), extended))
  {
    var timestampMs :- cursor.U64(RecordTimestamp);
    var priority :- cursor.U8(RecordPriority);
    var gps :- ReadGps(cursor);
    var eventIoId :- ReadId(cursor, extended, EventIoId);
    var _ :- ReadId(cursor, extended, TotalIoCount);
    var io :- ReadGroups(cursor, extended);
    var ioVariable :- ReadVariable(cursor, extended);
    r := Success(AvlRecord(timestampMs, priority, gps, eventIoId, io, ioVariable));
  }

  method ReadData(dataField: seq<byte>) returns (r: Result<AvlPacket, ParseError>)
    ensures match ParseData(dataField)
            case Bad(error) => r == Failure(error)
            case Got(packet, _) => r == Success(packet)
  {
    var data := new Cursor(dataField);
    var codecByte :- data.U8(CodecIdByte);
    var codec :- ToCodecId(codecByte);
    var declaredCount :- data.U8(RecordCount);

    var records: seq<AvlRecord> := [];
    ghost var whole := ParseRecords(dataField, data.offset, declaredCount, codec == Codec8E, []);
    for i := 0 to declaredCount
      invariant data.Valid()
      invariant ParseRecords(dataField, data.offset, declaredCount - i, codec == Codec8E, records) == whole
    {
      var record :- ReadRecord(data, codec == Codec8E);
      records := records + [record];
    }

    var trailingCount :- data.U8(TrailingRecordCount);
    if trailingCount != declaredCount {
      return Failure(RecordCountMismatch(declaredCount, trailingCount));
    }
    r := Success(Intact(codec, records));
  }

  /** The header and the checksum decide whether the data field is looked at; the answer is that of `ParseFrame`. */
  method ParseAvlPacket(frame: seq<byte>) returns (r: Result<AvlPacket, ParseError>)
    ensures r == ParseFrame(frame)
  {
    var header := new Cursor(frame);
    var preamble :- header.U32(Preamble);
    if preamble != 0 {
      return Failure(PreambleNotZero(preamble));
    }
    var dataLength :- header.U32(DataFieldLength);
    var dataStart := header.offset;
    var crcStart := dataStart + dataLength;
    if |frame| < crcStart + FRAME_CRC_BYTES {
      return Failure(DataFieldMissing(dataLength, |frame| - dataStart));
    }
    var dataField := frame[dataStart..crcStart];
    var declaredCrc := FromBigEndian(frame[crcStart..crcStart + 4]);
    var computedCrc := Crc.Crc16Ibm(dataField);
    if declaredCrc != computedCrc {
      return Success(Corrupt(declaredCrc, computedCrc));
    }
    r := ReadData(dataField);
  }
}
