/** What the encoder writes, byte by byte (packages/teltonika/src/testing.ts). */
module EncoderLayout {
  import opened Wrappers
  import opened Bytes
  import opened Cursors
  import opened Avl
  import opened Encoder
  import opened RoundTrip
  import opened WireLayout
  import Crc

  lemma Written(width: Width, value: int)
    requires WriteUnsigned(width, value).Success?
    ensures U(WriteUnsigned(width, value).value, 0, width) == value
  {
    var s := WriteUnsigned(width, value).value;
    ReadWritten(width, value);
    Read(s, 0, width);
    assert s[0..width] == s;
  }

  lemma Shifted(a: seq<byte>, b: seq<byte>, c: seq<byte>, width: Width)
    requires |b| == width
    ensures U(a + b + c, |a|, width) == U(b, 0, width)
  {
    Read(a + b + c, |a|, width);
    Read(b, 0, width);
    assert (a + b + c)[|a|..|a| + width] == b == b[0..width];
  }

  /** Each override in the place of the value it replaces, and the values that are written without one. */
  lemma FrameWritten(records: seq<EncodableRecord>, options: EncodeOptions)
    requires EncodeFrame(records, options).Success?
    ensures
      var trailing := if options.trailingCountOverride.Some? then options.trailingCountOverride.value else |records|;
      EncodeData(records, options.codec, trailing).Success?
      && var data, f := EncodeData(records, options.codec, trailing).value, EncodeFrame(records, options).value;
      && |f| == 12 + |data| && f[8..8 + |data|] == data
      && U32(f, 0) == (if options.preambleOverride.Some? then options.preambleOverride.value else 0)
      && U32(f, 4) == (if options.dataLengthOverride.Some? then options.dataLengthOverride.value else |data|)
      && U32(f, 8 + |data|) ==
           (if options.crcOverride.Some? then options.crcOverride.value else Crc.Checksum(data))
      && |data| >= 3
      && data[0] == (match options.codec case Codec8 => 0x08 case Codec8E => 0x8e)
      && data[1] == |records| % 256
      && data[|data| - 1] == trailing % 256
  {
    hide EncodeRecords, Crc.Checksum, WriteUnsigned, U32, BigEndian;
    var trailing := if options.trailingCountOverride.Some? then options.trailingCountOverride.value else |records|;
    var data := EncodeData(records, options.codec, trailing).value;
    var p := if options.preambleOverride.Some? then options.preambleOverride.value else 0;
    var n := if options.dataLengthOverride.Some? then options.dataLengthOverride.value else |data|;
    var c := if options.crcOverride.Some? then options.crcOverride.value else Crc.Checksum(data);
    var preamble, length, crc := WriteUnsigned(4, p), WriteUnsigned(4, n), WriteUnsigned(4, c);
    var f := EncodeFrame(records, options).value;
    assert f == preamble.value + (length.value + (data + crc.value));
    FourWritten(p);
    FourWritten(n);
    FourWritten(c);
    Shifted([], preamble.value, length.value + (data + crc.value), 4);
    Shifted(preamble.value, length.value, data + crc.value, 4);
    Shifted(preamble.value + length.value + data, crc.value, [], 4);
    assert f == [] + preamble.value + (length.value + (data + crc.value));
    assert f == preamble.value + length.value + (data + crc.value);
    assert f == preamble.value + length.value + data + crc.value + [];
  }

  lemma FourWritten(value: int)
    requires WriteUnsigned(4, value).Success?
    ensures |WriteUnsigned(4, value).value| == 4 && U(WriteUnsigned(4, value).value, 0, 4) == value
  {
    Written(4, value);
  }

  /** An encoded record stands where its bytes do, and says how many elements it was given. */
  lemma RecordWritten(r: EncodableRecord, extended: bool)
    requires EncodeRecord(r, extended).Success?
    ensures var b, w := EncodeRecord(r, extended).value, IdBytes(extended);
      && RecordAt(b, 0, extended, Decoded(r, extended), |b|)
      && |b| >= 24 + 2 * w
      && U64(b, 0) == r.timestampMs && b[8] == r.priority % 256
      && (match r.gps
          case None => I32(b, 9) == 0 && I32(b, 13) == 0 && I16(b, 17) == 0 && U16(b, 19) == 0 && b[21] == 0
                       && U16(b, 22) == 0
          case Some(gps) => I32(b, 9) == gps.longitude && I32(b, 13) == gps.latitude && I16(b, 17) == gps.altitudeM
                            && U16(b, 19) == gps.angleDeg && b[21] == gps.satellites && U16(b, 22) == gps.speedKph)
      && U(b, 24, w) == r.eventIoId && U(b, 24 + w, w) == |r.io| + |r.ioVariable|
  {
    hide EncodeGroups, EncodeVariable, WriteUnsigned, EncodeGps, Decoded, RecordAt, U, U16, U64, I16, I32;
    var b, w := EncodeRecord(r, extended).value, IdBytes(extended);
    AtWhole(b);
    RecordRoundTrip(b, 0, r, extended);
    RecordLayout(b, 0, extended, Decoded(r, extended), |b|);
    TotalWritten(r, extended);
    EncodesExactly(r, extended);
    FieldsDecoded(b, r, extended);
  }

  lemma FieldsDecoded(b: seq<byte>, r: EncodableRecord, extended: bool)
    requires Encodable(r, extended) && RecordAt(b, 0, extended, Decoded(r, extended), |b|)
    ensures |b| >= 24 + 2 * IdBytes(extended)
    ensures U64(b, 0) == r.timestampMs && b[8] == r.priority % 256 && U(b, 24, IdBytes(extended)) == r.eventIoId
    ensures r.gps.None? ==>
              I32(b, 9) == 0 && I32(b, 13) == 0 && I16(b, 17) == 0 && U16(b, 19) == 0 && b[21] == 0 && U16(b, 22) == 0
    ensures r.gps.Some? ==>
              var gps := r.gps.value;
              && I32(b, 9) == gps.longitude && I32(b, 13) == gps.latitude && I16(b, 17) == gps.altitudeM
              && U16(b, 19) == gps.angleDeg && b[21] == gps.satellites && U16(b, 22) == gps.speedKph
  {
    hide GroupsAt, VariableAt, FoldGroups, FoldVariable, EncodableElements, EncodableVariables, U, U16, U64, I16, I32;
    assert HeadAt(b, 0, extended, Decoded(r, extended));
  }

  lemma TotalWritten(r: EncodableRecord, extended: bool)
    requires EncodeRecord(r, extended).Success?
    ensures var b, w := EncodeRecord(r, extended).value, IdBytes(extended);
      24 + 2 * w <= |b| && U(b, 24 + w, w) == |r.io| + |r.ioVariable|
  {
    hide EncodeGroups, EncodeVariable, EncodeGps, U, BigEndian;
    var b, w := EncodeRecord(r, extended).value, IdBytes(extended);
    var timestamp, gps := WriteUnsigned(8, r.timestampMs).value, EncodeGps(r.gps).value;
    var eventIoId, total := WriteUnsigned(w, r.eventIoId).value, WriteUnsigned(w, |r.io| + |r.ioVariable|).value;
    var rest := EncodeGroups(r.io, WIDTHS, extended).value + EncodeVariable(r.ioVariable, extended).value;
    var before := timestamp + [r.priority % 256] + gps + eventIoId;
    assert b == before + total + rest;
    Written(w, |r.io| + |r.ioVariable|);
    Shifted(before, total, rest, w);
  }
}
