/**
 What the parser makes of what the encoder produced: the parser is a left
 inverse of the encoder on every list of at most 255 records, and damage that
 the checksum detects is reported as damage.
 */
module RoundTrip {
  import opened Wrappers
  import opened Bytes
  import opened Cursors
  import opened Avl
  import opened Encoder
  import Crc
  import CrcBursts

  // ---------- what can be encoded ----------

  predicate Fits(n: nat, value: int) {
    0 <= value < Power256(n)
  }

  predicate FitsSigned(n: nat, value: int) {
    0 <= 2 * value < Power256(n) || 0 < -2 * value <= Power256(n)
  }

  predicate EncodableGpsFields(gps: EncodableGps) {
    && FitsSigned(4, gps.longitude) && FitsSigned(4, gps.latitude) && FitsSigned(2, gps.altitudeM)
    && Fits(2, gps.angleDeg) && Fits(1, gps.satellites) && Fits(2, gps.speedKph)
  }

  predicate EncodableElements(group: seq<EncodableIo>, extended: bool) {
    forall e :: e in group ==> Fits(IdWidth(extended), e.id) && Fits(e.width, e.value)
  }

  predicate EncodableVariables(elements: seq<EncodableVariable>) {
    forall e :: e in elements ==> Fits(2, e.id) && Fits(2, |e.value|)
  }

  /** Every field fits its place on the wire; the priority always does, modulo 256. */
  predicate Encodable(r: EncodableRecord, extended: bool) {
    && Fits(8, r.timestampMs)
    && (r.gps.Some? ==> EncodableGpsFields(r.gps.value))
    && Fits(IdWidth(extended), r.eventIoId)
    && Fits(IdWidth(extended), |r.io| + |r.ioVariable|)
    && EncodableElements(r.io, extended)
    && (extended ==> EncodableVariables(r.ioVariable))
  }

  lemma {:induction false} ElementsEncode(group: seq<EncodableIo>, width: Width, extended: bool)
    requires forall e :: e in group ==> e.width == width
    ensures EncodeElements(group, width, extended).Success? <==> EncodableElements(group, extended)
  {
    if group != [] {
      ElementsEncode(group[1..], width, extended);
      assert group == [group[0]] + group[1..];
    }
  }

  /** A group holds exactly the elements of its width, in order. */
  lemma OfWidthExactly(e: EncodableIo, rest: seq<EncodableIo>, width: Width)
    ensures OfWidth([], width) == []
    ensures OfWidth([e] + rest, width) == (if e.width == width then [e] else []) + OfWidth(rest, width)
  {
    assert ([e] + rest)[1..] == rest;
  }

  lemma {:induction false} OfWidthKeeps(io: seq<EncodableIo>, width: Width)
    ensures forall e :: e in io && e.width == width ==> e in OfWidth(io, width)
  {
    if io != [] {
      OfWidthKeeps(io[1..], width);
    }
  }

  lemma {:induction false} GroupsEncode(io: seq<EncodableIo>, widths: seq<Width>, extended: bool)
    requires Fits(IdWidth(extended), |io|)
    ensures EncodeGroups(io, widths, extended).Success?
       <==> forall e :: e in io && e.width in widths ==> Fits(IdWidth(extended), e.id) && Fits(e.width, e.value)
    decreases |widths|
  {
    if widths != [] {
      var group := OfWidth(io, widths[0]);
      OfWidthKeeps(io, widths[0]);
      ElementsEncode(group, widths[0], extended);
      GroupsEncode(io, widths[1..], extended);
      assert forall w :: w in widths <==> w == widths[0] || w in widths[1..];
    }
  }

  lemma {:induction false} VariablesEncode(elements: seq<EncodableVariable>)
    ensures EncodeVariableElements(elements).Success? <==> EncodableVariables(elements)
  {
    if elements != [] {
      VariablesEncode(elements[1..]);
      assert elements == [elements[0]] + elements[1..];
    }
  }

  lemma EveryWidth(w: Width)
    ensures w in WIDTHS
  {
    assert WIDTHS[0] == 1 && WIDTHS[1] == 2 && WIDTHS[2] == 4 && WIDTHS[3] == 8;
  }

  /** The encoder accepts exactly the encodable records. */
  lemma EncodesExactly(r: EncodableRecord, extended: bool)
    ensures EncodeRecord(r, extended).Success? <==> Encodable(r, extended)
  {
    hide EncodeHead, EncodeGroups, EncodableGpsFields;
    HeadEncodes(r, extended);
    if Fits(IdWidth(extended), |r.io| + |r.ioVariable|) {
      GroupsEncode(r.io, WIDTHS, extended);
      forall e | e in r.io ensures e.width in WIDTHS { EveryWidth(e.width); }
      VariablesEncode(r.ioVariable);
      assert extended ==> Fits(2, |r.ioVariable|);
    }
  }

  // ---------- what comes back ----------

  lemma HeadEncodes(r: EncodableRecord, extended: bool)
    ensures EncodeHead(r, extended).Success? <==>
      && Fits(8, r.timestampMs)
      && (r.gps.Some? ==> EncodableGpsFields(r.gps.value))
      && Fits(IdWidth(extended), r.eventIoId)
      && Fits(IdWidth(extended), |r.io| + |r.ioVariable|)
  {
    hide BigEndian;
  }

  function NonNegative(n: int): nat {
    if n < 0 then 0 else n
  }

  /** Later elements overwrite earlier ones with the same id. */
  function FoldIo(io: map<nat, nat>, elements: seq<EncodableIo>): map<nat, nat>
    decreases |elements|
  {
    if elements == [] then io
    else FoldIo(io[NonNegative(elements[0].id) := NonNegative(elements[0].value)], elements[1..])
  }

  function FoldGroups(io: map<nat, nat>, elements: seq<EncodableIo>, widths: seq<Width>): map<nat, nat>
    decreases |widths|
  {
    if widths == [] then io
    else FoldGroups(FoldIo(io, OfWidth(elements, widths[0])), elements, widths[1..])
  }

  function FoldVariable(io: map<nat, seq<byte>>, elements: seq<EncodableVariable>): map<nat, seq<byte>>
    decreases |elements|
  {
    if elements == [] then io
    else FoldVariable(io[NonNegative(elements[0].id) := elements[0].value], elements[1..])
  }

  function DecodedGps(gps: Option<EncodableGps>): GpsElement {
    match gps
    case None => GpsElement(0, 0, 0, 0, 0, 0)
    case Some(g) =>
      GpsElement(g.longitude, g.latitude, g.altitudeM,
                 NonNegative(g.angleDeg), NonNegative(g.satellites), NonNegative(g.speedKph))
  }

  function Decoded(r: EncodableRecord, extended: bool): AvlRecord {
    AvlRecord(
      NonNegative(r.timestampMs),
      r.priority % 256,
      DecodedGps(r.gps),
      NonNegative(r.eventIoId),
      FoldGroups(map[], r.io, WIDTHS),
      if extended then FoldVariable(map[], r.ioVariable) else map[])
  }

  function DecodedAll(records: seq<EncodableRecord>, extended: bool): (d: seq<AvlRecord>)
    ensures |d| == |records|
  {
    seq(|records|, i requires 0 <= i < |records| => Decoded(records[i], extended))
  }

  /** The fold is last-wins: an id maps to the value of its last element, and to nothing if it has none. */
  lemma {:induction false} FoldIoLastWins(io: map<nat, nat>, elements: seq<EncodableIo>, id: nat, last: int)
    requires forall e :: e in elements ==> e.id >= 0 && e.value >= 0
    requires -1 <= last < |elements|
    requires last >= 0 ==> elements[last].id == id
    requires forall j :: last < j < |elements| ==> elements[j].id != id
    ensures id in FoldIo(io, elements) <==> last >= 0 || id in io
    ensures id in FoldIo(io, elements) ==>
              FoldIo(io, elements)[id] == if last >= 0 then elements[last].value else io[id]
    decreases |elements|
  {
    if elements != [] {
      var more := io[elements[0].id := elements[0].value];
      FoldIoLastWins(more, elements[1..], id, if last >= 0 then last - 1 else -1);
    }
  }

  /** The groups come in the order of their widths, so a wider element overwrites a narrower one. */
  lemma {:induction false} FoldGroupsIsOneFold(io: map<nat, nat>, elements: seq<EncodableIo>)
    ensures FoldGroups(io, elements, WIDTHS)
         == FoldIo(io, OfWidth(elements, 1) + OfWidth(elements, 2) + OfWidth(elements, 4) + OfWidth(elements, 8))
  {
    var g1, g2, g4, g8 := OfWidth(elements, 1), OfWidth(elements, 2), OfWidth(elements, 4), OfWidth(elements, 8);
    FoldIoConcat(io, g1 + g2 + g4, g8);
    FoldIoConcat(io, g1 + g2, g4);
    FoldIoConcat(io, g1, g2);
    assert WIDTHS[1..] == [2, 4, 8];
    assert [2, 4, 8][1..] == [4, 8] && [4, 8][1..] == [8] && [8][1..] == [];
    var i1 := FoldIo(io, g1);
    var i2 := FoldIo(i1, g2);
    var i4 := FoldIo(i2, g4);
    assert FoldGroups(io, elements, WIDTHS) == FoldGroups(i1, elements, [2, 4, 8]);
    assert FoldGroups(i1, elements, [2, 4, 8]) == FoldGroups(i2, elements, [4, 8]);
    assert FoldGroups(i2, elements, [4, 8]) == FoldGroups(i4, elements, [8]);
    assert FoldGroups(i4, elements, [8]) == FoldGroups(FoldIo(i4, g8), elements, []);
  }

  lemma {:induction false} FoldIoConcat(io: map<nat, nat>, a: seq<EncodableIo>, b: seq<EncodableIo>)
    ensures FoldIo(io, a + b) == FoldIo(FoldIo(io, a), b)
    decreases |a|
  {
    if a == [] {
      assert a + b == b;
    } else {
      assert (a + b)[1..] == a[1..] + b;
      FoldIoConcat(io[NonNegative(a[0].id) := NonNegative(a[0].value)], a[1..], b);
    }
  }

  // ---------- record by record ----------

  lemma GpsRoundTrip(buf: seq<byte>, offset: nat, gps: Option<EncodableGps>)
    requires EncodeGps(gps).Success?
    requires At(buf, offset, EncodeGps(gps).value)
    ensures ParseGps(buf, offset) == Got(DecodedGps(gps), offset + 15)
  {
    if gps.None? {
      NoFix(buf, offset);
    } else {
      var g := gps.value;
      var longitude, latitude := WriteSigned(4, g.longitude).value, WriteSigned(4, g.latitude).value;
      var altitudeM, angleDeg := WriteSigned(2, g.altitudeM).value, WriteUnsigned(2, g.angleDeg).value;
      var satellites, speedKph := WriteUnsigned(1, g.satellites).value, WriteUnsigned(2, g.speedKph).value;
      AtConcat(buf, offset, longitude, latitude + (altitudeM + (angleDeg + (satellites + speedKph))));
      AtConcat(buf, offset + 4, latitude, altitudeM + (angleDeg + (satellites + speedKph)));
      AtConcat(buf, offset + 8, altitudeM, angleDeg + (satellites + speedKph));
      AtConcat(buf, offset + 10, angleDeg, satellites + speedKph);
      AtConcat(buf, offset + 12, satellites, speedKph);
      ReadsSigned(buf, offset, 4, g.longitude, GpsLongitude);
      ReadsSigned(buf, offset + 4, 4, g.latitude, GpsLatitude);
      ReadsSigned(buf, offset + 8, 2, g.altitudeM, GpsAltitude);
      ReadsUnsigned(buf, offset + 10, 2, g.angleDeg, GpsAngle);
      ReadsUnsigned(buf, offset + 12, 1, g.satellites, GpsSatellites);
      ReadsUnsigned(buf, offset + 13, 2, g.speedKph, GpsSpeed);
    }
  }

  function Zeros(n: nat): seq<byte> {
    seq(n, _ => 0)
  }

  lemma {:induction false} ZeroWritten(n: nat)
    ensures BigEndian(n, 0) == Zeros(n)
  {
    if n > 0 {
      ZeroWritten(n - 1);
    }
  }

  lemma ReadsZeros(buf: seq<byte>, offset: nat, n: nat, field: Field)
    requires At(buf, offset, Zeros(n))
    ensures ReadUnsigned(buf, offset, n, field) == Got(0, offset + n)
    ensures ReadSigned(buf, offset, n, field) == Got(0, offset + n)
  {
    ZeroWritten(n);
    ReadsUnsigned(buf, offset, n, 0, field);
  }

  lemma ZerosWithin(buf: seq<byte>, offset: nat, total: nat, from: nat, n: nat)
    requires At(buf, offset, Zeros(total)) && from + n <= total
    ensures At(buf, offset + from, Zeros(n))
  {
    var rest := total - from - n;
    assert Zeros(total) == Zeros(from) + (Zeros(n) + Zeros(rest));
    AtConcat(buf, offset, Zeros(from), Zeros(n) + Zeros(rest));
    AtConcat(buf, offset + from, Zeros(n), Zeros(rest));
  }

  lemma NoFix(buf: seq<byte>, offset: nat)
    requires At(buf, offset, Zeros(15))
    ensures ParseGps(buf, offset) == Got(DecodedGps(None), offset + 15)
  {
    ZerosWithin(buf, offset, 15, 0, 4);
    ZerosWithin(buf, offset, 15, 4, 4);
    ZerosWithin(buf, offset, 15, 8, 2);
    ZerosWithin(buf, offset, 15, 10, 2);
    ZerosWithin(buf, offset, 15, 12, 1);
    ZerosWithin(buf, offset, 15, 13, 2);
    ReadsZeros(buf, offset, 4, GpsLongitude);
    ReadsZeros(buf, offset + 4, 4, GpsLatitude);
    ReadsZeros(buf, offset + 8, 2, GpsAltitude);
    ReadsZeros(buf, offset + 10, 2, GpsAngle);
    ReadsZeros(buf, offset + 12, 1, GpsSatellites);
    ReadsZeros(buf, offset + 13, 2, GpsSpeed);
  }

  lemma {:induction false} ElementsRoundTrip(
    buf: seq<byte>, offset: nat, group: seq<EncodableIo>, width: Width, extended: bool, io: map<nat, nat>)
    requires EncodeElements(group, width, extended).Success?
    requires At(buf, offset, EncodeElements(group, width, extended).value)
    ensures ParseElements(buf, offset, width, |group|, extended, io)
         == Got(FoldIo(io, group), offset + |EncodeElements(group, width, extended).value|)
    decreases |group|
  {
    hide ReadUnsigned, WriteUnsigned, ElementBytes;
    if group != [] {
      var e := group[0];
      ElementSplit(group, width, extended);
      AtConcat(buf, offset, ElementBytes(e, width, extended), EncodeElements(group[1..], width, extended).value);
      ElementReads(buf, offset, e, width, extended);
      ElementsRoundTrip(buf, offset + IdWidth(extended) + width, group[1..], width, extended, io[e.id := e.value]);
    }
  }

  predicate ElementFits(e: EncodableIo, width: Width, extended: bool) {
    WriteUnsigned(IdWidth(extended), e.id).Success? && WriteUnsigned(width, e.value).Success?
  }

  /** The bytes of one fixed-width element. */
  function ElementBytes(e: EncodableIo, width: Width, extended: bool): seq<byte>
    requires ElementFits(e, width, extended)
  {
    WriteUnsigned(IdWidth(extended), e.id).value + WriteUnsigned(width, e.value).value
  }

  lemma ElementSplit(group: seq<EncodableIo>, width: Width, extended: bool)
    requires group != [] && EncodeElements(group, width, extended).Success?
    ensures ElementFits(group[0], width, extended) && group[0].id >= 0 && group[0].value >= 0
    ensures EncodeElements(group[1..], width, extended).Success?
    ensures EncodeElements(group, width, extended).value
         == ElementBytes(group[0], width, extended) + EncodeElements(group[1..], width, extended).value
  {
  }

  lemma ElementReads(buf: seq<byte>, offset: nat, e: EncodableIo, width: Width, extended: bool)
    requires ElementFits(e, width, extended) && e.id >= 0 && e.value >= 0
    requires At(buf, offset, ElementBytes(e, width, extended))
    ensures var w := IdWidth(extended);
            && |ElementBytes(e, width, extended)| == w + width && offset + w + width <= |buf|
            && ReadUnsigned(buf, offset, w, IoId(width)) == Got(e.id, offset + w)
            && ReadUnsigned(buf, offset + w, width, IoValue) == Got(e.value, offset + w + width)
  {
    hide BigEndian, FromBigEndian;
    var w := IdWidth(extended);
    AtConcat(buf, offset, WriteUnsigned(w, e.id).value, WriteUnsigned(width, e.value).value);
    ReadsUnsigned(buf, offset, w, e.id, IoId(width));
    ReadsUnsigned(buf, offset + w, width, e.value, IoValue);
  }

  lemma {:induction false} GroupsRoundTrip(
    buf: seq<byte>, offset: nat, elements: seq<EncodableIo>, widths: seq<Width>, extended: bool, io: map<nat, nat>)
    requires EncodeGroups(elements, widths, extended).Success?
    requires At(buf, offset, EncodeGroups(elements, widths, extended).value)
    ensures ParseGroups(buf, offset, widths, extended, io)
         == Got(FoldGroups(io, elements, widths), offset + |EncodeGroups(elements, widths, extended).value|)
    decreases |widths|
  {
    hide ReadUnsigned, At, BigEndian, EncodeElements, ParseElements, FoldIo;
    if widths != [] {
      var w := IdWidth(extended);
      var group := OfWidth(elements, widths[0]);
      var count := WriteUnsigned(w, |group|).value;
      var encoded := EncodeElements(group, widths[0], extended).value;
      AtConcat(buf, offset, count + encoded, EncodeGroups(elements, widths[1..], extended).value);
      AtConcat(buf, offset, count, encoded);
      ReadsUnsigned(buf, offset, w, |group|, IoCount(widths[0]));
      ElementsRoundTrip(buf, offset + w, group, widths[0], extended, io);
      GroupsRoundTrip(buf, offset + w + |encoded|, elements, widths[1..], extended, FoldIo(io, group));
    }
  }

  lemma {:induction false} VariableElementsRoundTrip(
    buf: seq<byte>, offset: nat, elements: seq<EncodableVariable>, io: map<nat, seq<byte>>)
    requires EncodeVariableElements(elements).Success?
    requires At(buf, offset, EncodeVariableElements(elements).value)
    ensures ParseVariableElements(buf, offset, |elements|, io)
         == Got(FoldVariable(io, elements), offset + |EncodeVariableElements(elements).value|)
    decreases |elements|
  {
    hide ReadUnsigned, ReadBytes, WriteUnsigned;
    if elements != [] {
      var e := elements[0];
      var head := VariableBytes(e);
      AtConcat(buf, offset, head, EncodeVariableElements(elements[1..]).value);
      VariableElementReads(buf, offset, e);
      VariableElementsRoundTrip(buf, offset + 4 + |e.value|, elements[1..], io[e.id := e.value]);
    }
  }

  /** The bytes of one variable-length element. */
  function VariableBytes(e: EncodableVariable): seq<byte>
    requires WriteUnsigned(2, e.id).Success? && WriteUnsigned(2, |e.value|).Success?
  {
    WriteUnsigned(2, e.id).value + (WriteUnsigned(2, |e.value|).value + e.value)
  }

  lemma VariableElementReads(buf: seq<byte>, offset: nat, e: EncodableVariable)
    requires WriteUnsigned(2, e.id).Success? && WriteUnsigned(2, |e.value|).Success?
    requires At(buf, offset, VariableBytes(e))
    ensures |VariableBytes(e)| == 4 + |e.value|
    ensures offset + 4 + |e.value| <= |buf|
    ensures ReadUnsigned(buf, offset, 2, VariableIoId) == Got(e.id, offset + 2)
    ensures ReadUnsigned(buf, offset + 2, 2, VariableIoLength) == Got(|e.value|, offset + 4)
    ensures ReadBytes(buf, offset + 4, |e.value|, VariableIoValue) == Got(e.value, offset + 4 + |e.value|)
  {
    hide BigEndian, FromBigEndian;
    var id, length := WriteUnsigned(2, e.id).value, WriteUnsigned(2, |e.value|).value;
    AtConcat(buf, offset, id, length + e.value);
    AtConcat(buf, offset + 2, length, e.value);
    ReadsUnsigned(buf, offset, 2, e.id, VariableIoId);
    ReadsUnsigned(buf, offset + 2, 2, |e.value|, VariableIoLength);
  }

  lemma VariableRoundTrip(buf: seq<byte>, offset: nat, elements: seq<EncodableVariable>, extended: bool)
    requires EncodeVariable(elements, extended).Success?
    requires At(buf, offset, EncodeVariable(elements, extended).value)
    ensures ParseVariable(buf, offset, extended)
         == Got(if extended then FoldVariable(map[], elements) else map[],
                offset + |EncodeVariable(elements, extended).value|)
  {
    if extended {
      AtConcat(buf, offset, WriteUnsigned(2, |elements|).value, EncodeVariableElements(elements).value);
      ReadsUnsigned(buf, offset, 2, |elements|, VariableIoCount);
      VariableElementsRoundTrip(buf, offset + 2, elements, map[]);
    }
  }

  lemma ReadsByte(buf: seq<byte>, offset: nat, b: byte, field: Field)
    requires At(buf, offset, [b])
    ensures ReadUnsigned(buf, offset, 1, field) == Got(b, offset + 1)
  {
    assert FromBigEndian([b]) == FromBigEndian([]) * 256 + b;
  }

  /** The five fields of a record before its IO elements. */
  lemma HeadRoundTrip(buf: seq<byte>, offset: nat, r: EncodableRecord, extended: bool)
    requires EncodeHead(r, extended).Success?
    requires At(buf, offset, EncodeHead(r, extended).value)
    ensures var w := IdWidth(extended);
            && |EncodeHead(r, extended).value| == 24 + w + w
            && ReadUnsigned(buf, offset, 8, RecordTimestamp) == Got(r.timestampMs, offset + 8)
            && ReadUnsigned(buf, offset + 8, 1, RecordPriority) == Got(r.priority % 256, offset + 9)
            && ParseGps(buf, offset + 9) == Got(DecodedGps(r.gps), offset + 24)
            && ReadUnsigned(buf, offset + 24, w, EventIoId) == Got(r.eventIoId, offset + 24 + w)
            && ReadUnsigned(buf, offset + 24 + w, w, TotalIoCount)
               == Got(|r.io| + |r.ioVariable|, offset + 24 + w + w)
  {
    hide ReadUnsigned, At, BigEndian, Power256, EncodeGps, ParseGps, DecodedGps;
    var w := IdWidth(extended);
    var timestamp, gps := WriteUnsigned(8, r.timestampMs).value, EncodeGps(r.gps).value;
    var eventIoId := WriteUnsigned(w, r.eventIoId).value;
    var total := WriteUnsigned(w, |r.io| + |r.ioVariable|).value;
    AtConcat(buf, offset, timestamp, [r.priority % 256] + (gps + (eventIoId + total)));
    AtConcat(buf, offset + 8, [r.priority % 256], gps + (eventIoId + total));
    AtConcat(buf, offset + 9, gps, eventIoId + total);
    AtConcat(buf, offset + 24, eventIoId, total);
    ReadsUnsigned(buf, offset, 8, r.timestampMs, RecordTimestamp);
    ReadsByte(buf, offset + 8, r.priority % 256, RecordPriority);
    GpsRoundTrip(buf, offset + 9, r.gps);
    ReadsUnsigned(buf, offset + 24, w, r.eventIoId, EventIoId);
    ReadsUnsigned(buf, offset + 24 + w, w, |r.io| + |r.ioVariable|, TotalIoCount);
  }

  lemma RecordRoundTrip(buf: seq<byte>, offset: nat, r: EncodableRecord, extended: bool)
    requires EncodeRecord(r, extended).Success?
    requires At(buf, offset, EncodeRecord(r, extended).value)
    ensures ParseRecord(buf, offset, extended)
         == Got(Decoded(r, extended), offset + |EncodeRecord(r, extended).value|)
  {
    hide ReadUnsigned, At, BigEndian, EncodeHead, EncodeGroups, ParseGroups, EncodeVariable, ParseVariable, ParseGps,
      DecodedGps, FoldGroups, FoldVariable;
    var head, io := EncodeHead(r, extended).value, EncodeGroups(r.io, WIDTHS, extended).value;
    var ioVariable := EncodeVariable(r.ioVariable, extended).value;
    AtConcat(buf, offset, head, io + ioVariable);
    AtConcat(buf, offset + |head|, io, ioVariable);
    HeadRoundTrip(buf, offset, r, extended);
    GroupsRoundTrip(buf, offset + |head|, r.io, WIDTHS, extended, map[]);
    VariableRoundTrip(buf, offset + |head| + |io|, r.ioVariable, extended);
  }

  lemma {:induction false} RecordsRoundTrip(
    buf: seq<byte>, offset: nat, records: seq<EncodableRecord>, extended: bool, before: seq<AvlRecord>)
    requires EncodeRecords(records, extended).Success?
    requires At(buf, offset, EncodeRecords(records, extended).value)
    ensures ParseRecords(buf, offset, |records|, extended, before)
         == Got(before + DecodedAll(records, extended), offset + |EncodeRecords(records, extended).value|)
    decreases |records|
  {
    hide EncodeRecord, ParseRecord, Decoded;
    if records == [] {
      assert before + DecodedAll(records, extended) == before;
    } else {
      var first := EncodeRecord(records[0], extended).value;
      AtConcat(buf, offset, first, EncodeRecords(records[1..], extended).value);
      RecordRoundTrip(buf, offset, records[0], extended);
      var decoded := Decoded(records[0], extended);
      RecordsRoundTrip(buf, offset + |first|, records[1..], extended, before + [decoded]);
      assert before + [decoded] + DecodedAll(records[1..], extended) == before + DecodedAll(records, extended);
    }
  }

  // ---------- whole frames ----------

  lemma DataRoundTrip(records: seq<EncodableRecord>, codec: CodecId, trailing: int)
    requires EncodeData(records, codec, trailing).Success?
    requires |records| <= 255
    ensures var data := EncodeData(records, codec, trailing).value;
            ParseData(data)
            == if trailing % 256 == |records| then Got(Intact(codec, DecodedAll(records, codec == Codec8E)), |data|)
               else Bad(RecordCountMismatch(|records|, trailing % 256))
  {
    hide ReadUnsigned, At, EncodeRecords, ParseRecords, DecodedAll;
    var data := EncodeData(records, codec, trailing).value;
    var body := EncodeRecords(records, codec == Codec8E).value;
    AtWhole(data);
    AtConcat(data, 0, [CodecByte(codec)], [|records| % 256] + (body + [trailing % 256]));
    AtConcat(data, 1, [|records| % 256], body + [trailing % 256]);
    AtConcat(data, 2, body, [trailing % 256]);
    ReadsByte(data, 0, CodecByte(codec), CodecIdByte);
    ReadsByte(data, 1, |records|, RecordCount);
    RecordsRoundTrip(data, 2, records, codec == Codec8E, []);
    ReadsByte(data, 2 + |body|, trailing % 256, TrailingRecordCount);
    assert [] + DecodedAll(records, codec == Codec8E) == DecodedAll(records, codec == Codec8E);
  }

  lemma {:induction false} RecordsCounted(
    buf: seq<byte>, offset: nat, count: nat, extended: bool, before: seq<AvlRecord>)
    requires offset <= |buf|
    ensures var p := ParseRecords(buf, offset, count, extended, before);
            p.Got? ==> |p.value| == |before| + count
    decreases count
  {
    hide ParseRecord;
    if count > 0 {
      var p := ParseRecord(buf, offset, extended);
      if p.Got? {
        RecordsCounted(buf, p.next, count - 1, extended, before + [p.value]);
      }
    }
  }

  /** A frame as it stands on the wire: header, data field, checksum. */
  function Framed(data: seq<byte>, crc: nat): seq<byte> {
    BigEndian(4, 0) + (BigEndian(4, |data|) + (data + BigEndian(4, crc)))
  }

  lemma ParseFramed(data: seq<byte>, crc: nat)
    requires |data| < Power256(4) && crc < Power256(4)
    ensures ParseFrame(Framed(data, crc))
         == if crc != Crc.Checksum(data) then Success(Corrupt(crc, Crc.Checksum(data)))
            else match ParseData(data)
                 case Bad(error) => Failure(error)
                 case Got(packet, _) => Success(packet)
  {
    hide ParseData;
    var frame := Framed(data, crc);
    AtWhole(frame);
    AtConcat(frame, 0, BigEndian(4, 0), BigEndian(4, |data|) + (data + BigEndian(4, crc)));
    AtConcat(frame, 4, BigEndian(4, |data|), data + BigEndian(4, crc));
    AtConcat(frame, 8, data, BigEndian(4, crc));
    ReadsUnsigned(frame, 0, 4, 0, Preamble);
    ReadsUnsigned(frame, 4, 4, |data|, DataFieldLength);
    ReadWritten(4, crc);
  }

  lemma EncodedIsFramed(records: seq<EncodableRecord>, codec: CodecId)
    requires EncodeFrame(records, Plain(codec)).Success?
    ensures EncodeData(records, codec, |records|).Success?
    ensures var data := EncodeData(records, codec, |records|).value;
            && |data| < Power256(4)
            && EncodeFrame(records, Plain(codec)).value == Framed(data, Crc.Checksum(data))
  {
  }

  lemma ChecksumFits(data: seq<byte>)
    ensures Crc.Checksum(data) < Power256(4)
  {
    Powers();
  }

  /**
   Parsing an encoded frame gives the records back exactly when there are at most 255 of them:
   the count is one byte, and a longer list is cut to its length modulo 256.
   */
  lemma FrameRoundTrip(records: seq<EncodableRecord>, codec: CodecId)
    requires EncodeFrame(records, Plain(codec)).Success?
    ensures ParseFrame(EncodeFrame(records, Plain(codec)).value)
              == Success(Intact(codec, DecodedAll(records, codec == Codec8E)))
       <==> |records| <= 255
  {
    hide BigEndian, Power256, ParseData, ParseFrame, Framed, DecodedAll, EncodeFrame, EncodeData;
    EncodedIsFramed(records, codec);
    var data := EncodeData(records, codec, |records|).value;
    ChecksumFits(data);
    ParseFramed(data, Crc.Checksum(data));
    if |records| <= 255 {
      DataRoundTrip(records, codec, |records|);
    } else {
      CountWritten(records, codec);
      ParsedCount(data, |records| % 256);
    }
  }

  lemma CountWritten(records: seq<EncodableRecord>, codec: CodecId)
    requires EncodeData(records, codec, |records|).Success?
    ensures var data := EncodeData(records, codec, |records|).value;
            |data| >= 2 && data[1] == |records| % 256
  {
  }

  lemma ParsedCount(data: seq<byte>, count: byte)
    requires |data| >= 2 && data[1] == count
    ensures ParseData(data).Got? ==> |ParseData(data).value.records| == count
  {
    assert At(data, 1, [count]);
    ReadsByte(data, 1, count, RecordCount);
    if ParseData(data).Got? {
      RecordsCounted(data, 2, count, ToCodecId(FromBigEndian(data[0..1])).value == Codec8E, []);
    }
  }

  /** A trailing count that disagrees modulo 256 is a parse error that names both counts. */
  lemma WrongTrailerRejected(records: seq<EncodableRecord>, codec: CodecId, trailing: int)
    requires |records| <= 255 && trailing % 256 != |records|
    requires EncodeFrame(records, Plain(codec).(trailingCountOverride := Some(trailing))).Success?
    ensures ParseFrame(EncodeFrame(records, Plain(codec).(trailingCountOverride := Some(trailing))).value)
         == Failure(RecordCountMismatch(|records|, trailing % 256))
  {
    var data := EncodeData(records, codec, trailing).value;
    ChecksumFits(data);
    ParseFramed(data, Crc.Checksum(data));
    DataRoundTrip(records, codec, trailing);
  }

  // ---------- damage ----------

  /** `damaged` in the place of the data field of an encoded frame. */
  function WithData(frame: seq<byte>, damaged: seq<byte>): seq<byte>
    requires |frame| == 12 + |damaged|
  {
    frame[..8] + damaged + frame[8 + |damaged|..]
  }

  lemma FramedReplaced(data: seq<byte>, damaged: seq<byte>, crc: nat)
    requires |damaged| == |data|
    ensures |Framed(data, crc)| == 12 + |data|
    ensures WithData(Framed(data, crc), damaged) == Framed(damaged, crc)
  {
    hide BigEndian;
    var frame := Framed(data, crc);
    assert frame[..8] == BigEndian(4, 0) + BigEndian(4, |data|);
    assert frame[8 + |data|..] == BigEndian(4, crc);
  }

  lemma DamageReported(records: seq<EncodableRecord>, codec: CodecId, damaged: seq<byte>)
    requires EncodeFrame(records, Plain(codec)).Success?
    requires var data := EncodeData(records, codec, |records|).value;
             |damaged| == |data| && Crc.Checksum(damaged) != Crc.Checksum(data)
    ensures var data := EncodeData(records, codec, |records|).value;
            && |EncodeFrame(records, Plain(codec)).value| == 12 + |damaged|
            && ParseFrame(WithData(EncodeFrame(records, Plain(codec)).value, damaged))
               == Success(Corrupt(Crc.Checksum(data), Crc.Checksum(damaged)))
  {
    hide Power256, ParseFrame, EncodeFrame, EncodeData, Crc.Checksum, Framed, WithData, ParseData;
    EncodedIsFramed(records, codec);
    var data := EncodeData(records, codec, |records|).value;
    ChecksumFits(data);
    FramedReplaced(data, damaged, Crc.Checksum(data));
    ParseFramed(damaged, Crc.Checksum(data));
  }

  /**
   Damage to an encoded frame's data field that stays within sixteen consecutive bits, or that flips
   an odd number of bits, is reported as a corrupt packet, never as records or as a parse error.
   */
  lemma CorruptionCaught(records: seq<EncodableRecord>, codec: CodecId, damaged: seq<byte>, k: nat)
    requires EncodeFrame(records, Plain(codec)).Success?
    requires var data := EncodeData(records, codec, |records|).value;
             || CrcBursts.DifferWithinBurst(data, damaged, k)
             || (|data| == |damaged|
                 && Crc.OddBy(Crc.Odd, Crc.Registers(data)) != Crc.OddBy(Crc.Odd, Crc.Registers(damaged)))
    ensures var data := EncodeData(records, codec, |records|).value;
            && |EncodeFrame(records, Plain(codec)).value| == 12 + |damaged|
            && ParseFrame(WithData(EncodeFrame(records, Plain(codec)).value, damaged))
               == Success(Corrupt(Crc.Checksum(data), Crc.Checksum(damaged)))
  {
    hide ParseFrame, EncodeFrame, Crc.Checksum, WithData;
    EncodedIsFramed(records, codec);
    var data := EncodeData(records, codec, |records|).value;
    if CrcBursts.DifferWithinBurst(data, damaged, k) {
      CrcBursts.BurstDetected(data, damaged, k);
    } else {
      Crc.OddDamageDetected(data, damaged);
    }
    DamageReported(records, codec, damaged);
  }
}
