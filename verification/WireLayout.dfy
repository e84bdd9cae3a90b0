/**
 The protocol byte by byte: where each field of a frame, a record and a handshake
 stands, in numbers. Parser and encoder are proved inverse to each other
 elsewhere; here is what both of them mean.
 */
module WireLayout {
  import opened Wrappers
  import opened Bytes
  import opened Cursors
  import opened Avl
  import opened Imei
  import opened Framer
  import Crc

  // ---------- numbers ----------

  function U16(b: seq<byte>, o: nat): nat
    requires o + 2 <= |b|
  {
    var high: nat := b[o];
    high * 0x100 + b[o + 1]
  }

  function U32(b: seq<byte>, o: nat): nat
    requires o + 4 <= |b|
  {
    U16(b, o) * 0x1_0000 + U16(b, o + 2)
  }

  function U64(b: seq<byte>, o: nat): nat
    requires o + 8 <= |b|
  {
    U32(b, o) * 0x1_0000_0000 + U32(b, o + 4)
  }

  function I16(b: seq<byte>, o: nat): int
    requires o + 2 <= |b|
  {
    if b[o] >= 0x80 then U16(b, o) - 0x1_0000 else U16(b, o)
  }

  function I32(b: seq<byte>, o: nat): int
    requires o + 4 <= |b|
  {
    if b[o] >= 0x80 then U32(b, o) - 0x1_0000_0000 else U32(b, o)
  }

  /** A number of one of the four widths. */
  function U(b: seq<byte>, o: nat, width: Width): nat
    requires o + width <= |b|
  {
    match width case 1 => b[o] case 2 => U16(b, o) case 4 => U32(b, o) case 8 => U64(b, o)
  }

  lemma ReadU8(b: seq<byte>, o: nat)
    requires o + 1 <= |b|
    ensures FromBigEndian(b[o..o + 1]) == b[o]
  {
    var s := b[o..o + 1];
    assert s[..0] == [] && FromBigEndian(s[..0]) == 0;
  }

  lemma ReadU16(b: seq<byte>, o: nat)
    requires o + 2 <= |b|
    ensures FromBigEndian(b[o..o + 2]) == U16(b, o)
  {
    ReadU8(b, o);
    assert b[o..o + 2][..1] == b[o..o + 1];
  }

  lemma ReadU32(b: seq<byte>, o: nat)
    requires o + 4 <= |b|
    ensures FromBigEndian(b[o..o + 4]) == U32(b, o)
  {
    ReadU16(b, o);
    assert b[o..o + 3][..2] == b[o..o + 2];
    assert b[o..o + 4][..3] == b[o..o + 3];
  }

  lemma ReadU64(b: seq<byte>, o: nat)
    requires o + 8 <= |b|
    ensures FromBigEndian(b[o..o + 8]) == U64(b, o)
  {
    ReadU32(b, o);
    FourMore(b, o);
  }

  lemma FourMore(b: seq<byte>, o: nat)
    requires o + 8 <= |b|
    ensures FromBigEndian(b[o..o + 8]) == FromBigEndian(b[o..o + 4]) * 0x1_0000_0000 + U32(b, o + 4)
  {
    OneByteMore(b, o, 4);
    OneByteMore(b, o, 5);
    OneByteMore(b, o, 6);
    OneByteMore(b, o, 7);
  }

  lemma OneByteMore(b: seq<byte>, o: nat, n: nat)
    requires o + n + 1 <= |b|
    ensures FromBigEndian(b[o..o + n + 1]) == FromBigEndian(b[o..o + n]) * 0x100 + b[o + n]
  {
    assert b[o..o + n + 1][..n] == b[o..o + n];
  }

  lemma Read(b: seq<byte>, o: nat, width: Width)
    requires o + width <= |b|
    ensures FromBigEndian(b[o..o + width]) == U(b, o, width)
  {
    match width
    case 1 => ReadU8(b, o);
    case 2 => ReadU16(b, o);
    case 4 => ReadU32(b, o);
    case 8 => ReadU64(b, o);
  }

  lemma ReadSignedAt(b: seq<byte>, o: nat, field: Field)
    requires o <= |b|
    ensures o + 2 <= |b| ==> ReadSigned(b, o, 2, field) == Got(I16(b, o), o + 2)
    ensures o + 4 <= |b| ==> ReadSigned(b, o, 4, field) == Got(I32(b, o), o + 4)
  {
    Powers();
    if o + 2 <= |b| { ReadU16(b, o); }
    if o + 4 <= |b| { ReadU32(b, o); }
  }

  /** A read gives the number that stands there, or names the field, its width, its offset and what is left. */
  lemma ReadAt(b: seq<byte>, o: nat, width: Width, field: Field)
    requires o <= |b|
    ensures ReadUnsigned(b, o, width, field) ==
              if o + width <= |b| then Got(U(b, o, width), o + width)
              else Bad(Truncated(field, width, o, |b| - o))
  {
    if o + width <= |b| { Read(b, o, width); }
  }

  // ---------- the fixed part of a record ----------

  /** The bytes of an id or a count: one in Codec 8, two in Codec 8 Extended. */
  function IdBytes(extended: bool): Width {
    if extended then 2 else 1
  }

  /** Timestamp, priority, longitude, latitude, altitude, angle, satellites, speed and event id, from `o` on. */
  predicate HeadAt(b: seq<byte>, o: nat, extended: bool, r: AvlRecord)
    requires o + 24 + 2 * IdBytes(extended) <= |b|
  {
    && r.timestampMs == U64(b, o)
    && r.priority == b[o + 8]
    && r.gps == GpsElement(I32(b, o + 9), I32(b, o + 13), I16(b, o + 17), U16(b, o + 19), b[o + 21], U16(b, o + 22))
    && r.eventIoId == U(b, o + 24, IdBytes(extended))
  }

  lemma GpsLayout(b: seq<byte>, o: nat)
    requires o + 15 <= |b|
    ensures ParseGps(b, o) ==
      Got(GpsElement(I32(b, o), I32(b, o + 4), I16(b, o + 8), U16(b, o + 10), b[o + 12], U16(b, o + 13)), o + 15)
  {
    hide ReadSigned, ReadUnsigned;
    ReadSignedAt(b, o, GpsLongitude);
    ReadSignedAt(b, o + 4, GpsLatitude);
    ReadSignedAt(b, o + 8, GpsAltitude);
    ReadAt(b, o + 10, 2, GpsAngle);
    ReadAt(b, o + 12, 1, GpsSatellites);
    ReadAt(b, o + 13, 2, GpsSpeed);
  }

  /** The part before the IO elements takes 26 or 28 bytes, each field in its place. */
  lemma HeadLayout(b: seq<byte>, o: nat, extended: bool)
    requires o + 24 + 2 * IdBytes(extended) <= |b|
    ensures var p := ParseRecord(b, o, extended);
      var io := ParseGroups(b, o + 24 + 2 * IdBytes(extended), [1, 2, 4, 8], extended, map[]);
      && (io.Bad? ==> p == Bad(io.error))
      && (io.Got? ==>
           var more := ParseVariable(b, io.next, extended);
           && (more.Bad? ==> p == Bad(more.error))
           && (more.Got? ==>
                && p.Got? && p.next == more.next
                && HeadAt(b, o, extended, p.value) && p.value.io == io.value && p.value.ioVariable == more.value))
  {
    hide ReadUnsigned, ParseGps, ParseGroups, ParseVariable;
    var w := IdBytes(extended);
    ReadAt(b, o, 8, RecordTimestamp);
    ReadAt(b, o + 8, 1, RecordPriority);
    GpsLayout(b, o + 9);
    ReadAt(b, o + 24, w, EventIoId);
    ReadAt(b, o + 24 + w, w, TotalIoCount);
  }

  /** A record cut off before its IO elements names the field it was cut in. */
  lemma CutNames(b: seq<byte>, o: nat, extended: bool)
    requires o <= |b| < o + 24 + 2 * IdBytes(extended)
    ensures var left, w := |b| - o, IdBytes(extended);
      var (field, start, bytes) :=
        if left < 8 then (RecordTimestamp, 0, 8)
        else if left < 9 then (RecordPriority, 8, 1)
        else if left < 13 then (GpsLongitude, 9, 4)
        else if left < 17 then (GpsLatitude, 13, 4)
        else if left < 19 then (GpsAltitude, 17, 2)
        else if left < 21 then (GpsAngle, 19, 2)
        else if left < 22 then (GpsSatellites, 21, 1)
        else if left < 24 then (GpsSpeed, 22, 2)
        else if left < 24 + w then (EventIoId, 24, w)
        else (TotalIoCount, 24 + w, w);
      ParseRecord(b, o, extended) == Bad(Truncated(field, bytes, o + start, left - start))
  {
  }

  // ---------- the IO elements ----------

  /** Element `j` of a group that starts at `o`: its id, and its value of `width` bytes behind it. */
  function ElementAt(b: seq<byte>, o: nat, extended: bool, width: Width, j: nat): (nat, nat)
    requires GroupEnd(o, extended, width, j + 1) <= |b|
  {
    var id := GroupEnd(o, extended, width, j);
    (U(b, id, IdBytes(extended)), U(b, id + IdBytes(extended), width))
  }

  /** Where the first `n` elements of a group end that starts, with its count, at `o`. */
  function GroupEnd(o: nat, extended: bool, width: Width, n: nat): nat {
    o + IdBytes(extended) + n * (IdBytes(extended) + width)
  }

  function Elements(b: seq<byte>, o: nat, extended: bool, width: Width, n: nat): (elements: seq<(nat, nat)>)
    requires GroupEnd(o, extended, width, n) <= |b|
    ensures |elements| == n
  {
    if n == 0 then []
    else EndGrows(o, extended, width, n - 1, n);
         Elements(b, o, extended, width, n - 1) + [ElementAt(b, o, extended, width, n - 1)]
  }

  lemma EndGrows(o: nat, extended: bool, width: Width, m: nat, n: nat)
    requires m <= n
    ensures GroupEnd(o, extended, width, m) <= GroupEnd(o, extended, width, n)
  {
    var e := IdBytes(extended) + width;
    assert n * e == m * e + (n - m) * e;
  }

  /** Later entries overwrite earlier ones. */
  function LastWins(io: map<nat, nat>, entries: seq<(nat, nat)>): map<nat, nat> {
    if entries == [] then io
    else LastWins(io, entries[..|entries| - 1])[entries[|entries| - 1].0 := entries[|entries| - 1].1]
  }

  /** An id has the value of its last entry, the one at `last`, or if it has none the value it had before. */
  lemma {:induction false} LastWinsMeans(io: map<nat, nat>, entries: seq<(nat, nat)>, id: nat, last: int)
    requires -1 <= last < |entries| && (last >= 0 ==> entries[last].0 == id)
    requires forall i :: last < i < |entries| ==> entries[i].0 != id
    ensures var after := LastWins(io, entries);
      if last >= 0 then id in after && after[id] == entries[last].1
      else (id in after <==> id in io) && (id in io ==> after[id] == io[id])
  {
    var end := |entries| - 1;
    if last < end {
      LastWinsMeans(io, entries[..end], id, last);
    }
  }

  /** The next element, or the error that names the id or the value it was cut in. */
  lemma NextElement(b: seq<byte>, at: nat, extended: bool, width: Width, n: nat, io: map<nat, nat>)
    requires at <= |b| && n > 0
    ensures var w := IdBytes(extended);
      var p := ParseElements(b, at, width, n, extended, io);
      && (at + w > |b| ==> p == Bad(Truncated(IoId(width), w, at, |b| - at)))
      && (at + w <= |b| < at + w + width ==> p == Bad(Truncated(IoValue, width, at + w, |b| - at - w)))
      && (at + w + width <= |b| ==>
           p == ParseElements(b, at + w + width, width, n - 1, extended, io[U(b, at, w) := U(b, at + w, width)]))
  {
    hide ReadUnsigned, U;
    var w := IdBytes(extended);
    ReadAt(b, at, w, IoId(width));
    if at + w <= |b| {
      ReadAt(b, at + w, width, IoValue);
    }
  }

  lemma NoElement(b: seq<byte>, at: nat, extended: bool, width: Width, io: map<nat, nat>)
    requires at <= |b|
    ensures ParseElements(b, at, width, 0, extended, io) == Got(io, at)
  {
  }

  lemma ElementsPushed(b: seq<byte>, o: nat, extended: bool, width: Width, n: nat, io: map<nat, nat>)
    requires GroupEnd(o, extended, width, n + 1) <= |b|
    ensures GroupEnd(o, extended, width, n) <= |b|
    ensures var e := ElementAt(b, o, extended, width, n);
      LastWins(io, Elements(b, o, extended, width, n + 1))
      == LastWins(io, Elements(b, o, extended, width, n))[e.0 := e.1]
  {
    hide ElementAt, LastWins;
    EndGrows(o, extended, width, n, n + 1);
    LastWinsPushed(io, Elements(b, o, extended, width, n), ElementAt(b, o, extended, width, n));
  }

  /** The elements stand one behind the other, and are read in turn. */
  lemma {:induction false} ElementsLayout(b: seq<byte>, o: nat, extended: bool, width: Width, j: nat, n: nat,
      io: map<nat, nat>)
    requires j <= n && GroupEnd(o, extended, width, j) <= |b|
    ensures var rest := ParseElements(b, GroupEnd(o, extended, width, j), width, n - j, extended,
                                      LastWins(io, Elements(b, o, extended, width, j)));
      && (rest.Got? <==> GroupEnd(o, extended, width, n) <= |b|)
      && (rest.Got? ==> rest == Got(LastWins(io, Elements(b, o, extended, width, n)), GroupEnd(o, extended, width, n)))
    decreases n - j
  {
    hide LastWins, ParseElements, GroupEnd, Elements, U;
    var at, next := GroupEnd(o, extended, width, j), GroupEnd(o, extended, width, j + 1);
    if j == n {
      NoElement(b, at, extended, width, LastWins(io, Elements(b, o, extended, width, j)));
    } else {
      OneMore(o, extended, width, j);
      EndGrows(o, extended, width, j + 1, n);
      NextElement(b, at, extended, width, n - j, LastWins(io, Elements(b, o, extended, width, j)));
      if next <= |b| {
        ElementsPushed(b, o, extended, width, j, io);
        ElementsLayout(b, o, extended, width, j + 1, n, io);
      }
    }
  }

  lemma OneMore(o: nat, extended: bool, width: Width, j: nat)
    ensures GroupEnd(o, extended, width, j + 1) == GroupEnd(o, extended, width, j) + IdBytes(extended) + width
  {
  }

  lemma LastWinsPushed(io: map<nat, nat>, entries: seq<(nat, nat)>, e: (nat, nat))
    ensures LastWins(io, entries + [e]) == LastWins(io, entries)[e.0 := e.1]
  {
    assert (entries + [e])[..|entries|] == entries;
  }

  /** From `o` to `end` stand groups of these widths, each a count and its elements; they make `after` of `io`. */
  ghost predicate GroupsAt(b: seq<byte>, o: nat, extended: bool, widths: seq<Width>, io: map<nat, nat>,
      after: map<nat, nat>, end: nat)
    decreases |widths|
  {
    if widths == [] then after == io && end == o
    else
      && o + IdBytes(extended) <= |b|
      && var n := U(b, o, IdBytes(extended));
      && GroupEnd(o, extended, widths[0], n) <= |b|
      && GroupsAt(b, GroupEnd(o, extended, widths[0], n), extended, widths[1..],
                  LastWins(io, Elements(b, o, extended, widths[0], n)), after, end)
  }

  lemma {:induction false} GroupsLayout(b: seq<byte>, o: nat, extended: bool, widths: seq<Width>, io: map<nat, nat>,
      after: map<nat, nat>, end: nat)
    requires o <= |b|
    ensures ParseGroups(b, o, widths, extended, io) == Got(after, end)
       <==> GroupsAt(b, o, extended, widths, io, after, end)
    decreases |widths|
  {
    hide ReadUnsigned, LastWins, Elements, ParseElements;
    if widths != [] {
      var w := IdBytes(extended);
      ReadAt(b, o, w, IoCount(widths[0]));
      if o + w <= |b| {
        var n := U(b, o, w);
        NoElements(b, o, extended, widths[0], io);
        ElementsLayout(b, o, extended, widths[0], 0, n, io);
        if GroupEnd(o, extended, widths[0], n) <= |b| {
          GroupsLayout(b, GroupEnd(o, extended, widths[0], n), extended, widths[1..],
                       LastWins(io, Elements(b, o, extended, widths[0], n)), after, end);
        }
      }
    }
  }

  lemma NoElements(b: seq<byte>, o: nat, extended: bool, width: Width, io: map<nat, nat>)
    requires o + IdBytes(extended) <= |b|
    ensures GroupEnd(o, extended, width, 0) == o + IdBytes(extended)
    ensures LastWins(io, Elements(b, o, extended, width, 0)) == io
  {
  }

  // ---------- elements of variable length ----------

  /** From `o` to `end` stand `n` elements: an id and a length of two bytes each, and the value. */
  ghost predicate VariableAt(b: seq<byte>, o: nat, n: nat, io: map<nat, seq<byte>>, after: map<nat, seq<byte>>,
      end: nat)
    decreases n
  {
    if n == 0 then after == io && end == o
    else
      && o + 4 <= |b|
      && var length := U16(b, o + 2);
      && o + 4 + length <= |b|
      && VariableAt(b, o + 4 + length, n - 1, io[U16(b, o) := b[o + 4..o + 4 + length]], after, end)
  }

  /** The next element, or the error that names the part it was cut in. */
  lemma NextVariable(b: seq<byte>, o: nat, n: nat, io: map<nat, seq<byte>>)
    requires o <= |b| && n > 0
    ensures o + 2 > |b| ==> ParseVariableElements(b, o, n, io) == Bad(Truncated(VariableIoId, 2, o, |b| - o))
    ensures o + 2 <= |b| < o + 4 ==>
              ParseVariableElements(b, o, n, io) == Bad(Truncated(VariableIoLength, 2, o + 2, |b| - o - 2))
    ensures o + 4 <= |b| && o + 4 + U16(b, o + 2) > |b| ==>
              ParseVariableElements(b, o, n, io)
              == Bad(Truncated(VariableIoValue, U16(b, o + 2), o + 4, |b| - o - 4))
    ensures o + 4 <= |b| && o + 4 + U16(b, o + 2) <= |b| ==>
              var length := U16(b, o + 2);
              ParseVariableElements(b, o, n, io)
              == ParseVariableElements(b, o + 4 + length, n - 1, io[U16(b, o) := b[o + 4..o + 4 + length]])
  {
    hide ReadUnsigned;
    ReadAt(b, o, 2, VariableIoId);
    if o + 2 <= |b| {
      ReadAt(b, o + 2, 2, VariableIoLength);
    }
  }

  lemma NextVariableAt(b: seq<byte>, o: nat, n: nat, io: map<nat, seq<byte>>, after: map<nat, seq<byte>>, end: nat)
    requires o <= |b| && n > 0
    ensures o + 4 > |b| || o + 4 + U16(b, o + 2) > |b| ==> !VariableAt(b, o, n, io, after, end)
    ensures o + 4 <= |b| && o + 4 + U16(b, o + 2) <= |b| ==>
              var length := U16(b, o + 2);
              VariableAt(b, o, n, io, after, end)
              == VariableAt(b, o + 4 + length, n - 1, io[U16(b, o) := b[o + 4..o + 4 + length]], after, end)
  {
  }

  lemma NoVariable(b: seq<byte>, o: nat, io: map<nat, seq<byte>>, after: map<nat, seq<byte>>, end: nat)
    requires o <= |b|
    ensures ParseVariableElements(b, o, 0, io) == Got(after, end) <==> VariableAt(b, o, 0, io, after, end)
  {
  }

  lemma {:induction false} VariableLayout(b: seq<byte>, o: nat, n: nat, io: map<nat, seq<byte>>,
      after: map<nat, seq<byte>>, end: nat)
    requires o <= |b|
    ensures ParseVariableElements(b, o, n, io) == Got(after, end) <==> VariableAt(b, o, n, io, after, end)
    decreases n
  {
    hide ParseVariableElements, VariableAt, U16;
    if n == 0 {
      NoVariable(b, o, io, after, end);
    } else {
      NextVariable(b, o, n, io);
      NextVariableAt(b, o, n, io, after, end);
      if o + 4 <= |b| && o + 4 + U16(b, o + 2) <= |b| {
        var length := U16(b, o + 2);
        VariableLayout(b, o + 4 + length, n - 1, io[U16(b, o) := b[o + 4..o + 4 + length]], after, end);
      }
    }
  }

  /** A missing count is the error that names its width. */
  lemma CountCut(b: seq<byte>, o: nat, extended: bool, widths: seq<Width>, io: map<nat, nat>)
    requires o <= |b| && widths != []
    ensures o + IdBytes(extended) > |b| ==>
              ParseGroups(b, o, widths, extended, io)
              == Bad(Truncated(IoCount(widths[0]), IdBytes(extended), o, |b| - o))
    ensures extended && o + 2 > |b| ==>
              ParseVariable(b, o, extended) == Bad(Truncated(VariableIoCount, 2, o, |b| - o))
  {
  }

  // ---------- records, data field and frame ----------

  /** A record stands from `o` to `end`. */
  ghost predicate RecordAt(b: seq<byte>, o: nat, extended: bool, r: AvlRecord, end: nat) {
    var start := o + 24 + 2 * IdBytes(extended);
    && start <= |b|
    && HeadAt(b, o, extended, r)
    && exists middle: nat :: GroupsAt(b, start, extended, [1, 2, 4, 8], map[], r.io, middle)
         && if extended
            then middle + 2 <= |b| && VariableAt(b, middle + 2, U16(b, middle), map[], r.ioVariable, end)
            else r.ioVariable == map[] && end == middle
  }

  /** The parser reads a record exactly where one stands. */
  lemma RecordLayout(b: seq<byte>, o: nat, extended: bool, r: AvlRecord, end: nat)
    requires o <= |b|
    ensures ParseRecord(b, o, extended) == Got(r, end) <==> RecordAt(b, o, extended, r, end)
  {
    hide ParseRecord, ParseGroups, GroupsAt, VariableAt, ParseVariableElements, HeadAt;
    var start := o + 24 + 2 * IdBytes(extended);
    if start > |b| {
      CutNames(b, o, extended);
    } else {
      HeadLayout(b, o, extended);
      var io := ParseGroups(b, start, [1, 2, 4, 8], extended, map[]);
      forall middle: nat
        ensures io == Got(r.io, middle) <==> GroupsAt(b, start, extended, [1, 2, 4, 8], map[], r.io, middle)
      {
        GroupsLayout(b, start, extended, [1, 2, 4, 8], map[], r.io, middle);
      }
      if io.Got? {
        VariablePart(b, io.next, extended, r.ioVariable, end);
        HeadDetermines(b, o, extended, r);
      }
    }
  }

  lemma VariablePart(b: seq<byte>, o: nat, extended: bool, after: map<nat, seq<byte>>, end: nat)
    requires o <= |b|
    ensures ParseVariable(b, o, extended) == Got(after, end) <==>
              if extended then o + 2 <= |b| && VariableAt(b, o + 2, U16(b, o), map[], after, end)
              else after == map[] && end == o
  {
    hide ReadUnsigned, ParseVariableElements, VariableAt;
    ReadAt(b, o, 2, VariableIoCount);
    if o + 2 <= |b| {
      VariableLayout(b, o + 2, U16(b, o), map[], after, end);
    }
  }

  /** Two records with one fixed part and the same elements are the same. */
  lemma HeadDetermines(b: seq<byte>, o: nat, extended: bool, r: AvlRecord)
    requires o + 24 + 2 * IdBytes(extended) <= |b|
    ensures forall q: AvlRecord ::
      HeadAt(b, o, extended, q) && HeadAt(b, o, extended, r) && q.io == r.io && q.ioVariable == r.ioVariable ==> q == r
  {
  }

  /** After the records read so far, `n` more stand from `o` to `end`. */
  ghost predicate RecordsAt(b: seq<byte>, o: nat, n: nat, extended: bool, before: seq<AvlRecord>,
      records: seq<AvlRecord>, end: nat)
    decreases n
  {
    if n == 0 then records == before && end == o
    else exists r, middle: nat ::
      && RecordAt(b, o, extended, r, middle)
      && RecordsAt(b, middle, n - 1, extended, before + [r], records, end)
  }

  lemma {:induction false} RecordsLayout(b: seq<byte>, o: nat, n: nat, extended: bool, before: seq<AvlRecord>,
      records: seq<AvlRecord>, end: nat)
    requires o <= |b|
    ensures ParseRecords(b, o, n, extended, before) == Got(records, end)
       <==> RecordsAt(b, o, n, extended, before, records, end)
    decreases n
  {
    hide RecordAt, ParseRecord;
    if n > 0 {
      var p := ParseRecord(b, o, extended);
      if p.Got? {
        RecordLayout(b, o, extended, p.value, p.next);
        RecordsLayout(b, p.next, n - 1, extended, before + [p.value], records, end);
      }
      if RecordsAt(b, o, n, extended, before, records, end) {
        var r, middle: nat :| RecordAt(b, o, extended, r, middle)
          && RecordsAt(b, middle, n - 1, extended, before + [r], records, end);
        RecordLayout(b, o, extended, r, middle);
      }
    }
  }

  /** Codec id, record count, records, and the count again; more may follow. */
  ghost predicate DataAt(data: seq<byte>, codec: CodecId, records: seq<AvlRecord>) {
    && |data| >= 2
    && data[0] == (match codec case Codec8 => 0x08 case Codec8E => 0x8e)
    && exists end: nat ::
         && RecordsAt(data, 2, data[1], codec == Codec8E, [], records, end)
         && end < |data| && data[end] == data[1]
  }

  /** A data field is accepted exactly where one stands; another codec is refused by its id. */
  lemma DataLayout(data: seq<byte>, codec: CodecId, records: seq<AvlRecord>)
    ensures ParseData(data).Got? && ParseData(data).value == Intact(codec, records) <==> DataAt(data, codec, records)
    ensures data == [] ==> ParseData(data) == Bad(Truncated(CodecIdByte, 1, 0, 0))
    ensures |data| >= 1 && data[0] != 0x08 && data[0] != 0x8e ==> ParseData(data) == Bad(UnsupportedCodec(data[0]))
    ensures |data| == 1 && (data[0] == 0x08 || data[0] == 0x8e) ==>
              ParseData(data) == Bad(Truncated(RecordCount, 1, 1, 0))
  {
    hide ReadUnsigned, RecordsAt, ParseRecords;
    ReadAt(data, 0, 1, CodecIdByte);
    if |data| >= 1 {
      ReadAt(data, 1, 1, RecordCount);
    }
    if |data| >= 2 && (data[0] == 0x08 || data[0] == 0x8e) {
      var extended := data[0] == 0x8e;
      var p := ParseRecords(data, 2, data[1], extended, []);
      if p.Got? {
        ReadAt(data, p.next, 1, TrailingRecordCount);
        RecordsLayout(data, 2, data[1], extended, [], records, p.next);
      }
      if DataAt(data, codec, records) {
        var end: nat :| RecordsAt(data, 2, data[1], codec == Codec8E, [], records, end)
          && end < |data| && data[end] == data[1];
        RecordsLayout(data, 2, data[1], extended, [], records, end);
      }
    }
  }

  /** Behind the records the count has to stand again. */
  lemma TrailerLayout(data: seq<byte>, records: seq<AvlRecord>, end: nat)
    requires |data| >= 2 && (data[0] == 0x08 || data[0] == 0x8e)
    requires RecordsAt(data, 2, data[1], data[0] == 0x8e, [], records, end)
    ensures end <= |data|
    ensures end == |data| ==> ParseData(data) == Bad(Truncated(TrailingRecordCount, 1, end, 0))
    ensures end < |data| && data[end] != data[1] ==> ParseData(data) == Bad(RecordCountMismatch(data[1], data[end]))
  {
    hide ReadUnsigned, RecordsAt, ParseRecords;
    ReadAt(data, 0, 1, CodecIdByte);
    ReadAt(data, 1, 1, RecordCount);
    RecordsLayout(data, 2, data[1], data[0] == 0x8e, [], records, end);
    ReadAt(data, end, 1, TrailingRecordCount);
  }

  /**
   A frame: four zero bytes, the length of the data field, the data field and its checksum. The first of
   these that is wrong decides the error; a checksum that is wrong is no error but a corrupt packet.
   */
  lemma FrameLayout(frame: seq<byte>)
    ensures |frame| < 4 ==> ParseFrame(frame) == Failure(Truncated(Preamble, 4, 0, |frame|))
    ensures |frame| >= 4 && U32(frame, 0) != 0 ==> ParseFrame(frame) == Failure(PreambleNotZero(U32(frame, 0)))
    ensures 4 <= |frame| < 8 && U32(frame, 0) == 0 ==>
              ParseFrame(frame) == Failure(Truncated(DataFieldLength, 4, 4, |frame| - 4))
    ensures |frame| >= 8 && U32(frame, 0) == 0 ==>
              var length := U32(frame, 4);
              if |frame| < 12 + length then ParseFrame(frame) == Failure(DataFieldMissing(length, |frame| - 8))
              else
                var data, crc := frame[8..8 + length], U32(frame, 8 + length);
                if crc != Crc.Checksum(data) then ParseFrame(frame) == Success(Corrupt(crc, Crc.Checksum(data)))
                else match ParseData(data)
                  case Got(packet, _) => ParseFrame(frame) == Success(packet)
                  case Bad(error) => ParseFrame(frame) == Failure(error)
  {
    hide ReadUnsigned, ParseData, Crc.Checksum;
    ReadAt(frame, 0, 4, Preamble);
    if |frame| >= 4 {
      ReadAt(frame, 4, 4, DataFieldLength);
    }
    if |frame| >= 8 && |frame| >= 12 + U32(frame, 4) {
      ReadU32(frame, 8 + U32(frame, 4));
    }
  }

  // ---------- the stream ----------

  /** What the framer makes of a buffer of packets; it parses a frame only once all of it is there. */
  lemma PacketLayout(b: seq<byte>, maxFrameBytes: nat)
    ensures |b| < 8 ==> DecidePacket(b, maxFrameBytes) == Wait
    ensures |b| >= 8 ==>
              var preamble, size := U32(b, 0), 12 + U32(b, 4);
              DecidePacket(b, maxFrameBytes) ==
                if preamble != 0 then Stop(BadPreamble(preamble))
                else if size > maxFrameBytes then Stop(FrameTooLarge(size, maxFrameBytes))
                else if |b| < size then Wait
                else match ParseFrame(b[..size])
                  case Success(packet) => Emit(PacketRead(packet), size)
                  case Failure(error) => Stop(ParseFailed(error))
  {
    hide ParseFrame;
    if |b| >= 8 {
      ReadU32(b, 0);
      ReadU32(b, 4);
    }
  }

  /** The byte is an ASCII digit, its high bit not counted. */
  predicate DigitAt(b: seq<byte>, i: nat)
    requires i < |b|
  {
    0x30 <= b[i] % 0x80 <= 0x39
  }

  /** Two bytes that say 15, and fifteen ASCII digits. */
  lemma HandshakeLayout(b: seq<byte>)
    ensures |b| < 2 ==> TryParseImeiFrame(b) == NeedMore
    ensures |b| >= 2 && U16(b, 0) != 15 ==> TryParseImeiFrame(b) == Invalid(WrongDigitCount(U16(b, 0)))
    ensures 2 <= |b| < 17 && U16(b, 0) == 15 ==> TryParseImeiFrame(b) == NeedMore
    ensures |b| >= 17 && U16(b, 0) == 15 ==>
              TryParseImeiFrame(b) ==
                if forall i :: 2 <= i < 17 ==> DigitAt(b, i)
                then Ok(seq(15, i requires 0 <= i < 15 => (b[2 + i] % 0x80) as char), 17)
                else Invalid(NotDigits)
  {
    hide DigitAt, IsDigit;
    if |b| >= 2 {
      ReadU16(b, 0);
    }
    if |b| >= 17 {
      var text := Ascii(b[2..17]);
      assert text == seq(15, i requires 0 <= i < 15 => (b[2 + i] % 0x80) as char);
      forall i | 2 <= i < 17 ensures DigitAt(b, i) <==> IsDigit(text[i - 2]) {
        DigitCode(b, i);
      }
      if !IsValidImei(text) {
        var j :| 0 <= j < 15 && !IsDigit(text[j]);
        assert !DigitAt(b, j + 2);
      }
    }
  }

  lemma DigitCode(b: seq<byte>, i: nat)
    requires i < |b|
    ensures DigitAt(b, i) <==> IsDigit((b[i] % 0x80) as char)
  {
  }

  /** Without a setting of its own, a framer takes frames of up to one mebibyte. */
  lemma DefaultLimit(b: seq<byte>)
    requires |b| >= 8 && U32(b, 0) == 0
    ensures var d := DecidePacket(b, DEFAULT_MAX_FRAME_BYTES);
      d.Stop? && d.error.FrameTooLarge? <==> U32(b, 4) + 12 > 1_048_576
  {
    PacketLayout(b, DEFAULT_MAX_FRAME_BYTES);
  }
}
