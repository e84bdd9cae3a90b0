/**
 What a successful parse costs its sender: every record and every IO entry that
 comes back was paid for with bytes of the data field
 (packages/teltonika/src/avl.ts:70-176).
 */
module ParserCost {
  import opened Bytes
  import opened Cursors
  import opened Avl

  /** The least bytes of `n` records, IO elements not counted. */
  function RecordFloor(extended: bool, n: int): int {
    if extended then 38 * n else 30 * n
  }

  /** The least bytes of `n` IO elements: each has an id and at least one byte of value. */
  function EntryFloor(extended: bool, n: int): int {
    if extended then 3 * n else 2 * n
  }

  function Entries(r: AvlRecord): nat {
    |r.io| + |r.ioVariable|
  }

  function AllEntries(records: seq<AvlRecord>): nat {
    if records == [] then 0 else AllEntries(records[..|records| - 1]) + Entries(records[|records| - 1])
  }

  lemma InsertGrowsByOne<V>(io: map<nat, V>, id: nat, value: V)
    ensures |io[id := value]| <= |io| + 1
  {
    assert io[id := value].Keys == io.Keys + {id};
  }

  lemma {:induction false} ElementsCost(
    buf: seq<byte>, offset: nat, width: Width, count: nat, extended: bool, io: map<nat, nat>)
    requires offset <= |buf|
    ensures var p := ParseElements(buf, offset, width, count, extended, io);
            p.Got? ==> p.next - offset >= EntryFloor(extended, |p.value| - |io|)
    decreases count
  {
    hide ReadUnsigned;
    if count > 0 {
      var id := ReadUnsigned(buf, offset, IdWidth(extended), IoId(width));
      if id.Got? {
        var value := ReadUnsigned(buf, id.next, width, IoValue);
        if value.Got? {
          var more := io[id.value := value.value];
          InsertGrowsByOne(io, id.value, value.value);
          ElementsCost(buf, value.next, width, count - 1, extended, more);
        }
      }
    }
  }

  lemma {:induction false} GroupsCost(
    buf: seq<byte>, offset: nat, widths: seq<Width>, extended: bool, io: map<nat, nat>)
    requires offset <= |buf|
    ensures var p := ParseGroups(buf, offset, widths, extended, io);
            p.Got? ==> p.next - offset
                       >= IdWidth(extended) * |widths| + EntryFloor(extended, |p.value| - |io|)
    decreases |widths|
  {
    hide ReadUnsigned;
    if widths != [] {
      var count := ReadUnsigned(buf, offset, IdWidth(extended), IoCount(widths[0]));
      if count.Got? {
        ElementsCost(buf, count.next, widths[0], count.value, extended, io);
        var group := ParseElements(buf, count.next, widths[0], count.value, extended, io);
        if group.Got? {
          GroupsCost(buf, group.next, widths[1..], extended, group.value);
        }
      }
    }
  }

  lemma {:induction false} VariableElementsCost(
    buf: seq<byte>, offset: nat, count: nat, io: map<nat, seq<byte>>)
    requires offset <= |buf|
    ensures var p := ParseVariableElements(buf, offset, count, io);
            p.Got? ==> p.next - offset >= 4 * (|p.value| - |io|)
    decreases count
  {
    hide ReadUnsigned;
    if count > 0 {
      var id := ReadUnsigned(buf, offset, 2, VariableIoId);
      if id.Got? {
        var length := ReadUnsigned(buf, id.next, 2, VariableIoLength);
        if length.Got? {
          var value := ReadBytes(buf, length.next, length.value, VariableIoValue);
          if value.Got? {
            var more := io[id.value := value.value];
            InsertGrowsByOne(io, id.value, value.value);
            VariableElementsCost(buf, value.next, count - 1, more);
          }
        }
      }
    }
  }

  lemma RecordCost(buf: seq<byte>, offset: nat, extended: bool)
    requires offset <= |buf|
    ensures var p := ParseRecord(buf, offset, extended);
            p.Got? ==> p.next - offset >= RecordFloor(extended, 1) + EntryFloor(extended, Entries(p.value))
  {
    hide ReadUnsigned, ParseGps, ParseGroups, ParseVariableElements;
    var p := ParseRecord(buf, offset, extended);
    if p.Got? {
      var start := offset + 24 + 2 * IdWidth(extended);
      GroupsCost(buf, start, WIDTHS, extended, map[]);
      var groups := ParseGroups(buf, start, WIDTHS, extended, map[]);
      if extended {
        var count := ReadUnsigned(buf, groups.next, 2, VariableIoCount);
        VariableElementsCost(buf, count.next, count.value, map[]);
      }
    }
  }

  lemma {:induction false} RecordsCost(
    buf: seq<byte>, offset: nat, count: nat, extended: bool, before: seq<AvlRecord>)
    requires offset <= |buf|
    ensures var p := ParseRecords(buf, offset, count, extended, before);
            p.Got? ==>
              && |p.value| == |before| + count
              && p.next - offset >= RecordFloor(extended, count)
                                  + EntryFloor(extended, AllEntries(p.value) - AllEntries(before))
    decreases count
  {
    hide ParseRecord;
    if count > 0 {
      var p := ParseRecord(buf, offset, extended);
      if p.Got? {
        RecordCost(buf, offset, extended);
        assert (before + [p.value])[..|before|] == before;
        RecordsCost(buf, p.next, count - 1, extended, before + [p.value]);
      }
    }
  }

  /** The data field is at least as long as its records and their IO entries demand. */
  lemma PacketCost(data: seq<byte>)
    ensures var p := ParseData(data);
            p.Got? ==>
              && p.value.Intact?
              && p.next <= |data|
              && var extended := p.value.codec == Codec8E;
                 p.next >= 3 + RecordFloor(extended, |p.value.records|)
                             + EntryFloor(extended, AllEntries(p.value.records))
  {
    hide ParseRecords;
    var p := ParseData(data);
    if p.Got? {
      var declared := ReadUnsigned(data, 1, 1, RecordCount);
      RecordsCost(data, 2, declared.value, p.value.codec == Codec8E, []);
    }
  }
}
