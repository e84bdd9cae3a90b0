/**
 One device connection of the ingest server (apps/telemetry-ingest/src/server.ts):
 what is published and what is written back for the events of the framer.
 */
module Ingest {
  import opened Wrappers
  import opened Bytes
  import opened Avl
  import opened Framer
  import opened Publishing
  import opened Stream

  // ---------- acknowledgements ----------

  datatype Ack = ImeiAck(accepted: bool) | RecordAck(count: nat)

  /** The bytes written for an acknowledgement; a count is an unsigned 32-bit number. */
  function AckBytes(a: Ack): seq<byte>
    requires a.RecordAck? ==> a.count < Power256(4)
  {
    match a
    case ImeiAck(accepted) => [if accepted then 1 else 0]
    case RecordAck(count) => BigEndian(4, count)
  }

  /** The device reads back the count that was written. */
  lemma RecordAckReadBack(count: nat)
    requires count < Power256(4)
    ensures |AckBytes(RecordAck(count))| == 4 && FromBigEndian(AckBytes(RecordAck(count))) == count
  {
    ReadWritten(4, count);
  }

  // ---------- what serving an event does ----------

  datatype PublishOutcome = Stored | Failed(kept: set<nat>)

  /**
   The environment's part in one event: whether the broker took the packet, or
   else which of its events it kept all the same; the arrival clock; and
   whether the connection was lost meanwhile.
   */
  datatype Response = Response(outcome: PublishOutcome, receivedAt: int, hangUp: bool)

  datatype Connection = Connection(imei: Option<string>, destroyed: bool, written: seq<Ack>)

  datatype Served = Served(conn: Connection, log: seq<TelemetryEvent>)

  const FRESH := Connection(None, false, [])

  /** The events at the positions in `kept`. */
  function Kept(events: seq<TelemetryEvent>, kept: set<nat>): (r: seq<TelemetryEvent>)
    ensures forall e :: e in r ==> e in events
  {
    if events == [] then []
    else
      var last := |events| - 1;
      Kept(events[..last], kept) + if last in kept then [events[last]] else []
  }

  function Write(c: Connection, a: Ack): Connection {
    c.(written := c.written + [a])
  }

  function ServePacket(s: Served, packet: AvlPacket, r: Response): Served {
    if s.conn.imei.None? then s.(conn := s.conn.(destroyed := true))
    else match packet
      case Corrupt(_, _) => s.(conn := Write(s.conn, RecordAck(0)))
      case Intact(codec, records) =>
        var events := BuildTelemetryEvents(s.conn.imei.value, codec, records, r.receivedAt);
        if r.outcome.Failed? && events != [] then
          Served(s.conn.(destroyed := true), s.log + Kept(events, r.outcome.kept))
        else
          Served(if r.hangUp then s.conn.(destroyed := true) else Write(s.conn, RecordAck(|records|)), s.log + events)
  }

  /** A destroyed connection ignores what is left of a chunk. */
  function ServeEvent(s: Served, e: FramerEvent, r: Response): Served {
    if s.conn.destroyed then s
    else match e
      case ImeiRead(imei) => s.(conn := Write(s.conn.(imei := Some(imei)), ImeiAck(true)))
      case PacketRead(packet) => ServePacket(s, packet, r)
      case Fault(error) =>
        s.(conn := (if error.InvalidImei? then Write(s.conn, ImeiAck(false)) else s.conn).(destroyed := true))
  }

  type Responses = nat -> Response

  /** The events in turn, the first being the connection's event number `first`. */
  function ServeAll(s: Served, events: seq<FramerEvent>, responses: Responses, first: nat): Served {
    if events == [] then s
    else
      var last := |events| - 1;
      ServeEvent(ServeAll(s, events[..last], responses, first), events[last], responses(first + last))
  }

  lemma {:induction false} ServeConcat(s: Served, a: seq<FramerEvent>, b: seq<FramerEvent>, responses: Responses,
      first: nat)
    ensures ServeAll(ServeAll(s, a, responses, first), b, responses, first + |a|)
        == ServeAll(s, a + b, responses, first)
    decreases |b|
  {
    hide ServeEvent;
    if b == [] {
      assert a + b == a;
    } else {
      var last := |b| - 1;
      ServeConcat(s, a, b[..last], responses, first);
      assert (a + b)[..|a + b| - 1] == a + b[..last];
    }
  }

  lemma {:induction false} ServeDestroyed(s: Served, events: seq<FramerEvent>, responses: Responses, first: nat)
    requires s.conn.destroyed
    ensures ServeAll(s, events, responses, first) == s
  {
    if events != [] {
      ServeDestroyed(s, events[..|events| - 1], responses, first);
    }
  }

  // ---------- the connection ----------

  class Broker {
    var log: seq<TelemetryEvent>

    constructor ()
      ensures log == []
    {
      log := [];
    }

    /** Resolves only when every event is stored; a failure may still have stored some. */
    method Publish(events: seq<TelemetryEvent>, outcome: PublishOutcome) returns (ok: bool)
      modifies this
      ensures ok <==> outcome.Stored? || events == []
      ensures log == old(log) + if ok then events else Kept(events, outcome.kept)
    {
      if |events| == 0 {
        assert log + events == log;
        return true;
      }
      ok := outcome.Stored?;
      log := log + if ok then events else Kept(events, outcome.kept);
    }
  }

  class DeviceConnection {
    const framer: TeltonikaFramer
    const broker: Broker
    var imei: Option<string>
    var destroyed: bool
    var written: seq<Ack>

    constructor (broker: Broker, maxFrameBytes: nat)
      ensures this.broker == broker && State() == Served(FRESH, broker.log)
      ensures fresh(framer) && framer.mode == AwaitingImei && framer.buffer == []
          && framer.maxFrameBytes == maxFrameBytes
    {
      this.broker := broker;
      framer := new TeltonikaFramer(maxFrameBytes);
      imei, destroyed, written := None, false, [];
    }

    function State(): Served
      reads this, broker
    {
      Served(Connection(imei, destroyed, written), broker.log)
    }

    method HandlePacket(packet: AvlPacket, response: Response)
      requires !destroyed
      modifies `destroyed, `written, broker
      ensures State() == ServePacket(old(State()), packet, response)
    {
      if imei.None? {
        destroyed := true;
        return;
      }
      match packet {
        case Corrupt(_, _) =>
          written := written + [RecordAck(0)];
        case Intact(codec, records) =>
          var events := BuildTelemetryEvents(imei.value, codec, records, response.receivedAt);
          var ok := broker.Publish(events, response.outcome);
          if !ok {
            destroyed := true;
            return;
          }
          if response.hangUp {
            destroyed := true;
          } else {
            written := written + [RecordAck(|records|)];
          }
      }
    }

    /** One turn of the loop of `handleChunk`. */
    method HandleEvent(event: FramerEvent, response: Response)
      requires !destroyed
      modifies `imei, `destroyed, `written, broker
      ensures State() == ServeEvent(old(State()), event, response)
    {
      hide ServePacket;
      match event {
        case ImeiRead(read) =>
          imei := Some(read);
          written := written + [ImeiAck(true)];
        case PacketRead(packet) =>
          HandlePacket(packet, response);
        case Fault(error) =>
          if error.InvalidImei? {
            written := written + [ImeiAck(false)];
          }
          destroyed := true;
      }
    }

    /** `handleChunk`; `first` is the number of events this connection has seen. */
    method HandleChunk(chunk: seq<byte>, responses: Responses, first: nat)
      modifies `imei, `destroyed, `written, broker, framer
      ensures var pushed := Pushed(old(framer.mode), old(framer.buffer), chunk, framer.maxFrameBytes);
        && Drained(pushed.events, framer.mode, framer.buffer) == pushed
        && State() == ServeAll(old(State()), pushed.events, responses, first)
    {
      hide ServeEvent, Pushed;
      ghost var before := State();
      var events := framer.Push(chunk);
      for i := 0 to |events|
        invariant State() == ServeAll(before, events[..i], responses, first)
        invariant Drained(events, framer.mode, framer.buffer)
               == Pushed(old(framer.mode), old(framer.buffer), chunk, framer.maxFrameBytes)
      {
        if destroyed {
          ServeRest(before, events, i, responses, first);
          return;
        }
        ServeNext(before, events, i, responses, first);
        HandleEvent(events[i], responses(first + i));
      }
      assert events[..|events|] == events;
    }
  }

  lemma ServeNext(s: Served, events: seq<FramerEvent>, i: nat, responses: Responses, first: nat)
    requires i < |events|
    ensures ServeAll(s, events[..i + 1], responses, first)
         == ServeEvent(ServeAll(s, events[..i], responses, first), events[i], responses(first + i))
  {
    hide ServeEvent;
    assert events[..i + 1][..i] == events[..i];
  }

  lemma ServeRest(s: Served, events: seq<FramerEvent>, i: nat, responses: Responses, first: nat)
    requires i <= |events| && ServeAll(s, events[..i], responses, first).conn.destroyed
    ensures ServeAll(s, events, responses, first) == ServeAll(s, events[..i], responses, first)
  {
    hide ServeEvent, ServeAll;
    ServeConcat(s, events[..i], events[i..], responses, first);
    ServeDestroyed(ServeAll(s, events[..i], responses, first), events[i..], responses, first + i);
    assert events[..i] + events[i..] == events;
  }

  // ---------- chunking ----------

  /** The chunks in turn, as long as the connection lives. */
  function Feed(mode: Mode, buffer: seq<byte>, s: Served, chunks: seq<seq<byte>>, responses: Responses, first: nat,
      maxFrameBytes: nat): Served
    decreases |chunks|
  {
    if chunks == [] || s.conn.destroyed then s
    else
      var r := Pushed(mode, buffer, chunks[0], maxFrameBytes);
      Feed(r.mode, r.rest, ServeAll(s, r.events, responses, first), chunks[1..], responses, first + |r.events|,
          maxFrameBytes)
  }

  lemma {:induction false} FeedIsServe(mode: Mode, buffer: seq<byte>, s: Served, chunks: seq<seq<byte>>,
      responses: Responses, first: nat, maxFrameBytes: nat)
    ensures Feed(mode, buffer, s, chunks, responses, first, maxFrameBytes)
         == ServeAll(s, PushAll(mode, buffer, chunks, maxFrameBytes).events, responses, first)
    decreases |chunks|
  {
    hide Pushed, ServeEvent, ServeAll;
    if s.conn.destroyed {
      ServeDestroyed(s, PushAll(mode, buffer, chunks, maxFrameBytes).events, responses, first);
    } else if chunks == [] {
      NothingServed(s, responses, first);
    } else {
      var r := Pushed(mode, buffer, chunks[0], maxFrameBytes);
      var later := PushAll(r.mode, r.rest, chunks[1..], maxFrameBytes).events;
      FeedIsServe(r.mode, r.rest, ServeAll(s, r.events, responses, first), chunks[1..], responses,
          first + |r.events|, maxFrameBytes);
      ServeConcat(s, r.events, later, responses, first);
    }
  }

  lemma NothingServed(s: Served, responses: Responses, first: nat)
    ensures ServeAll(s, [], responses, first) == s
  {
  }

  /**
   What a connection acknowledges and publishes does not depend on how its
   bytes are cut into chunks.
   */
  lemma AcksIndependentOfChunking(a: seq<seq<byte>>, b: seq<seq<byte>>, s: Served, responses: Responses,
      maxFrameBytes: nat)
    requires Flatten(a) == Flatten(b)
    ensures Feed(AwaitingImei, [], s, a, responses, 0, maxFrameBytes)
        == Feed(AwaitingImei, [], s, b, responses, 0, maxFrameBytes)
  {
    FeedIsServe(AwaitingImei, [], s, a, responses, 0, maxFrameBytes);
    FeedIsServe(AwaitingImei, [], s, b, responses, 0, maxFrameBytes);
    SameStreamSameEvents(a, b, maxFrameBytes);
  }

  // ---------- the k-th acknowledgement ----------

  function RecordAcks(written: seq<Ack>): seq<nat> {
    if written == [] then []
    else
      RecordAcks(written[..|written| - 1])
      + match written[|written| - 1] case RecordAck(count) => [count] case ImeiAck(_) => []
  }

  function Packets(events: seq<FramerEvent>): seq<AvlPacket> {
    if events == [] then []
    else
      var last := events[|events| - 1];
      Packets(events[..|events| - 1]) + if last.PacketRead? then [last.packet] else []
  }

  /** The acknowledgement of a packet: its record count, or 0 to have it sent again. */
  function AckFor(packet: AvlPacket): nat {
    match packet case Corrupt(_, _) => 0 case Intact(_, records) => |records|
  }

  /** Every record of the packet is in the log, under the device's IMEI. */
  ghost predicate PacketStored(packet: AvlPacket, imei: string, log: seq<TelemetryEvent>) {
    packet.Intact? ==> forall i :: 0 <= i < |packet.records| ==> RecordStored(packet.records[i], imei, log)
  }

  ghost predicate RecordStored(record: AvlRecord, imei: string, log: seq<TelemetryEvent>) {
    exists k :: 0 <= k < |log| && log[k].imei == imei && log[k].record == record
  }

  lemma StoredStays(packet: AvlPacket, imei: string, a: seq<TelemetryEvent>, b: seq<TelemetryEvent>)
    requires PacketStored(packet, imei, a) && a <= b
    ensures PacketStored(packet, imei, b)
  {
    if packet.Intact? {
      forall i | 0 <= i < |packet.records| ensures RecordStored(packet.records[i], imei, b) {
        assert RecordStored(packet.records[i], imei, a);
        var k :| 0 <= k < |a| && a[k].imei == imei && a[k].record == packet.records[i];
        assert b[k] == a[k];
      }
    }
  }

  lemma PublishedStored(packet: AvlPacket, imei: string, log: seq<TelemetryEvent>, receivedAt: int)
    requires packet.Intact?
    ensures PacketStored(packet, imei, log + BuildTelemetryEvents(imei, packet.codec, packet.records, receivedAt))
  {
    var events := BuildTelemetryEvents(imei, packet.codec, packet.records, receivedAt);
    forall i | 0 <= i < |packet.records| ensures RecordStored(packet.records[i], imei, log + events) {
      assert (log + events)[|log| + i] == events[i];
    }
  }

  lemma AcksPushed(written: seq<Ack>, a: Ack)
    ensures RecordAcks(written + [a]) == RecordAcks(written) + if a.RecordAck? then [a.count] else []
  {
    assert (written + [a])[..|written|] == written;
  }

  /** Each acknowledgement answers its packet, and what it acknowledges is stored. */
  ghost predicate AcksAnswer(s: Served, packets: seq<AvlPacket>) {
    var acks := RecordAcks(s.conn.written);
    && |acks| <= |packets|
    && (!s.conn.destroyed ==> |acks| == |packets|)
    && (forall k :: 0 <= k < |acks| ==> acks[k] == AckFor(packets[k]))
    && (acks != [] ==> s.conn.imei.Some?)
    && forall k :: 0 <= k < |acks| ==> PacketStored(packets[k], s.conn.imei.value, s.log)
  }

  /** The events of a connection: one IMEI first, then packets, at most one fault, last. */
  predicate HandshakeFirst(events: seq<FramerEvent>) {
    && (forall i :: 0 < i < |events| ==> !events[i].ImeiRead?)
    && (events != [] ==> !events[0].PacketRead?)
  }

  lemma AnswerStep(s: Served, packets: seq<AvlPacket>, e: FramerEvent, r: Response)
    requires AcksAnswer(s, packets)
    requires e.ImeiRead? ==> packets == []
    ensures AcksAnswer(ServeEvent(s, e, r), packets + if e.PacketRead? then [e.packet] else [])
  {
    hide RecordAcks, PacketStored;
    var after := ServeEvent(s, e, r);
    var acks := RecordAcks(s.conn.written);
    forall a { AcksPushed(s.conn.written, a); }
    forall k | 0 <= k < |acks| ensures PacketStored(packets[k], s.conn.imei.value, after.log) {
      StoredStays(packets[k], s.conn.imei.value, s.log, after.log);
    }
    if e.PacketRead? && e.packet.Intact? && s.conn.imei.Some? {
      PublishedStored(e.packet, s.conn.imei.value, s.log, r.receivedAt);
    }
    CorruptStored(s.log);
  }

  lemma CorruptStored(log: seq<TelemetryEvent>)
    ensures forall p: AvlPacket, imei :: p.Corrupt? ==> PacketStored(p, imei, log)
  {
  }

  /**
   On every connection, whatever its bytes and their chunks, whatever the broker
   does: the k-th acknowledgement answers the k-th packet with its record count,
   or with 0 if its checksum failed, and every record acknowledged is in the log.
   */
  lemma {:induction false} AcknowledgedInOrder(events: seq<FramerEvent>, log: seq<TelemetryEvent>, responses: Responses)
    requires HandshakeFirst(events)
    ensures AcksAnswer(ServeAll(Served(FRESH, log), events, responses, 0), Packets(events))
  {
    hide ServeEvent, AcksAnswer;
    if events == [] {
      NothingAnswered(log);
    } else {
      var last := |events| - 1;
      AcknowledgedInOrder(events[..last], log, responses);
      if events[last].ImeiRead? {
        assert events[..0] == [] && Packets([]) == [];
      }
      AnswerStep(ServeAll(Served(FRESH, log), events[..last], responses, 0), Packets(events[..last]),
                 events[last], responses(last));
      assert Packets(events)
          == Packets(events[..last]) + if events[last].PacketRead? then [events[last].packet] else [];
    }
  }

  lemma NothingAnswered(log: seq<TelemetryEvent>)
    ensures AcksAnswer(Served(FRESH, log), Packets([]))
  {
  }

  /** The same for the bytes of a connection, however cut. */
  lemma ConnectionAnswers(chunks: seq<seq<byte>>, log: seq<TelemetryEvent>, responses: Responses, maxFrameBytes: nat)
    ensures AcksAnswer(Feed(AwaitingImei, [], Served(FRESH, log), chunks, responses, 0, maxFrameBytes),
                       Packets(PushAll(AwaitingImei, [], chunks, maxFrameBytes).events))
  {
    hide Drain, AcksAnswer;
    FeedIsServe(AwaitingImei, [], Served(FRESH, log), chunks, responses, 0, maxFrameBytes);
    ChunkingIndependence(chunks, maxFrameBytes);
    OneFaultLast(AwaitingImei, Flatten(chunks), maxFrameBytes);
    AcknowledgedInOrder(PushAll(AwaitingImei, [], chunks, maxFrameBytes).events, log, responses);
  }
}
