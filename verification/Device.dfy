/**
 A stop-and-wait device against the ingest server, down to the bytes: it deletes
 from its flash memory what was acknowledged, and connections are lost, packets
 corrupted and publishing fails at any time.
 */
module Device {
  import opened Wrappers
  import opened Bytes
  import opened Avl
  import opened Encoder
  import opened RoundTrip
  import opened Imei
  import opened Framer
  import opened Stream
  import opened Publishing
  import opened Ingest
  import Crc

  // ---------- what a packet is on the wire ----------

  /** What arrives behind the header in place of the data field and its checksum. */
  datatype Damage = Damage(data: seq<byte>, crc: nat)

  /** Damage to the data field, to the checksum or to both that the checksum sees. */
  predicate Detected(b: Batch, d: Damage, maxFrameBytes: nat)
    requires Sendable(b, maxFrameBytes)
  {
    EncodedIsFramed(b.records, b.codec);
    && |d.data| == |EncodeData(b.records, b.codec, |b.records|).value|
    && d.crc < Power256(4)
    && d.crc != Crc.Checksum(d.data)
  }

  /** A packet as sent, and how it is damaged on the way. */
  datatype Packet = Packet(batch: Batch, damage: Option<Damage>)

  predicate Transmissible(p: Packet, maxFrameBytes: nat) {
    Sendable(p.batch, maxFrameBytes) && (p.damage.Some? ==> Detected(p.batch, p.damage.value, maxFrameBytes))
  }

  function Wire(p: Packet, maxFrameBytes: nat): seq<byte>
    requires Transmissible(p, maxFrameBytes)
  {
    if p.damage.None? then EncodeFrame(p.batch.records, Plain(p.batch.codec)).value
    else Framed(p.damage.value.data, p.damage.value.crc)
  }

  /** What the server parses from it. */
  function Arrives(p: Packet, maxFrameBytes: nat): AvlPacket
    requires Transmissible(p, maxFrameBytes)
  {
    if p.damage.None? then PacketOf(p.batch)
    else Corrupt(p.damage.value.crc, Crc.Checksum(p.damage.value.data))
  }

  /** The bytes of a frame: a zero preamble and its length. */
  predicate Headed(wire: seq<byte>, maxFrameBytes: nat) {
    && 12 <= |wire| <= maxFrameBytes
    && FromBigEndian(wire[0..4]) == 0
    && FromBigEndian(wire[4..8]) == |wire| - 12
  }

  /** The damage takes the place of the data field and the checksum of the frame that was sent, and of no more. */
  lemma DamageInPlace(p: Packet, maxFrameBytes: nat)
    requires Transmissible(p, maxFrameBytes) && p.damage.Some?
    ensures var frame := EncodeFrame(p.batch.records, Plain(p.batch.codec)).value;
      |Wire(p, maxFrameBytes)| == |frame| && Wire(p, maxFrameBytes)[..8] == frame[..8]
  {
    hide BigEndian, EncodeFrame, EncodeData, Crc.Checksum;
    var b, d := p.batch, p.damage.value;
    EncodedIsFramed(b.records, b.codec);
    var data := EncodeData(b.records, b.codec, |b.records|).value;
    assert Framed(data, Crc.Checksum(data))[..8] == BigEndian(4, 0) + BigEndian(4, |data|);
    assert Framed(d.data, d.crc)[..8] == BigEndian(4, 0) + BigEndian(4, |d.data|);
  }

  lemma WireDecided(p: Packet, maxFrameBytes: nat)
    requires Transmissible(p, maxFrameBytes)
    ensures var wire := Wire(p, maxFrameBytes);
      && Headed(wire, maxFrameBytes)
      && DecidePacket(wire, maxFrameBytes) == Emit(PacketRead(Arrives(p, maxFrameBytes)), |wire|)
  {
    hide Framed, FromBigEndian, EncodeFrame, EncodeData, ParseFrame, ParseData, DecodedAll, Crc.Checksum, PacketOf;
    var b := p.batch;
    EncodedIsFramed(b.records, b.codec);
    var data := EncodeData(b.records, b.codec, |b.records|).value;
    FramedHeader(data, Crc.Checksum(data), []);
    var wire := Wire(p, maxFrameBytes);
    assert wire + [] == wire && wire[..|wire|] == wire;
    if p.damage.None? {
      PacketDecided(b, [], maxFrameBytes);
    } else {
      FramedHeader(p.damage.value.data, p.damage.value.crc, []);
      ParseFramed(p.damage.value.data, p.damage.value.crc);
    }
  }

  /** Part of a frame is waited on. */
  lemma PartWaits(wire: seq<byte>, k: nat, maxFrameBytes: nat)
    requires Headed(wire, maxFrameBytes) && k < |wire|
    ensures DecidePacket(wire[..k], maxFrameBytes) == Wait
  {
    hide FromBigEndian;
    if k >= 8 {
      assert wire[..k][0..4] == wire[0..4] && wire[..k][4..8] == wire[4..8];
    }
  }

  lemma DrainOne(mode: Mode, frame: seq<byte>, maxFrameBytes: nat)
    requires mode != Mode.Failed && Decide(mode, frame, maxFrameBytes).Emit?
    requires Decide(mode, frame, maxFrameBytes).size == |frame|
    ensures Drain(mode, frame, maxFrameBytes) == Drained([Decide(mode, frame, maxFrameBytes).event], Streaming, [])
  {
    hide DecidePacket, DecideHandshake;
    NothingToDecide(maxFrameBytes);
    var event, rest := Decide(mode, frame, maxFrameBytes).event, frame[|frame|..];
    assert rest == [];
    assert Drain(Streaming, rest, maxFrameBytes) == Drained([], Streaming, []);
    assert [event] + [] == [event];
  }

  lemma PacketPushed(p: Packet, buffer: seq<byte>, chunk: seq<byte>, maxFrameBytes: nat)
    requires Transmissible(p, maxFrameBytes)
    requires buffer + chunk <= Wire(p, maxFrameBytes)
    ensures Pushed(Streaming, buffer, chunk, maxFrameBytes) ==
      if buffer + chunk == Wire(p, maxFrameBytes)
      then Drained([PacketRead(Arrives(p, maxFrameBytes))], Streaming, [])
      else Drained([], Streaming, buffer + chunk)
  {
    hide DecidePacket, Wire, Arrives, Headed, Transmissible;
    var wire, so := Wire(p, maxFrameBytes), buffer + chunk;
    WireDecided(p, maxFrameBytes);
    if so == wire {
      DrainOne(Streaming, wire, maxFrameBytes);
    } else {
      assert so == wire[..|so|];
      PartWaits(wire, |so|, maxFrameBytes);
    }
  }

  function Handshake(imei: string): seq<byte>
    requires IsValidImei(imei)
  {
    ImeiRoundTrip(imei);
    EncodeImeiFrame(imei).value
  }

  lemma HandshakePart(imei: string, k: nat)
    requires IsValidImei(imei) && k < 17
    ensures |Handshake(imei)| == 17
    ensures TryParseImeiFrame(Handshake(imei)[..k]) == NeedMore
  {
    ImeiRoundTrip(imei);
    var frame := Handshake(imei);
    if k >= 2 {
      assert frame[..k][..2] == frame[..2];
      HandshakeLength(frame);
    }
  }

  lemma HandshakeLength(frame: seq<byte>)
    requires TryParseImeiFrame(frame).Ok?
    ensures |frame| >= 2 && FromBigEndian(frame[..2]) == IMEI_DIGITS
  {
  }

  lemma HandshakePushed(imei: string, buffer: seq<byte>, chunk: seq<byte>, maxFrameBytes: nat)
    requires IsValidImei(imei) && buffer + chunk <= Handshake(imei)
    ensures Pushed(AwaitingImei, buffer, chunk, maxFrameBytes) ==
      if buffer + chunk == Handshake(imei)
      then Drained([ImeiRead(imei)], Streaming, [])
      else Drained([], AwaitingImei, buffer + chunk)
  {
    hide TryParseImeiFrame, EncodeImeiFrame, IsValidImei, DecidePacket;
    ImeiRoundTrip(imei);
    var frame, so := Handshake(imei), buffer + chunk;
    if so == frame {
      DrainOne(AwaitingImei, frame, maxFrameBytes);
    } else {
      assert so == frame[..|so|];
      HandshakePart(imei, |so|);
    }
  }

  // ---------- device, connection and broker ----------

  datatype Phase =
    | Offline
    | Greeting
    | Ready
    | Waiting(count: nat, packet: Packet)

  /** A connection: bytes under way, the server's framer and socket, and how many of its replies were read. */
  datatype Link = Link(up: seq<byte>, mode: Mode, buffer: seq<byte>, conn: Connection, received: nat)

  /** `captured` is everything the device ever recorded; `deleted` what it has dropped from `flash`. */
  datatype World = World(
    imei: string,
    captured: seq<EncodableRecord>,
    deleted: seq<EncodableRecord>,
    flash: seq<EncodableRecord>,
    phase: Phase,
    link: Option<Link>,
    log: seq<TelemetryEvent>)

  datatype Action =
    | Capture(record: EncodableRecord)
    | Connect
    | Send(count: nat, packet: Packet)
    | Deliver(size: nat, response: Response)
    | Receive
    | Lose
    | Others(events: seq<TelemetryEvent>)

  /** The replies not yet read by the device. */
  function Unread(l: Link): seq<Ack> {
    if l.received <= |l.conn.written| then l.conn.written[l.received..] else []
  }

  predicate Enabled(w: World, a: Action, maxFrameBytes: nat) {
    match a
    case Capture(_) => true
    case Connect => w.link.None?
    case Send(count, packet) =>
      && w.link.Some? && w.phase.Ready? && count <= |w.flash|
      && packet.batch.records == w.flash[..count] && Transmissible(packet, maxFrameBytes)
    case Deliver(size, _) => w.link.Some? && !w.link.value.conn.destroyed && 0 < size <= |w.link.value.up|
    case Receive => w.link.Some? && Unread(w.link.value) != []
    case Lose => w.link.Some?
    case Others(_) => true
  }

  /** The server takes the next bytes off the wire. */
  function Delivered(w: World, l: Link, size: nat, response: Response, maxFrameBytes: nat): World
    requires size <= |l.up|
  {
    var r := Pushed(l.mode, l.buffer, l.up[..size], maxFrameBytes);
    var s := ServeAll(Served(l.conn, w.log), r.events, k => response, 0);
    w.(link := Some(Link(l.up[size..], r.mode, r.rest, s.conn, l.received)), log := s.log)
  }

  /** The device reads a reply: it drops as many records as were acknowledged. */
  function Replied(w: World, l: Link, reply: Ack): World {
    var next := w.(link := Some(l.(received := l.received + 1)));
    match (w.phase, reply)
    case (Greeting, ImeiAck(true)) => next.(phase := Ready)
    case (Greeting, ImeiAck(false)) => next.(phase := Offline, link := None)
    case (Waiting(_, _), RecordAck(count)) =>
      if count <= |w.flash|
      then next.(phase := Ready, flash := w.flash[count..], deleted := w.deleted + w.flash[..count])
      else next
    case _ => next
  }

  function Apply(w: World, a: Action, maxFrameBytes: nat): World
    requires IsValidImei(w.imei) && Enabled(w, a, maxFrameBytes)
  {
    match a
    case Capture(record) => w.(captured := w.captured + [record], flash := w.flash + [record])
    case Connect => w.(phase := Greeting, link := Some(Link(Handshake(w.imei), AwaitingImei, [], FRESH, 0)))
    case Send(count, packet) =>
      w.(phase := Waiting(count, packet),
         link := Some(w.link.value.(up := w.link.value.up + Wire(packet, maxFrameBytes))))
    case Deliver(size, response) => Delivered(w, w.link.value, size, response, maxFrameBytes)
    case Receive => Replied(w, w.link.value, Unread(w.link.value)[0])
    case Lose => w.(phase := Offline, link := None)
    case Others(events) => w.(log := w.log + events)
  }

  // ---------- what every step keeps ----------

  /** The broker has the record, as either codec decodes it. */
  ghost predicate RecordKept(r: EncodableRecord, imei: string, log: seq<TelemetryEvent>) {
    RecordStored(Decoded(r, false), imei, log) || RecordStored(Decoded(r, true), imei, log)
  }

  ghost predicate AllKept(records: seq<EncodableRecord>, imei: string, log: seq<TelemetryEvent>) {
    forall i :: 0 <= i < |records| ==> RecordKept(records[i], imei, log)
  }

  /** The server has read all that was sent and knows the device. */
  predicate Settled(l: Link, imei: string) {
    l.mode == Streaming && l.buffer == [] && l.up == [] && l.conn.imei == Some(imei)
  }

  ghost predicate GreetingOk(w: World, l: Link) {
    if l.conn == FRESH then
      && IsValidImei(w.imei) && l.received == 0 && l.mode == AwaitingImei
      && l.buffer + l.up == Handshake(w.imei) && l.up != []
    else Settled(l, w.imei) && !l.conn.destroyed && Unread(l) == [ImeiAck(true)]
  }

  ghost predicate WaitingOk(w: World, l: Link, count: nat, packet: Packet, maxFrameBytes: nat) {
    && count <= |w.flash| && packet.batch.records == w.flash[..count]
    && Transmissible(packet, maxFrameBytes)
    && (l.conn.destroyed ==> Unread(l) == [])
    && (!l.conn.destroyed && Unread(l) == [] ==>
         && l.mode == Streaming && l.conn.imei == Some(w.imei)
         && l.up != [] && l.buffer + l.up == Wire(packet, maxFrameBytes))
    && (Unread(l) != [] ==>
         && Settled(l, w.imei)
         && (Unread(l) == [RecordAck(0)]
             || (Unread(l) == [RecordAck(count)] && AllKept(w.flash[..count], w.imei, w.log))))
  }

  ghost predicate LinkOk(w: World, l: Link, maxFrameBytes: nat) {
    && l.received <= |l.conn.written|
    && match w.phase
       case Offline => false
       case Greeting => GreetingOk(w, l)
       case Ready => Settled(l, w.imei) && !l.conn.destroyed && Unread(l) == []
       case Waiting(count, packet) => WaitingOk(w, l, count, packet, maxFrameBytes)
  }

  ghost predicate Safe(w: World, maxFrameBytes: nat) {
    && IsValidImei(w.imei)
    && w.captured == w.deleted + w.flash
    && AllKept(w.deleted, w.imei, w.log)
    && (w.link.None? <==> w.phase.Offline?)
    && (w.link.Some? ==> LinkOk(w, w.link.value, maxFrameBytes))
  }

  lemma KeptStays(records: seq<EncodableRecord>, imei: string, a: seq<TelemetryEvent>, b: seq<TelemetryEvent>)
    requires AllKept(records, imei, a) && a <= b
    ensures AllKept(records, imei, b)
  {
    forall i | 0 <= i < |records| ensures RecordKept(records[i], imei, b) {
      assert RecordKept(records[i], imei, a);
      var extended := RecordStored(Decoded(records[i], true), imei, a);
      var k :| 0 <= k < |a| && a[k].imei == imei && a[k].record == Decoded(records[i], extended);
      assert b[k] == a[k];
    }
  }

  lemma LogGrows(w: World, more: seq<TelemetryEvent>, maxFrameBytes: nat)
    requires Safe(w, maxFrameBytes)
    ensures Safe(w.(log := w.log + more), maxFrameBytes)
  {
    hide RecordKept, AllKept, Transmissible, Wire, Handshake, IsValidImei;
    KeptStays(w.deleted, w.imei, w.log, w.log + more);
    if w.phase.Waiting? && w.phase.count <= |w.flash| && AllKept(w.flash[..w.phase.count], w.imei, w.log) {
      KeptStays(w.flash[..w.phase.count], w.imei, w.log, w.log + more);
    }
  }

  lemma CaptureSafe(w: World, record: EncodableRecord, maxFrameBytes: nat)
    requires Safe(w, maxFrameBytes)
    ensures Safe(w.(captured := w.captured + [record], flash := w.flash + [record]), maxFrameBytes)
  {
    hide RecordKept, AllKept, Transmissible, Wire, Handshake, IsValidImei;
    var flash := w.flash + [record];
    assert w.deleted + w.flash + [record] == w.deleted + flash;
    if w.phase.Waiting? && w.phase.count <= |w.flash| {
      assert flash[..w.phase.count] == w.flash[..w.phase.count];
    }
  }

  lemma ConnectSafe(w: World, maxFrameBytes: nat)
    requires Safe(w, maxFrameBytes) && Enabled(w, Connect, maxFrameBytes)
    ensures Safe(Apply(w, Connect, maxFrameBytes), maxFrameBytes)
  {
    hide RecordKept, AllKept, Transmissible, IsValidImei;
    HandshakePart(w.imei, 0);
    assert [] + Handshake(w.imei) == Handshake(w.imei);
  }

  lemma SendSafe(w: World, count: nat, packet: Packet, maxFrameBytes: nat)
    requires Safe(w, maxFrameBytes) && Enabled(w, Send(count, packet), maxFrameBytes)
    ensures Safe(Apply(w, Send(count, packet), maxFrameBytes), maxFrameBytes)
  {
    hide RecordKept, AllKept, Transmissible, Wire, Arrives, Handshake, IsValidImei;
    WireDecided(packet, maxFrameBytes);
    assert [] + Wire(packet, maxFrameBytes) == Wire(packet, maxFrameBytes);
  }

  lemma ServeNone(s: Served, responses: Responses)
    ensures ServeAll(s, [], responses, 0) == s
  {
  }

  lemma ServeOne(s: Served, e: FramerEvent, responses: Responses)
    ensures ServeAll(s, [e], responses, 0) == ServeEvent(s, e, responses(0))
  {
    hide ServeEvent;
    assert [e][..0] == [];
  }

  lemma GreetingDelivered(w: World, size: nat, response: Response, maxFrameBytes: nat)
    requires Safe(w, maxFrameBytes) && w.phase.Greeting?
    requires Enabled(w, Deliver(size, response), maxFrameBytes)
    ensures Safe(Apply(w, Deliver(size, response), maxFrameBytes), maxFrameBytes)
  {
    hide RecordKept, AllKept, Transmissible, Wire, Handshake, IsValidImei, Pushed, ServeAll;
    var l := w.link.value;
    assert l.conn == FRESH;
    var chunk, left := l.up[..size], l.up[size..];
    assert l.buffer + chunk + left == Handshake(w.imei);
    assert l.buffer + chunk <= Handshake(w.imei);
    HandshakePushed(w.imei, l.buffer, chunk, maxFrameBytes);
    var s := Served(l.conn, w.log);
    if left == [] {
      assert l.buffer + chunk == Handshake(w.imei);
      ServeOne(s, ImeiRead(w.imei), k => response);
    } else {
      assert l.buffer + chunk != Handshake(w.imei) by { assert |l.buffer + chunk + left| > |l.buffer + chunk|; }
      ServeNone(s, k => response);
    }
  }

  /** The server's answer to the packet, whether it came whole or damaged. */
  lemma AnswerFits(w: World, l: Link, count: nat, packet: Packet, response: Response, maxFrameBytes: nat)
    requires count <= |w.flash| && packet.batch.records == w.flash[..count] && Transmissible(packet, maxFrameBytes)
    requires !l.conn.destroyed && l.conn.imei == Some(w.imei) && l.received == |l.conn.written|
    ensures var s := ServeEvent(Served(l.conn, w.log), PacketRead(Arrives(packet, maxFrameBytes)), response);
      && w.log <= s.log && s.conn.imei == Some(w.imei) && l.received <= |s.conn.written|
      && var unread := s.conn.written[l.received..];
      && (s.conn.destroyed ==> unread == [])
      && (!s.conn.destroyed ==>
           unread == [RecordAck(0)] || (unread == [RecordAck(count)] && AllKept(w.flash[..count], w.imei, s.log)))
  {
    hide Transmissible, Crc.Checksum, Decoded, EncodeData;
    if packet.damage.None? {
      var records := packet.batch.records;
      var decoded := DecodedAll(records, packet.batch.codec == Codec8E);
      var events := BuildTelemetryEvents(w.imei, packet.batch.codec, decoded, response.receivedAt);
      forall i | 0 <= i < |records| ensures RecordKept(records[i], w.imei, w.log + events) {
        assert (w.log + events)[|w.log| + i] == events[i];
        assert events[i].record == Decoded(records[i], packet.batch.codec == Codec8E);
      }
    }
  }

  lemma WaitingDelivered(w: World, size: nat, response: Response, maxFrameBytes: nat)
    requires Safe(w, maxFrameBytes) && w.phase.Waiting?
    requires Enabled(w, Deliver(size, response), maxFrameBytes)
    ensures Safe(Apply(w, Deliver(size, response), maxFrameBytes), maxFrameBytes)
  {
    hide RecordKept, AllKept, Transmissible, Wire, Arrives, Handshake, IsValidImei, Pushed, ServeAll, ServeEvent;
    var l := w.link.value;
    var count, packet := w.phase.count, w.phase.packet;
    assert Unread(l) == [];
    var chunk, left := l.up[..size], l.up[size..];
    assert l.buffer + chunk + left == Wire(packet, maxFrameBytes);
    assert l.buffer + chunk <= Wire(packet, maxFrameBytes);
    PacketPushed(packet, l.buffer, chunk, maxFrameBytes);
    var s := Served(l.conn, w.log);
    if left == [] {
      assert l.buffer + chunk == Wire(packet, maxFrameBytes);
      ServeOne(s, PacketRead(Arrives(packet, maxFrameBytes)), k => response);
      AnswerFits(w, l, count, packet, response, maxFrameBytes);
      KeptStays(w.deleted, w.imei, w.log, ServeEvent(s, PacketRead(Arrives(packet, maxFrameBytes)), response).log);
    } else {
      assert l.buffer + chunk != Wire(packet,
          maxFrameBytes) by { assert |l.buffer + chunk + left| > |l.buffer + chunk|; }
      ServeNone(s, k => response);
    }
  }

  lemma ReceiveSafe(w: World, maxFrameBytes: nat)
    requires Safe(w, maxFrameBytes) && Enabled(w, Receive, maxFrameBytes)
    ensures Safe(Apply(w, Receive, maxFrameBytes), maxFrameBytes)
  {
    hide AllKept, Transmissible, Wire, Handshake, IsValidImei;
    var l := w.link.value;
    var after := l.(received := l.received + 1);
    assert Unread(after) == Unread(l)[1..];
    if w.phase.Waiting? {
      var count := Unread(l)[0].count;
      DeletedKept(w, count);
    }
  }

  /** Dropping the oldest records of flash loses none that the broker does not have. */
  lemma DeletedKept(w: World, count: nat)
    requires count <= |w.flash| && AllKept(w.deleted, w.imei, w.log)
    ensures w.deleted + w.flash == (w.deleted + w.flash[..count]) + w.flash[count..]
    ensures count == 0 || AllKept(w.flash[..count], w.imei, w.log) ==>
      AllKept(w.deleted + w.flash[..count], w.imei, w.log)
  {
    hide RecordKept;
    assert w.flash == w.flash[..count] + w.flash[count..];
  }

  lemma StepSafe(w: World, a: Action, maxFrameBytes: nat)
    requires Safe(w, maxFrameBytes) && Enabled(w, a, maxFrameBytes)
    ensures Safe(Apply(w, a, maxFrameBytes), maxFrameBytes)
  {
    hide AllKept, WaitingOk, Delivered, Replied, Wire, Handshake, Transmissible, IsValidImei;
    match a
    case Capture(record) => CaptureSafe(w, record, maxFrameBytes);
    case Connect => ConnectSafe(w, maxFrameBytes);
    case Send(count, packet) => SendSafe(w, count, packet, maxFrameBytes);
    case Deliver(size, response) =>
      if w.phase.Greeting? {
        GreetingDelivered(w, size, response, maxFrameBytes);
      } else {
        WaitingDelivered(w, size, response, maxFrameBytes);
      }
    case Receive => ReceiveSafe(w, maxFrameBytes);
    case Lose =>
    case Others(events) => LogGrows(w, events, maxFrameBytes);
  }

  // ---------- whole runs ----------

  predicate Steps(w: World, actions: seq<Action>, after: World, maxFrameBytes: nat)
    requires IsValidImei(w.imei)
    decreases |actions|
  {
    if actions == [] then after == w
    else
      && Enabled(w, actions[0], maxFrameBytes)
      && var next := Apply(w, actions[0], maxFrameBytes);
      && IsValidImei(next.imei)
      && Steps(next, actions[1..], after, maxFrameBytes)
  }

  function NewDevice(imei: string, log: seq<TelemetryEvent>): World {
    World(imei, [], [], [], Offline, None, log)
  }

  lemma {:induction false} RunSafe(w: World, actions: seq<Action>, after: World, maxFrameBytes: nat)
    requires Safe(w, maxFrameBytes) && Steps(w, actions, after, maxFrameBytes)
    ensures Safe(after, maxFrameBytes) && after.imei == w.imei
    decreases |actions|
  {
    hide Enabled, Apply, LinkOk;
    if actions != [] {
      StepSafe(w, actions[0], maxFrameBytes);
      SameImei(w, actions[0], maxFrameBytes);
      RunSafe(Apply(w, actions[0], maxFrameBytes), actions[1..], after, maxFrameBytes);
    }
  }

  lemma SameImei(w: World, a: Action, maxFrameBytes: nat)
    requires IsValidImei(w.imei) && Enabled(w, a, maxFrameBytes)
    ensures Apply(w, a, maxFrameBytes).imei == w.imei
  {
  }

  /**
   Acknowledged means stored: with any losses, resends, partly applied or
   refused publishes, other devices' traffic, damage that the checksum sees and
   any chunking, every record the device has deleted is in the broker's log, and
   what it deleted and what it still holds are all it recorded, in order.
   */
  lemma AcknowledgedMeansStored(imei: string, log: seq<TelemetryEvent>, actions: seq<Action>, after: World,
      maxFrameBytes: nat)
    requires IsValidImei(imei) && Steps(NewDevice(imei, log), actions, after, maxFrameBytes)
    ensures AllKept(after.deleted, imei, after.log)
    ensures after.captured == after.deleted + after.flash
  {
    assert Safe(NewDevice(imei, log), maxFrameBytes);
    RunSafe(NewDevice(imei, log), actions, after, maxFrameBytes);
  }

  /** The device only ever reads the reply it waits for: acceptance, or its own record count or 0. */
  lemma RepliesFit(imei: string, log: seq<TelemetryEvent>, actions: seq<Action>, w: World, maxFrameBytes: nat)
    requires IsValidImei(imei) && Steps(NewDevice(imei, log), actions, w, maxFrameBytes)
    requires Enabled(w, Receive, maxFrameBytes)
    ensures match w.phase
            case Greeting => Unread(w.link.value) == [ImeiAck(true)]
            case Waiting(count, _) =>
              Unread(w.link.value) == [RecordAck(0)] || Unread(w.link.value) == [RecordAck(count)]
            case _ => false
  {
    assert Safe(NewDevice(imei, log), maxFrameBytes);
    RunSafe(NewDevice(imei, log), actions, w, maxFrameBytes);
  }

  lemma WholePacketServed(conn: Connection, log: seq<TelemetryEvent>, imei: string, b: Batch, receivedAt: int)
    requires !conn.destroyed && conn.imei == Some(imei)
    ensures ServeEvent(Served(conn, log), PacketRead(PacketOf(b)), Response(Stored, receivedAt, false))
         == Served(Write(conn, RecordAck(|b.records|)),
                   log + BuildTelemetryEvents(imei, b.codec, PacketOf(b).records, receivedAt))
  {
    hide Decoded;
  }

  /** An undamaged packet, taken whole by the server and published. */
  lemma PacketServed(w: World, l: Link, packet: Packet, receivedAt: int, maxFrameBytes: nat)
    requires Settled(l, w.imei) && !l.conn.destroyed
    requires Transmissible(packet, maxFrameBytes) && packet.damage.None?
    ensures var wire := Wire(packet, maxFrameBytes);
      Delivered(w, l.(up := wire), |wire|, Response(Stored, receivedAt, false), maxFrameBytes)
      == w.(link := Some(l.(up := [], conn := Write(l.conn, RecordAck(|packet.batch.records|)))),
            log := w.log + BuildTelemetryEvents(w.imei, packet.batch.codec, PacketOf(packet.batch).records, receivedAt))
  {
    hide Wire, Pushed, ServeAll, ServeEvent, Transmissible, PacketOf, BuildTelemetryEvents;
    var wire := Wire(packet, maxFrameBytes);
    assert [] + wire == wire && wire[..|wire|] == wire && wire[|wire|..] == [];
    PacketPushed(packet, [], wire, maxFrameBytes);
    ServeOne(Served(l.conn, w.log), PacketRead(Arrives(packet, maxFrameBytes)),
             k => Response(Stored, receivedAt, false));
    WholePacketServed(l.conn, w.log, w.imei, packet.batch, receivedAt);
  }

  /** Undisturbed, a packet is acknowledged with its count, published whole, and dropped from flash. */
  lemma UndisturbedPacket(w: World, packet: Packet, receivedAt: int, maxFrameBytes: nat)
    requires Safe(w, maxFrameBytes) && w.phase.Ready?
    requires packet.damage.None? && Enabled(w, Send(|packet.batch.records|, packet), maxFrameBytes)
    ensures var count := |packet.batch.records|;
      var sent := Apply(w, Send(count, packet), maxFrameBytes);
      var deliver := Deliver(|Wire(packet, maxFrameBytes)|, Response(Stored, receivedAt, false));
      && IsValidImei(sent.imei) && Enabled(sent, deliver, maxFrameBytes)
      && var served := Apply(sent, deliver, maxFrameBytes);
      && IsValidImei(served.imei) && Enabled(served, Receive, maxFrameBytes)
      && var after := Apply(served, Receive, maxFrameBytes);
      && after.phase.Ready?
      && after.deleted == w.deleted + w.flash[..count] && after.flash == w.flash[count..]
      && after.log == w.log
           + BuildTelemetryEvents(w.imei, packet.batch.codec, PacketOf(packet.batch).records, receivedAt)
  {
    hide Wire, Handshake, IsValidImei, Delivered, AllKept, Transmissible, PacketOf, BuildTelemetryEvents;
    var l, wire, count := w.link.value, Wire(packet, maxFrameBytes), |packet.batch.records|;
    WireDecided(packet, maxFrameBytes);
    assert l.up + wire == wire;
    var sent := Apply(w, Send(count, packet), maxFrameBytes);
    assert sent == w.(phase := Waiting(count, packet), link := Some(l.(up := wire)));
    PacketServed(sent, l, packet, receivedAt, maxFrameBytes);
    var conn := Write(l.conn, RecordAck(count));
    assert conn.written[l.received..] == [RecordAck(count)];
    var served := Apply(sent, Deliver(|wire|, Response(Stored, receivedAt, false)), maxFrameBytes);
    assert served.link == Some(l.(up := [], conn := conn)) && served.phase == Waiting(count, packet);
    assert Unread(served.link.value) == [RecordAck(count)];
  }

  /** A damaged packet, taken whole by the server: whatever the broker, it asks to have it sent again. */
  lemma DamagedServed(w: World, l: Link, packet: Packet, response: Response, maxFrameBytes: nat)
    requires Settled(l, w.imei) && !l.conn.destroyed
    requires Transmissible(packet, maxFrameBytes) && packet.damage.Some?
    ensures var wire := Wire(packet, maxFrameBytes);
      Delivered(w, l.(up := wire), |wire|, response, maxFrameBytes)
      == w.(link := Some(l.(up := [], conn := l.conn.(written := l.conn.written + [RecordAck(0)]))))
  {
    hide Wire, Pushed, ServeAll, Transmissible, Crc.Checksum;
    var wire := Wire(packet, maxFrameBytes);
    assert [] + wire == wire && wire[..|wire|] == wire && wire[|wire|..] == [];
    PacketPushed(packet, [], wire, maxFrameBytes);
    ServeOne(Served(l.conn, w.log), PacketRead(Arrives(packet, maxFrameBytes)), k => response);
  }

  /**
   Damaged on the way, a packet is answered with 0: the device is ready to send it again over the same
   connection, nothing has left its flash memory and nothing has been published.
   */
  lemma DamagedPacket(w: World, packet: Packet, count: nat, response: Response, maxFrameBytes: nat)
    requires Safe(w, maxFrameBytes) && w.phase.Ready?
    requires packet.damage.Some? && Enabled(w, Send(count, packet), maxFrameBytes)
    ensures var sent := Apply(w, Send(count, packet), maxFrameBytes);
      var deliver := Deliver(|Wire(packet, maxFrameBytes)|, response);
      && IsValidImei(sent.imei) && Enabled(sent, deliver, maxFrameBytes)
      && var served := Apply(sent, deliver, maxFrameBytes);
      && IsValidImei(served.imei) && Enabled(served, Receive, maxFrameBytes)
      && var after := Apply(served, Receive, maxFrameBytes);
      && after.phase.Ready? && after.link.Some? && !after.link.value.conn.destroyed
      && after.deleted == w.deleted && after.flash == w.flash && after.log == w.log
  {
    hide Wire, Handshake, IsValidImei, Delivered, AllKept, Transmissible, PacketOf, BuildTelemetryEvents;
    var l, wire := w.link.value, Wire(packet, maxFrameBytes);
    WireDecided(packet, maxFrameBytes);
    assert l.up + wire == wire;
    var sent := Apply(w, Send(count, packet), maxFrameBytes);
    assert sent == w.(phase := Waiting(count, packet), link := Some(l.(up := wire)));
    DamagedServed(sent, l, packet, response, maxFrameBytes);
    var conn := l.conn.(written := l.conn.written + [RecordAck(0)]);
    assert conn.written[l.received..] == [RecordAck(0)];
    var served := Apply(sent, Deliver(|wire|, response), maxFrameBytes);
    assert served.link == Some(l.(up := [], conn := conn)) && served.phase == Waiting(count, packet);
    assert Unread(served.link.value) == [RecordAck(0)];
    assert w.deleted + w.flash[..0] == w.deleted && w.flash[0..] == w.flash;
  }
}
