/**
 Laws of the framer over whole byte streams: how a stream is cut into chunks
 does not matter, every byte is accounted for, and encoded traffic comes back.
 */
module Stream {
  import opened Bytes
  import opened Avl
  import opened Encoder
  import opened RoundTrip
  import opened Imei
  import opened Framer
  import Crc

  // ---------- chunking independence ----------

  function Flatten(chunks: seq<seq<byte>>): seq<byte> {
    if chunks == [] then [] else chunks[0] + Flatten(chunks[1..])
  }

  /** Successive `push` calls, their events concatenated. */
  function PushAll(mode: Mode, buffer: seq<byte>, chunks: seq<seq<byte>>, maxFrameBytes: nat): Drained
    decreases |chunks|
  {
    if chunks == [] then Drained([], mode, buffer) else
      var first := Pushed(mode, buffer, chunks[0], maxFrameBytes);
      var later := PushAll(first.mode, first.rest, chunks[1..], maxFrameBytes);
      later.(events := first.events + later.events)
  }

  lemma PacketStable(buf: seq<byte>, more: seq<byte>, maxFrameBytes: nat)
    requires !DecidePacket(buf, maxFrameBytes).Wait?
    ensures DecidePacket(buf + more, maxFrameBytes) == DecidePacket(buf, maxFrameBytes)
  {
    hide FromBigEndian, ParseFrame;
    assert (buf + more)[0..4] == buf[0..4] && (buf + more)[4..8] == buf[4..8];
    var frameLength := 12 + FromBigEndian(buf[4..8]);
    if |buf| >= frameLength {
      assert (buf + more)[..frameLength] == buf[..frameLength];
    }
  }

  /** A decision other than to wait is unchanged by bytes that arrive after it. */
  lemma DecisionStable(mode: Mode, buf: seq<byte>, more: seq<byte>, maxFrameBytes: nat)
    requires !Decide(mode, buf, maxFrameBytes).Wait?
    ensures Decide(mode, buf + more, maxFrameBytes) == Decide(mode, buf, maxFrameBytes)
  {
    if mode == AwaitingImei {
      HandshakeStable(buf, more);
    } else {
      PacketStable(buf, more, maxFrameBytes);
    }
  }

  /** Draining a buffer and then its continuation is draining the whole. */
  lemma {:induction false} DrainConcat(mode: Mode, buf: seq<byte>, more: seq<byte>, maxFrameBytes: nat)
    requires mode != Failed
    ensures var first := Drain(mode, buf, maxFrameBytes);
            var second := Pushed(first.mode, first.rest, more, maxFrameBytes);
            Drain(mode, buf + more, maxFrameBytes) == second.(events := first.events + second.events)
    decreases |buf|
  {
    hide DecideHandshake, DecidePacket, Decide;
    var d := Decide(mode, buf, maxFrameBytes);
    if !d.Wait? {
      DecisionStable(mode, buf, more, maxFrameBytes);
    }
    match d
    case Wait =>
      assert [] + Drain(mode, buf + more, maxFrameBytes).events == Drain(mode, buf + more, maxFrameBytes).events;
    case Stop(error) =>
      assert [Fault(error)] + [] == [Fault(error)];
    case Emit(event, size) =>
      assert (buf + more)[size..] == buf[size..] + more;
      DrainConcat(Streaming, buf[size..], more, maxFrameBytes);
      var first := Drain(Streaming, buf[size..], maxFrameBytes);
      var second := Pushed(first.mode, first.rest, more, maxFrameBytes);
      assert [event] + (first.events + second.events) == ([event] + first.events) + second.events;
  }

  /** A state in which `push` has nothing left to do. */
  predicate Quiet(mode: Mode, buffer: seq<byte>, maxFrameBytes: nat) {
    mode == Failed || Decide(mode, buffer, maxFrameBytes).Wait?
  }

  lemma {:induction false} DrainQuiet(mode: Mode, buf: seq<byte>, maxFrameBytes: nat)
    requires mode != Failed
    ensures var r := Drain(mode, buf, maxFrameBytes);
            && Quiet(r.mode, r.rest, maxFrameBytes)
            && (r.mode == Failed ==> r.rest == [])
            && Drain(mode, buf, maxFrameBytes).rest == r.rest
    decreases |buf|
  {
    var d := Decide(mode, buf, maxFrameBytes);
    if d.Emit? {
      DrainQuiet(Streaming, buf[d.size..], maxFrameBytes);
    }
  }

  lemma {:induction false} PushAllIsOnePush(mode: Mode, buffer: seq<byte>, chunks: seq<seq<byte>>, maxFrameBytes: nat)
    requires Quiet(mode, buffer, maxFrameBytes)
    ensures PushAll(mode, buffer, chunks, maxFrameBytes)
         == Pushed(mode, buffer, Flatten(chunks), maxFrameBytes)
    decreases |chunks|
  {
    hide DecideHandshake, DecidePacket, Decide;
    if chunks == [] {
      assert buffer + [] == buffer;
    } else {
      var first := Pushed(mode, buffer, chunks[0], maxFrameBytes);
      var rest := Flatten(chunks[1..]);
      if mode == Failed {
        PushAllIsOnePush(mode, buffer, chunks[1..], maxFrameBytes);
        assert [] + PushAll(mode, buffer, chunks[1..], maxFrameBytes).events
            == PushAll(mode, buffer, chunks[1..], maxFrameBytes).events;
      } else {
        DrainQuiet(mode, buffer + chunks[0], maxFrameBytes);
        PushAllIsOnePush(first.mode, first.rest, chunks[1..], maxFrameBytes);
        DrainConcat(mode, buffer + chunks[0], rest, maxFrameBytes);
        assert buffer + chunks[0] + rest == buffer + Flatten(chunks);
      }
    }
  }

  /**
   However a stream is cut into chunks, empty ones included, a fresh framer emits the same events,
   error details included, and ends in the same state as after one `push` of the whole stream.
   */
  lemma ChunkingIndependence(chunks: seq<seq<byte>>, maxFrameBytes: nat)
    ensures PushAll(AwaitingImei, [], chunks, maxFrameBytes)
         == Drain(AwaitingImei, Flatten(chunks), maxFrameBytes)
  {
    PushAllIsOnePush(AwaitingImei, [], chunks, maxFrameBytes);
    assert [] + Flatten(chunks) == Flatten(chunks);
  }

  /** The same for any two ways of cutting one stream. */
  lemma SameStreamSameEvents(a: seq<seq<byte>>, b: seq<seq<byte>>, maxFrameBytes: nat)
    requires Flatten(a) == Flatten(b)
    ensures PushAll(AwaitingImei, [], a, maxFrameBytes) == PushAll(AwaitingImei, [], b, maxFrameBytes)
  {
    ChunkingIndependence(a, maxFrameBytes);
    ChunkingIndependence(b, maxFrameBytes);
  }

  // ---------- byte accounting ----------

  /** The frames consumed while draining, one for each event that is not an error. */
  function Frames(mode: Mode, buf: seq<byte>, maxFrameBytes: nat): (frames: seq<seq<byte>>)
    requires mode != Failed
    ensures forall f :: f in frames ==> |f| >= 12
    decreases |buf|
  {
    match Decide(mode, buf, maxFrameBytes)
    case Wait => []
    case Stop(_) => []
    case Emit(_, size) => [buf[..size]] + Frames(Streaming, buf[size..], maxFrameBytes)
  }

  /** A frame that alone, handed to a framer in `mode`, makes exactly `event`. */
  predicate Makes(mode: Mode, frame: seq<byte>, event: FramerEvent, maxFrameBytes: nat) {
    Decide(mode, frame, maxFrameBytes) == Emit(event, |frame|)
  }

  lemma ImeiFrameAlone(buf: seq<byte>)
    requires DecideHandshake(buf).Emit?
    ensures DecideHandshake(buf[..17]) == DecideHandshake(buf)
  {
    HandshakeNotWaiting(buf);
    HandshakeStable(buf[..17], buf[17..]);
    assert buf[..17] + buf[17..] == buf;
  }

  lemma HandshakeNotWaiting(buf: seq<byte>)
    requires |buf| >= 17
    ensures !TryParseImeiFrame(buf[..17]).NeedMore?
  {
  }

  lemma FrameAlone(mode: Mode, buf: seq<byte>, maxFrameBytes: nat)
    requires Decide(mode, buf, maxFrameBytes).Emit?
    ensures var d := Decide(mode, buf, maxFrameBytes);
            Makes(mode, buf[..d.size], d.event, maxFrameBytes)
  {
    var d := Decide(mode, buf, maxFrameBytes);
    if mode == AwaitingImei {
      ImeiFrameAlone(buf);
    } else {
      assert buf[..d.size][0..4] == buf[0..4] && buf[..d.size][4..8] == buf[4..8];
      assert buf[..d.size][..d.size] == buf[..d.size];
    }
  }

  lemma {:induction false} StreamIsFrames(mode: Mode, buf: seq<byte>, maxFrameBytes: nat)
    requires mode != Failed
    requires Drain(mode, buf, maxFrameBytes).mode != Failed
    ensures buf == Flatten(Frames(mode, buf, maxFrameBytes)) + Drain(mode, buf, maxFrameBytes).rest
    decreases |buf|
  {
    hide DecideHandshake, DecidePacket, Decide, Flatten, Drain, Frames;
    var d := Decide(mode, buf, maxFrameBytes);
    FirstFrame(mode, buf, maxFrameBytes);
    if d.Emit? {
      var head, rest := buf[..d.size], buf[d.size..];
      var frames, left := Frames(Streaming, rest, maxFrameBytes), Drain(Streaming, rest, maxFrameBytes).rest;
      StreamIsFrames(Streaming, rest, maxFrameBytes);
      FlattenCons(head, frames);
      assert buf == head + rest;
      assert head + (Flatten(frames) + left) == head + Flatten(frames) + left;
    } else {
      assert Flatten([]) + buf == buf by { FlattenNothing(); }
    }
  }

  lemma FirstFrame(mode: Mode, buf: seq<byte>, maxFrameBytes: nat)
    requires mode != Failed
    ensures var d, r := Decide(mode, buf, maxFrameBytes), Drain(mode, buf, maxFrameBytes);
            if d.Emit? then
              var later := Drain(Streaming, buf[d.size..], maxFrameBytes);
              && r.mode == later.mode && r.rest == later.rest
              && Frames(mode, buf, maxFrameBytes) == [buf[..d.size]] + Frames(Streaming, buf[d.size..], maxFrameBytes)
            else (r.mode != Failed ==> r.rest == buf) && Frames(mode, buf, maxFrameBytes) == []
  {
    hide Decide;
  }

  lemma {:induction false} FrameMakesEvent(mode: Mode, buf: seq<byte>, maxFrameBytes: nat, i: nat)
    requires mode != Failed
    requires Drain(mode, buf, maxFrameBytes).mode != Failed
    ensures |Frames(mode, buf, maxFrameBytes)| == |Drain(mode, buf, maxFrameBytes).events|
    ensures i < |Frames(mode, buf, maxFrameBytes)| ==>
              Makes(if i == 0 then mode else Streaming,
                    Frames(mode, buf, maxFrameBytes)[i], Drain(mode, buf, maxFrameBytes).events[i], maxFrameBytes)
    decreases |buf|
  {
    hide DecideHandshake, DecidePacket, Decide, Makes;
    var d := Decide(mode, buf, maxFrameBytes);
    if d.Emit? {
      FrameMakesEvent(Streaming, buf[d.size..], maxFrameBytes, if i == 0 then 0 else i - 1);
      FrameAlone(mode, buf, maxFrameBytes);
    }
  }

  /**
   Until an error, the stream is exactly the frames of the emitted events followed by the buffer;
   each frame is at least 12 bytes long and, on its own, makes its event.
   */
  lemma BytesAccounted(mode: Mode, buf: seq<byte>, maxFrameBytes: nat)
    requires mode != Failed
    requires Drain(mode, buf, maxFrameBytes).mode != Failed
    ensures var r := Drain(mode, buf, maxFrameBytes);
            var frames := Frames(mode, buf, maxFrameBytes);
            && buf == Flatten(frames) + r.rest
            && |frames| == |r.events|
            && forall i :: 0 <= i < |frames| ==>
                 && |frames[i]| >= 12
                 && Makes(if i == 0 then mode else Streaming, frames[i], r.events[i], maxFrameBytes)
  {
    hide Decide, Makes;
    StreamIsFrames(mode, buf, maxFrameBytes);
    FrameMakesEvent(mode, buf, maxFrameBytes, 0);
    forall i: nat | i < |Frames(mode, buf, maxFrameBytes)|
      ensures Makes(if i == 0 then mode else Streaming,
                    Frames(mode, buf, maxFrameBytes)[i], Drain(mode, buf, maxFrameBytes).events[i], maxFrameBytes)
    {
      FrameMakesEvent(mode, buf, maxFrameBytes, i);
    }
  }

  lemma FlattenNothing()
    ensures Flatten([]) == []
  {
  }

  lemma FlattenCons(first: seq<byte>, chunks: seq<seq<byte>>)
    ensures Flatten([first] + chunks) == first + Flatten(chunks)
  {
    assert ([first] + chunks)[1..] == chunks;
  }

  /** After every `push` the buffer is shorter than a handshake or the largest frame. */
  lemma BufferBounded(mode: Mode, buffer: seq<byte>, chunk: seq<byte>, maxFrameBytes: nat)
    requires mode == Failed ==> buffer == []
    ensures var r := Pushed(mode, buffer, chunk, maxFrameBytes);
            && (r.mode == Failed ==> r.rest == [])
            && |r.rest| < if 17 < maxFrameBytes then maxFrameBytes else 17
  {
    if mode != Failed {
      DrainQuiet(mode, buffer + chunk, maxFrameBytes);
    }
  }

  /** Errors end the stream: at most one is emitted, and it is last. */
  lemma {:induction false} OneFaultLast(mode: Mode, buf: seq<byte>, maxFrameBytes: nat)
    requires mode != Failed
    ensures var r := Drain(mode, buf, maxFrameBytes);
            && (forall i :: 0 <= i < |r.events| && r.events[i].Fault? ==> i == |r.events| - 1)
            && (r.mode == Failed <==> |r.events| > 0 && r.events[|r.events| - 1].Fault?)
            && (mode == AwaitingImei && |r.events| > 0 ==> r.events[0].ImeiRead? || r.events[0].Fault?)
            && (forall i :: 0 < i < |r.events| ==> !r.events[i].ImeiRead?)
            && (mode == Streaming ==> forall i :: 0 <= i < |r.events| ==> !r.events[i].ImeiRead?)
    decreases |buf|
  {
    hide DecideHandshake, DecidePacket;
    var d := Decide(mode, buf, maxFrameBytes);
    if d.Emit? {
      OneFaultLast(Streaming, buf[d.size..], maxFrameBytes);
    }
  }

  // ---------- encoded traffic ----------

  /** One packet a device sends. */
  datatype Batch = Batch(records: seq<EncodableRecord>, codec: CodecId)

  predicate Sendable(b: Batch, maxFrameBytes: nat) {
    && |b.records| <= 255
    && EncodeFrame(b.records, Plain(b.codec)).Success?
    && |EncodeFrame(b.records, Plain(b.codec)).value| <= maxFrameBytes
  }

  function WireOf(batches: seq<Batch>, maxFrameBytes: nat): seq<byte>
    requires forall b :: b in batches ==> Sendable(b, maxFrameBytes)
  {
    if batches == [] then []
    else assert Sendable(batches[0], maxFrameBytes);
         EncodeFrame(batches[0].records, Plain(batches[0].codec)).value + WireOf(batches[1..], maxFrameBytes)
  }

  function PacketOf(b: Batch): AvlPacket {
    Intact(b.codec, DecodedAll(b.records, b.codec == Codec8E))
  }

  lemma FramedHeader(data: seq<byte>, crc: nat, more: seq<byte>)
    requires |data| < Power256(4)
    ensures var buf := Framed(data, crc) + more;
            && |Framed(data, crc)| == 12 + |data|
            && FromBigEndian(buf[0..4]) == 0
            && FromBigEndian(buf[4..8]) == |data|
            && buf[..12 + |data|] == Framed(data, crc)
  {
    var buf := Framed(data, crc) + more;
    assert buf[0..4] == BigEndian(4, 0) && buf[4..8] == BigEndian(4, |data|);
    ReadWritten(4, 0);
    ReadWritten(4, |data|);
  }

  lemma PacketDecided(b: Batch, more: seq<byte>, maxFrameBytes: nat)
    requires Sendable(b, maxFrameBytes)
    ensures var frame := EncodeFrame(b.records, Plain(b.codec)).value;
            DecidePacket(frame + more, maxFrameBytes) == Emit(PacketRead(PacketOf(b)), |frame|)
  {
    hide Framed, FromBigEndian, EncodeFrame, EncodeData, ParseFrame, DecodedAll;
    EncodedIsFramed(b.records, b.codec);
    FrameRoundTrip(b.records, b.codec);
    var data := EncodeData(b.records, b.codec, |b.records|).value;
    FramedHeader(data, Crc.Checksum(data), more);
  }

  lemma {:induction false} PacketsDrained(batches: seq<Batch>, maxFrameBytes: nat)
    requires forall b :: b in batches ==> Sendable(b, maxFrameBytes)
    ensures Drain(Streaming, WireOf(batches, maxFrameBytes), maxFrameBytes)
         == Drained(seq(|batches|, i requires 0 <= i < |batches| => PacketRead(PacketOf(batches[i]))), Streaming, [])
    decreases |batches|
  {
    hide EncodeFrame, DecidePacket, PacketOf;
    if batches != [] {
      assert Sendable(batches[0], maxFrameBytes);
      var frame := EncodeFrame(batches[0].records, Plain(batches[0].codec)).value;
      var rest := WireOf(batches[1..], maxFrameBytes);
      PacketDecided(batches[0], rest, maxFrameBytes);
      PacketsDrained(batches[1..], maxFrameBytes);
      assert (frame + rest)[|frame|..] == rest;
    } else {
      NothingToDecide(maxFrameBytes);
    }
  }

  lemma NothingToDecide(maxFrameBytes: nat)
    ensures DecidePacket([], maxFrameBytes) == Wait
  {
  }

  /**
   A device's traffic survives the wire: an IMEI frame and then frames of at most 255 encodable
   records each, within the size limit, yield the IMEI and those packets in order, with nothing
   left in the buffer, however the stream is cut.
   */
  lemma TrafficRoundTrip(imei: string, batches: seq<Batch>, chunks: seq<seq<byte>>, maxFrameBytes: nat)
    requires IsValidImei(imei)
    requires forall b :: b in batches ==> Sendable(b, maxFrameBytes)
    requires EncodeImeiFrame(imei).Success? ==>
               Flatten(chunks) == EncodeImeiFrame(imei).value + WireOf(batches, maxFrameBytes)
    ensures PushAll(AwaitingImei, [], chunks, maxFrameBytes)
         == Drained([ImeiRead(imei)]
                    + seq(|batches|, i requires 0 <= i < |batches| => PacketRead(PacketOf(batches[i]))),
                    Streaming, [])
  {
    hide DecidePacket, EncodeImeiFrame, TryParseImeiFrame, Sendable, PacketOf, IsValidImei;
    ImeiRoundTrip(imei);
    var handshake, rest := EncodeImeiFrame(imei).value, WireOf(batches, maxFrameBytes);
    HandshakeStable(handshake, rest);
    PacketsDrained(batches, maxFrameBytes);
    ChunkingIndependence(chunks, maxFrameBytes);
    assert (handshake + rest)[17..] == rest;
  }
}
