/**
 Reassembly of one device's byte stream (packages/teltonika/src/framer.ts).
 What one turn of the loop decides is a function of the mode and the buffer;
 the class that buffers chunks is proved against the drained whole.
 */
module Framer {
  import opened Wrappers
  import opened Bytes
  import opened Cursors
  import opened Avl
  import opened Imei

  const DEFAULT_MAX_FRAME_BYTES: nat := 1024 * 1024

  /** Why the framer gave up; reason and detail of the event in one value. */
  datatype FramerError =
    | InvalidImei(problem: ImeiProblem)
    | BadPreamble(value: nat)
    | FrameTooLarge(frameLength: nat, limit: nat)
    | ParseFailed(cause: ParseError)

  datatype FramerEvent =
    | ImeiRead(imei: string)
    | PacketRead(packet: AvlPacket)
    | Fault(error: FramerError)

  datatype Mode = AwaitingImei | Streaming | Failed

  /** What `#next` does: wait, stop at an error, or emit an event for the first `size` bytes. */
  datatype Decision =
    | Wait
    | Stop(error: FramerError)
    | Emit(event: FramerEvent, size: nat)

  function DecideHandshake(buf: seq<byte>): (d: Decision)
    ensures d.Emit? ==> d.size == 17 <= |buf| && d.event.ImeiRead?
    ensures d.Wait? ==> |buf| < 17
  {
    match TryParseImeiFrame(buf)
    case NeedMore => Wait
    case Invalid(problem) => Stop(InvalidImei(problem))
    case Ok(imei, bytesConsumed) => Emit(ImeiRead(imei), bytesConsumed)
  }

  function DecidePacket(buf: seq<byte>, maxFrameBytes: nat): (d: Decision)
    ensures d.Emit? ==> 12 <= d.size <= |buf| && d.size <= maxFrameBytes && d.event.PacketRead?
    ensures d.Wait? ==> |buf| < 8 || |buf| < maxFrameBytes
  {
    if |buf| < FRAME_HEADER_BYTES then Wait else
      var preamble := FromBigEndian(buf[0..4]);
      if preamble != 0 then Stop(BadPreamble(preamble)) else
        var dataLength := FromBigEndian(buf[4..8]);
        var frameLength := FRAME_HEADER_BYTES + dataLength + FRAME_CRC_BYTES;
        if frameLength > maxFrameBytes then Stop(FrameTooLarge(frameLength, maxFrameBytes))
        else if |buf| < frameLength then Wait
        else match ParseFrame(buf[..frameLength])
             case Success(packet) => Emit(PacketRead(packet), frameLength)
             case Failure(cause) => Stop(ParseFailed(cause))
  }

  function Decide(mode: Mode, buf: seq<byte>, maxFrameBytes: nat): (d: Decision)
    ensures d.Emit? ==> 12 <= d.size <= |buf| && !d.event.Fault?
  {
    if mode == AwaitingImei then DecideHandshake(buf) else DecidePacket(buf, maxFrameBytes)
  }

  datatype Drained = Drained(events: seq<FramerEvent>, mode: Mode, rest: seq<byte>)

  /** The loop of `push` over a buffer: all events it completes, and what is left. */
  function Drain(mode: Mode, buf: seq<byte>, maxFrameBytes: nat): (r: Drained)
    requires mode != Failed
    decreases |buf|
  {
    match Decide(mode, buf, maxFrameBytes)
    case Wait => Drained([], mode, buf)
    case Stop(error) => Drained([Fault(error)], Failed, [])
    case Emit(event, size) =>
      var later := Drain(Streaming, buf[size..], maxFrameBytes);
      later.(events := [event] + later.events)
  }

  /** One `push`; a framer that has failed ignores its input. */
  function Pushed(mode: Mode, buffer: seq<byte>, chunk: seq<byte>, maxFrameBytes: nat): Drained {
    if mode == Failed then Drained([], Failed, buffer) else Drain(mode, buffer + chunk, maxFrameBytes)
  }

  class TeltonikaFramer {
    const maxFrameBytes: nat
    var buffer: seq<byte>
    var mode: Mode

    constructor (maxFrameBytes: nat := DEFAULT_MAX_FRAME_BYTES)
      ensures this.maxFrameBytes == maxFrameBytes && buffer == [] && mode == AwaitingImei
    {
      this.maxFrameBytes := maxFrameBytes;
      buffer := [];
      mode := AwaitingImei;
    }

    method Consume(bytes: nat)
      requires bytes <= |buffer|
      modifies this`buffer
      ensures buffer == old(buffer)[bytes..]
    {
      buffer := buffer[bytes..];
    }

    method NextHandshake() returns (event: Option<FramerEvent>)
      requires mode == AwaitingImei
      modifies this
      ensures Follows(DecideHandshake(old(buffer)), old(mode), old(buffer), event, mode, buffer)
    {
      match TryParseImeiFrame(buffer) {
        case NeedMore =>
          event := None;
        case Invalid(problem) =>
          event := Some(Fault(InvalidImei(problem)));
        case Ok(imei, bytesConsumed) =>
          Consume(bytesConsumed);
          mode := Streaming;
          event := Some(ImeiRead(imei));
      }
    }

    method NextPacket() returns (event: Option<FramerEvent>)
      requires mode == Streaming
      modifies this
      ensures Follows(DecidePacket(old(buffer), maxFrameBytes), old(mode), old(buffer), event, mode, buffer)
    {
      if |buffer| < FRAME_HEADER_BYTES {
        return None;
      }
      var preamble := FromBigEndian(buffer[0..4]);
      if preamble != 0 {
        return Some(Fault(BadPreamble(preamble)));
      }
      var dataLength := FromBigEndian(buffer[4..8]);
      var frameLength := FRAME_HEADER_BYTES + dataLength + FRAME_CRC_BYTES;
      if frameLength > maxFrameBytes {
        return Some(Fault(FrameTooLarge(frameLength, maxFrameBytes)));
      }
      if |buffer| < frameLength {
        return None;
      }
      var frame := buffer[..frameLength];
      Consume(frameLength);
      var parsed := ParseAvlPacket(frame);
      match parsed {
        case Success(packet) => event := Some(PacketRead(packet));
        case Failure(cause) => event := Some(Fault(ParseFailed(cause)));
      }
    }

    method Next() returns (event: Option<FramerEvent>)
      requires mode != Failed
      modifies this
      ensures Follows(Decide(old(mode), old(buffer), maxFrameBytes), old(mode), old(buffer), event, mode, buffer)
    {
      if mode == AwaitingImei {
        event := NextHandshake();
      } else {
        event := NextPacket();
      }
    }

    /** Events, mode and buffer afterwards are those of draining the old buffer followed by the chunk. */
    method Push(chunk: seq<byte>) returns (events: seq<FramerEvent>)
      modifies this
      ensures Drained(events, mode, buffer) == Pushed(old(mode), old(buffer), chunk, maxFrameBytes)
    {
      if mode == Failed {
        return [];
      }
      buffer := buffer + chunk;
      events := [];
      ghost var whole := Drain(mode, buffer, maxFrameBytes);
      while true
        invariant mode != Failed
        invariant var later := Drain(mode, buffer, maxFrameBytes);
                  whole == later.(events := events + later.events)
        decreases |buffer|
      {
        ghost var before := events;
        ghost var decision := Decide(mode, buffer, maxFrameBytes);
        var event := Next();
        if event.None? {
          assert before + [] == before;
          break;
        }
        events := events + [event.value];
        if event.value.Fault? {
          mode := Failed;
          buffer := [];
          break;
        }
        assert forall later: seq<FramerEvent> :: before + ([event.value] + later) == events + later;
      }
    }
  }

  /** `#next` carried out a decision: what it returned, and where it left mode and buffer. */
  ghost predicate Follows(
    d: Decision, mode: Mode, buffer: seq<byte>, event: Option<FramerEvent>, mode': Mode, buffer': seq<byte>)
  {
    match d
    case Wait => event == None && mode' == mode && buffer' == buffer
    case Stop(error) => event == Some(Fault(error)) && mode' == mode
    case Emit(e, size) => event == Some(e) && mode' == Streaming && size <= |buffer| && buffer' == buffer[size..]
  }
}
