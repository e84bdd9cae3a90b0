/**
 Exactly when the ingest server drops a connection, and everything it writes and
 publishes until then (apps/telemetry-ingest/src/server.ts).
 */
module IngestAnswers {
  import opened Wrappers
  import opened Bytes
  import opened Avl
  import opened Framer
  import opened Publishing
  import opened Ingest

  // ---------- what breaks a connection ----------

  /** The IMEI of the latest handshake. */
  function ImeiOf(events: seq<FramerEvent>): Option<string> {
    if events == [] then None
    else
      var last := events[|events| - 1];
      if last.ImeiRead? then Some(last.imei) else ImeiOf(events[..|events| - 1])
  }

  /**
   An error of the framer, a packet before the handshake, records that could not be published, or a
   device that was gone once an intact packet had been. A failed checksum is none of these.
   */
  predicate Breaks(before: seq<FramerEvent>, e: FramerEvent, r: Response) {
    match e
    case ImeiRead(_) => false
    case Fault(_) => true
    case PacketRead(Corrupt(_, _)) => ImeiOf(before).None?
    case PacketRead(Intact(_, records)) => ImeiOf(before).None? || (r.outcome.Failed? && records != []) || r.hangUp
  }

  predicate Unbroken(events: seq<FramerEvent>, responses: Responses) {
    forall i :: 0 <= i < |events| ==> !Breaks(events[..i], events[i], responses(i))
  }

  // ---------- what is written and published ----------

  /** Acceptance for a handshake, a packet's record count, and 0 for one whose checksum failed. */
  function AnswerTo(e: FramerEvent): seq<Ack> {
    match e
    case ImeiRead(_) => [ImeiAck(true)]
    case PacketRead(Corrupt(_, _)) => [RecordAck(0)]
    case PacketRead(Intact(_, records)) => [RecordAck(|records|)]
    case Fault(_) => []
  }

  function Answers(events: seq<FramerEvent>): seq<Ack> {
    if events == [] then [] else Answers(events[..|events| - 1]) + AnswerTo(events[|events| - 1])
  }

  /** What one event more adds to the log. */
  function PublishedFor(before: seq<FramerEvent>, e: FramerEvent, r: Response): seq<TelemetryEvent> {
    if e.PacketRead? && e.packet.Intact? && ImeiOf(before).Some?
    then BuildTelemetryEvents(ImeiOf(before).value, e.packet.codec, e.packet.records, r.receivedAt) else []
  }

  /** The events of every intact packet, in order. */
  function Published(events: seq<FramerEvent>, responses: Responses): seq<TelemetryEvent> {
    if events == [] then []
    else
      var last := |events| - 1;
      Published(events[..last], responses) + PublishedFor(events[..last], events[last], responses(last))
  }

  /** A refused IMEI is answered before the connection is dropped. */
  function Farewell(e: FramerEvent): seq<Ack> {
    if e.Fault? && e.error.InvalidImei? then [ImeiAck(false)] else []
  }

  // ---------- exactly ----------

  lemma UnbrokenBefore(events: seq<FramerEvent>, responses: Responses, n: nat)
    requires n <= |events| && Unbroken(events, responses)
    ensures Unbroken(events[..n], responses)
  {
    forall i | 0 <= i < n ensures !Breaks(events[..n][..i], events[..n][i], responses(i)) {
      assert events[..n][..i] == events[..i];
    }
  }

  /** An unbroken connection is open, has answered everything, and every intact packet is in the log. */
  lemma {:induction false} UnbrokenServed(events: seq<FramerEvent>, log: seq<TelemetryEvent>, responses: Responses)
    requires Unbroken(events, responses)
    ensures ServeAll(Served(FRESH, log), events, responses, 0)
         == Served(Connection(ImeiOf(events), false, Answers(events)), log + Published(events, responses))
  {
    if events == [] {
      assert log + [] == log;
    } else {
      var last := |events| - 1;
      UnbrokenBefore(events, responses, last);
      UnbrokenServed(events[..last], log, responses);
      assert !Breaks(events[..last], events[last], responses(last));
      NextAnswered(events[..last], events[last], log, responses);
      assert events[..last] + [events[last]] == events;
    }
  }

  lemma OneEventMore(before: seq<FramerEvent>, e: FramerEvent, responses: Responses)
    ensures Answers(before + [e]) == Answers(before) + AnswerTo(e)
    ensures ImeiOf(before + [e]) == if e.ImeiRead? then Some(e.imei) else ImeiOf(before)
    ensures Published(before + [e], responses)
         == Published(before, responses) + PublishedFor(before, e, responses(|before|))
  {
    hide BuildTelemetryEvents, AnswerTo;
    assert (before + [e])[..|before|] == before;
  }

  lemma EventServed(before: seq<FramerEvent>, e: FramerEvent, r: Response, s: Served)
    requires !Breaks(before, e, r) && !s.conn.destroyed && s.conn.imei == ImeiOf(before)
    ensures ServeEvent(s, e, r)
         == Served(Connection(if e.ImeiRead? then Some(e.imei) else ImeiOf(before), false,
                              s.conn.written + AnswerTo(e)),
                   s.log + PublishedFor(before, e, r))
  {
    hide ImeiOf;
    if e.PacketRead? && e.packet.Intact? {
      assert |BuildTelemetryEvents(ImeiOf(before).value, e.packet.codec, e.packet.records, r.receivedAt)|
          == |e.packet.records|;
      hide BuildTelemetryEvents;
    } else {
      assert s.log + [] == s.log;
    }
  }

  lemma NextAnswered(before: seq<FramerEvent>, e: FramerEvent, log: seq<TelemetryEvent>, responses: Responses)
    requires !Breaks(before, e, responses(|before|))
    ensures var events := before + [e];
      ServeEvent(Served(Connection(ImeiOf(before), false, Answers(before)), log + Published(before, responses)), e,
                 responses(|before|))
      == Served(Connection(ImeiOf(events), false, Answers(events)), log + Published(events, responses))
  {
    hide Breaks, ServeEvent, ImeiOf, Answers, Published, PublishedFor, AnswerTo;
    OneEventMore(before, e, responses);
    EventServed(before, e, responses(|before|),
                Served(Connection(ImeiOf(before), false, Answers(before)), log + Published(before, responses)));
    var more := PublishedFor(before, e, responses(|before|));
    assert log + Published(before, responses) + more == log + (Published(before, responses) + more);
  }

  lemma BreakServed(before: seq<FramerEvent>, e: FramerEvent, r: Response, s: Served)
    requires Breaks(before, e, r) && !s.conn.destroyed && s.conn.imei == ImeiOf(before)
    ensures var after := ServeEvent(s, e, r);
      after.conn.destroyed && after.conn.written == s.conn.written + Farewell(e) && s.log <= after.log
  {
    hide ImeiOf;
    assert s.conn.written + [] == s.conn.written;
    if e.PacketRead? && e.packet.Intact? && s.conn.imei.Some? {
      assert |BuildTelemetryEvents(s.conn.imei.value, e.packet.codec, e.packet.records, r.receivedAt)|
          == |e.packet.records|;
      hide BuildTelemetryEvents;
    }
  }

  /** What breaks a connection ends it: only a refusal of the IMEI is still written. */
  lemma BrokenServed(events: seq<FramerEvent>, log: seq<TelemetryEvent>, responses: Responses, i: nat)
    requires i < |events| && Unbroken(events[..i], responses) && Breaks(events[..i], events[i], responses(i))
    ensures var s := ServeAll(Served(FRESH, log), events, responses, 0);
      && s.conn.destroyed
      && s.conn.written == Answers(events[..i]) + Farewell(events[i])
      && log + Published(events[..i], responses) <= s.log
  {
    hide ServeAll, ServeEvent, Unbroken, Breaks, Published, ImeiOf, Answers;
    var s := Served(FRESH, log);
    UnbrokenServed(events[..i], log, responses);
    BreakServed(events[..i], events[i], responses(i), ServeAll(s, events[..i], responses, 0));
    ServeNext(s, events, i, responses, 0);
    ServeRest(s, events, i + 1, responses, 0);
  }

  /** A connection is dropped exactly if something broke it. */
  lemma DroppedExactly(events: seq<FramerEvent>, log: seq<TelemetryEvent>, responses: Responses)
    ensures ServeAll(Served(FRESH, log), events, responses, 0).conn.destroyed
       <==> exists i :: 0 <= i < |events| && Breaks(events[..i], events[i], responses(i))
  {
    hide ServeAll, Breaks;
    if Unbroken(events, responses) {
      UnbrokenServed(events, log, responses);
    } else {
      var n: nat := FirstBreak(events, responses);
      BrokenServed(events, log, responses, n);
    }
  }

  lemma {:induction false} FirstBreak(events: seq<FramerEvent>, responses: Responses) returns (n: nat)
    requires !Unbroken(events, responses)
    ensures n < |events| && Unbroken(events[..n], responses) && Breaks(events[..n], events[n], responses(n))
  {
    hide Breaks;
    var last := |events| - 1;
    if Unbroken(events[..last], responses) {
      n := last;
      if !Breaks(events[..last], events[last], responses(last)) {
        UnbrokenFurther(events, responses);
        assert false;
      }
    } else {
      n := FirstBreak(events[..last], responses);
      assert events[..last][..n] == events[..n];
    }
  }

  lemma UnbrokenFurther(events: seq<FramerEvent>, responses: Responses)
    requires events != [] && Unbroken(events[..|events| - 1], responses)
    requires !Breaks(events[..|events| - 1], events[|events| - 1], responses(|events| - 1))
    ensures Unbroken(events, responses)
  {
    hide Breaks;
    var last := |events| - 1;
    forall i | 0 <= i < |events| ensures !Breaks(events[..i], events[i], responses(i)) {
      if i < last {
        assert !Breaks(events[..last][..i], events[..last][i], responses(i));
        assert events[..last][..i] == events[..i];
      }
    }
  }

  /** The bytes of the answers: 1 or 0 for a handshake, and a count in four bytes, the most significant first. */
  lemma AnswerBytes(count: nat)
    requires count < 0x1_0000_0000
    ensures AckBytes(ImeiAck(true)) == [1] && AckBytes(ImeiAck(false)) == [0]
    ensures Power256(4) == 0x1_0000_0000
    ensures AckBytes(RecordAck(count)) ==
              [count / 0x100_0000, count / 0x1_0000 % 0x100, count / 0x100 % 0x100, count % 0x100]
  {
    Powers();
    FourBytes(count);
  }

  lemma FourBytes(count: nat)
    requires count < 0x1_0000_0000
    ensures BigEndian(4, count) == [count / 0x100_0000, count / 0x1_0000 % 0x100, count / 0x100 % 0x100, count % 0x100]
  {
    assert BigEndian(1, count / 0x100 / 0x100 / 0x100) == [count / 0x100 / 0x100 / 0x100 % 0x100];
    assert BigEndian(2, count / 0x100 / 0x100)
        == BigEndian(1, count / 0x100 / 0x100 / 0x100) + [count / 0x100 / 0x100 % 0x100];
    assert BigEndian(3, count / 0x100) == BigEndian(2, count / 0x100 / 0x100) + [count / 0x100 % 0x100];
    assert BigEndian(4, count) == BigEndian(3, count / 0x100) + [count % 0x100];
  }
}
