/**
 From the records of a packet to topics: events are built one for each record
 (packages/events/src/build.ts) and split by their age
 (packages/events/src/client.ts).
 */
module Publishing {
  import opened Avl

  datatype TelemetryEvent = TelemetryEvent(imei: string, codec: CodecId, index: nat, record: AvlRecord, receivedAt: int)
  {
    /** The position in the packet tells apart records that share a timestamp. */
    function DedupKey(): (string, nat, nat) {
      (imei, record.timestampMs, index)
    }
  }

  function BuildTelemetryEvents(imei: string, codec: CodecId, records: seq<AvlRecord>,
      receivedAt: int): (events: seq<TelemetryEvent>)
    ensures |events| == |records|
    ensures forall i :: 0 <= i < |events| ==>
      && events[i].imei == imei && events[i].codec == codec && events[i].receivedAt == receivedAt
      && events[i].record == records[i] && events[i].DedupKey() == (imei, records[i].timestampMs, i)
    ensures forall i, j :: 0 <= i < j < |events| ==> events[i].DedupKey() != events[j].DedupKey()
  {
    seq(|records|, i requires 0 <= i < |records| => TelemetryEvent(imei, codec, i, records[i], receivedAt))
  }

  datatype Freshness = Live | Backfill

  /** Live exactly up to the threshold, so also a record dated after its arrival unless the threshold is negative. */
  function ClassifyFreshness(e: TelemetryEvent, thresholdMs: int): Freshness {
    if e.receivedAt - e.record.timestampMs > thresholdMs then Backfill else Live
  }

  datatype Topics = Topics(live: string, backfill: string, thresholdMs: int)

  function TopicOf(e: TelemetryEvent, topics: Topics): string {
    if ClassifyFreshness(e, topics.thresholdMs) == Backfill then topics.backfill else topics.live
  }

  /** The events for one topic, in packet order. */
  function ForTopic(events: seq<TelemetryEvent>, topics: Topics, topic: string): seq<TelemetryEvent> {
    if events == [] then []
    else
      var last := events[|events| - 1];
      ForTopic(events[..|events| - 1], topics, topic) + if TopicOf(last, topics) == topic then [last] else []
  }

  datatype TopicMessages = TopicMessages(topic: string, messages: seq<TelemetryEvent>)

  lemma ForTopicPushed(events: seq<TelemetryEvent>, e: TelemetryEvent, topics: Topics, topic: string)
    ensures ForTopic(events + [e], topics, topic)
         == ForTopic(events, topics, topic) + if TopicOf(e, topics) == topic then [e] else []
  {
    hide TopicOf;
    assert (events + [e])[..|events|] == events;
  }

  /** The groups so far: topics in order of first use, each with its events in packet order. */
  ghost predicate Grouped(events: seq<TelemetryEvent>, topics: Topics, order: seq<string>,
                          byTopic: map<string, seq<TelemetryEvent>>)
  {
    && (forall t :: t in byTopic <==> t in order)
    && (forall j, k :: 0 <= j < k < |order| ==> order[j] != order[k])
    && (forall t :: t in byTopic ==> byTopic[t] == ForTopic(events, topics, t) != [])
    && (forall t :: t !in byTopic ==> ForTopic(events, topics, t) == [])
  }

  lemma GroupedStep(events: seq<TelemetryEvent>, e: TelemetryEvent, topics: Topics, order: seq<string>,
                    byTopic: map<string, seq<TelemetryEvent>>)
    requires Grouped(events, topics, order, byTopic)
    ensures var t := TopicOf(e, topics);
      if t in byTopic
      then Grouped(events + [e], topics, order, byTopic[t := byTopic[t] + [e]])
      else Grouped(events + [e], topics, order + [t], byTopic[t := [e]])
  {
    hide TopicOf;
    forall t { ForTopicPushed(events, e, topics, t); }
  }

  /**
   The one request `sendBatch` gets: each topic at most once, with its own
   events in packet order, and no event left out. Without events there is none.
   */
  method PublishTelemetry(events: seq<TelemetryEvent>, topics: Topics) returns (request: seq<TopicMessages>)
    ensures forall i, j :: 0 <= i < j < |request| ==> request[i].topic != request[j].topic
    ensures forall i :: 0 <= i < |request| ==> request[i].messages == ForTopic(events, topics, request[i].topic) != []
    ensures forall t :: ForTopic(events, topics, t) != [] ==> exists i :: 0 <= i < |request| && request[i].topic == t
  {
    hide ForTopic, TopicOf;
    if |events| == 0 {
      NothingForTopic(topics);
      return [];
    }
    var byTopic: map<string, seq<TelemetryEvent>> := map[];
    var order: seq<string> := [];
    NothingForTopic(topics);
    for i := 0 to |events|
      invariant Grouped(events[..i], topics, order, byTopic)
    {
      hide Grouped;
      GroupedStep(events[..i], events[i], topics, order, byTopic);
      assert events[..i + 1] == events[..i] + [events[i]];
      var topic := TopicOf(events[i], topics);
      if topic !in byTopic {
        order := order + [topic];
        byTopic := byTopic[topic := [events[i]]];
      } else {
        byTopic := byTopic[topic := byTopic[topic] + [events[i]]];
      }
    }
    assert events[..|events|] == events;
    request := seq(|order|, i requires 0 <= i < |order| && order[i] in byTopic =>
      TopicMessages(order[i], byTopic[order[i]]));
    forall t | ForTopic(events, topics, t) != [] ensures exists i :: 0 <= i < |request| && request[i].topic == t {
      var i :| 0 <= i < |order| && order[i] == t;
      assert request[i].topic == t;
    }
  }

  lemma NothingForTopic(topics: Topics)
    ensures forall t :: ForTopic([], topics, t) == []
    ensures Grouped([], topics, [], map[])
  {
  }

  lemma OneMore<T>(a: seq<T>, b: seq<T>, all: seq<T>, e: T)
    requires multiset(a) + multiset(b) == multiset(all)
    ensures multiset(a + [e]) + multiset(b + []) == multiset(a + []) + multiset(b + [e]) == multiset(all + [e])
  {
    assert a + [] == a && b + [] == b;
  }

  /** Nothing is lost, doubled or put on the wrong topic: each event goes to exactly the topic of its age. */
  lemma {:induction false} TopicsPartition(events: seq<TelemetryEvent>, topics: Topics)
    requires topics.live != topics.backfill
    ensures multiset(ForTopic(events, topics, topics.live)) + multiset(ForTopic(events, topics, topics.backfill))
         == multiset(events)
  {
    hide ForTopic;
    if events == [] {
      NothingForTopic(topics);
    } else {
      var before, e := events[..|events| - 1], events[|events| - 1];
      TopicsPartition(before, topics);
      PartitionStep(before, e, topics);
      assert events == before + [e];
    }
  }

  lemma PartitionStep(before: seq<TelemetryEvent>, e: TelemetryEvent, topics: Topics)
    requires topics.live != topics.backfill
    requires multiset(ForTopic(before, topics, topics.live)) + multiset(ForTopic(before, topics, topics.backfill))
          == multiset(before)
    ensures multiset(ForTopic(before + [e], topics, topics.live))
              + multiset(ForTopic(before + [e], topics, topics.backfill))
         == multiset(before + [e])
  {
    hide ForTopic, ClassifyFreshness;
    OneMore(ForTopic(before, topics, topics.live), ForTopic(before, topics, topics.backfill), before, e);
    ForTopicPushed(before, e, topics, topics.live);
    ForTopicPushed(before, e, topics, topics.backfill);
  }

  /** A topic's events stand in packet order. */
  lemma ForTopicInOrder(before: seq<TelemetryEvent>, e: TelemetryEvent, topics: Topics)
    ensures forall topic :: ForTopic(before + [e], topics, topic) == ForTopic(before, topics, topic)
              + if topic == (if e.receivedAt - e.record.timestampMs > topics.thresholdMs then topics.backfill
                             else topics.live)
                then [e] else []
  {
    assert (before + [e])[..|before|] == before;
  }

  lemma {:induction false} ForTopicExactly(events: seq<TelemetryEvent>, topics: Topics, topic: string,
      e: TelemetryEvent)
    ensures e in ForTopic(events, topics, topic) <==>
              && e in events
              && topic == (if e.receivedAt - e.record.timestampMs > topics.thresholdMs then topics.backfill
                           else topics.live)
  {
    if events != [] {
      var last := |events| - 1;
      ForTopicExactly(events[..last], topics, topic, e);
      assert events == events[..last] + [events[last]];
    }
  }
}
