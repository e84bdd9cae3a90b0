/**
 One writer fed by several topics: the position and fuel tables take the live
 and the backfill topic, each read at least once, in any interleaving. A record
 that was sent again can stand on both.
 */
module Topics {
  import opened FirstWins
  import opened Writers

  /**
   The table, how far each topic has been stored, the dead letters of each, and
   all messages stored so far with their topics, in the order of their first storing.
   */
  datatype Reader<K, V> = Reader(
    table: map<K, V>, reached: seq<nat>, deadLetters: seq<seq<nat>>, read: seq<(nat, Message)>)

  /** An attempt at a batch of one topic. */
  datatype Turn = Turn(topic: nat, attempt: Attempt)

  function View<K, V>(r: Reader<K, V>, topic: nat): Consumer<K, V>
    requires topic < |r.reached| && topic < |r.deadLetters|
  {
    Consumer(r.table, r.reached[topic], r.deadLetters[topic])
  }

  predicate MayTurn<K, V>(logs: seq<seq<Message>>, r: Reader<K, V>, turn: Turn) {
    && |r.reached| == |r.deadLetters| == |logs| && turn.topic < |logs|
    && Possible(logs[turn.topic], View(r, turn.topic), turn.attempt)
  }

  function Tagged(topic: nat, messages: seq<Message>): (tagged: seq<(nat, Message)>)
    ensures |tagged| == |messages|
  {
    seq(|messages|, i requires 0 <= i < |messages| => (topic, messages[i]))
  }

  /** The messages that this batch stores for the first time. */
  function Fresh<K, V>(logs: seq<seq<Message>>, r: Reader<K, V>, turn: Turn): seq<Message>
    requires MayTurn(logs, r, turn)
  {
    var a, reached := turn.attempt, r.reached[turn.topic];
    if a.outcome.Handled? && reached < a.end then logs[turn.topic][reached..a.end] else []
  }

  function TakeTurn<K, V>(logs: seq<seq<Message>>, rows: Event -> seq<(K, V)>, r: Reader<K, V>,
      turn: Turn): Reader<K, V>
    requires MayTurn(logs, r, turn)
  {
    var c := Step(logs[turn.topic], rows, View(r, turn.topic), turn.attempt);
    Reader(c.table, r.reached[turn.topic := c.reached], r.deadLetters[turn.topic := c.deadLetters],
           r.read + Tagged(turn.topic, Fresh(logs, r, turn)))
  }

  ghost predicate Turns<K, V>(logs: seq<seq<Message>>, rows: Event -> seq<(K, V)>, r: Reader<K, V>, turns: seq<Turn>,
      after: Reader<K, V>)
    decreases |turns|
  {
    if turns == [] then after == r
    else MayTurn(logs, r, turns[0]) && Turns(logs, rows, TakeTurn(logs, rows, r, turns[0]), turns[1..], after)
  }

  // ---------- what has been read ----------

  function Messages(read: seq<(nat, Message)>): (messages: seq<Message>)
    ensures |messages| == |read|
  {
    seq(|read|, i requires 0 <= i < |read| => read[i].1)
  }

  /** The messages of one topic among those read, in order. */
  function OfTopic(read: seq<(nat, Message)>, topic: nat): seq<Message> {
    if read == [] then []
    else OfTopic(read[..|read| - 1], topic) + if read[|read| - 1].0 == topic then [read[|read| - 1].1] else []
  }

  /** What was read interleaves the topics up to where each is stored; the table is that of reading it once. */
  ghost predicate ReadOnce<K, V>(logs: seq<seq<Message>>, rows: Event -> seq<(K, V)>, r: Reader<K, V>) {
    && |r.reached| == |r.deadLetters| == |logs|
    && (forall t :: 0 <= t < |logs| ==> r.reached[t] <= |logs[t]| && OfTopic(r.read, t) == logs[t][..r.reached[t]])
    && (forall t :: 0 <= t < |logs| ==> DeadLettersExact(logs[t], View(r, t)))
    && (forall i :: 0 <= i < |r.read| ==> r.read[i].0 < |logs|)
    && r.table == InsertAll(map[], RowsOf(rows, Messages(r.read)))
  }

  lemma {:induction false} OfTopicTagged(read: seq<(nat, Message)>, topic: nat, messages: seq<Message>, t: nat)
    ensures OfTopic(read + Tagged(topic, messages), t) == OfTopic(read, t) + if t == topic then messages else []
    decreases |messages|
  {
    if messages == [] {
      assert read + Tagged(topic, messages) == read;
    } else {
      var before := messages[..|messages| - 1];
      OfTopicTagged(read, topic, before, t);
      var all := read + Tagged(topic, messages);
      assert all[..|all| - 1] == read + Tagged(topic, before);
      assert messages == before + [messages[|messages| - 1]];
    }
  }

  lemma {:induction false} OfTopicRead(read: seq<(nat, Message)>, topic: nat, m: Message)
    requires m in OfTopic(read, topic)
    ensures m in Messages(read)
  {
    var last := |read| - 1;
    if m in OfTopic(read[..last], topic) {
      OfTopicRead(read[..last], topic, m);
      var i :| 0 <= i < last && Messages(read[..last])[i] == m;
      assert Messages(read)[i] == m;
    } else {
      assert Messages(read)[last] == m;
    }
  }

  lemma {:induction false} RowsOfMember<K, V>(rows: Event -> seq<(K, V)>, messages: seq<Message>, m: Message,
      row: (K, V))
    requires m in messages && m.Some? && row in rows(m.value)
    ensures row in RowsOf(rows, messages)
  {
    var last := |messages| - 1;
    if messages[last] != m {
      assert m in messages[..last];
      RowsOfMember(rows, messages[..last], m, row);
    }
  }

  lemma {:induction false} RowsOfFrom<K, V>(rows: Event -> seq<(K, V)>, messages: seq<Message>,
      row: (K, V)) returns (m: Message)
    requires row in RowsOf(rows, messages)
    ensures m in messages && m.Some? && row in rows(m.value)
  {
    var last := |messages| - 1;
    if row in RowsOf(rows, messages[..last]) {
      m := RowsOfFrom(rows, messages[..last], row);
    } else {
      m := messages[last];
    }
  }

  /** Messages read before insert nothing new. */
  lemma KnownRows<K, V>(rows: Event -> seq<(K, V)>, read: seq<Message>, again: seq<Message>)
    requires forall m :: m in again ==> m in read
    ensures var table := InsertAll(map[], RowsOf(rows, read));
      InsertAll(table, RowsOf(rows, again)) == table
  {
    hide InsertAll, RowsOf;
    var table := InsertAll(map[], RowsOf(rows, read));
    forall row | row in RowsOf(rows, again) ensures row.0 in table {
      var m := RowsOfFrom(rows, again, row);
      RowsOfMember(rows, read, m, row);
      InsertedKeys(map[], RowsOf(rows, read), row);
    }
    InsertKnown(table, RowsOf(rows, again));
  }

  lemma TurnTable<K, V>(logs: seq<seq<Message>>, rows: Event -> seq<(K, V)>, r: Reader<K, V>, turn: Turn)
    requires MayTurn(logs, r, turn) && ReadOnce(logs, rows, r)
    ensures var after := TakeTurn(logs, rows, r, turn);
      after.table == InsertAll(map[], RowsOf(rows, Messages(after.read)))
  {
    hide InsertAll, RowsOf, DeadLettersExact, OfTopic;
    var log, a, reached := logs[turn.topic], turn.attempt, r.reached[turn.topic];
    var first := Fresh(logs, r, turn);
    assert Messages(r.read + Tagged(turn.topic, first)) == Messages(r.read) + first;
    if a.outcome.Handled? {
      var seen := if a.end <= reached then a.end else reached;
      var again := log[a.start..seen];
      assert log[a.start..a.end] == again + first;
      forall m | m in again ensures m in Messages(r.read) {
        assert m in log[..reached];
        OfTopicRead(r.read, turn.topic, m);
      }
      KnownRows(rows, Messages(r.read), again);
      RowsConcat(rows, again, first);
      RowsConcat(rows, Messages(r.read), first);
      InsertConcat(r.table, RowsOf(rows, again), RowsOf(rows, first));
      InsertConcat(map[], RowsOf(rows, Messages(r.read)), RowsOf(rows, first));
    } else {
      assert Messages(r.read) + [] == Messages(r.read);
    }
  }

  lemma TurnTopics<K, V>(logs: seq<seq<Message>>, rows: Event -> seq<(K, V)>, r: Reader<K, V>, turn: Turn, t: nat)
    requires MayTurn(logs, r, turn) && ReadOnce(logs, rows, r) && t < |logs|
    ensures var after := TakeTurn(logs, rows, r, turn);
      after.reached[t] <= |logs[t]| && OfTopic(after.read, t) == logs[t][..after.reached[t]]
      && r.reached[t] <= after.reached[t]
  {
    hide InsertAll, RowsOf, DeadLettersExact, OfTopic;
    OfTopicTagged(r.read, turn.topic, Fresh(logs, r, turn), t);
    if t == turn.topic {
      var reached, after := r.reached[t], TakeTurn(logs, rows, r, turn).reached[t];
      assert logs[t][..reached] + logs[t][reached..after] == logs[t][..after];
      assert Fresh(logs, r, turn) == logs[t][reached..after];
    } else {
      assert OfTopic(r.read, t) + [] == OfTopic(r.read, t);
    }
  }

  lemma TurnReadsOnce<K, V>(logs: seq<seq<Message>>, rows: Event -> seq<(K, V)>, r: Reader<K, V>, turn: Turn)
    requires MayTurn(logs, r, turn) && ReadOnce(logs, rows, r)
    ensures ReadOnce(logs, rows, TakeTurn(logs, rows, r, turn))
  {
    hide InsertAll, RowsOf, OfTopic;
    var after := TakeTurn(logs, rows, r, turn);
    TurnTable(logs, rows, r, turn);
    forall t | 0 <= t < |logs|
      ensures after.reached[t] <= |logs[t]| && OfTopic(after.read, t) == logs[t][..after.reached[t]]
      ensures DeadLettersExact(logs[t], View(after, t))
    {
      TurnTopics(logs, rows, r, turn, t);
      assert DeadLettersExact(logs[t], View(r, t));
      if t == turn.topic {
        StepDeadLetters(logs[t], rows, View(r, t), turn.attempt);
      }
    }
  }

  lemma {:induction false} TurnsReadOnce<K, V>(logs: seq<seq<Message>>, rows: Event -> seq<(K, V)>, r: Reader<K, V>,
      turns: seq<Turn>, after: Reader<K, V>)
    requires ReadOnce(logs, rows, r) && Turns(logs, rows, r, turns, after)
    ensures ReadOnce(logs, rows, after)
    decreases |turns|
  {
    hide ReadOnce, TakeTurn, MayTurn;
    if turns != [] {
      TurnReadsOnce(logs, rows, r, turns[0]);
      TurnsReadOnce(logs, rows, TakeTurn(logs, rows, r, turns[0]), turns[1..], after);
    }
  }

  // ---------- which row a key gets ----------

  /** Message `i` is the first of these that carries the key. */
  ghost predicate FirstCarrier<K, V>(rows: Event -> seq<(K, V)>, messages: seq<Message>, key: K, i: nat) {
    i < |messages| && Carries(rows, messages[i], key) && forall j :: 0 <= j < i ==> !Carries(rows, messages[j], key)
  }

  function RowFor<K(==), V>(rows: Event -> seq<(K, V)>, m: Message, key: K): V
    requires Carries(rows, m, key)
  {
    rows(m.value)[FirstIndex(rows(m.value), key)].1
  }

  lemma NoneCarries<K, V>(rows: Event -> seq<(K, V)>, read: seq<(nat, Message)>, topic: nat, key: K, i: nat)
    requires i < |OfTopic(read, topic)|
    requires forall j :: 0 <= j < |read| ==> !Carries(rows, Messages(read)[j], key)
    ensures !Carries(rows, OfTopic(read, topic)[i], key)
  {
    OfTopicRead(read, topic, OfTopic(read, topic)[i]);
  }

  /** The first carrier of all that was read is the first carrier of its own topic. */
  lemma {:induction false} FirstOfItsTopic<K, V>(rows: Event -> seq<(K, V)>, read: seq<(nat, Message)>, key: K,
      i: nat) returns (k: nat)
    requires FirstCarrier(rows, Messages(read), key, i)
    ensures var messages := OfTopic(read, read[i].0);
      FirstCarrier(rows, messages, key, k) && messages[k] == read[i].1
    decreases |read|
  {
    hide Carries;
    var last := |read| - 1;
    var before := read[..last];
    assert forall j :: 0 <= j < last ==> Messages(before)[j] == Messages(read)[j];
    if i < last {
      k := FirstOfItsTopic(rows, before, key, i);
    } else {
      k := |OfTopic(before, read[i].0)|;
      forall j | 0 <= j < k ensures !Carries(rows, OfTopic(before, read[i].0)[j], key) {
        NoneCarries(rows, before, read[i].0, key, j);
      }
    }
  }

  lemma {:induction false} LeastCarrier<K, V>(rows: Event -> seq<(K, V)>, messages: seq<Message>, key: K,
      i: nat) returns (k: nat)
    requires i < |messages| && Carries(rows, messages[i], key)
    ensures FirstCarrier(rows, messages, key, k)
    decreases i
  {
    hide Carries;
    if j :| 0 <= j < i && Carries(rows, messages[j], key) {
      k := LeastCarrier(rows, messages, key, j);
    } else {
      k := i;
    }
  }

  /**
   However the topics are interleaved, re-read and cut: a key is stored exactly if a stored message
   of some topic carries it, whatever the order, and its row is that of the first carrier read,
   which is the first carrier of its topic.
   */
  lemma KeysOfTopics<K, V>(logs: seq<seq<Message>>, rows: Event -> seq<(K, V)>, turns: seq<Turn>,
      after: Reader<K, V>, key: K)
    requires Turns(logs, rows, Start(|logs|), turns, after)
    ensures |after.reached| == |logs| && forall t :: 0 <= t < |logs| ==> after.reached[t] <= |logs[t]|
    ensures key in after.table <==>
      exists t, i :: 0 <= t < |logs| && 0 <= i < after.reached[t] && Carries(rows, logs[t][i], key)
    ensures key in after.table ==>
      exists t: nat, i: nat :: t < |logs| && FirstCarrier(rows, logs[t][..after.reached[t]], key, i)
        && after.table[key] == RowFor(rows, logs[t][i], key)
  {
    hide Turns, InsertAll, RowsOf, Carries, OfTopic, DeadLettersExact;
    NothingRead(logs, rows);
    TurnsReadOnce(logs, rows, Start(|logs|), turns, after);
    var messages := Messages(after.read);
    FoldFirstCarried(rows, messages, key);
    if key in after.table {
      var n :| 0 <= n < |messages| && Carries(rows, messages[n], key);
      var i := LeastCarrier(rows, messages, key, n);
      var t := after.read[i].0;
      var k := FirstOfItsTopic(rows, after.read, key, i);
      assert logs[t][..after.reached[t]][k] == logs[t][k] == messages[i];
      assert FirstCarrier(rows, logs[t][..after.reached[t]], key, k)
          && after.table[key] == RowFor(rows, logs[t][k], key);
    }
    forall t, i | 0 <= t < |logs| && 0 <= i < after.reached[t] && Carries(rows, logs[t][i], key)
      ensures key in after.table
    {
      assert OfTopic(after.read, t)[i] == logs[t][i];
      OfTopicRead(after.read, t, logs[t][i]);
    }
  }

  function Start<K, V>(n: nat): Reader<K, V> {
    Reader(map[], seq(n, _ => 0), seq(n, _ => []), [])
  }

  lemma NothingRead<K, V>(logs: seq<seq<Message>>, rows: Event -> seq<(K, V)>)
    ensures ReadOnce(logs, rows, Start<K, V>(|logs|))
  {
  }
}
