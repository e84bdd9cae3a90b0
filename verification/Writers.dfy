/**
 The writers of positions and fuel levels (apps/telemetry-consumers/src/consumers):
 a consumer group reads a topic's log at least once, in batches it may cut
 differently each time, and inserts with "on conflict do nothing".
 */
module Writers {
  import opened Wrappers
  import opened FirstWins

  // ---------- rows ----------

  datatype Gps = Gps(latitude: int, longitude: int, altitudeM: int, angleDeg: int, satellites: int, speedKph: int)

  datatype FuelReading = FuelReading(source: string, pct: Option<int>, liters: Option<int>)

  datatype Event = Event(imei: string, recordedAt: int, receivedAt: int, gps: Option<Gps>, fuel: seq<FuelReading>)

  /** A message of the log; `None` is one that does not decode. */
  type Message = Option<Event>

  type LocationKey = (nat, int)

  datatype LocationRow = LocationRow(receivedAt: int, gps: Gps)

  type FuelKey = (nat, int, string)

  datatype FuelRow = FuelRow(receivedAt: int, levelPct: Option<int>, levelLiters: Option<int>)

  /** Positions without a fix are skipped. */
  function LocationRows(ids: string -> nat, e: Event): seq<(LocationKey, LocationRow)> {
    if e.gps.Some? then [((ids(e.imei), e.recordedAt), LocationRow(e.receivedAt, e.gps.value))] else []
  }

  /** A row for every reading, keyed by its sensor as well. */
  function FuelRows(ids: string -> nat, e: Event): seq<(FuelKey, FuelRow)> {
    seq(|e.fuel|, i requires 0 <= i < |e.fuel| =>
      ((ids(e.imei), e.recordedAt, e.fuel[i].source), FuelRow(e.receivedAt, e.fuel[i].pct, e.fuel[i].liters)))
  }

  /** The rows of the messages that decode, in log order. */
  function RowsOf<K, V>(rows: Event -> seq<(K, V)>, messages: seq<Message>): seq<(K, V)> {
    if messages == [] then []
    else
      var last := messages[|messages| - 1];
      RowsOf(rows, messages[..|messages| - 1]) + if last.Some? then rows(last.value) else []
  }

  lemma {:induction false} RowsConcat<K, V>(rows: Event -> seq<(K, V)>, a: seq<Message>, b: seq<Message>)
    ensures RowsOf(rows, a + b) == RowsOf(rows, a) + RowsOf(rows, b)
    decreases |b|
  {
    if b == [] {
      assert a + b == a;
    } else {
      RowsConcat(rows, a, b[..|b| - 1]);
      assert (a + b)[..|a + b| - 1] == a + b[..|b| - 1];
    }
  }

  // ---------- one batch ----------

  datatype Outcome = DeadLetterFailed(at: nat) | HandlerFailed | Handled

  /** An attempt at the messages from `start` to before `end`. */
  datatype Attempt = Attempt(start: nat, end: nat, outcome: Outcome)

  /** `reached`: up to where the log has been stored; `deadLetters`: offsets sent to the dead-letter topic. */
  datatype Consumer<K, V> = Consumer(table: map<K, V>, reached: nat, deadLetters: seq<nat>)

  /** At least once: an attempt starts at or before the first message not yet stored. */
  predicate Possible<K, V>(log: seq<Message>, c: Consumer<K, V>, a: Attempt) {
    && a.start <= a.end <= |log| && a.start <= c.reached
    && (a.outcome.DeadLetterFailed? ==> a.start <= a.outcome.at < a.end)
  }

  /** The offsets in a range that do not decode. */
  function Undecodable(log: seq<Message>, start: nat, end: nat): seq<nat>
    requires start <= end <= |log|
    decreases end
  {
    if start == end then []
    else Undecodable(log, start, end - 1) + if log[end - 1].None? then [end - 1] else []
  }

  function Max(a: nat, b: nat): nat {
    if a < b then b else a
  }

  /** Undecodable messages are sent aside one by one; the others are inserted in one statement. */
  function Step<K, V>(log: seq<Message>, rows: Event -> seq<(K, V)>, c: Consumer<K, V>, a: Attempt): Consumer<K, V>
    requires Possible(log, c, a)
  {
    match a.outcome
    case DeadLetterFailed(at) => c.(deadLetters := c.deadLetters + Undecodable(log, a.start, at))
    case HandlerFailed => c.(deadLetters := c.deadLetters + Undecodable(log, a.start, a.end))
    case Handled =>
      Consumer(InsertAll(c.table, RowsOf(rows, log[a.start..a.end])),
               Max(c.reached, a.end),
               c.deadLetters + Undecodable(log, a.start, a.end))
  }

  ghost predicate Schedule<K, V>(log: seq<Message>, rows: Event -> seq<(K, V)>, c: Consumer<K, V>,
      attempts: seq<Attempt>)
    decreases |attempts|
  {
    attempts == [] ||
    (Possible(log, c, attempts[0]) && Schedule(log, rows, Step(log, rows, c, attempts[0]), attempts[1..]))
  }

  function Run<K, V>(log: seq<Message>, rows: Event -> seq<(K, V)>, c: Consumer<K, V>,
      attempts: seq<Attempt>): Consumer<K, V>
    requires Schedule(log, rows, c, attempts)
    decreases |attempts|
  {
    if attempts == [] then c else Run(log, rows, Step(log, rows, c, attempts[0]), attempts[1..])
  }

  // ---------- exactly once ----------

  ghost predicate OnceThrough<K, V>(log: seq<Message>, rows: Event -> seq<(K, V)>, c: Consumer<K, V>) {
    && c.reached <= |log|
    && c.table == InsertAll(map[], RowsOf(rows, log[..c.reached]))
  }

  /** Every undecodable message that was passed is on the dead-letter topic, and nothing else is. */
  ghost predicate DeadLettersExact<K, V>(log: seq<Message>, c: Consumer<K, V>) {
    && (forall i :: 0 <= i < c.reached <= |log| && log[i].None? ==> i in c.deadLetters)
    && (forall i :: i in c.deadLetters ==> i < |log| && log[i].None?)
  }

  lemma RowsBetween<K, V>(log: seq<Message>, rows: Event -> seq<(K, V)>, i: nat, j: nat, k: nat)
    requires i <= j <= k <= |log|
    ensures RowsOf(rows, log[i..k]) == RowsOf(rows, log[i..j]) + RowsOf(rows, log[j..k])
  {
    RowsConcat(rows, log[i..j], log[j..k]);
    assert log[i..j] + log[j..k] == log[i..k];
  }

  /** Re-reading part of what is stored and going on from there is going on from where it was stored. */
  lemma Reread<K, V>(log: seq<Message>, rows: Event -> seq<(K, V)>, reached: nat, start: nat, end: nat)
    requires start <= reached <= |log| && start <= end <= |log|
    ensures InsertAll(InsertAll(map[], RowsOf(rows, log[..reached])), RowsOf(rows, log[start..end]))
         == InsertAll(map[], RowsOf(rows, log[..Max(reached, end)]))
  {
    hide InsertAll, RowsOf;
    assert log[..reached] == log[0..reached] && log[..end] == log[0..end] && log[..start] == log[0..start];
    RowsBetween(log, rows, 0, start, reached);
    if end <= reached {
      RowsBetween(log, rows, start, end, reached);
      InsertAgain(RowsOf(rows, log[0..start]), RowsOf(rows, log[start..end]), RowsOf(rows, log[end..reached]));
    } else {
      RowsBetween(log, rows, start, reached, end);
      RowsBetween(log, rows, 0, reached, end);
      var p, s, u := RowsOf(rows, log[0..start]), RowsOf(rows, log[start..reached]), RowsOf(rows, log[reached..end]);
      InsertConcat(InsertAll(map[], p + s), s, u);
      InsertAgain(p, s, []);
      assert p + (s + []) == p + s;
      InsertConcat(map[], p + s, u);
    }
  }

  lemma {:induction false} UndecodableExactly(log: seq<Message>, start: nat, end: nat, i: nat)
    requires start <= end <= |log|
    ensures i in Undecodable(log, start, end) <==> start <= i < end && log[i].None?
    decreases end
  {
    if start < end {
      UndecodableExactly(log, start, end - 1, i);
    }
  }

  /** A step keeps the dead letters exact. */
  lemma StepDeadLetters<K, V>(log: seq<Message>, rows: Event -> seq<(K, V)>, c: Consumer<K, V>, a: Attempt)
    requires Possible(log, c, a) && DeadLettersExact(log, c)
    ensures DeadLettersExact(log, Step(log, rows, c, a))
  {
    hide InsertAll, RowsOf;
    var upTo := if a.outcome.DeadLetterFailed? then a.outcome.at else a.end;
    forall i: nat ensures i in Undecodable(log, a.start, upTo) <==> a.start <= i < upTo && log[i].None? {
      UndecodableExactly(log, a.start, upTo, i);
    }
  }

  lemma StepOnce<K, V>(log: seq<Message>, rows: Event -> seq<(K, V)>, c: Consumer<K, V>, a: Attempt)
    requires Possible(log, c, a) && OnceThrough(log, rows, c) && DeadLettersExact(log, c)
    ensures var after := Step(log, rows, c, a);
      OnceThrough(log, rows, after) && DeadLettersExact(log, after) && c.reached <= after.reached
  {
    hide InsertAll, RowsOf, DeadLettersExact;
    StepDeadLetters(log, rows, c, a);
    if a.outcome.Handled? {
      Reread(log, rows, c.reached, a.start, a.end);
    }
  }

  /**
   For every log and every at-least-once schedule, with re-reads, batches cut
   anew, dead letters and failures, the table is the one of reading the log once.
   */
  lemma {:induction false} ExactlyOnce<K, V>(log: seq<Message>, rows: Event -> seq<(K, V)>, c: Consumer<K, V>,
      attempts: seq<Attempt>)
    requires Schedule(log, rows, c, attempts) && OnceThrough(log, rows, c) && DeadLettersExact(log, c)
    ensures var after := Run(log, rows, c, attempts);
      OnceThrough(log, rows, after) && DeadLettersExact(log, after) && c.reached <= after.reached
    decreases |attempts|
  {
    hide OnceThrough, DeadLettersExact, Step;
    if attempts != [] {
      StepOnce(log, rows, c, attempts[0]);
      ExactlyOnce(log, rows, Step(log, rows, c, attempts[0]), attempts[1..]);
    }
  }

  // ---------- the consumer and the writers ----------

  function EventRows<K, V>(rows: Event -> seq<(K, V)>, events: seq<Event>): seq<(K, V)> {
    if events == [] then [] else EventRows(rows, events[..|events| - 1]) + rows(events[|events| - 1])
  }

  lemma EventRowsPushed<K, V>(rows: Event -> seq<(K, V)>, events: seq<Event>, e: Event)
    ensures EventRows(rows, events + [e]) == EventRows(rows, events) + rows(e)
  {
    assert (events + [e])[..|events|] == events;
  }

  lemma RowsPushed<K, V>(rows: Event -> seq<(K, V)>, log: seq<Message>, start: nat, i: nat)
    requires start <= i < |log|
    ensures RowsOf(rows, log[start..i + 1])
         == RowsOf(rows, log[start..i]) + if log[i].Some? then rows(log[i].value) else []
  {
    assert log[start..i + 1][..i - start] == log[start..i];
  }

  /** A consumer group with its writer's table. `rows` are the rows the writer makes of one event. */
  class TelemetryConsumer<K(==), V> {
    const rows: Event -> seq<(K, V)>
    var table: map<K, V>
    var deadLetters: seq<nat>

    constructor (rows: Event -> seq<(K, V)>)
      ensures this.rows == rows && table == map[] && deadLetters == []
    {
      this.rows := rows;
      table := map[];
      deadLetters := [];
    }

    /** `eachBatch` on the messages from `start` to before `end`; the failures are the broker's and the database's. */
    method EachBatch(log: seq<Message>, start: nat, end: nat, deadLetterFails: nat -> bool, insertFails: bool,
        ghost reached: nat)
      returns (outcome: Outcome)
      requires start <= end <= |log| && start <= reached
      modifies this
      ensures Possible(log, Consumer(old(table), reached, old(deadLetters)), Attempt(start, end, outcome))
      ensures var after := Step(log, rows, Consumer(old(table), reached, old(deadLetters)),
                                Attempt(start, end, outcome));
        table == after.table && deadLetters == after.deadLetters
      ensures outcome.DeadLetterFailed? ==> deadLetterFails(outcome.at)
      ensures outcome.HandlerFailed? ==> insertFails
    {
      hide InsertAll;
      ghost var before := deadLetters;
      var events: seq<Event> := [];
      for i := start to end
        invariant table == old(table)
        invariant deadLetters == before + Undecodable(log, start, i)
        invariant EventRows(rows, events) == RowsOf(rows, log[start..i])
      {
        RowsPushed(rows, log, start, i);
        if log[i].Some? {
          EventRowsPushed(rows, events, log[i].value);
          events := events + [log[i].value];
        } else {
          if deadLetterFails(i) {
            return DeadLetterFailed(i);
          }
          deadLetters := deadLetters + [i];
        }
      }
      if events == [] {
        NothingInserted(table, RowsOf(rows, log[start..end]));
        return Handled;
      }
      var stored := Handle(events, insertFails);
      outcome := if stored then Handled else HandlerFailed;
    }

    /** The writer: every row of the events in one insert, or none if it fails. */
    method Handle(events: seq<Event>, insertFails: bool) returns (stored: bool)
      modifies `table
      ensures !stored ==> insertFails && table == old(table)
      ensures stored ==> table == InsertAll(old(table), EventRows(rows, events))
    {
      hide InsertAll;
      var values: seq<(K, V)> := [];
      for i := 0 to |events|
        invariant values == EventRows(rows, events[..i])
      {
        assert events[..i + 1][..i] == events[..i];
        values := values + rows(events[i]);
      }
      assert events[..|events|] == events;
      if |values| == 0 {
        NothingInserted(table, values);
        return true;
      }
      if insertFails {
        return false;
      }
      table := InsertAll(table, values);
      return true;
    }
  }

  lemma NothingInserted<K, V>(t: map<K, V>, rows: seq<(K, V)>)
    requires rows == []
    ensures InsertAll(t, rows) == t
  {
  }

  // ---------- what the tables hold ----------

  predicate Carries<K(==), V>(rows: Event -> seq<(K, V)>, m: Message, key: K) {
    m.Some? && FirstIndex(rows(m.value), key) < |rows(m.value)|
  }

  /** The row for a key is made by the first message that carries the key. */
  ghost predicate FirstCarried<K, V>(rows: Event -> seq<(K, V)>, messages: seq<Message>, key: K, table: map<K, V>) {
    && (key in table <==> exists i :: 0 <= i < |messages| && Carries(rows, messages[i], key))
    && forall i :: (0 <= i < |messages| && Carries(rows, messages[i], key)
                    && forall j :: 0 <= j < i ==> !Carries(rows, messages[j], key)) ==>
         key in table && table[key] == rows(messages[i].value)[FirstIndex(rows(messages[i].value), key)].1
  }

  lemma {:induction false} FoldFirstCarried<K, V>(rows: Event -> seq<(K, V)>, messages: seq<Message>, key: K)
    ensures FirstCarried(rows, messages, key, InsertAll(map[], RowsOf(rows, messages)))
  {
    if messages != [] {
      var before, m := messages[..|messages| - 1], messages[|messages| - 1];
      FoldFirstCarried(rows, before, key);
      if m.Some? {
        InsertConcat(map[], RowsOf(rows, before), rows(m.value));
        InsertAllExactly(InsertAll(map[], RowsOf(rows, before)), rows(m.value), key);
      } else {
        assert RowsOf(rows, messages) == RowsOf(rows, before);
      }
      CarriedPushed(rows, before, m, key,
                    InsertAll(map[], RowsOf(rows, before)), InsertAll(map[], RowsOf(rows, messages)));
      assert before + [m] == messages;
    }
  }

  lemma CarriedPushed<K, V>(rows: Event -> seq<(K, V)>, before: seq<Message>, m: Message, key: K, t: map<K, V>,
      after: map<K, V>)
    requires FirstCarried(rows, before, key, t)
    requires key in after <==> key in t || Carries(rows, m, key)
    requires key in t ==> after[key] == t[key]
    requires key !in t && Carries(rows, m, key) ==> after[key] == rows(m.value)[FirstIndex(rows(m.value), key)].1
    ensures FirstCarried(rows, before + [m], key, after)
  {
    hide Carries;
    var messages := before + [m];
    assert messages[|before|] == m && forall i :: 0 <= i < |before| ==> messages[i] == before[i];
  }

  /** For one consumer over one log, whatever the batches and failures. */
  lemma TableMeans<K, V>(log: seq<Message>, rows: Event -> seq<(K, V)>, attempts: seq<Attempt>, key: K)
    requires Schedule(log, rows, Consumer(map[], 0, []), attempts)
    ensures var after := Run(log, rows, Consumer(map[], 0, []), attempts);
      after.reached <= |log| && FirstCarried(rows, log[..after.reached], key, after.table)
  {
    var start: Consumer<K, V> := Consumer(map[], 0, []);
    ExactlyOnce(log, rows, start, attempts);
    FoldFirstCarried(rows, log[..Run(log, rows, start, attempts).reached], key);
  }

  /** A message carries a position exactly when it has a fix, and then one. */
  lemma LocationCarried(ids: string -> nat, m: Message, key: LocationKey)
    ensures Carries(e => LocationRows(ids, e), m, key) <==>
      m.Some? && m.value.gps.Some? && (ids(m.value.imei), m.value.recordedAt) == key
  {
    if m.Some? && m.value.gps.Some? {
      var rows := LocationRows(ids, m.value);
      assert rows[0].0 == (ids(m.value.imei), m.value.recordedAt);
      FirstIndexUnique(rows, key, if rows[0].0 == key then 0 else 1);
    }
  }

  /** A message carries a fuel level exactly when one of its readings is from that sensor. */
  lemma FuelCarried(ids: string -> nat, m: Message, key: FuelKey)
    ensures Carries(e => FuelRows(ids, e), m, key) <==>
      && m.Some? && (ids(m.value.imei), m.value.recordedAt) == (key.0, key.1)
      && exists i :: 0 <= i < |m.value.fuel| && m.value.fuel[i].source == key.2
  {
    if m.Some? {
      var rows := FuelRows(ids, m.value);
      if Carries(e => FuelRows(ids, e), m, key) {
        assert rows[FirstIndex(rows, key)].0 == key;
        assert m.value.fuel[FirstIndex(rows, key)].source == key.2;
      } else if (ids(m.value.imei), m.value.recordedAt) == (key.0, key.1) {
        forall i | 0 <= i < |m.value.fuel| ensures m.value.fuel[i].source != key.2 {
          assert rows[i].0 != key;
        }
      }
    }
  }

  /** A position is stored as the first message to carry it reports it. */
  lemma LocationStored(ids: string -> nat, log: seq<Message>, attempts: seq<Attempt>, i: nat)
    requires Schedule(log, e => LocationRows(ids, e), Consumer(map[], 0, []), attempts)
    requires i < Run(log, e => LocationRows(ids, e), Consumer(map[], 0, []), attempts).reached
    requires i < |log| && log[i].Some? && log[i].value.gps.Some?
    requires var e := log[i].value;
      forall j :: 0 <= j < i && log[j].Some? && log[j].value.gps.Some? ==>
        (ids(log[j].value.imei), log[j].value.recordedAt) != (ids(e.imei), e.recordedAt)
    ensures var table := Run(log, e => LocationRows(ids, e), Consumer(map[], 0, []), attempts).table;
      var e := log[i].value;
      && (ids(e.imei), e.recordedAt) in table
      && table[(ids(e.imei), e.recordedAt)] == LocationRow(e.receivedAt, e.gps.value)
  {
    hide Run, Schedule, LocationRows;
    var rows, e := (e => LocationRows(ids, e)), log[i].value;
    var key := (ids(e.imei), e.recordedAt);
    TableMeans(log, rows, attempts, key);
    var read := log[..Run(log, rows, Consumer(map[], 0, []), attempts).reached];
    forall j | 0 <= j <= i ensures Carries(rows, read[j], key) <==> j == i {
      LocationCarried(ids, read[j], key);
    }
    PositionRow(ids, e);
  }

  lemma PositionRow(ids: string -> nat, e: Event)
    requires e.gps.Some?
    ensures var rows, key := LocationRows(ids, e), (ids(e.imei), e.recordedAt);
      FirstIndex(rows, key) == 0 && rows[0].1 == LocationRow(e.receivedAt, e.gps.value)
  {
    assert LocationRows(ids, e)[0].0 == (ids(e.imei), e.recordedAt);
    FirstIndexUnique(LocationRows(ids, e), (ids(e.imei), e.recordedAt), 0);
  }

  /** A fuel level is stored as the first reading of its sensor in the first message to carry it reports it. */
  lemma FuelStored(ids: string -> nat, log: seq<Message>, attempts: seq<Attempt>, i: nat, k: nat)
    requires Schedule(log, e => FuelRows(ids, e), Consumer(map[], 0, []), attempts)
    requires i < Run(log, e => FuelRows(ids, e), Consumer(map[], 0, []), attempts).reached
    requires i < |log| && log[i].Some? && k < |log[i].value.fuel|
    requires forall l :: 0 <= l < k ==> log[i].value.fuel[l].source != log[i].value.fuel[k].source
    requires var e := log[i].value;
      forall j, l :: 0 <= j < i && log[j].Some? && 0 <= l < |log[j].value.fuel| ==>
        (ids(log[j].value.imei), log[j].value.recordedAt, log[j].value.fuel[l].source)
        != (ids(e.imei), e.recordedAt, e.fuel[k].source)
    ensures var table := Run(log, e => FuelRows(ids, e), Consumer(map[], 0, []), attempts).table;
      var e := log[i].value;
      var key := (ids(e.imei), e.recordedAt, e.fuel[k].source);
      key in table && table[key] == FuelRow(e.receivedAt, e.fuel[k].pct, e.fuel[k].liters)
  {
    hide Run, Schedule, FuelRows;
    var rows, e := (e => FuelRows(ids, e)), log[i].value;
    var key := (ids(e.imei), e.recordedAt, e.fuel[k].source);
    TableMeans(log, rows, attempts, key);
    var read := log[..Run(log, rows, Consumer(map[], 0, []), attempts).reached];
    forall j | 0 <= j <= i ensures Carries(rows, read[j], key) <==> j == i {
      FuelCarried(ids, read[j], key);
    }
    LevelRow(ids, e, k);
  }

  lemma LevelRow(ids: string -> nat, e: Event, k: nat)
    requires k < |e.fuel| && forall l :: 0 <= l < k ==> e.fuel[l].source != e.fuel[k].source
    ensures var rows, key := FuelRows(ids, e), (ids(e.imei), e.recordedAt, e.fuel[k].source);
      && |rows| == |e.fuel| && FirstIndex(rows, key) == k
      && rows[k].1 == FuelRow(e.receivedAt, e.fuel[k].pct, e.fuel[k].liters)
  {
    var rows, key := FuelRows(ids, e), (ids(e.imei), e.recordedAt, e.fuel[k].source);
    forall l | 0 <= l < k ensures rows[l].0 != key {
      assert rows[l].0.2 == e.fuel[l].source;
    }
    FirstIndexUnique(rows, key, k);
  }
}
