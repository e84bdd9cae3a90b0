/**
 Ignition and movement transitions (apps/telemetry-consumers/src/consumers/engine.ts).
 Live readings are compared with the last known state and replace it; backlog
 readings count only when the device itself reports the change.
 */
module Engine {
  import opened Wrappers

  datatype Transition = IgnitionOn | IgnitionOff | MovementStart | MovementStop

  const IGNITION_ID := 239
  const MOVEMENT_ID := 240

  datatype Event = Event(imei: string, recordedAt: int, receivedAt: int, eventIoId: int,
                         ignition: Option<bool>, movement: Option<bool>)

  datatype Known = Known(ignition: Option<bool>, movement: Option<bool>)

  // ---------- one reading ----------

  /** Whether a reading of one input counts as a transition. */
  predicate Counts(reading: Option<bool>, known: Option<bool>, reported: bool, isLive: bool) {
    reading.Some? && (reported || (isLive && known.Some? && known.value != reading.value))
  }

  function Remember(reading: Option<bool>, known: Option<bool>, isLive: bool): Option<bool> {
    if isLive && reading.Some? then reading else known
  }

  function IgnitionPart(e: Event, known: Known, isLive: bool): seq<Transition> {
    if Counts(e.ignition, known.ignition, e.eventIoId == IGNITION_ID, isLive)
    then [if e.ignition.value then IgnitionOn else IgnitionOff] else []
  }

  function MovementPart(e: Event, known: Known, isLive: bool): seq<Transition> {
    if Counts(e.movement, known.movement, e.eventIoId == MOVEMENT_ID, isLive)
    then [if e.movement.value then MovementStart else MovementStop] else []
  }

  function Transitions(e: Event, known: Known, isLive: bool): seq<Transition> {
    IgnitionPart(e, known, isLive) + MovementPart(e, known, isLive)
  }

  function NextKnown(e: Event, known: Known, isLive: bool): Known {
    Known(Remember(e.ignition, known.ignition, isLive), Remember(e.movement, known.movement, isLive))
  }

  // ---------- deliveries of all vehicles ----------

  datatype Row = Row(vehicle: nat, recordedAt: int, receivedAt: int, kind: Transition)

  /** One reading as the handler meets it: its vehicle, and the topic it came from. */
  datatype Delivery = Delivery(vehicle: nat, event: Event, isLive: bool)

  type States = map<nat, Known>

  function RowsOf(d: Delivery, kinds: seq<Transition>): (rows: seq<Row>)
    ensures |rows| == |kinds|
  {
    seq(|kinds|, i requires 0 <= i < |kinds| => Row(d.vehicle, d.event.recordedAt, d.event.receivedAt, kinds[i]))
  }

  function Emits(d: Delivery, states: States): seq<Row>
    requires d.vehicle in states
  {
    RowsOf(d, Transitions(d.event, states[d.vehicle], d.isLive))
  }

  function Updated(d: Delivery, states: States): States
    requires d.vehicle in states
  {
    states[d.vehicle := NextKnown(d.event, states[d.vehicle], d.isLive)]
  }

  predicate Cached(ds: seq<Delivery>, states: States) {
    forall d :: d in ds ==> d.vehicle in states
  }

  function Final(ds: seq<Delivery>, states: States): (after: States)
    requires Cached(ds, states)
    ensures after.Keys == states.Keys
  {
    if ds == [] then states
    else Updated(ds[|ds| - 1], Final(ds[..|ds| - 1], states))
  }

  function Emitted(ds: seq<Delivery>, states: States): seq<Row>
    requires Cached(ds, states)
  {
    if ds == [] then []
    else Emitted(ds[..|ds| - 1], states) + Emits(ds[|ds| - 1], Final(ds[..|ds| - 1], states))
  }

  /** The deliveries of one topic, in order. */
  function Topic(ds: seq<Delivery>, isLive: bool): (r: seq<Delivery>)
    ensures forall d :: d in r ==> d in ds
  {
    if ds == [] then []
    else Topic(ds[..|ds| - 1], isLive) + if ds[|ds| - 1].isLive == isLive then [ds[|ds| - 1]] else []
  }

  /** Backlog never changes what is known. */
  lemma {:induction false} FinalOfLive(ds: seq<Delivery>, states: States)
    requires Cached(ds, states)
    ensures Final(ds, states) == Final(Topic(ds, true), states)
  {
    if ds != [] {
      var before, d := ds[..|ds| - 1], ds[|ds| - 1];
      FinalOfLive(before, states);
      if d.isLive {
        assert (Topic(before, true) + [d])[..|Topic(before, true)|] == Topic(before, true);
      } else {
        assert Topic(ds, true) == Topic(before, true);
        var s := Final(before, states);
        assert NextKnown(d.event, s[d.vehicle], false) == s[d.vehicle];
        assert s[d.vehicle := s[d.vehicle]] == s;
      }
    }
  }

  /** What a backlog reading emits does not depend on what is known. */
  lemma BacklogBlind(d: Delivery, a: States, b: States)
    requires !d.isLive && d.vehicle in a && d.vehicle in b
    ensures Emits(d, a) == Emits(d, b)
  {
  }

  /**
   However live and backlog deliveries are interleaved, the rows are those of
   the live sequence alone and those of the backlog alone, taken together.
   */
  lemma {:induction false} Separate(ds: seq<Delivery>, states: States)
    requires Cached(ds, states)
    ensures Cached(Topic(ds, true), states) && Cached(Topic(ds, false), states)
    ensures multiset(Emitted(ds, states))
         == multiset(Emitted(Topic(ds, true), states)) + multiset(Emitted(Topic(ds, false), states))
  {
    if ds != [] {
      hide Emitted, Topic, Emits, Final;
      var before, d := ds[..|ds| - 1], ds[|ds| - 1];
      assert ds == before + [d];
      Separate(before, states);
      LastEmitted(before, d, states);
    }
  }

  /** The last delivery adds to its own topic's rows what it adds to the whole. */
  lemma LastEmitted(before: seq<Delivery>, d: Delivery, states: States)
    requires Cached(before + [d], states)
    ensures var ds := before + [d];
      var rows := Emits(d, Final(before, states));
      && Cached(before, states) && Cached(Topic(before, true), states) && Cached(Topic(before, false), states)
      && Emitted(ds, states) == Emitted(before, states) + rows
      && Topic(ds, !d.isLive) == Topic(before, !d.isLive)
      && Emitted(Topic(ds, d.isLive), states) == Emitted(Topic(before, d.isLive), states) + rows
  {
    hide Emits, Updated;
    var part := Topic(before, d.isLive);
    assert (before + [d])[..|before|] == before;
    assert (part + [d])[..|part|] == part;
    if d.isLive {
      FinalOfLive(before, states);
    } else {
      BacklogBlind(d, Final(before, states), Final(part, states));
    }
  }

  /** Two interleavings of the same live and backlog sequences emit the same rows and end in the same state. */
  lemma InterleavingIrrelevant(a: seq<Delivery>, b: seq<Delivery>, states: States)
    requires Cached(a, states) && Cached(b, states)
    requires Topic(a, true) == Topic(b, true) && Topic(a, false) == Topic(b, false)
    ensures multiset(Emitted(a, states)) == multiset(Emitted(b, states))
    ensures Final(a, states) == Final(b, states) == Final(Topic(a, true), states)
  {
    Separate(a, states);
    Separate(b, states);
    FinalOfLive(a, states);
    FinalOfLive(b, states);
  }

  // ---------- live readings without explicit triggers ----------

  /** The changes of a sequence of values, `known` being the value before it. */
  function Changes(known: Option<bool>, values: seq<bool>): seq<bool> {
    if values == [] then []
    else
      var last := |values| - 1;
      var previous := if last == 0 then known else Some(values[last - 1]);
      Changes(known, values[..last]) + if previous.Some? && previous.value != values[last] then [values[last]] else []
  }

  predicate Alternates(values: seq<bool>) {
    forall i :: 0 < i < |values| ==> values[i] == !values[i - 1]
  }

  /** The value before the changes: the known one, or else the first one seen. */
  function Start(known: Option<bool>, values: seq<bool>): Option<bool> {
    if known.None? && values != [] then Some(values[0]) else known
  }

  /** Changes alternate strictly, the first away from the start, the last to the final value. */
  lemma {:induction false} ChangesAlternate(known: Option<bool>, values: seq<bool>)
    ensures var c, start := Changes(known, values), Start(known, values);
      && Alternates(c)
      && (c != [] ==> start.Some? && c[0] == !start.value)
      && (values != [] ==> values[|values| - 1] == if c == [] then start.value else c[|c| - 1])
  {
    if values != [] {
      ChangesAlternate(known, values[..|values| - 1]);
    }
  }

  /** The values of one input that a vehicle's deliveries carry. */
  function Values(ds: seq<Delivery>, vehicle: nat, ignition: bool): seq<bool> {
    if ds == [] then []
    else
      Values(ds[..|ds| - 1], vehicle, ignition) + ValueOf(ds[|ds| - 1], vehicle, ignition)
  }

  function ValueOf(d: Delivery, vehicle: nat, ignition: bool): seq<bool> {
    var value := if ignition then d.event.ignition else d.event.movement;
    if d.vehicle == vehicle && value.Some? then [value.value] else []
  }

  /** The values that the rows of one vehicle and input report. */
  function Reported(rows: seq<Row>, vehicle: nat, ignition: bool): seq<bool> {
    if rows == [] then []
    else
      var r := rows[|rows| - 1];
      Reported(rows[..|rows| - 1], vehicle, ignition)
      + if r.vehicle != vehicle || IsIgnition(r.kind) != ignition then []
        else [r.kind == IgnitionOn || r.kind == MovementStart]
  }

  predicate IsIgnition(kind: Transition) {
    kind == IgnitionOn || kind == IgnitionOff
  }

  lemma {:induction false} ReportedConcat(a: seq<Row>, b: seq<Row>, vehicle: nat, ignition: bool)
    ensures Reported(a + b, vehicle, ignition) == Reported(a, vehicle, ignition) + Reported(b, vehicle, ignition)
    decreases |b|
  {
    if b == [] {
      assert a + b == a;
    } else {
      ReportedConcat(a, b[..|b| - 1], vehicle, ignition);
      assert (a + b)[..|a + b| - 1] == a + b[..|b| - 1];
    }
  }

  predicate Untriggered(d: Delivery) {
    d.isLive && d.event.eventIoId != IGNITION_ID && d.event.eventIoId != MOVEMENT_ID
  }

  function Input(known: Known, ignition: bool): Option<bool> {
    if ignition then known.ignition else known.movement
  }

  lemma ReportedOfOne(d: Delivery, states: States, vehicle: nat, ignition: bool)
    requires Untriggered(d) && d.vehicle in states && vehicle in states
    ensures Reported(Emits(d, states), vehicle, ignition)
         == Changes(Input(states[vehicle], ignition), ValueOf(d, vehicle, ignition))
  {
    hide Reported, RowsOf, Changes;
    var known := states[d.vehicle];
    var i, m := IgnitionPart(d.event, known, true), MovementPart(d.event, known, true);
    RowsOfConcat(d, i, m);
    ReportedConcat(RowsOf(d, i), RowsOf(d, m), vehicle, ignition);
    ReportedShort(d, i, vehicle, ignition);
    ReportedShort(d, m, vehicle, ignition);
    ChangesOfShort(Input(states[vehicle], ignition), ValueOf(d, vehicle, ignition));
  }

  lemma RowsOfConcat(d: Delivery, a: seq<Transition>, b: seq<Transition>)
    ensures RowsOf(d, a + b) == RowsOf(d, a) + RowsOf(d, b)
  {
  }

  lemma ChangesOfShort(known: Option<bool>, values: seq<bool>)
    requires |values| <= 1
    ensures Changes(known, values) == if values != [] && known.Some? && known.value != values[0] then values else []
  {
    if values != [] {
      assert Changes(known, values[..0]) == [] && values == [values[0]];
    }
  }

  lemma ReportedShort(d: Delivery, kinds: seq<Transition>, vehicle: nat, ignition: bool)
    requires |kinds| <= 1
    ensures Reported(RowsOf(d, kinds), vehicle, ignition)
         == if kinds != [] && d.vehicle == vehicle && IsIgnition(kinds[0]) == ignition
            then [kinds[0] == IgnitionOn || kinds[0] == MovementStart] else []
  {
    if kinds != [] {
      assert kinds == [kinds[0]];
      ReportedSingle(d, kinds[0], vehicle, ignition);
    } else {
      assert RowsOf(d, kinds) == [];
    }
  }

  lemma ReportedSingle(d: Delivery, kind: Transition, vehicle: nat, ignition: bool)
    ensures Reported(RowsOf(d, [kind]), vehicle, ignition)
         == if d.vehicle == vehicle && IsIgnition(kind) == ignition
            then [kind == IgnitionOn || kind == MovementStart] else []
  {
    var rows := RowsOf(d, [kind]);
    assert rows[..0] == [] && Reported(rows[..0], vehicle, ignition) == [];
  }

  /**
   Live readings that no input change triggered emit, for each vehicle and
   input, exactly the changes of the values they carry.
   */
  lemma {:induction false} LiveChangePoints(ds: seq<Delivery>, states: States, vehicle: nat, ignition: bool)
    requires Cached(ds, states) && vehicle in states
    requires forall d :: d in ds ==> Untriggered(d)
    ensures var values, known := Values(ds, vehicle, ignition), Input(states[vehicle], ignition);
      && Reported(Emitted(ds, states), vehicle, ignition) == Changes(known, values)
      && Input(Final(ds, states)[vehicle], ignition) == if values == [] then known else Some(values[|values| - 1])
  {
    hide Emits, Updated, Untriggered, ValueOf, Input;
    if ds == [] {
      assert Emitted(ds, states) == [] && Reported([], vehicle, ignition) == [];
    } else {
      var before, d := ds[..|ds| - 1], ds[|ds| - 1];
      LiveChangePoints(before, states, vehicle, ignition);
      LiveStep(before, d, states, vehicle, ignition);
      assert before + [d] == ds;
    }
  }

  lemma LiveStep(before: seq<Delivery>, d: Delivery, states: States, vehicle: nat, ignition: bool)
    requires Cached(before + [d], states) && Cached(before, states) && vehicle in states && Untriggered(d)
    requires var values, known := Values(before, vehicle, ignition), Input(states[vehicle], ignition);
      && Reported(Emitted(before, states), vehicle, ignition) == Changes(known, values)
      && Input(Final(before, states)[vehicle], ignition) == if values == [] then known else Some(values[|values| - 1])
    ensures var ds := before + [d];
      var values, known := Values(ds, vehicle, ignition), Input(states[vehicle], ignition);
      && Reported(Emitted(ds, states), vehicle, ignition) == Changes(known, values)
      && Input(Final(ds, states)[vehicle], ignition) == if values == [] then known else Some(values[|values| - 1])
  {
    hide Emits, Updated, Untriggered, Cached, ValueOf, Reported, Changes, Input;
    assert (before + [d])[..|before|] == before;
    assert d in before + [d];
    DeliveredIsCached(before, d, states);
    var s, values, known := Final(before, states), Values(before, vehicle, ignition), Input(states[vehicle], ignition);
    ReportedConcat(Emitted(before, states), Emits(d, s), vehicle, ignition);
    ReportedOfOne(d, s, vehicle, ignition);
    InputUpdated(d, s, vehicle, ignition);
    ChangesPushed(known, values, ValueOf(d, vehicle, ignition));
  }

  lemma DeliveredIsCached(before: seq<Delivery>, d: Delivery, states: States)
    requires Cached(before + [d], states)
    ensures d.vehicle in states
  {
    assert (before + [d])[|before|] == d;
  }

  lemma InputUpdated(d: Delivery, states: States, vehicle: nat, ignition: bool)
    requires Untriggered(d) && d.vehicle in states && vehicle in states
    ensures var value := ValueOf(d, vehicle, ignition);
      && |value| <= 1
      && Input(Updated(d, states)[vehicle], ignition)
           == if value == [] then Input(states[vehicle], ignition) else Some(value[0])
  {
  }

  lemma ChangesPushed(known: Option<bool>, values: seq<bool>, more: seq<bool>)
    requires |more| <= 1
    ensures Changes(known, values + more)
         == Changes(known, values) + Changes(if values == [] then known else Some(values[|values| - 1]), more)
  {
    ChangesOfShort(if values == [] then known else Some(values[|values| - 1]), more);
    if more == [] {
      assert values + more == values;
    } else {
      assert (values + more)[..|values|] == values && more == [more[0]];
    }
  }
}
