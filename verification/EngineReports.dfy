/**
 The rows of the engine consumer, input by input: which readings are transitions,
 whichever topic they came from and whatever they are mixed with.
 */
module EngineReports {
  import opened Wrappers
  import opened FirstWins
  import opened Engine
  import opened EngineHandlers

  // ---------- what a reading says of one input ----------

  function Carried(e: Event, ignition: bool): Option<bool> {
    if ignition then e.ignition else e.movement
  }

  /** The device sent the record because this input changed: its trigger is AVL id 239 or 240. */
  predicate Triggered(e: Event, ignition: bool) {
    e.eventIoId == if ignition then 239 else 240
  }

  /** The value that the latest live reading of the vehicle carries, or else the one known before. */
  function LastLive(ds: seq<Delivery>, known: Option<bool>, vehicle: nat, ignition: bool): Option<bool> {
    if ds == [] then known
    else
      var d := ds[|ds| - 1];
      if d.isLive && d.vehicle == vehicle && Carried(d.event, ignition).Some? then Carried(d.event, ignition)
      else LastLive(ds[..|ds| - 1], known, vehicle, ignition)
  }

  function RowFor(d: Delivery, ignition: bool, value: bool): Row {
    Row(d.vehicle, d.event.recordedAt, d.event.receivedAt,
        if ignition then (if value then IgnitionOn else IgnitionOff)
        else if value then MovementStart else MovementStop)
  }

  /** One row if the reading carries the input and is triggered by it, or is live and differs from the value before. */
  function RowOf(d: Delivery, previous: Option<bool>, ignition: bool): seq<Row> {
    match Carried(d.event, ignition)
    case None => []
    case Some(value) =>
      if Triggered(d.event, ignition) || (d.isLive && previous.Some? && previous.value != value)
      then [RowFor(d, ignition, value)] else []
  }

  /** The rows of one vehicle and input. */
  function RowsFor(ds: seq<Delivery>, known: Option<bool>, vehicle: nat, ignition: bool): seq<Row> {
    if ds == [] then []
    else
      var before, d := ds[..|ds| - 1], ds[|ds| - 1];
      RowsFor(before, known, vehicle, ignition)
      + if d.vehicle == vehicle then RowOf(d, LastLive(before, known, vehicle, ignition), ignition) else []
  }

  /** The rows among these that are about one vehicle and input. */
  function About(rows: seq<Row>, vehicle: nat, ignition: bool): seq<Row> {
    if rows == [] then []
    else
      var r := rows[|rows| - 1];
      About(rows[..|rows| - 1], vehicle, ignition)
      + if r.vehicle == vehicle && (r.kind == IgnitionOn || r.kind == IgnitionOff) == ignition then [r] else []
  }

  // ---------- any readings ----------

  lemma {:induction false} AboutConcat(a: seq<Row>, b: seq<Row>, vehicle: nat, ignition: bool)
    ensures About(a + b, vehicle, ignition) == About(a, vehicle, ignition) + About(b, vehicle, ignition)
    decreases |b|
  {
    if b == [] {
      assert a + b == a;
    } else {
      AboutConcat(a, b[..|b| - 1], vehicle, ignition);
      assert (a + b)[..|a + b| - 1] == a + b[..|b| - 1];
    }
  }

  /** A reading emits the row of its ignition and then the row of its movement. */
  lemma EmitsBoth(d: Delivery, states: States)
    requires d.vehicle in states
    ensures Emits(d, states)
         == RowOf(d, states[d.vehicle].ignition, true) + RowOf(d, states[d.vehicle].movement, false)
  {
    var known := states[d.vehicle];
    var i, m := IgnitionPart(d.event, known, d.isLive), MovementPart(d.event, known, d.isLive);
    RowsOfConcat(d, i, m);
    assert RowsOf(d, i) == RowOf(d, known.ignition, true);
    assert RowsOf(d, m) == RowOf(d, known.movement, false);
  }

  lemma AboutOne(d: Delivery, previous: Option<bool>, input: bool, vehicle: nat, ignition: bool)
    ensures About(RowOf(d, previous, input), vehicle, ignition)
         == if d.vehicle == vehicle && input == ignition then RowOf(d, previous, input) else []
  {
    var rows := RowOf(d, previous, input);
    if rows != [] {
      assert rows[..0] == [] && About(rows[..0], vehicle, ignition) == [];
    }
  }

  /**
   Live and backlog readings in any mixture emit, for each vehicle and input, exactly the rows that
   the readings call for; what is known at the end is the last live value.
   */
  lemma {:induction false} RowsExactly(ds: seq<Delivery>, states: States, vehicle: nat, ignition: bool)
    requires Cached(ds, states) && vehicle in states
    ensures About(Emitted(ds, states), vehicle, ignition)
         == RowsFor(ds, Input(states[vehicle], ignition), vehicle, ignition)
    ensures Input(Final(ds, states)[vehicle], ignition)
         == LastLive(ds, Input(states[vehicle], ignition), vehicle, ignition)
  {
    hide Emits, RowOf, Input, Updated;
    if ds != [] {
      var before, d := ds[..|ds| - 1], ds[|ds| - 1];
      RowsExactly(before, states, vehicle, ignition);
      var s := Final(before, states);
      AboutConcat(Emitted(before, states), Emits(d, s), vehicle, ignition);
      AboutEmits(d, s, vehicle, ignition);
      InputAfter(d, s, vehicle, ignition);
    }
  }

  lemma AboutEmits(d: Delivery, states: States, vehicle: nat, ignition: bool)
    requires d.vehicle in states && vehicle in states
    ensures About(Emits(d, states), vehicle, ignition)
         == if d.vehicle == vehicle then RowOf(d, Input(states[vehicle], ignition), ignition) else []
  {
    hide Emits, RowOf, About;
    var i := RowOf(d, states[d.vehicle].ignition, true);
    var m := RowOf(d, states[d.vehicle].movement, false);
    EmitsBoth(d, states);
    AboutConcat(i, m, vehicle, ignition);
    AboutOne(d, states[d.vehicle].ignition, true, vehicle, ignition);
    AboutOne(d, states[d.vehicle].movement, false, vehicle, ignition);
  }

  lemma InputAfter(d: Delivery, states: States, vehicle: nat, ignition: bool)
    requires d.vehicle in states && vehicle in states
    ensures Input(Updated(d, states)[vehicle], ignition)
         == if d.isLive && d.vehicle == vehicle && Carried(d.event, ignition).Some? then Carried(d.event, ignition)
            else Input(states[vehicle], ignition)
  {
  }

  // ---------- the backlog ----------

  /** What a device reports of itself. */
  function Report(d: Delivery): seq<Row> {
    (if d.event.eventIoId == 239 && d.event.ignition.Some? then [RowFor(d, true, d.event.ignition.value)] else [])
    + if d.event.eventIoId == 240 && d.event.movement.Some? then [RowFor(d, false, d.event.movement.value)] else []
  }

  function Reports(ds: seq<Delivery>): seq<Row> {
    if ds == [] then [] else Reports(ds[..|ds| - 1]) + Report(ds[|ds| - 1])
  }

  /** A backlog emits exactly what the device reported of itself, whatever is known, and changes nothing known. */
  lemma {:induction false} BacklogExactly(ds: seq<Delivery>, states: States)
    requires Cached(ds, states) && forall d :: d in ds ==> !d.isLive
    ensures Emitted(ds, states) == Reports(ds) && Final(ds, states) == states
  {
    if ds != [] {
      var before, d := ds[..|ds| - 1], ds[|ds| - 1];
      BacklogExactly(before, states);
      EmitsBoth(d, states);
      assert states[d.vehicle := states[d.vehicle]] == states;
    }
  }

  /** What the device reports is a row on either topic, whatever is known. */
  lemma ReportEmitted(d: Delivery, states: States)
    requires d.vehicle in states
    ensures forall r :: r in Report(d) ==> r in Emits(d, states)
  {
    EmitsBoth(d, states);
  }

  // ---------- a batch and its table ----------

  /** Readings are taken in order; those of unknown vehicles, and those that carry neither input, are passed over. */
  lemma DeliveriesExactly(before: seq<Event>, e: Event, ids: map<string, nat>, isLive: bool)
    ensures Deliveries(before + [e], ids, isLive) == Deliveries(before, ids, isLive)
      + if (e.ignition.Some? || e.movement.Some?) && e.imei in ids then [Delivery(ids[e.imei], e, isLive)] else []
  {
    assert (before + [e])[..|before|] == before;
  }

  predicate Has(r: Row, vehicle: nat, at: int, kind: Transition) {
    r.vehicle == vehicle && r.recordedAt == at && r.kind == kind
  }

  /** A transition is stored under its vehicle, time and kind, with the arrival time of the first row to have them. */
  lemma StoredExactly(table: Table, rows: seq<Row>, vehicle: nat, at: int, kind: Transition)
    ensures var key, after := (vehicle, at, kind), InsertAll(table, KeyedRows(rows));
      && (key in after <==> (key in table || exists i :: 0 <= i < |rows| && Has(rows[i], vehicle, at, kind)))
      && (key in table ==> after[key] == table[key])
      && forall i :: (0 <= i < |rows| && key !in table && Has(rows[i], vehicle, at, kind)
                      && forall j :: 0 <= j < i ==> !Has(rows[j], vehicle, at, kind)) ==>
           key in after && after[key] == rows[i].receivedAt
  {
    var key, keyed := (vehicle, at, kind), KeyedRows(rows);
    InsertAllExactly(table, keyed, key);
    forall j | 0 <= j < |rows| ensures keyed[j].0 == key <==> Has(rows[j], vehicle, at, kind) {
      assert keyed[j] == ((rows[j].vehicle, rows[j].recordedAt, rows[j].kind), rows[j].receivedAt);
    }
  }
}
