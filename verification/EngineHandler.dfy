/**
 The engine consumer itself (apps/telemetry-consumers/src/consumers/engine.ts):
 cached vehicle states that are mutated in place and seeded from the table.
 */
module EngineHandlers {
  import opened Wrappers
  import opened FirstWins
  import opened Engine

  type RowKey = (nat, int, Transition)

  function Keyed(r: Row): (RowKey, int) {
    ((r.vehicle, r.recordedAt, r.kind), r.receivedAt)
  }

  function KeyedRows(rows: seq<Row>): (keyed: seq<(RowKey, int)>)
    ensures |keyed| == |rows|
  {
    seq(|rows|, i requires 0 <= i < |rows| => Keyed(rows[i]))
  }

  type Table = map<RowKey, int>

  /** `value` is what the newest stored transition of this input says; none if there is none. */
  ghost predicate Newest(table: Table, vehicle: nat, ignition: bool, value: Option<bool>) {
    match value
    case None => forall k :: k in table ==> !(k.0 == vehicle && IsIgnition(k.2) == ignition)
    case Some(v) =>
      exists k :: k in table && k.0 == vehicle && IsIgnition(k.2) == ignition
        && v == (k.2 == IgnitionOn || k.2 == MovementStart)
        && forall l :: l in table && l.0 == vehicle && IsIgnition(l.2) == ignition ==> l.1 <= k.1
  }

  ghost predicate Seeded(table: Table, vehicle: nat, known: Known) {
    Newest(table, vehicle, true, known.ignition) && Newest(table, vehicle, false, known.movement)
  }

  method LastTransition(table: Table, vehicle: nat, ignition: bool) returns (value: Option<bool>)
    ensures Newest(table, vehicle, ignition, value)
  {
    var best: Option<RowKey> := None;
    var left := table.Keys;
    while left != {}
      invariant left <= table.Keys
      invariant best.Some? ==> best.value in table && best.value.0 == vehicle && IsIgnition(best.value.2) == ignition
      invariant forall k :: k in table && k !in left && k.0 == vehicle && IsIgnition(k.2) == ignition ==>
        best.Some? && k.1 <= best.value.1
      decreases |left|
    {
      var k :| k in left;
      left := left - {k};
      if k.0 == vehicle && IsIgnition(k.2) == ignition && (best.None? || best.value.1 < k.1) {
        best := Some(k);
      }
    }
    value := if best.None? then None else Some(best.value.2 == IgnitionOn || best.value.2 == MovementStart);
  }

  class VehicleState {
    var ignition: Option<bool>
    var movement: Option<bool>

    constructor (known: Known)
      ensures Value() == known
    {
      ignition, movement := known.ignition, known.movement;
    }

    function Value(): Known
      reads this
    {
      Known(ignition, movement)
    }
  }

  method TransitionsFor(e: Event, state: VehicleState, isLive: bool) returns (transitions: seq<Transition>)
    modifies state
    ensures transitions == Transitions(e, old(state.Value()), isLive)
    ensures state.Value() == NextKnown(e, old(state.Value()), isLive)
  {
    transitions := [];
    if e.ignition.Some? {
      var deviceReportedChange := e.eventIoId == IGNITION_ID;
      var differsFromKnown := state.ignition.Some? && state.ignition.value != e.ignition.value;
      if deviceReportedChange || (isLive && differsFromKnown) {
        transitions := transitions + [if e.ignition.value then IgnitionOn else IgnitionOff];
      }
      if isLive { state.ignition := e.ignition; }
    }
    if e.movement.Some? {
      var deviceReportedChange := e.eventIoId == MOVEMENT_ID;
      var differsFromKnown := state.movement.Some? && state.movement.value != e.movement.value;
      if deviceReportedChange || (isLive && differsFromKnown) {
        transitions := transitions + [if e.movement.value then MovementStart else MovementStop];
      }
      if isLive { state.movement := e.movement; }
    }
  }

  /** What is known of the vehicles that were not cached does not matter to the others. */
  lemma {:induction false} MoreKnown(ds: seq<Delivery>, states: States, vehicle: nat, known: Known)
    requires Cached(ds, states) && vehicle !in states
    ensures Cached(ds, states[vehicle := known])
    ensures Final(ds, states[vehicle := known]) == Final(ds, states)[vehicle := known]
    ensures Emitted(ds, states[vehicle := known]) == Emitted(ds, states)
  {
    if ds != [] {
      MoreKnown(ds[..|ds| - 1], states, vehicle, known);
    }
  }

  /** The handler's input: readings that say something about an input, of known vehicles. */
  function Deliveries(events: seq<Event>, ids: map<string, nat>, isLive: bool): seq<Delivery> {
    if events == [] then []
    else
      var e := events[|events| - 1];
      Deliveries(events[..|events| - 1], ids, isLive)
      + if (e.ignition.Some? || e.movement.Some?) && e.imei in ids then [Delivery(ids[e.imei], e, isLive)] else []
  }

  class EngineHandler {
    var states: map<nat, VehicleState>
    var table: Table

    constructor (table: Table)
      ensures Valid() && this.table == table && states == map[]
    {
      states := map[];
      this.table := table;
    }

    /** No two vehicles share a state. */
    ghost predicate Valid()
      reads `states
    {
      forall a, b :: a in states && b in states && states[a] == states[b] ==> a == b
    }

    ghost function Cache(): States
      reads `states, states.Values
    {
      map v | v in states :: states[v].Value()
    }

    method LoadState(vehicle: nat) returns (state: VehicleState)
      requires Valid()
      modifies `states
      ensures Valid() && vehicle in states && states[vehicle] == state
      ensures vehicle in old(states) ==> states == old(states)
      ensures vehicle !in old(states) ==>
        fresh(state) && states == old(states)[vehicle := state] && Seeded(table, vehicle, state.Value())
      ensures Cache() == if vehicle in old(Cache()) then old(Cache()) else old(Cache())[vehicle := state.Value()]
    {
      if vehicle in states {
        return states[vehicle];
      }
      var ignition := LastTransition(table, vehicle, true);
      var movement := LastTransition(table, vehicle, false);
      state := new VehicleState(Known(ignition, movement));
      states := states[vehicle := state];
    }

    /** One reading; `loaded` is the cache once the vehicle's state is in it. */
    method HandleDelivery(d: Delivery) returns (rows: seq<Row>, ghost loaded: States)
      requires Valid()
      modifies `states, states.Values
      ensures Valid() && fresh(states.Values - old(states.Values))
      ensures d.vehicle in loaded
      ensures d.vehicle in old(Cache()) ==> loaded == old(Cache())
      ensures d.vehicle !in old(Cache()) ==>
        loaded == old(Cache())[d.vehicle := loaded[d.vehicle]] && Seeded(table, d.vehicle, loaded[d.vehicle])
      ensures Cache() == Updated(d, loaded) && rows == Emits(d, loaded)
    {
      hide Seeded, Transitions, NextKnown, Newest, RowsOf;
      var state := LoadState(d.vehicle);
      loaded := Cache();
      var transitions := TransitionsFor(d.event, state, d.isLive);
      assert Cache() == Updated(d, loaded) by {
        assert Cache().Keys == loaded.Keys;
        forall v | v in loaded && v != d.vehicle ensures Cache()[v] == loaded[v] {
          assert states[v] != state;
        }
      }
      rows := RowsOf(d, transitions);
    }

    /**
     One batch. `seeded` is the cache as it would be with every vehicle of the
     batch loaded beforehand.
     */
    method Handle(events: seq<Event>, ids: map<string, nat>, isLive: bool) returns (ghost seeded: States)
      requires Valid()
      modifies this, states.Values
      ensures Valid() && fresh(states.Values - old(states.Values))
      ensures Extends(old(Cache()), seeded)
      ensures forall v :: v in seeded && v !in old(Cache()) ==> Seeded(old(table), v, seeded[v])
      ensures var ds := Deliveries(events, ids, isLive);
        && Cached(ds, seeded)
        && Cache() == Final(ds, seeded)
        && table == InsertAll(old(table), KeyedRows(Emitted(ds, seeded)))
    {
      hide Progress, Updated, Emits, InsertAll, Deliveries, Valid, Cache, Seeded, Extends;
      seeded := Cache();
      ghost var cached := seeded;
      var ds := Deliveries(events, ids, isLive);
      var rows: seq<Row> := [];
      NoProgress(cached, table);
      for i := 0 to |ds|
        invariant Valid() && fresh(states.Values - old(states.Values))
        invariant table == old(table)
        invariant Progress(cached, table, ds[..i], seeded, Cache(), rows)
      {
        ghost var before := Cache();
        var more;
        ghost var loaded;
        more, loaded := HandleDelivery(ds[i]);
        ProgressStep(cached, table, ds[..i], seeded, before, rows, ds[i], loaded);
        seeded := if ds[i].vehicle in before then seeded else seeded[ds[i].vehicle := loaded[ds[i].vehicle]];
        rows := rows + more;
        assert ds[..i + 1] == ds[..i] + [ds[i]];
      }
      assert ds[..|ds|] == ds;
      ProgressMeans(cached, table, ds, seeded, Cache(), rows);
      table := InsertAll(table, KeyedRows(rows));
    }
  }

  /** The cache and the rows so far are those of the deliveries, starting from `seeded`. */
  ghost predicate Progress(cached: States, table: Table, ds: seq<Delivery>, seeded: States, now: States,
      rows: seq<Row>) {
    && Extends(cached, seeded)
    && (forall v :: v in seeded && v !in cached ==> Seeded(table, v, seeded[v]))
    && Cached(ds, seeded) && now == Final(ds, seeded) && rows == Emitted(ds, seeded)
  }

  lemma NoProgress(cached: States, table: Table)
    ensures Progress(cached, table, [], cached, cached, [])
  {
  }

  lemma ProgressMeans(cached: States, table: Table, ds: seq<Delivery>, seeded: States, now: States, rows: seq<Row>)
    requires Progress(cached, table, ds, seeded, now, rows)
    ensures Extends(cached, seeded)
    ensures forall v :: v in seeded && v !in cached ==> Seeded(table, v, seeded[v])
    ensures Cached(ds, seeded) && now == Final(ds, seeded) && rows == Emitted(ds, seeded)
  {
  }

  lemma ProgressStep(cached: States, table: Table, ds: seq<Delivery>, seeded: States, now: States, rows: seq<Row>,
                     d: Delivery, loaded: States)
    requires Progress(cached, table, ds, seeded, now, rows)
    requires d.vehicle in loaded
    requires d.vehicle in now ==> loaded == now
    requires d.vehicle !in now ==>
      loaded == now[d.vehicle := loaded[d.vehicle]] && Seeded(table, d.vehicle, loaded[d.vehicle])
    ensures Progress(cached, table, ds + [d],
                     if d.vehicle in now then seeded else seeded[d.vehicle := loaded[d.vehicle]],
                     Updated(d, loaded), rows + Emits(d, loaded))
  {
    hide Seeded, Updated, Emits, Cached;
    assert seeded.Keys == now.Keys;
    if d.vehicle !in now {
      MoreKnown(ds, seeded, d.vehicle, loaded[d.vehicle]);
    }
    DeliveryPushed(ds, d, if d.vehicle in now then seeded else seeded[d.vehicle := loaded[d.vehicle]]);
  }

  lemma DeliveryPushed(ds: seq<Delivery>, d: Delivery, states: States)
    requires Cached(ds, states) && d.vehicle in states
    ensures Cached(ds + [d], states)
    ensures Final(ds + [d], states) == Updated(d, Final(ds, states))
    ensures Emitted(ds + [d], states) == Emitted(ds, states) + Emits(d, Final(ds, states))
  {
    assert (ds + [d])[..|ds|] == ds;
  }

  /** Entries are added, never changed. */
  ghost predicate Extends(before: States, after: States) {
    forall v :: v in before ==> v in after && after[v] == before[v]
  }
}
