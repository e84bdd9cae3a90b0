/**
 The vehicle registry (apps/telemetry-consumers/src/vehicles.ts): a table with
 a unique IMEI, and in each consumer a cache over it.
 */
module Vehicles {
  import opened Wrappers

  /** Every entry of a cache is the table's. */
  predicate Agrees(cache: map<string, nat>, rows: map<string, nat>) {
    forall imei :: imei in cache ==> imei in rows && rows[imei] == cache[imei]
  }

  /** Rows are added, never changed. */
  predicate Extends(before: map<string, nat>, after: map<string, nat>) {
    forall imei :: imei in before ==> imei in after && after[imei] == before[imei]
  }

  predicate OneToOne(rows: map<string, nat>) {
    forall a, b :: a in rows && b in rows && rows[a] == rows[b] ==> a == b
  }

  // ---------- one consumer ----------

  class VehicleTable {
    var rows: map<string, nat>

    constructor ()
      ensures rows == map[]
    {
      rows := map[];
    }

    /** Insert with "on conflict do nothing"; `newId` is the id the row would get. */
    method InsertIfAbsent(imei: string, newId: nat)
      modifies this
      ensures rows == if imei in old(rows) then old(rows) else old(rows)[imei := newId]
    {
      if imei !in rows {
        rows := rows[imei := newId];
      }
    }
  }

  class VehicleRegistry {
    const db: VehicleTable
    var cache: map<string, nat>

    constructor (db: VehicleTable)
      ensures this.db == db && cache == map[]
    {
      this.db := db;
      cache := map[];
    }

    method Resolve(imei: string, newId: nat) returns (id: nat)
      requires Agrees(cache, db.rows)
      modifies this, db
      ensures imei in db.rows && id == db.rows[imei]
      ensures db.rows == if imei in old(db.rows) then old(db.rows) else old(db.rows)[imei := newId]
      ensures cache == old(cache)[imei := id]
    {
      if imei in cache {
        assert cache == cache[imei := cache[imei]];
        return cache[imei];
      }
      db.InsertIfAbsent(imei, newId);
      id := db.rows[imei];
      cache := cache[imei := id];
    }

    /** Each device is resolved once, however often it occurs; `newIds` are the ids new rows would get. */
    method ResolveAll(imeis: seq<string>, newIds: string -> nat) returns (resolved: map<string, nat>)
      requires Agrees(cache, db.rows)
      modifies this, db
      ensures resolved.Keys == set i | i in imeis
      ensures Agrees(resolved, db.rows) && Agrees(cache, db.rows)
      ensures Extends(old(db.rows), db.rows)
      ensures db.rows.Keys == old(db.rows).Keys + set i | i in imeis
    {
      resolved := map[];
      var distinct := set i | i in imeis;
      ghost var all := distinct;
      while distinct != {}
        invariant distinct <= all
        invariant resolved.Keys == all - distinct
        invariant Agrees(resolved, db.rows) && Agrees(cache, db.rows)
        invariant Extends(old(db.rows), db.rows)
        invariant db.rows.Keys == old(db.rows).Keys + (all - distinct)
        decreases |distinct|
      {
        var imei :| imei in distinct;
        distinct := distinct - {imei};
        var id := Resolve(imei, newIds(imei));
        resolved := resolved[imei := id];
      }
    }
  }

  // ---------- racing consumers ----------

  /** Where a consumer is: idle, or between its insert and reading the row back. */
  datatype Pc = Idle | Inserted(imei: string)

  datatype Consumer = Consumer(cache: map<string, nat>, pc: Pc)

  datatype Answer = Answer(imei: string, id: nat)

  datatype World = World(rows: map<string, nat>, consumers: map<nat, Consumer>, answers: seq<Answer>)

  datatype Action =
    | Hit(consumer: nat, imei: string)
    | TryInsert(consumer: nat, imei: string, newId: nat)
    | ReadBack(consumer: nat)
    | Start(consumer: nat)

  /** New ids are new: the database generates them. */
  predicate Enabled(w: World, a: Action) {
    match a
    case Hit(c, imei) => c in w.consumers && w.consumers[c].pc == Idle && imei in w.consumers[c].cache
    case TryInsert(c, imei, newId) =>
      c in w.consumers && w.consumers[c].pc == Idle && imei !in w.consumers[c].cache && newId !in w.rows.Values
    case ReadBack(c) => c in w.consumers && w.consumers[c].pc.Inserted?
    case Start(c) => true
  }

  /** `None` stands for the error of a row that vanished. */
  function Apply(w: World, a: Action): Option<World>
    requires Enabled(w, a)
  {
    match a
    case Hit(c, imei) => Some(w.(answers := w.answers + [Answer(imei, w.consumers[c].cache[imei])]))
    case TryInsert(c, imei, newId) =>
      Some(w.(rows := if imei in w.rows then w.rows else w.rows[imei := newId],
              consumers := w.consumers[c := w.consumers[c].(pc := Inserted(imei))]))
    case ReadBack(c) =>
      var imei := w.consumers[c].pc.imei;
      if imei !in w.rows then None
      else Some(w.(consumers := w.consumers[c := Consumer(w.consumers[c].cache[imei := w.rows[imei]], Idle)],
                   answers := w.answers + [Answer(imei, w.rows[imei])]))
    case Start(c) => Some(w.(consumers := w.consumers[c := Consumer(map[], Idle)]))
  }

  predicate Consistent(w: World) {
    && OneToOne(w.rows)
    && (forall c :: c in w.consumers ==> Agrees(w.consumers[c].cache, w.rows))
    && (forall c :: c in w.consumers && w.consumers[c].pc.Inserted? ==> w.consumers[c].pc.imei in w.rows)
    && (forall i :: 0 <= i < |w.answers| ==>
          w.answers[i].imei in w.rows && w.rows[w.answers[i].imei] == w.answers[i].id)
  }

  lemma StepConsistent(w: World, a: Action)
    requires Consistent(w) && Enabled(w, a)
    ensures Apply(w, a).Some?
    ensures Consistent(Apply(w, a).value) && Extends(w.rows, Apply(w, a).value.rows)
        && w.answers <= Apply(w, a).value.answers
  {
    var after := Apply(w, a).value;
    if a.TryInsert? && a.imei !in w.rows {
      assert forall imei :: imei in w.rows ==> w.rows[imei] in w.rows.Values;
    }
  }

  ghost predicate Steps(w: World, actions: seq<Action>, after: World)
    decreases |actions|
  {
    if actions == [] then after == w
    else Enabled(w, actions[0]) && Apply(w, actions[0]).Some? && Steps(Apply(w, actions[0]).value, actions[1..], after)
  }

  /**
   However consumers race, restart and interleave: no row vanishes after its
   insert, every cache agrees with the table, and a device keeps one id.
   */
  lemma {:induction false} RunConsistent(w: World, actions: seq<Action>, after: World)
    requires Consistent(w) && Steps(w, actions, after)
    ensures Consistent(after) && Extends(w.rows, after.rows) && w.answers <= after.answers
    decreases |actions|
  {
    hide Consistent, Enabled, Apply;
    if actions != [] {
      StepConsistent(w, actions[0]);
      RunConsistent(Apply(w, actions[0]).value, actions[1..], after);
    }
  }

  /** Two answers name the same vehicle exactly when they are about the same device. */
  lemma StableIds(actions: seq<Action>, after: World, i: nat, j: nat)
    requires Steps(World(map[], map[], []), actions, after)
    requires i < |after.answers| && j < |after.answers|
    ensures after.answers[i].imei == after.answers[j].imei <==> after.answers[i].id == after.answers[j].id
  {
    RunConsistent(World(map[], map[], []), actions, after);
  }

  /** No run reaches the error of a row that vanished. */
  lemma NeverVanishes(actions: seq<Action>, after: World, a: Action)
    requires Steps(World(map[], map[], []), actions, after) && Enabled(after, a)
    ensures Apply(after, a).Some?
  {
    RunConsistent(World(map[], map[], []), actions, after);
    StepConsistent(after, a);
  }
}
