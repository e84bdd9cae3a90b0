/**
 Edge-triggered alerts (apps/telemetry-consumers/src/alerting/consumer.ts): the
 stored state of each vehicle and condition, and what is raised from it.
 */
module Alerting {
  import opened Wrappers
  import opened AlertRules

  datatype AlertState = AlertState(active: bool, lastFiredAt: Option<int>, updatedAt: int)

  datatype Alert = Alert(vehicle: nat, details: Candidate, recordedAt: int)

  type Key = (nat, AlertType)

  const ALERT_TYPES: seq<AlertType> := [LowFuel, GeofenceExit, Speeding]

  // ---------- one condition of one vehicle ----------

  /** A fresh reading, as one condition sees it. */
  datatype Reading = Reading(holding: bool, at: int)

  predicate Fires(existing: Option<AlertState>, r: Reading, cooldown: int) {
    r.holding &&
    (existing.None? || !existing.value.active ||
     (existing.value.lastFiredAt.Some? && r.at - existing.value.lastFiredAt.value >= cooldown))
  }

  function Next(existing: Option<AlertState>, r: Reading, cooldown: int): Option<AlertState> {
    if r.holding then
      var lastFired := if Fires(existing, r, cooldown) then Some(r.at) else existing.value.lastFiredAt;
      Some(AlertState(true, lastFired, r.at))
    else if existing.Some? && existing.value.active then
      Some(existing.value.(active := false, updatedAt := r.at))
    else
      existing
  }

  /** The stored state after a sequence of readings. */
  function After(rs: seq<Reading>, cooldown: int): Option<AlertState> {
    if rs == [] then None
    else Next(After(rs[..|rs| - 1], cooldown), rs[|rs| - 1], cooldown)
  }

  predicate FiresAt(rs: seq<Reading>, i: nat, cooldown: int)
    requires i < |rs|
  {
    Fires(After(rs[..i], cooldown), rs[i], cooldown)
  }

  /** The times of the alerts raised by the readings from `i` to before `j`. */
  function AlertTimes(rs: seq<Reading>, i: nat, j: nat, cooldown: int): seq<int>
    requires i <= j <= |rs|
  {
    if i == j then []
    else AlertTimes(rs, i, j - 1, cooldown) + if FiresAt(rs, j - 1, cooldown) then [rs[j - 1].at] else []
  }

  /**
   The stored state means: active, whether the latest reading met the rule;
   last fired, the time of the last alert.
   */
  lemma {:induction false} StateMeans(rs: seq<Reading>, cooldown: int)
    ensures var s := After(rs, cooldown);
      var times := AlertTimes(rs, 0, |rs|, cooldown);
      && (s.Some? <==> times != [])
      && (s.Some? && s.value.active <==> rs != [] && rs[|rs| - 1].holding)
      && (s.Some? ==> s.value.lastFiredAt == Some(times[|times| - 1]))
  {
    if rs != [] {
      var before := rs[..|rs| - 1];
      StateMeans(before, cooldown);
      SameTimes(before, rs, 0, |rs| - 1, cooldown);
    }
  }

  lemma {:induction false} SameTimes(before: seq<Reading>, rs: seq<Reading>, i: nat, j: nat, cooldown: int)
    requires i <= j <= |before| && before <= rs
    ensures AlertTimes(before, i, j, cooldown) == AlertTimes(rs, i, j, cooldown)
    decreases j
  {
    if i < j {
      SameTimes(before, rs, i, j - 1, cooldown);
      assert before[..j - 1] == rs[..j - 1];
    }
  }

  /**
   Exactly which readings raise an alert: the rule is met, and either it was
   not met by the reading before, or the last alert is a cooldown ago.
   */
  lemma FiresExactly(rs: seq<Reading>, i: nat, cooldown: int)
    requires i < |rs|
    ensures var earlier := AlertTimes(rs, 0, i, cooldown);
      FiresAt(rs, i, cooldown) <==>
        && rs[i].holding
        && (i == 0 || !rs[i - 1].holding || (earlier != [] && rs[i].at - earlier[|earlier| - 1] >= cooldown))
  {
    hide After, AlertTimes, Next;
    StateMeans(rs[..i], cooldown);
    SameTimes(rs[..i], rs, 0, i, cooldown);
  }

  /** All readings from `i` to before `j` meet the rule. */
  predicate Holding(rs: seq<Reading>, i: nat, j: nat)
    requires i <= j <= |rs|
  {
    forall k :: i <= k < j ==> rs[k].holding
  }

  lemma {:induction false} LastInRun(rs: seq<Reading>, i: nat, j: nat, cooldown: int)
    requires i < j <= |rs| && Holding(rs, i, j)
    requires AlertTimes(rs, i, j, cooldown) != []
    ensures var times, all := AlertTimes(rs, i, j, cooldown), AlertTimes(rs, 0, j, cooldown);
      all != [] && all[|all| - 1] == times[|times| - 1]
    decreases j
  {
    if !FiresAt(rs, j - 1, cooldown) {
      LastInRun(rs, i, j - 1, cooldown);
    }
  }

  /**
   While a condition keeps holding, `n` alerts span at least `n - 1` cooldowns,
   in whatever order the readings' times come.
   */
  lemma {:induction false} AlertSpacing(rs: seq<Reading>, i: nat, j: nat, cooldown: int)
    requires i <= j <= |rs| && Holding(rs, i, j)
    ensures var times := AlertTimes(rs, i, j, cooldown);
      times != [] ==> (|times| - 1) * cooldown <= times[|times| - 1] - times[0]
    decreases j
  {
    if i < j {
      AlertSpacing(rs, i, j - 1, cooldown);
      var times := AlertTimes(rs, i, j - 1, cooldown);
      if FiresAt(rs, j - 1, cooldown) && times != [] {
        LastInRun(rs, i, j - 1, cooldown);
        FiresExactly(rs, j - 1, cooldown);
        assert AlertTimes(rs, i, j, cooldown) == times + [rs[j - 1].at];
        assert |times| * cooldown == (|times| - 1) * cooldown + cooldown;
      }
    }
  }

  /** A condition that starts to hold is reported at once. */
  lemma EdgeFires(rs: seq<Reading>, i: nat, cooldown: int)
    requires i < |rs| && rs[i].holding && (i == 0 || !rs[i - 1].holding)
    ensures rs[i].at in AlertTimes(rs, 0, i + 1, cooldown)
  {
    FiresExactly(rs, i, cooldown);
  }

  // ---------- all vehicles ----------

  /** A fresh reading of a vehicle with the candidates of the rules it meets. */
  datatype Observed = Observed(vehicle: nat, at: int, found: map<AlertType, Candidate>)

  predicate WellTyped(o: Observed) {
    forall t :: t in o.found ==> o.found[t].Type() == t
  }

  datatype Tables = Tables(states: map<Key, AlertState>, alerts: seq<Alert>)

  function StateOf(t: Tables, key: Key): Option<AlertState> {
    if key in t.states then Some(t.states[key]) else None
  }

  function Store(states: map<Key, AlertState>, key: Key, s: Option<AlertState>): map<Key, AlertState> {
    if s.Some? then states[key := s.value] else states
  }

  function ApplyType(t: Tables, o: Observed, alertType: AlertType, cooldown: int): Tables {
    var key := (o.vehicle, alertType);
    var r := Reading(alertType in o.found, o.at);
    var existing := StateOf(t, key);
    Tables(Store(t.states, key, Next(existing, r, cooldown)),
           t.alerts + if Fires(existing, r, cooldown) then [Alert(o.vehicle, o.found[alertType], o.at)] else [])
  }

  function Apply(t: Tables, o: Observed, cooldown: int): Tables {
    ApplyType(ApplyType(ApplyType(t, o, LowFuel, cooldown), o, GeofenceExit, cooldown), o, Speeding, cooldown)
  }

  function ApplyAll(t: Tables, os: seq<Observed>, cooldown: int): Tables {
    if os == [] then t else Apply(ApplyAll(t, os[..|os| - 1], cooldown), os[|os| - 1], cooldown)
  }

  /** Cutting the readings into batches differently changes nothing. */
  lemma {:induction false} ApplyConcat(t: Tables, a: seq<Observed>, b: seq<Observed>, cooldown: int)
    ensures ApplyAll(ApplyAll(t, a, cooldown), b, cooldown) == ApplyAll(t, a + b, cooldown)
    decreases |b|
  {
    hide Apply;
    if b == [] {
      assert a + b == a;
    } else {
      var last := |b| - 1;
      ApplyConcat(t, a, b[..last], cooldown);
      assert (a + b)[..|a + b| - 1] == a + b[..last];
    }
  }

  /** The readings of one vehicle, as one condition sees them. */
  function Readings(os: seq<Observed>, key: Key): seq<Reading> {
    if os == [] then []
    else
      var o := os[|os| - 1];
      Readings(os[..|os| - 1], key) + if o.vehicle == key.0 then [Reading(key.1 in o.found, o.at)] else []
  }

  /** The times of the alerts of one vehicle and condition. */
  function TimesOf(alerts: seq<Alert>, key: Key): seq<int> {
    if alerts == [] then []
    else
      var a := alerts[|alerts| - 1];
      TimesOf(alerts[..|alerts| - 1], key) + if (a.vehicle, a.details.Type()) == key then [a.recordedAt] else []
  }

  lemma TimesPushed(alerts: seq<Alert>, a: Alert, key: Key)
    ensures TimesOf(alerts + [a], key)
         == TimesOf(alerts, key) + if (a.vehicle, a.details.Type()) == key then [a.recordedAt] else []
  {
    assert (alerts + [a])[..|alerts|] == alerts;
  }

  lemma ApplyTypeOn(t: Tables, o: Observed, alertType: AlertType, cooldown: int, key: Key)
    requires WellTyped(o)
    ensures var after := ApplyType(t, o, alertType, cooldown);
      if key == (o.vehicle, alertType) then
        && StateOf(after, key) == Next(StateOf(t, key), Reading(alertType in o.found, o.at), cooldown)
        && TimesOf(after.alerts, key) == TimesOf(t.alerts, key)
             + if Fires(StateOf(t, key), Reading(alertType in o.found, o.at), cooldown) then [o.at] else []
      else
        StateOf(after, key) == StateOf(t, key) && TimesOf(after.alerts, key) == TimesOf(t.alerts, key)
  {
    var existing := StateOf(t, (o.vehicle, alertType));
    if Fires(existing, Reading(alertType in o.found, o.at), cooldown) {
      TimesPushed(t.alerts, Alert(o.vehicle, o.found[alertType], o.at), key);
    } else {
      assert t.alerts + [] == t.alerts;
    }
  }

  lemma ApplyOn(t: Tables, o: Observed, cooldown: int, key: Key)
    requires WellTyped(o)
    ensures var after := Apply(t, o, cooldown);
      var r := Reading(key.1 in o.found, o.at);
      if key.0 == o.vehicle then
        && StateOf(after, key) == Next(StateOf(t, key), r, cooldown)
        && TimesOf(after.alerts, key)
             == TimesOf(t.alerts, key) + if Fires(StateOf(t, key), r, cooldown) then [o.at] else []
      else
        StateOf(after, key) == StateOf(t, key) && TimesOf(after.alerts, key) == TimesOf(t.alerts, key)
  {
    hide ApplyType, Next, Fires, TimesOf, StateOf, WellTyped;
    var a := ApplyType(t, o, LowFuel, cooldown);
    var b := ApplyType(a, o, GeofenceExit, cooldown);
    ApplyTypeOn(t, o, LowFuel, cooldown, key);
    ApplyTypeOn(a, o, GeofenceExit, cooldown, key);
    ApplyTypeOn(b, o, Speeding, cooldown, key);
    assert key == (key.0, key.1);
    match key.1 {
      case LowFuel => case GeofenceExit => case Speeding =>
    }
  }

  /**
   The state and the alerts of one vehicle and condition are those of its own
   readings alone: other vehicles and other conditions never affect them.
   */
  lemma {:induction false} Independent(os: seq<Observed>, cooldown: int, key: Key)
    requires forall o :: o in os ==> WellTyped(o)
    ensures var t := ApplyAll(Tables(map[], []), os, cooldown);
      var rs := Readings(os, key);
      && StateOf(t, key) == After(rs, cooldown)
      && TimesOf(t.alerts, key) == AlertTimes(rs, 0, |rs|, cooldown)
    decreases |os|
  {
    hide Apply, WellTyped, Next, Fires;
    if os != [] {
      var last := |os| - 1;
      var before := Readings(os[..last], key);
      Independent(os[..last], cooldown, key);
      ApplyOn(ApplyAll(Tables(map[], []), os[..last], cooldown), os[last], cooldown, key);
      if os[last].vehicle == key.0 {
        var rs := before + [Reading(key.1 in os[last].found, os[last].at)];
        assert rs[..|rs| - 1] == before;
        SameTimes(before, rs, 0, |before|, cooldown);
      } else {
        assert before + [] == before;
      }
    }
  }

  /**
   The stored tables after any readings: a condition is active exactly when the
   vehicle's latest reading met it, and `lastFiredAt` is the time of its last alert.
   */
  lemma TablesMean(os: seq<Observed>, cooldown: int, key: Key)
    requires forall o :: o in os ==> WellTyped(o)
    ensures var t := ApplyAll(Tables(map[], []), os, cooldown);
      var rs, times := Readings(os, key), TimesOf(t.alerts, key);
      && (key in t.states && t.states[key].active <==> rs != [] && rs[|rs| - 1].holding)
      && (key in t.states <==> times != [])
      && (key in t.states ==> t.states[key].lastFiredAt == Some(times[|times| - 1]))
  {
    Independent(os, cooldown, key);
    StateMeans(Readings(os, key), cooldown);
  }

  // ---------- the handler ----------

  /** The readings of a batch young enough to raise an alarm. */
  function Recent(events: seq<Event>, cutoff: int): seq<Event> {
    if events == [] then []
    else
      var e := events[|events| - 1];
      Recent(events[..|events| - 1], cutoff) + if e.recordedAt >= cutoff then [e] else []
  }

  function Observe(e: Event, vehicle: nat, config: Config, distance: Distance): (o: Observed)
    ensures WellTyped(o)
    ensures forall t :: t in o.found <==> RuleMet(t, e, config, distance)
  {
    Observed(vehicle, e.recordedAt,
             map t: AlertType | t in ALERT_TYPES && CandidateOf(t, e, config, distance).Some? ::
               CandidateOf(t, e, config, distance).value)
  }

  /** What the handler looks at: the readings whose vehicle is known. */
  function ObserveAll(events: seq<Event>, ids: map<string, nat>, config: Config,
      distance: Distance): (os: seq<Observed>)
    ensures forall o :: o in os ==> WellTyped(o)
  {
    if events == [] then []
    else
      var e := events[|events| - 1];
      ObserveAll(events[..|events| - 1], ids, config, distance)
      + if e.imei in ids then [Observe(e, ids[e.imei], config, distance)] else []
  }

  datatype Settings = Settings(lowFuelPct: int, speedLimitKph: int, cooldownMs: int, maxAgeMs: int,
      geofenceRefreshMs: int)

  datatype Loaded = Loaded(geofences: seq<Geofence>, loadedAt: int)

  /** The zones in use: a cached list, or the table's rows when it is too old. */
  function InUse(cache: Option<Loaded>, now: int, table: seq<Geofence>, refresh: int): seq<Geofence> {
    if cache.Some? && now - cache.value.loadedAt < refresh then cache.value.geofences else table
  }

  /** The cache after a batch looked at the zones. */
  function Refreshed(cache: Option<Loaded>, now: int, table: seq<Geofence>, later: int, refresh: int): Option<Loaded> {
    if cache.Some? && now - cache.value.loadedAt < refresh then cache else Some(Loaded(table, later))
  }

  class AlertingHandler {
    const settings: Settings
    var states: map<Key, AlertState>
    var alerts: seq<Alert>
    var cache: Option<Loaded>

    constructor (settings: Settings)
      ensures this.settings == settings && Stored() == Tables(map[], []) && cache == None
    {
      this.settings := settings;
      states := map[];
      alerts := [];
      cache := None;
    }

    function Stored(): Tables
      reads this
    {
      Tables(states, alerts)
    }

    /** `table` are the active rows; the two times are successive readings of the clock. */
    method ActiveGeofences(table: seq<Geofence>, now: int, later: int) returns (geofences: seq<Geofence>)
      modifies `cache
      ensures geofences == InUse(old(cache), now, table, settings.geofenceRefreshMs)
      ensures cache == Refreshed(old(cache), now, table, later, settings.geofenceRefreshMs)
      ensures cache.Some? && cache.value.geofences == geofences
    {
      if cache.Some? && now - cache.value.loadedAt < settings.geofenceRefreshMs {
        return cache.value.geofences;
      }
      cache := Some(Loaded(table, later));
      return table;
    }

    method ShouldFire(vehicle: nat, alertType: AlertType, holding: bool, at: int) returns (fire: bool)
      modifies `states
      ensures var existing := old(StateOf(Stored(), (vehicle, alertType)));
        && (fire ==> holding)
        && fire == Fires(existing, Reading(holding, at), settings.cooldownMs)
        && states == Store(old(states), (vehicle, alertType), Next(existing, Reading(holding, at), settings.cooldownMs))
    {
      var key := (vehicle, alertType);
      if !holding {
        if key in states && states[key].active {
          states := states[key := states[key].(active := false, updatedAt := at)];
        } else {
          assert key in states ==> states == states[key := states[key]];
        }
        return false;
      }
      var cooledDown := key in states && states[key].lastFiredAt.Some?
        && at - states[key].lastFiredAt.value >= settings.cooldownMs;
      fire := key !in states || !states[key].active || cooledDown;
      if key !in states {
        states := states[key := AlertState(true, Some(at), at)];
      } else {
        var lastFired := if fire then Some(at) else states[key].lastFiredAt;
        states := states[key := AlertState(true, lastFired, at)];
      }
    }

    method HandleEvent(e: Event, vehicle: nat, config: Config, distance: Distance)
      modifies `states, `alerts
      ensures Stored() == Apply(old(Stored()), Observe(e, vehicle, config, distance), settings.cooldownMs)
    {
      hide RuleMet, Accurate, CandidateOf, ByType, Next, Fires, Store;
      var candidates := EvaluateRules(e, config, distance);
      ghost var o := Observe(e, vehicle, config, distance);
      ghost var t := Stored();
      for i := 0 to 3
        invariant Stored() == match i
          case 0 => t
          case 1 => ApplyType(t, o, LowFuel, settings.cooldownMs)
          case 2 => ApplyType(ApplyType(t, o, LowFuel, settings.cooldownMs), o, GeofenceExit, settings.cooldownMs)
          case _ => Apply(t, o, settings.cooldownMs)
      {
        var alertType := ALERT_TYPES[i];
        var candidate := ByType(candidates, alertType);
        var fire := ShouldFire(vehicle, alertType, candidate.Some?, e.recordedAt);
        if fire {
          alerts := alerts + [Alert(vehicle, candidate.value, e.recordedAt)];
        } else {
          assert alerts + [] == alerts;
        }
      }
    }

    /** One batch: the readings that are too old leave no trace, and without others the zones are not looked at. */
    method Handle(events: seq<Event>, ids: map<string, nat>, table: seq<Geofence>, distance: Distance,
                  now: int, checked: int, loaded: int)
      modifies this
      ensures var recent := Recent(events, now - settings.maxAgeMs);
        var zones := InUse(old(cache), checked, table, settings.geofenceRefreshMs);
        var config := Config(settings.lowFuelPct, settings.speedLimitKph, zones);
        Stored() == ApplyAll(old(Stored()), ObserveAll(recent, ids, config, distance), settings.cooldownMs)
      ensures cache == if Recent(events, now - settings.maxAgeMs) == [] then old(cache)
                       else Refreshed(old(cache), checked, table, loaded, settings.geofenceRefreshMs)
    {
      hide Apply, Observe;
      ghost var t := Stored();
      var recent := Recent(events, now - settings.maxAgeMs);
      if |recent| == 0 {
        return;
      }
      var zones := ActiveGeofences(table, checked, loaded);
      var config := Config(settings.lowFuelPct, settings.speedLimitKph, zones);
      for i := 0 to |recent|
        invariant Stored() == ApplyAll(t, ObserveAll(recent[..i], ids, config, distance), settings.cooldownMs)
        invariant cache == Refreshed(old(cache), checked, table, loaded, settings.geofenceRefreshMs)
      {
        assert recent[..i + 1][..i] == recent[..i];
        ghost var os := ObserveAll(recent[..i], ids, config, distance);
        if recent[i].imei in ids {
          ghost var o := Observe(recent[i], ids[recent[i].imei], config, distance);
          assert (os + [o])[..|os|] == os;
          HandleEvent(recent[i], ids[recent[i].imei], config, distance);
        } else {
          assert os + [] == os;
        }
      }
      assert recent[..|recent|] == recent;
    }
  }
}
