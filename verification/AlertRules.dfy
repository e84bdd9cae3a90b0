/**
 The alert conditions of one reading (apps/telemetry-consumers/src/alerting/rules.ts).
 The great-circle distance is a parameter.
 */
module AlertRules {
  import opened Wrappers

  datatype AlertType = LowFuel | GeofenceExit | Speeding

  datatype Position = Position(latitude: real, longitude: real)

  datatype GpsFix = GpsFix(position: Position, speedKph: int)

  datatype FuelReading = FuelReading(source: string, pct: Option<int>)

  datatype Geofence = Geofence(id: nat, name: string, center: Position, radiusM: real)

  datatype Event = Event(imei: string, recordedAt: int, fuel: seq<FuelReading>, gps: Option<GpsFix>)

  datatype Config = Config(lowFuelPct: int, speedLimitKph: int, geofences: seq<Geofence>)

  type Distance = (Position, Position) -> real

  datatype Candidate =
    | LowFuelFound(levelPct: int, thresholdPct: int, source: string)
    | SpeedingFound(speedKph: int, limitKph: int)
    | OutsideFound(nearest: Geofence, distanceM: real)
  {
    function Type(): AlertType {
      match this
      case LowFuelFound(_, _, _) => LowFuel
      case SpeedingFound(_, _) => Speeding
      case OutsideFound(_, _) => GeofenceExit
    }
  }

  // ---------- what the rules mean ----------

  /** Whether a reading meets a rule: any sensor below, the speed above, or outside every zone. */
  predicate RuleMet(t: AlertType, e: Event, config: Config, distance: Distance) {
    match t
    case LowFuel =>
      exists i :: 0 <= i < |e.fuel| && e.fuel[i].pct.Some? && e.fuel[i].pct.value < config.lowFuelPct
    case Speeding =>
      e.gps.Some? && e.gps.value.speedKph > config.speedLimitKph
    case GeofenceExit =>
      && e.gps.Some? && config.geofences != []
      && forall i :: 0 <= i < |config.geofences| ==>
           distance(e.gps.value.position, config.geofences[i].center) > config.geofences[i].radiusM
  }

  /** What a candidate reports: a lowest sensor, the speed, or a nearest zone. */
  ghost predicate Accurate(c: Candidate, e: Event, config: Config, distance: Distance) {
    match c
    case LowFuelFound(level, threshold, source) =>
      && threshold == config.lowFuelPct
      && FuelReading(source, Some(level)) in e.fuel
      && forall i :: 0 <= i < |e.fuel| && e.fuel[i].pct.Some? ==> level <= e.fuel[i].pct.value
    case SpeedingFound(speed, limit) =>
      e.gps.Some? && speed == e.gps.value.speedKph && limit == config.speedLimitKph
    case OutsideFound(nearest, d) =>
      && e.gps.Some? && nearest in config.geofences
      && d == distance(e.gps.value.position, nearest.center)
      && forall i :: 0 <= i < |config.geofences| ==> d <= distance(e.gps.value.position, config.geofences[i].center)
  }

  // ---------- the reductions ----------

  /** The first of the lowest readings that carry a percentage. */
  function Lowest(fuel: seq<FuelReading>): (worst: Option<(string, int)>)
    ensures worst.None? <==> forall i :: 0 <= i < |fuel| ==> fuel[i].pct.None?
    ensures worst.Some? ==> FuelReading(worst.value.0, Some(worst.value.1)) in fuel
    ensures worst.Some? ==> forall i :: 0 <= i < |fuel| && fuel[i].pct.Some? ==> worst.value.1 <= fuel[i].pct.value
  {
    if fuel == [] then
      None
    else
      var last := fuel[|fuel| - 1];
      var worst := Lowest(fuel[..|fuel| - 1]);
      if last.pct.Some? && (worst.None? || last.pct.value < worst.value.1) then Some((last.source, last.pct.value))
      else worst
  }

  function Nearest(p: Position, geofences: seq<Geofence>, distance: Distance): (best: Geofence)
    requires geofences != []
    ensures best in geofences
    ensures forall i :: 0 <= i < |geofences| ==> distance(p, best.center) <= distance(p, geofences[i].center)
  {
    var last := geofences[|geofences| - 1];
    if |geofences| == 1 then
      last
    else
      var best := Nearest(p, geofences[..|geofences| - 1], distance);
      if distance(p, last.center) < distance(p, best.center) then last else best
  }

  /** Of several lowest readings the first is reported. */
  lemma {:induction false} FirstLowest(fuel: seq<FuelReading>) returns (i: nat)
    requires Lowest(fuel).Some?
    ensures i < |fuel| && fuel[i] == FuelReading(Lowest(fuel).value.0, Some(Lowest(fuel).value.1))
    ensures forall j :: 0 <= j < i && fuel[j].pct.Some? ==> fuel[j].pct.value > Lowest(fuel).value.1
  {
    var last := |fuel| - 1;
    if Lowest(fuel[..last]).Some? && Lowest(fuel) == Lowest(fuel[..last]) {
      i := FirstLowest(fuel[..last]);
    } else {
      i := last;
    }
  }

  /** Of several nearest zones the first is reported. */
  lemma {:induction false} FirstNearest(p: Position, geofences: seq<Geofence>, distance: Distance) returns (i: nat)
    requires geofences != []
    ensures i < |geofences| && geofences[i] == Nearest(p, geofences, distance)
    ensures forall j :: 0 <= j < i ==>
              distance(p, geofences[j].center) > distance(p, Nearest(p, geofences, distance).center)
  {
    var last := |geofences| - 1;
    if last > 0 && !(distance(p, geofences[last].center)
                     < distance(p, Nearest(p, geofences[..last], distance).center)) {
      i := FirstNearest(p, geofences[..last], distance);
    } else {
      i := last;
    }
  }

  predicate Inside(p: Position, geofences: seq<Geofence>, distance: Distance) {
    exists i :: 0 <= i < |geofences| && distance(p, geofences[i].center) <= geofences[i].radiusM
  }

  /** The candidate for one rule: there is one exactly when the rule is met, and it reports what was found. */
  function CandidateOf(t: AlertType, e: Event, config: Config, distance: Distance): (c: Option<Candidate>)
    ensures c.Some? <==> RuleMet(t, e, config, distance)
    ensures c.Some? ==> c.value.Type() == t && Accurate(c.value, e, config, distance)
  {
    match t
    case LowFuel =>
      var lowest := Lowest(e.fuel);
      if lowest.Some? && lowest.value.1 < config.lowFuelPct
      then Some(LowFuelFound(lowest.value.1, config.lowFuelPct, lowest.value.0)) else None
    case Speeding =>
      if e.gps.Some? && e.gps.value.speedKph > config.speedLimitKph
      then Some(SpeedingFound(e.gps.value.speedKph, config.speedLimitKph)) else None
    case GeofenceExit =>
      if e.gps.Some? && config.geofences != [] && !Inside(e.gps.value.position, config.geofences, distance)
      then
        var nearest := Nearest(e.gps.value.position, config.geofences, distance);
        Some(OutsideFound(nearest, distance(e.gps.value.position, nearest.center)))
      else None
  }

  /** The entry for `t` of a Map built from the list. */
  function ByType(candidates: seq<Candidate>, t: AlertType): Option<Candidate> {
    if candidates == [] then None
    else if candidates[|candidates| - 1].Type() == t then Some(candidates[|candidates| - 1])
    else ByType(candidates[..|candidates| - 1], t)
  }

  lemma ByTypePushed(candidates: seq<Candidate>, c: Candidate, t: AlertType)
    ensures ByType(candidates + [c], t) == if c.Type() == t then Some(c) else ByType(candidates, t)
  {
    assert (candidates + [c])[..|candidates|] == candidates;
  }

  lemma NothingByType()
    ensures forall t :: ByType([], t) == None
  {
  }

  lemma CandidatesSpelt(e: Event, config: Config, distance: Distance)
    ensures var lowest := Lowest(e.fuel);
      CandidateOf(LowFuel, e, config, distance) ==
        if lowest.Some? && lowest.value.1 < config.lowFuelPct
        then Some(LowFuelFound(lowest.value.1, config.lowFuelPct, lowest.value.0)) else None
    ensures CandidateOf(Speeding, e, config, distance) ==
      if e.gps.Some? && e.gps.value.speedKph > config.speedLimitKph
      then Some(SpeedingFound(e.gps.value.speedKph, config.speedLimitKph)) else None
    ensures CandidateOf(GeofenceExit, e, config, distance) ==
      if e.gps.Some? && config.geofences != [] && !Inside(e.gps.value.position, config.geofences, distance)
      then
        var nearest := Nearest(e.gps.value.position, config.geofences, distance);
        Some(OutsideFound(nearest, distance(e.gps.value.position, nearest.center)))
      else None
  {
    hide RuleMet, Accurate, Lowest, Nearest, Inside;
  }

  method EvaluateRules(e: Event, config: Config, distance: Distance) returns (candidates: seq<Candidate>)
    ensures forall t: AlertType :: ByType(candidates, t) == CandidateOf(t, e, config, distance)
  {
    hide RuleMet, Accurate, Lowest, Nearest, Inside, CandidateOf, ByType;
    NothingByType();
    CandidatesSpelt(e, config, distance);
    candidates := [];
    var lowest := Lowest(e.fuel);
    if lowest.Some? && lowest.value.1 < config.lowFuelPct {
      var c := LowFuelFound(lowest.value.1, config.lowFuelPct, lowest.value.0);
      forall t { ByTypePushed(candidates, c, t); }
      candidates := candidates + [c];
    }
    if e.gps.Some? {
      var gps := e.gps.value;
      if gps.speedKph > config.speedLimitKph {
        var c := SpeedingFound(gps.speedKph, config.speedLimitKph);
        forall t { ByTypePushed(candidates, c, t); }
        candidates := candidates + [c];
      }
      if |config.geofences| > 0 {
        if !Inside(gps.position, config.geofences, distance) {
          var nearest := Nearest(gps.position, config.geofences, distance);
          var c := OutsideFound(nearest, distance(gps.position, nearest.center));
          forall t { ByTypePushed(candidates, c, t); }
          candidates := candidates + [c];
        }
      }
    }
    forall t: AlertType ensures ByType(candidates, t) == CandidateOf(t, e, config, distance) {
      match t {
        case LowFuel => case Speeding => case GeofenceExit =>
      }
    }
  }
}
