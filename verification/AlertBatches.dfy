/**
 What the alerting handler makes of a batch, said of the readings themselves: how
 old they may be, which zones they are held against, and when a state was last touched.
 */
module AlertBatches {
  import opened Wrappers
  import opened AlertRules
  import opened Alerting

  /** Readings are taken one by one, in order. */
  lemma {:induction false} RecentConcat(a: seq<Event>, b: seq<Event>, cutoff: int)
    ensures Recent(a + b, cutoff) == Recent(a, cutoff) + Recent(b, cutoff)
    decreases |b|
  {
    if b == [] {
      assert a + b == a;
    } else {
      RecentConcat(a, b[..|b| - 1], cutoff);
      assert (a + b)[..|a + b| - 1] == a + b[..|b| - 1];
    }
  }

  /** A reading is left out exactly if it is older than the oldest allowed. */
  lemma RecentExactly(before: seq<Event>, e: Event, cutoff: int)
    ensures Recent(before + [e], cutoff) == if e.recordedAt < cutoff then Recent(before, cutoff)
                                            else Recent(before, cutoff) + [e]
  {
    assert (before + [e])[..|before|] == before;
  }

  /** Of the readings taken, those of unknown vehicles are passed over. */
  lemma ObservedExactly(before: seq<Event>, e: Event, ids: map<string, nat>, config: Config, distance: Distance)
    ensures ObserveAll(before + [e], ids, config, distance)
         == if e.imei !in ids then ObserveAll(before, ids, config, distance)
            else ObserveAll(before, ids, config, distance) + [Observe(e, ids[e.imei], config, distance)]
  {
    hide Observe;
    assert (before + [e])[..|before|] == before;
  }

  /** A reading as the conditions see it: its vehicle and time, and exactly the rules it meets. */
  lemma RulesSeen(e: Event, vehicle: nat, config: Config, distance: Distance)
    ensures var o := Observe(e, vehicle, config, distance);
      && o.vehicle == vehicle && o.at == e.recordedAt
      && (LowFuel in o.found <==>
            exists i :: 0 <= i < |e.fuel| && e.fuel[i].pct.Some? && e.fuel[i].pct.value < config.lowFuelPct)
      && (Speeding in o.found <==> e.gps.Some? && e.gps.value.speedKph > config.speedLimitKph)
      && (GeofenceExit in o.found <==>
            && e.gps.Some? && config.geofences != []
            && forall i :: 0 <= i < |config.geofences| ==>
                 distance(e.gps.value.position, config.geofences[i].center) > config.geofences[i].radiusM)
  {
    ObservedOf(e, vehicle, config, distance);
    hide Observe;
    assert LowFuel in Observe(e, vehicle, config, distance).found <==> RuleMet(LowFuel, e, config, distance);
    assert Speeding in Observe(e, vehicle, config, distance).found <==> RuleMet(Speeding, e, config, distance);
    assert GeofenceExit in Observe(e, vehicle, config, distance).found <==> RuleMet(GeofenceExit, e, config, distance);
  }

  lemma ObservedOf(e: Event, vehicle: nat, config: Config, distance: Distance)
    ensures var o := Observe(e, vehicle, config, distance); o.vehicle == vehicle && o.at == e.recordedAt
  {
  }

  /** Zones loaded at one batch are used until they are as old as the refresh time, and then loaded anew. */
  lemma ZonesExactly(first: seq<Geofence>, checked: int, loaded: int, second: seq<Geofence>, now: int, later: int,
      refresh: int)
    ensures InUse(None, checked, first, refresh) == first
    ensures var cache := Refreshed(None, checked, first, loaded, refresh);
      && InUse(cache, now, second, refresh) == (if now < loaded + refresh then first else second)
      && Refreshed(cache, now, second, later, refresh)
           == Some(if now < loaded + refresh then Loaded(first, loaded) else Loaded(second, later))
  {
  }

  /** A state was last touched by the latest reading that met the rule or was the first not to meet it any more. */
  lemma {:induction false} UpdatedExactly(rs: seq<Reading>, cooldown: int, i: nat)
    requires i < |rs| && (rs[i].holding || (i > 0 && rs[i - 1].holding))
    requires i < |rs| - 1 ==> !rs[i].holding
    requires forall j :: i < j < |rs| ==> !rs[j].holding
    ensures After(rs, cooldown).Some? && After(rs, cooldown).value.updatedAt == rs[i].at
    decreases |rs|
  {
    hide Fires;
    var before := rs[..|rs| - 1];
    StateMeans(before, cooldown);
    if i < |before| {
      UpdatedExactly(before, cooldown, i);
      assert !rs[|rs| - 1].holding && !before[|before| - 1].holding;
    } else if !rs[i].holding {
      assert before[|before| - 1].holding;
    }
  }

  /** One reading raises its alerts in the order low fuel, outside every zone, speeding, each with what was found. */
  lemma AlertsInOrder(t: Tables, o: Observed, cooldown: int)
    requires forall alertType: AlertType :: (o.vehicle, alertType) !in t.states
    ensures Apply(t, o, cooldown).alerts == t.alerts
      + (if LowFuel in o.found then [Alert(o.vehicle, o.found[LowFuel], o.at)] else [])
      + (if GeofenceExit in o.found then [Alert(o.vehicle, o.found[GeofenceExit], o.at)] else [])
      + (if Speeding in o.found then [Alert(o.vehicle, o.found[Speeding], o.at)] else [])
  {
  }
}
