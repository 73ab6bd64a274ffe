/** The registry of zones: which driver serves which zone, and which drivers have been stopped. */
module ZoneRegistry {
  import opened Wrappers

  type ZoneId = string
  type DriverId = nat

  datatype DriverKind = Local | Network | Firmware
  datatype Entry = Entry(driver: DriverId, isLocal: bool, ip: Option<string>)

  /** `drivers` are all drivers ever made, `stops` the calls of stop(), `replaced` those a registration pushed out. */
  datatype State = State(
    zones: map<ZoneId, Entry>, drivers: seq<DriverKind>, stops: seq<DriverId>, replaced: set<DriverId>)

  datatype Call =
    | AddNetworkZone(id: ZoneId, ip: Option<string>)
    | RegisterFirmwareZone(id: ZoneId)
    | RemoveZone(id: ZoneId)

  predicate HasLocal(s: State, id: ZoneId) { id in s.zones && s.zones[id].isLocal }

  function Step(s: State, c: Call): State
  {
    match c
    case AddNetworkZone(id, ip) =>
      if ip.None? || HasLocal(s, id) then s
      else State(s.zones[id := Entry(|s.drivers|, false, ip)], s.drivers + [Network],
                 if id in s.zones then s.stops + [s.zones[id].driver] else s.stops, s.replaced)
    case RegisterFirmwareZone(id) =>
      if HasLocal(s, id) then s
      else State(s.zones[id := Entry(|s.drivers|, false, None)], s.drivers + [Firmware], s.stops,
                 if id in s.zones then s.replaced + {s.zones[id].driver} else s.replaced)
    case RemoveZone(id) =>
      if id !in s.zones || s.zones[id].isLocal then s
      else s.(zones := s.zones - {id}, stops := s.stops + [s.zones[id].driver])
  }

  function Run(s: State, calls: seq<Call>): State
  {
    if calls == [] then s else Step(Run(s, calls[..|calls| - 1]), calls[|calls| - 1])
  }

  /** After the constructor has set up the local zones of the configuration, in their order. */
  function Startup(ids: seq<ZoneId>): State
  {
    if ids == [] then State(map[], [], [], {})
    else
      var s := Startup(ids[..|ids| - 1]);
      s.(zones := s.zones[ids[|ids| - 1] := Entry(|s.drivers|, true, None)], drivers := s.drivers + [Local])
  }

  // ----- what every call keeps ------------------------------------------------------------------

  function InUse(s: State): set<DriverId> { set id | id in s.zones :: s.zones[id].driver }

  /**
   Every driver serves at most one zone; drivers are stopped at most once and only when they serve none;
   and a driver that serves none has been stopped unless a registration replaced it.
   */
  ghost predicate Inv(s: State)
  {
    (forall id | id in s.zones :: s.zones[id].driver < |s.drivers|) &&
    (forall a, b | a in s.zones && b in s.zones && a != b :: s.zones[a].driver != s.zones[b].driver) &&
    (forall i | 0 <= i < |s.stops| ::
       s.stops[i] < |s.drivers| && s.stops[i] !in InUse(s) && s.stops[i] !in s.replaced) &&
    (forall i, j | 0 <= i < j < |s.stops| :: s.stops[i] != s.stops[j]) &&
    (forall d | d in s.replaced :: d < |s.drivers| && d !in InUse(s)) &&
    (forall d: nat | d < |s.drivers| && s.drivers[d] != Local :: d in InUse(s) || d in s.stops || d in s.replaced)
  }

  lemma StepKeeps(s: State, c: Call)
    requires Inv(s)
    ensures Inv(Step(s, c))
  {
    match c
    case AddNetworkZone(id, ip) => if ip.Some? && !HasLocal(s, id) { AddKeeps(s, id, ip); }
    case RegisterFirmwareZone(id) => if !HasLocal(s, id) { RegisterKeeps(s, id); }
    case RemoveZone(id) => if id in s.zones && !s.zones[id].isLocal { RemoveKeeps(s, id); }
  }

  lemma UseAfterPut(s: State, id: ZoneId, e: Entry)
    requires Inv(s) && e.driver == |s.drivers|
    ensures InUse(s.(zones := s.zones[id := e]))
         == (if id in s.zones then InUse(s) - {s.zones[id].driver} else InUse(s)) + {e.driver}
  {
    var s' := s.(zones := s.zones[id := e]);
    forall d | d in InUse(s) && (id in s.zones ==> d != s.zones[id].driver)
      ensures d in InUse(s')
    {
      var a :| a in s.zones && s.zones[a].driver == d;
      assert a in s'.zones && s'.zones[a].driver == d;
    }
    assert id in s'.zones && s'.zones[id].driver == e.driver;
  }

  lemma AddKeeps(s: State, id: ZoneId, ip: Option<string>)
    requires Inv(s) && ip.Some? && !HasLocal(s, id)
    ensures Inv(Step(s, AddNetworkZone(id, ip)))
  {
    UseAfterPut(s, id, Entry(|s.drivers|, false, ip));
    hide InUse;
    var s' := Step(s, AddNetworkZone(id, ip));
    SameZonesSameUse(s', s.(zones := s.zones[id := Entry(|s.drivers|, false, ip)]));
    UsesOf(s);
  }

  lemma RegisterKeeps(s: State, id: ZoneId)
    requires Inv(s) && !HasLocal(s, id)
    ensures Inv(Step(s, RegisterFirmwareZone(id)))
  {
    hide InUse;
    UseAfterPut(s, id, Entry(|s.drivers|, false, None));
    var s' := Step(s, RegisterFirmwareZone(id));
    SameZonesSameUse(s', s.(zones := s.zones[id := Entry(|s.drivers|, false, None)]));
    UsesOf(s);
  }

  lemma RemoveKeeps(s: State, id: ZoneId)
    requires Inv(s) && id in s.zones && !s.zones[id].isLocal
    ensures Inv(Step(s, RemoveZone(id)))
  {
    var s' := Step(s, RemoveZone(id));
    assert InUse(s') == InUse(s) - {s.zones[id].driver} by {
      forall d | d in InUse(s) && d != s.zones[id].driver
        ensures d in InUse(s')
      {
        var a :| a in s.zones && s.zones[a].driver == d;
        assert a in s'.zones;
      }
    }
    hide InUse;
    UsesOf(s);
  }

  lemma SameZonesSameUse(s: State, t: State)
    requires s.zones == t.zones
    ensures InUse(s) == InUse(t)
  {
  }

  lemma UsesOf(s: State)
    ensures forall id | id in s.zones :: s.zones[id].driver in InUse(s)
  {
  }

  lemma LocalKeeps(s: State, id: ZoneId)
    requires Inv(s) && s.stops == [] && s.replaced == {} && (forall d | 0 <= d < |s.drivers| :: s.drivers[d] == Local)
    ensures Inv(s.(zones := s.zones[id := Entry(|s.drivers|, true, None)], drivers := s.drivers + [Local]))
  {
    UseAfterPut(s, id, Entry(|s.drivers|, true, None));
    UsesOf(s);
    hide InUse;
  }

  lemma {:induction false} StartupIsFine(ids: seq<ZoneId>)
    ensures var s := Startup(ids);
            Inv(s) && s.stops == [] && s.replaced == {} &&
            (forall d | 0 <= d < |s.drivers| :: s.drivers[d] == Local) &&
            (forall id :: id in s.zones <==> id in ids) && (forall id | id in ids :: s.zones[id].isLocal)
  {
    if ids != [] {
      hide Inv;
      StartupIsFine(ids[..|ids| - 1]);
      LocalKeeps(Startup(ids[..|ids| - 1]), ids[|ids| - 1]);
    } else {
      assert Inv(State(map[], [], [], {}));
    }
  }

  predicate IsLast(ids: seq<ZoneId>, i: nat) { i < |ids| && forall j | i < j < |ids| :: ids[j] != ids[i] }

  /** Exactly the zones of the configuration, all local; of two with one id the later one's driver serves. */
  ghost predicate Configured(zones: map<ZoneId, Entry>, ids: seq<ZoneId>)
  {
    (forall id :: id in zones <==> id in ids) &&
    forall i: nat | IsLast(ids, i) :: zones[ids[i]] == Entry(i, true, None)
  }

  lemma {:induction false} LastServes(ids: seq<ZoneId>, i: nat)
    requires IsLast(ids, i)
    ensures ids[i] in Startup(ids).zones && Startup(ids).zones[ids[i]] == Entry(i, true, None)
  {
    var n := |ids| - 1;
    DriversOf(ids[..n]);
    if i < n {
      assert IsLast(ids[..n], i);
      LastServes(ids[..n], i);
      assert ids[n] != ids[i];
    }
  }

  lemma {:induction false} DriversOf(ids: seq<ZoneId>)
    ensures Startup(ids).drivers == seq(|ids|, _ => Local)
  {
    if ids != [] { DriversOf(ids[..|ids| - 1]); }
  }

  lemma StartupConfigures(ids: seq<ZoneId>)
    ensures var s := Startup(ids);
            Configured(s.zones, ids) && s.drivers == seq(|ids|, _ => Local) && s.stops == [] && s.replaced == {}
  {
    StartupIsFine(ids);
    DriversOf(ids);
    hide Startup, Inv;
    forall i: nat | IsLast(ids, i)
      ensures ids[i] in Startup(ids).zones && Startup(ids).zones[ids[i]] == Entry(i, true, None)
    {
      LastServes(ids, i);
    }
  }

  lemma {:induction false} RunsKeep(ids: seq<ZoneId>, calls: seq<Call>)
    ensures Inv(Run(Startup(ids), calls))
  {
    if calls != [] {
      hide Step, Inv, Startup;
      RunsKeep(ids, calls[..|calls| - 1]);
      StepKeeps(Run(Startup(ids), calls[..|calls| - 1]), calls[|calls| - 1]);
    } else {
      StartupIsFine(ids);
    }
  }

  // ----- the theorems ---------------------------------------------------------------------------

  /** A local zone keeps its entry, driver included, whatever is called. */
  lemma {:induction false} LocalZonesStay(s: State, calls: seq<Call>, id: ZoneId)
    requires HasLocal(s, id)
    ensures HasLocal(Run(s, calls), id) && Run(s, calls).zones[id] == s.zones[id]
  {
    if calls != [] {
      LocalZonesStay(s, calls[..|calls| - 1], id);
    }
  }

  /** How often a driver has been stopped. */
  function StopCount(stops: seq<DriverId>, d: DriverId): nat
  {
    if stops == [] then 0 else StopCount(stops[..|stops| - 1], d) + if stops[|stops| - 1] == d then 1 else 0
  }

  lemma {:induction false} StopCountOf(stops: seq<DriverId>, d: DriverId)
    requires forall i, j | 0 <= i < j < |stops| :: stops[i] != stops[j]
    ensures StopCount(stops, d) == if d in stops then 1 else 0
  {
    if stops != [] {
      var n := |stops| - 1;
      StopCountOf(stops[..n], d);
      assert d in stops <==> d in stops[..n] || d == stops[n];
      if d == stops[n] { assert d !in stops[..n]; }
    }
  }

  /**
   A driver made at run time is, at any moment, either in use and never stopped; or it has been displaced
   and stopped exactly once; or a firmware registration replaced it, and then nothing ever stops it.
   */
  lemma {:induction false} DriversAccountedFor(ids: seq<ZoneId>, calls: seq<Call>, d: DriverId)
    requires d < |Run(Startup(ids), calls).drivers| && Run(Startup(ids), calls).drivers[d] != Local
    ensures var s := Run(Startup(ids), calls);
            StopCount(s.stops, d) == if d in InUse(s) || d in s.replaced then 0 else 1
  {
    RunsKeep(ids, calls);
    var s := Run(Startup(ids), calls);
    hide Run, InUse;
    StopCountOf(s.stops, d);
  }

  /** Call n is a registration of a zone that has a driver made at run time. */
  predicate Hits(s: State, calls: seq<Call>, n: nat)
    requires n < |calls|
  {
    var before := Run(s, calls[..n]);
    calls[n].RegisterFirmwareZone? && calls[n].id in before.zones && !before.zones[calls[n].id].isLocal
  }

  ghost predicate Replaces(s: State, calls: seq<Call>) { exists n :: 0 <= n < |calls| && Hits(s, calls, n) }

  lemma {:induction false} ReplacedIffReplaces(s: State, calls: seq<Call>)
    requires s.replaced == {}
    ensures Run(s, calls).replaced != {} <==> Replaces(s, calls)
  {
    if calls != [] {
      var before, n := calls[..|calls| - 1], |calls| - 1;
      ReplacedIffReplaces(s, before);
      forall k | 0 <= k < n
        ensures Hits(s, calls, k) == Hits(s, before, k)
      {
        assert before[..k] == calls[..k];
      }
      assert Run(s, calls).replaced != {} <==> Run(s, before).replaced != {} || Hits(s, calls, n);
    }
  }

  /**
   Every driver out of use has been stopped exactly once if and only if no registration ever hit a zone
   that already had a run-time driver.
   */
  lemma {:induction false} AllStoppedIff(ids: seq<ZoneId>, calls: seq<Call>)
    ensures var s := Run(Startup(ids), calls);
            (forall d: nat | d < |s.drivers| && s.drivers[d] != Local && d !in InUse(s) :: StopCount(s.stops, d) == 1)
            <==> !Replaces(Startup(ids), calls)
  {
    StartupIsFine(ids);
    RunsKeep(ids, calls);
    ReplacedIffReplaces(Startup(ids), calls);
    var s := Run(Startup(ids), calls);
    ReplacedAreRunTime(ids, calls);
    hide Run, InUse, Replaces, Startup;
    forall d: nat | d < |s.drivers|
      ensures StopCount(s.stops, d) == if d in s.stops then 1 else 0
    {
      StopCountOf(s.stops, d);
    }
    if d :| d in s.replaced {
      assert d < |s.drivers| && d !in InUse(s) && StopCount(s.stops, d) != 1;
    }
  }

  /** For instance: a network zone that registers a firmware display loses its driver without stopping it. */
  lemma RegistrationLeaksDriver(id: ZoneId, ip: string)
    ensures var s := Run(Startup([]), [AddNetworkZone(id, Some(ip)), RegisterFirmwareZone(id)]);
            s.drivers == [Network, Firmware] && 0 !in InUse(s) && StopCount(s.stops, 0) == 0
  {
    var calls := [AddNetworkZone(id, Some(ip)), RegisterFirmwareZone(id)];
    var s0, s1 := Startup([]), Step(Startup([]), calls[0]);
    assert calls[..1][..0] == [] && calls[..1] == [calls[0]];
    assert Run(s0, calls[..1]) == Step(Run(s0, []), calls[0]);
    assert Run(s0, calls) == Step(s1, calls[1]);
    var s := Run(s0, calls);
    assert s.zones == map[id := Entry(1, false, None)] && s.stops == [];
  }

  /** Replaced drivers and those of zones that are not local were made at run time. */
  ghost predicate RunTime(s: State)
  {
    (forall d | d in s.replaced :: d < |s.drivers| && s.drivers[d] != Local) &&
    (forall id | id in s.zones && !s.zones[id].isLocal ::
       s.zones[id].driver < |s.drivers| && s.drivers[s.zones[id].driver] != Local)
  }

  lemma StepKeepsRunTime(s: State, c: Call)
    requires RunTime(s)
    ensures RunTime(Step(s, c))
  {
  }

  lemma {:induction false} ReplacedAreRunTime(ids: seq<ZoneId>, calls: seq<Call>)
    ensures RunTime(Run(Startup(ids), calls))
  {
    StartupIsFine(ids);
    if calls != [] {
      hide Step;
      ReplacedAreRunTime(ids, calls[..|calls| - 1]);
      StepKeepsRunTime(Run(Startup(ids), calls[..|calls| - 1]), calls[|calls| - 1]);
    }
  }

  // ----- the registry ---------------------------------------------------------------------------

  datatype BroadcastResult = BroadcastResult(successful: seq<ZoneId>, failed: seq<ZoneId>)

  class Registry {
    var zones: map<ZoneId, Entry>
    /** Every driver made so far, and the stop() calls: history. */
    var drivers: seq<DriverKind>
    var stops: seq<DriverId>
    var replaced: set<DriverId>

    ghost function Abstract(): State
      reads this
    {
      State(zones, drivers, stops, replaced)
    }

    constructor (ids: seq<ZoneId>)
      ensures Abstract() == Startup(ids)
      ensures Configured(zones, ids) && drivers == seq(|ids|, _ => Local) && stops == [] && replaced == {}
    {
      zones, drivers, stops, replaced := map[], [], [], {};
      new;
      for i := 0 to |ids|
        invariant Abstract() == Startup(ids[..i])
      {
        assert ids[..i + 1][..i] == ids[..i];
        zones := zones[ids[i] := Entry(|drivers|, true, None)];
        drivers := drivers + [Local];
      }
      assert ids[..|ids|] == ids;
      StartupConfigures(ids);
    }

    method Add(id: ZoneId, ip: Option<string>)
      modifies this
      ensures Abstract() == Step(old(Abstract()), AddNetworkZone(id, ip))
      ensures ip == None || (id in old(zones) && old(zones)[id].isLocal) ==>
                zones == old(zones) && drivers == old(drivers) && stops == old(stops) && replaced == old(replaced)
      ensures ip != None && !(id in old(zones) && old(zones)[id].isLocal) ==>
                zones == old(zones)[id := Entry(|old(drivers)|, false, ip)] &&
                drivers == old(drivers) + [Network] && replaced == old(replaced) &&
                stops == old(stops) + if id in old(zones) then [old(zones)[id].driver] else []
    {
      if ip.None? { return; }
      if id in zones && zones[id].isLocal { return; }
      if id in zones { stops := stops + [zones[id].driver]; }
      zones := zones[id := Entry(|drivers|, false, ip)];
      drivers := drivers + [Network];
    }

    method Register(id: ZoneId)
      modifies this
      ensures Abstract() == Step(old(Abstract()), RegisterFirmwareZone(id))
      ensures id in old(zones) && old(zones)[id].isLocal ==>
                zones == old(zones) && drivers == old(drivers) && stops == old(stops) && replaced == old(replaced)
      ensures !(id in old(zones) && old(zones)[id].isLocal) ==>
                zones == old(zones)[id := Entry(|old(drivers)|, false, None)] &&
                drivers == old(drivers) + [Firmware] && stops == old(stops) &&
                replaced == old(replaced) + if id in old(zones) then {old(zones)[id].driver} else {}
    {
      if id in zones && zones[id].isLocal { return; }
      if id in zones { replaced := replaced + {zones[id].driver}; }
      zones := zones[id := Entry(|drivers|, false, None)];
      drivers := drivers + [Firmware];
    }

    method Remove(id: ZoneId) returns (removed: bool)
      modifies this
      ensures Abstract() == Step(old(Abstract()), RemoveZone(id))
      ensures removed <==> id in old(zones) && !old(zones)[id].isLocal
      ensures removed ==> zones == old(zones) - {id} && stops == old(stops) + [old(zones)[id].driver]
      ensures !removed ==> zones == old(zones) && stops == old(stops)
      ensures drivers == old(drivers) && replaced == old(replaced)
    {
      if id !in zones { return false; }
      var entry := zones[id];
      if entry.isLocal { return false; }
      zones := zones - {id};
      stops := stops + [entry.driver];
      return true;
    }

    /**
     `order` is the map's iteration order and `sends` what each driver's send gave, an exception counting
     as false: every zone id is reported exactly once, as successful or as failed.
     */
    method Broadcast(order: seq<ZoneId>, sends: DriverId -> bool) returns (result: BroadcastResult)
      requires multiset(order) == multiset(zones.Keys)
      ensures multiset(result.successful) + multiset(result.failed) == multiset(zones.Keys)
      ensures forall id | id in result.successful :: id in zones && sends(zones[id].driver)
      ensures forall id | id in result.failed :: id in zones && !sends(zones[id].driver)
    {
      var successful: seq<ZoneId>, failed: seq<ZoneId> := [], [];
      for i := 0 to |order|
        invariant multiset(successful) + multiset(failed) == multiset(order[..i])
        invariant forall id | id in successful :: id in zones && sends(zones[id].driver)
        invariant forall id | id in failed :: id in zones && !sends(zones[id].driver)
      {
        assert order[i] in multiset(order);
        assert order[..i + 1] == order[..i] + [order[i]];
        if sends(zones[order[i]].driver) {
          successful := successful + [order[i]];
        } else {
          failed := failed + [order[i]];
        }
      }
      assert order[..|order|] == order;
      result := BroadcastResult(successful, failed);
    }
  }
}
