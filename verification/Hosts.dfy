/** Devices, the driver hosts that run them, and the ids by which the two
    processes name a device to each other
    (device.cc and driver_host.h of driver_manager, zx_device.cc of driver_host). */
module Hosts {
  import opened Common

  type DevId = nat
  type HostId = nat

  const TWO64: nat := 0x1_0000_0000_0000_0000

  /** A proxy device names the device it stands for as its parent; a device
      may have one proxy of each kind. */
  datatype Serving = Nobody | OldProxyOf(DevId) | NewProxyOf(DevId)

  /** The part of a manager-side device that concerns hosting. `isolate` is
      its MUST_ISOLATE flag. */
  datatype Hosted = Hosted(
    host: Option<HostId>,
    localId: nat,
    proxy: Option<DevId>,
    newProxy: Option<DevId>,
    outgoing: bool,
    serves: Serving,
    isolate: bool)

  /** A driver host: its 64-bit id counter and the list of its devices. */
  datatype Host = Host(nextId: nat, devices: seq<DevId>)

  datatype World = World(devs: map<DevId, Hosted>, hosts: map<HostId, Host>, nextDev: DevId, nextHost: HostId)

  /** The 64-bit counter wraps to 0. */
  function Next(n: nat): nat { if n + 1 == TWO64 then 0 else n + 1 }

  /** Leave the current host, if any. */
  function Evict(w: World, d: DevId): World
    requires d in w.devs
  {
    var h := w.devs[d].host;
    w.(hosts := if h.Some? && h.value in w.hosts
                then w.hosts[h.value := w.hosts[h.value].(devices := Erase(w.hosts[h.value].devices, d))]
                else w.hosts,
       devs := w.devs[d := w.devs[d].(host := None, localId := 0)])
  }

  /** Join a host and take its next id. */
  function Admit(w: World, d: DevId, h: HostId): World
    requires d in w.devs && h in w.hosts
  {
    var r := w.hosts[h];
    w.(hosts := w.hosts[h := Host(Next(r.nextId), r.devices + [d])],
       devs := w.devs[d := w.devs[d].(host := Some(h), localId := r.nextId)])
  }

  function SetHost(w: World, d: DevId, target: Option<HostId>): World
    requires d in w.devs
    requires target.Some? ==> target.value in w.hosts
  {
    if target.None? then Evict(w, d) else Admit(Evict(w, d), d, target.value)
  }

  /** The link structure: every device names its host and the host lists it, once. */
  ghost predicate Linked(w: World) {
    && (forall d :: d in w.devs ==> d < w.nextDev)
    && (forall h :: h in w.hosts ==> h < w.nextHost)
    && (forall d :: d in w.devs && w.devs[d].host.Some? ==>
          w.devs[d].host.value in w.hosts && d in w.hosts[w.devs[d].host.value].devices)
    && (forall h :: h in w.hosts ==>
          && NoDup(w.hosts[h].devices)
          && forall d :: d in w.hosts[h].devices ==> d in w.devs && w.devs[d].host == Some(h))
  }

  /** The naming structure: an id is non-zero exactly on hosted devices, and
      within one host ids are distinct and below the counter. */
  ghost predicate Named(w: World) {
    && (forall h :: h in w.hosts ==> 0 < w.hosts[h].nextId < TWO64)
    && (forall d :: d in w.devs ==> (w.devs[d].localId != 0 <==> w.devs[d].host.Some?))
    && (forall d :: d in w.devs && w.devs[d].host.Some? && w.devs[d].host.value in w.hosts ==>
          w.devs[d].localId < w.hosts[w.devs[d].host.value].nextId)
    && (forall d, e :: !Clash(w, d, e))
  }

  /** Two devices of one host go by the same id. */
  ghost predicate Clash(w: World, d: DevId, e: DevId) {
    && d != e && d in w.devs && e in w.devs
    && w.devs[d].host.Some? && w.devs[d].host == w.devs[e].host && w.devs[d].localId == w.devs[e].localId
  }

  ghost predicate Room(w: World, k: nat) {
    forall h :: h in w.hosts ==> w.hosts[h].nextId + k < TWO64
  }

  lemma EvictLinked(w: World, d: DevId)
    requires Linked(w) && d in w.devs
    ensures Linked(Evict(w, d)) && Evict(w, d).devs[d].host.None?
  {
    if w.devs[d].host.Some? { EraseSpec(w.hosts[w.devs[d].host.value].devices, d); }
  }

  lemma EvictNamed(w: World, d: DevId)
    requires Linked(w) && Named(w) && d in w.devs
    ensures Named(Evict(w, d))
  {
    var w' := Evict(w, d);
    forall e, f ensures !Clash(w', e, f) { assert !Clash(w, e, f); }
    hide Clash, Erase;
  }

  lemma EvictKeeps(w: World, d: DevId)
    requires Linked(w) && d in w.devs
    ensures Linked(Evict(w, d)) && Evict(w, d).devs[d].host.None?
    ensures Named(w) ==> Named(Evict(w, d))
  {
    hide Linked, Named;
    EvictLinked(w, d);
    if Named(w) { EvictNamed(w, d); }
  }

  lemma AdmitLinked(w: World, d: DevId, h: HostId)
    requires Linked(w) && d in w.devs && h in w.hosts && w.devs[d].host.None?
    ensures Linked(Admit(w, d, h))
  {
    var w' := Admit(w, d, h);
    AppendNoDup(w.hosts[h].devices, d);
    forall e | e in w'.devs && w'.devs[e].host.Some?
      ensures w'.devs[e].host.value in w'.hosts && e in w'.hosts[w'.devs[e].host.value].devices
    {
      if e != d { assert e in w.hosts[w'.devs[e].host.value].devices; }
    }
  }

  lemma AdmitNamed(w: World, d: DevId, h: HostId)
    requires Linked(w) && Named(w) && d in w.devs && h in w.hosts && w.devs[d].host.None?
    requires w.hosts[h].nextId + 1 < TWO64
    ensures Named(Admit(w, d, h))
  {
    var w' := Admit(w, d, h);
    forall e, f ensures !Clash(w', e, f) { assert !Clash(w, e, f); }
  }

  lemma SetHostLinked(w: World, d: DevId, target: Option<HostId>)
    requires Linked(w) && d in w.devs && (target.Some? ==> target.value in w.hosts)
    ensures Linked(SetHost(w, d, target))
  {
    EvictKeeps(w, d);
    if target.Some? { AdmitLinked(Evict(w, d), d, target.value); }
  }

  lemma SetHostNamed(w: World, d: DevId, target: Option<HostId>)
    requires Linked(w) && Named(w) && Room(w, 1)
    requires d in w.devs && (target.Some? ==> target.value in w.hosts)
    ensures Named(SetHost(w, d, target))
  {
    EvictKeeps(w, d);
    if target.Some? { AdmitNamed(Evict(w, d), d, target.value); }
  }

  /** What set_host does, in every linked world: the device leaves the list of
      any host it was on, and without a target it has no host and id 0 and
      nobody lists it; with one it is last on that host's list, on no other, and
      has the id the host's counter stood at, which moves on. Other devices,
      their order in the lists and the other counters are as they were. */
  lemma SetHostExactly(w: World, d: DevId, target: Option<HostId>)
    requires Linked(w) && d in w.devs && (target.Some? ==> target.value in w.hosts)
    ensures var w' := SetHost(w, d, target);
            var id := if target.Some? then w.hosts[target.value].nextId else 0;
            && w'.devs.Keys == w.devs.Keys && w'.hosts.Keys == w.hosts.Keys
            && w'.nextDev == w.nextDev && w'.nextHost == w.nextHost
            && (forall x :: x in w.devs && x != d ==> w'.devs[x] == w.devs[x])
            && w'.devs[d] == w.devs[d].(host := target, localId := id)
            && (forall h :: h in w.hosts && Some(h) != target ==>
                  && w'.hosts[h].nextId == w.hosts[h].nextId && d !in w'.hosts[h].devices
                  && SameBut(w.hosts[h].devices, d, w'.hosts[h].devices))
            && (target.Some? ==>
                  var was, now := w.hosts[target.value], w'.hosts[target.value];
                  && now.nextId == (if was.nextId == 0xFFFF_FFFF_FFFF_FFFF then 0 else was.nextId + 1)
                  && now.devices != [] && now.devices[|now.devices| - 1] == d
                  && d !in now.devices[..|now.devices| - 1]
                  && SameBut(was.devices, d, now.devices[..|now.devices| - 1]))
  {
    hide SameBut, Linked, Evict, Admit;
    EvictExactly(w, d);
    if target.Some? { AdmitExactly(Evict(w, d), d, target.value); }
  }

  lemma EvictExactly(w: World, d: DevId)
    requires Linked(w) && d in w.devs
    ensures var w' := Evict(w, d);
            && w'.devs.Keys == w.devs.Keys && w'.hosts.Keys == w.hosts.Keys
            && w'.nextDev == w.nextDev && w'.nextHost == w.nextHost
            && (forall x :: x in w.devs && x != d ==> w'.devs[x] == w.devs[x])
            && w'.devs[d] == w.devs[d].(host := None, localId := 0)
            && (forall h :: h in w.hosts ==>
                  && w'.hosts[h].nextId == w.hosts[h].nextId && d !in w'.hosts[h].devices
                  && SameBut(w.hosts[h].devices, d, w'.hosts[h].devices))
  {
    hide SameBut, Erase;
    var w' := Evict(w, d);
    forall h | h in w.hosts
      ensures d !in w'.hosts[h].devices && SameBut(w.hosts[h].devices, d, w'.hosts[h].devices)
    {
      if w.devs[d].host == Some(h) {
        EraseSameBut(w.hosts[h].devices, d);
        EraseSpec(w.hosts[h].devices, d);
      } else {
        SameButNone(w.hosts[h].devices, d);
      }
    }
  }

  lemma AdmitExactly(w: World, d: DevId, h: HostId)
    requires d in w.devs && h in w.hosts
    ensures var w', was := Admit(w, d, h), w.hosts[h];
            && w'.devs == w.devs[d := w.devs[d].(host := Some(h), localId := was.nextId)]
            && w'.hosts.Keys == w.hosts.Keys && w'.nextDev == w.nextDev && w'.nextHost == w.nextHost
            && (forall k :: k in w.hosts && k != h ==> w'.hosts[k] == w.hosts[k])
            && var now := w'.hosts[h];
               && now.nextId == (if was.nextId == 0xFFFF_FFFF_FFFF_FFFF then 0 else was.nextId + 1)
               && now.devices != [] && now.devices[|now.devices| - 1] == d
               && now.devices[..|now.devices| - 1] == was.devices
  {
  }

  // ----- runs

  datatype HostStep = Move(dev: DevId, target: Option<HostId>)

  ghost predicate Runnable(w: World, steps: seq<HostStep>) {
    forall i :: 0 <= i < |steps| ==>
      steps[i].dev in w.devs && (steps[i].target.Some? ==> steps[i].target.value in w.hosts)
  }

  /** The state after a sequence of set_host calls. */
  ghost function Run(w: World, steps: seq<HostStep>): World
    requires Runnable(w, steps)
    decreases |steps|
  {
    if steps == [] then w
    else
      var w' := SetHost(w, steps[0].dev, steps[0].target);
      assert forall i :: 0 <= i < |steps[1..]| ==> steps[1..][i] == steps[i + 1];
      Run(w', steps[1..])
  }

  /** The ids handed out by that sequence, each with its host. */
  ghost function Issued(w: World, steps: seq<HostStep>): seq<(HostId, nat)>
    requires Runnable(w, steps)
    decreases |steps|
  {
    if steps == [] then []
    else
      var w' := SetHost(w, steps[0].dev, steps[0].target);
      assert forall i :: 0 <= i < |steps[1..]| ==> steps[1..][i] == steps[i + 1];
      (if steps[0].target.Some? then [(steps[0].target.value, w.hosts[steps[0].target.value].nextId)] else [])
      + Issued(w', steps[1..])
  }

  lemma SetHostCounter(w: World, d: DevId, target: Option<HostId>)
    requires Room(w, 1) && d in w.devs && (target.Some? ==> target.value in w.hosts)
    ensures SetHost(w, d, target).hosts.Keys == w.hosts.Keys
    ensures forall h :: h in w.hosts ==>
              SetHost(w, d, target).hosts[h].nextId == w.hosts[h].nextId + (if target == Some(h) then 1 else 0)
  {
  }

  /** Over any run that stays within the 64-bit counter the invariant holds. */
  lemma {:induction false} NamedOverRuns(w: World, steps: seq<HostStep>)
    requires Linked(w) && Named(w) && Runnable(w, steps) && Room(w, |steps|)
    ensures Linked(Run(w, steps)) && Named(Run(w, steps))
    decreases |steps|
  {
    if steps == [] {
    } else {
      var d, target := steps[0].dev, steps[0].target;
      assert forall i :: 0 <= i < |steps[1..]| ==> steps[1..][i] == steps[i + 1];
      SetHostLinked(w, d, target);
      SetHostNamed(w, d, target);
      SetHostCounter(w, d, target);
      NamedOverRuns(SetHost(w, d, target), steps[1..]);
    }
  }

  /** The limit of the 64-bit counter: the id given to a device is non-zero
      exactly if the counter of the host is, and the device before the wrap
      leaves it at zero. */
  lemma IdNonZeroIff(w: World, d: DevId, h: HostId)
    requires d in w.devs && h in w.hosts
    ensures SetHost(w, d, Some(h)).devs[d].host == Some(h)
    ensures SetHost(w, d, Some(h)).devs[d].localId != 0 <==> w.hosts[h].nextId != 0
    ensures SetHost(w, d, Some(h)).hosts[h].nextId == 0 <==> w.hosts[h].nextId + 1 == TWO64
  {
  }

  /** Every pair comes from a known host and from its counter's value or above. */
  ghost predicate AtOrAbove(w: World, ids: seq<(HostId, nat)>) {
    forall x :: x in ids ==> x.0 in w.hosts && w.hosts[x.0].nextId <= x.1
  }

  /** Over such a run no id of a host is handed out twice, nor any id from
      below the counter the run started with. */
  lemma {:induction false} IdsNeverReused(w: World, steps: seq<HostStep>)
    requires Runnable(w, steps) && Room(w, |steps|)
    ensures NoDup(Issued(w, steps)) && AtOrAbove(w, Issued(w, steps))
    decreases |steps|
  {
    if steps == [] {
    } else {
      var d, target := steps[0].dev, steps[0].target;
      var w', rest := SetHost(w, d, target), steps[1..];
      assert forall i :: 0 <= i < |rest| ==> rest[i] == steps[i + 1];
      SetHostCounter(w, d, target);
      IdsNeverReused(w', rest);
      var more := Issued(w', rest);
      if target.Some? {
        var first := (target.value, w.hosts[target.value].nextId);
        PrependIssued(w, w', first, more);
        assert Issued(w, steps) == [first] + more;
      } else {
        assert Issued(w, steps) == more;
      }
    }
  }

  lemma PrependIssued(w: World, w': World, first: (HostId, nat), more: seq<(HostId, nat)>)
    requires first.0 in w.hosts && first.1 == w.hosts[first.0].nextId
    requires w'.hosts.Keys == w.hosts.Keys
    requires forall h :: h in w.hosts ==> w.hosts[h].nextId <= w'.hosts[h].nextId
    requires w'.hosts[first.0].nextId > first.1
    requires NoDup(more) && AtOrAbove(w', more)
    ensures NoDup([first] + more) && AtOrAbove(w, [first] + more)
  {
  }

  // ----- the map inside the driver host process

  /** zx_device's side: each device's id and the map from ids to devices. */
  datatype IdMap = IdMap(ids: map<DevId, nat>, byId: map<nat, DevId>)

  /** `byId` is exactly the inverse of the non-zero ids. */
  ghost predicate Inverse(m: IdMap) {
    && (forall d :: d in m.ids && m.ids[d] != 0 ==> m.ids[d] in m.byId && m.byId[m.ids[d]] == d)
    && (forall k :: k in m.byId ==> k != 0 && m.byId[k] in m.ids && m.ids[m.byId[k]] == k)
  }

  function SetLocalId(m: IdMap, d: DevId, id: nat): IdMap
    requires d in m.ids
  {
    var byId1 := if m.ids[d] != 0 then m.byId - {m.ids[d]} else m.byId;
    IdMap(m.ids[d := id], if id != 0 then byId1[id := d] else byId1)
  }

  /** The host-side object. */
  class LocalIds {
    var ids: map<DevId, nat>
    var byId: map<nat, DevId>

    ghost function View(): IdMap reads this { IdMap(ids, byId) }

    constructor ()
      ensures View() == IdMap(map[], map[]) && Inverse(View())
    {
      ids, byId := map[], map[];
    }

    /** Both assertions of the source hold: the old entry is this device, and
        the key being inserted is free. */
    method Set(d: DevId, id: nat)
      requires Inverse(View()) && d in ids
      requires id != 0 ==> forall e :: e in ids && e != d ==> ids[e] != id
      modifies this
      ensures View() == SetLocalId(old(View()), d, id)
      ensures Inverse(View())
      ensures forall k :: k in byId && byId[k] == d ==> k == id
    {
      if ids[d] != 0 {
        var oldEntry := byId[ids[d]];
        assert oldEntry == d;
        byId := byId - {ids[d]};
      }
      ids := ids[d := id];
      if id != 0 {
        assert id !in byId;
        byId := byId[id := d];
      }
    }
  }

  /** One set_local_id call in the host process. */
  datatype IdStep = Assign(dev: DevId, id: nat)

  ghost function RunIds(m: IdMap, steps: seq<IdStep>): IdMap
    requires forall i :: 0 <= i < |steps| ==> steps[i].dev in m.ids
    decreases |steps|
  {
    if steps == [] then m
    else
      assert forall i :: 0 <= i < |steps[1..]| ==> steps[1..][i] == steps[i + 1];
      RunIds(SetLocalId(m, steps[0].dev, steps[0].id), steps[1..])
  }

  /** No id is assigned while some device of `m`, or another step, has it. */
  ghost predicate FreshIds(m: IdMap, steps: seq<IdStep>) {
    && (forall i, j :: 0 <= i < j < |steps| && steps[i].id != 0 ==> steps[i].id != steps[j].id)
    && (forall d, i :: d in m.ids && m.ids[d] != 0 && 0 <= i < |steps| ==> m.ids[d] != steps[i].id)
  }

  lemma {:induction false} FreshIdsKeepInverse(m: IdMap, steps: seq<IdStep>)
    requires Inverse(m) && FreshIds(m, steps) && forall i :: 0 <= i < |steps| ==> steps[i].dev in m.ids
    ensures Inverse(RunIds(m, steps))
    decreases |steps|
  {
    if steps == [] {
    } else {
      var m', rest := SetLocalId(m, steps[0].dev, steps[0].id), steps[1..];
      assert forall i :: 0 <= i < |rest| ==> rest[i] == steps[i + 1];
      FreshIdsKeepInverse(m', rest);
    }
  }

  /** If the ids a host process is given are ids the manager issued for that
      host, each used once (and 0 to forget), then no insertion collides and
      the map is the exact inverse of the device ids throughout the run. */
  lemma {:induction false} ManagerIdsKeepInverse(w: World, moves: seq<HostStep>, h: HostId, devs: set<DevId>,
                                                 steps: seq<IdStep>, from: seq<nat>)
    requires Runnable(w, moves) && Room(w, |moves|)
    requires forall i :: 0 <= i < |steps| ==> steps[i].dev in devs
    // step i assigns the id issued by the from[i]-th move into h, or 0
    requires |from| == |steps| && NoDup(from)
    requires forall i :: 0 <= i < |steps| && steps[i].id != 0 ==>
               from[i] < |Issued(w, moves)| && Issued(w, moves)[from[i]] == (h, steps[i].id)
    ensures Inverse(RunIds(IdMap(map d | d in devs :: 0, map[]), steps))
    ensures FreshIds(IdMap(map d | d in devs :: 0, map[]), steps)
  {
    var m0 := IdMap(map d | d in devs :: 0, map[]);
    IdsNeverReused(w, moves);
    var issued := Issued(w, moves);
    forall i, j | 0 <= i < j < |steps| && steps[i].id != 0 ensures steps[i].id != steps[j].id {
      assert from[i] != from[j];
    }
    FreshIdsKeepInverse(m0, steps);
  }
}
