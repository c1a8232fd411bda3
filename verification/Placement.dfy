/** The in-place form of the assembly loop: the coordinator's device and host
    tables, updated by the methods that TryAssemble calls. */
module Placement {
  import opened Common
  import opened Hosts
  import A = Assembly
  import opened Assembly
  import opened AssemblyLoop

  /** Every index below |slots| belongs to one slot. */
  ghost predicate Covering(slots: seq<Slot>) {
    && (forall k :: 0 <= k < |slots| ==> slots[k].index < |slots|)
    && (forall j, k :: 0 <= j < k < |slots| ==> slots[j].index != slots[k].index)
    && (forall i :: 0 <= i < |slots| ==> HasIndex(slots, i))
  }

  ghost predicate HasIndex(slots: seq<Slot>, i: nat) {
    exists k :: 0 <= k < |slots| && slots[k].index == i
  }

  /** The host a composite starts from: that of the device its primary fragment
      is bound to if it is to be colocated, else none yet. */
  ghost predicate Starts(w: World, slots: seq<Slot>, colocated: bool, primary: nat, host: Option<HostId>)
    requires forall k :: 0 <= k < |slots| ==> slots[k].bound in w.devs
  {
    && (!colocated || !HasIndex(slots, primary) ==> host.None?)
    && (colocated ==> forall k :: 0 <= k < |slots| && slots[k].index == primary ==> host == w.devs[slots[k].bound].host)
  }

  /** One unfolding of the loop. */
  lemma Unfold(w: World, host: Option<HostId>, slots: seq<Slot>, faults: seq<Fault>)
    requires slots != [] && AllKnown(w, slots) && |faults| == |slots| && (host.Some? ==> host.value in w.hosts)
    ensures Proxies(w) && Known(w, slots[0])
    ensures var r := Place(w, host, slots[0], faults[0]);
            var l := PlaceAll(w, host, slots, faults);
            if r.status != OK then l == Layout(r.w, r.host, r.status, [])
            else
              && AllKnown(r.w, slots[1..]) && (r.host.Some? ==> r.host.value in r.w.hosts)
              && var m := PlaceAll(r.w, r.host, slots[1..], faults[1..]);
                 l == m.(placed := [Placed(slots[0].index, r.dev, r.id)] + m.placed)
  {
    hide Place, Proxies, Known, Evolves;
    assert Known(w, slots[0]);
    if Place(w, host, slots[0], faults[0]).status == OK {
      PlaceKeeps(w, host, slots[0], faults[0]);
      KnownTail(w, Place(w, host, slots[0], faults[0]).w, slots);
    }
  }

  lemma Filled(slots: seq<Slot>, ids: seq<Option<nat>>)
    requires Covering(slots) && |ids| == |slots|
    requires forall k :: 0 <= k < |slots| ==> ids[slots[k].index].Some?
    ensures forall i :: 0 <= i < |ids| ==> ids[i].Some?
  {
    forall i | 0 <= i < |ids| ensures ids[i].Some? {
      assert HasIndex(slots, i);
    }
  }

  lemma EndOfLoop(w: World, host: Option<HostId>, slots: seq<Slot>, faults: seq<Fault>)
    requires slots == [] && AllKnown(w, slots) && |faults| == |slots| && (host.Some? ==> host.value in w.hosts)
    ensures PlaceAll(w, host, slots, faults) == Layout(w, host, OK, [])
  {
  }

  class HostTable {
    var devs: map<DevId, Hosted>
    var hosts: map<HostId, Host>
    var nextDev: DevId
    var nextHost: HostId

    ghost function View(): World reads this { World(devs, hosts, nextDev, nextHost) }

    constructor (w: World)
      ensures View() == w
    {
      devs, hosts, nextDev, nextHost := w.devs, w.hosts, w.nextDev, w.nextHost;
    }

    method SetHost(d: DevId, target: Option<HostId>)
      requires d in devs && (target.Some? ==> target.value in hosts)
      modifies this
      ensures View() == Hosts.SetHost(old(View()), d, target)
    {
      var prev := devs[d].host;
      if prev.Some? && prev.value in hosts {
        hosts := hosts[prev.value := hosts[prev.value].(devices := Erase(hosts[prev.value].devices, d))];
      }
      devs := devs[d := devs[d].(host := target, localId := 0)];
      if target.Some? {
        var h := hosts[target.value];
        hosts := hosts[target.value := Host(Next(h.nextId), h.devices + [d])];
        devs := devs[d := devs[d].(localId := h.nextId)];
      }
    }

    method House(p: DevId, target: Option<HostId>)
      requires p in devs && (target.Some? ==> target.value in hosts)
      modifies this
      ensures View() == A.House(old(View()), p, target)
    {
      if target.None? {
        var h := nextHost;
        hosts := hosts[h := Host(1, [])];
        nextHost := nextHost + 1;
        SetHost(p, Some(h));
      } else {
        SetHost(p, target);
      }
    }

    method PrepareNewProxy(d: DevId, target: Option<HostId>, fault: Fault) returns (status: Status)
      requires Proxies(View()) && d in devs && (target.Some? ==> target.value in hosts)
      modifies this
      ensures Prepared(View(), status) == A.PrepareNewProxy(old(View()), d, target, fault)
    {
      if !devs[d].isolate {
        return ASSERTS;
      }
      assert WellKept(View(), d);
      if devs[d].newProxy.None? {
        if fault.Early? {
          return FAILED;
        }
        devs := devs[nextDev := FreshProxy(NewProxyOf(d))][d := devs[d].(newProxy := Some(nextDev))];
        nextDev := nextDev + 1;
      }
      var p := devs[d].newProxy.value;
      if target.None? && fault.NoHost? {
        return FAILED;
      }
      House(p, target);
      devs := devs[d := devs[d].(outgoing := false)];
      return if fault.Late? then FAILED else OK;
    }

    method PrepareProxy(d: DevId, target: Option<HostId>, fault: Fault) returns (status: Status)
      requires Proxies(View()) && d in devs && (target.Some? ==> target.value in hosts)
      modifies this
      ensures Prepared(View(), status) == A.PrepareProxy(old(View()), d, target, fault)
    {
      if devs[d].serves != Nobody || !devs[d].isolate {
        return ASSERTS;
      }
      if fault.Early? {
        return FAILED;
      }
      assert WellKept(View(), d);
      if devs[d].proxy.None? {
        devs := devs[nextDev := FreshProxy(OldProxyOf(d))][d := devs[d].(proxy := Some(nextDev))];
        nextDev := nextDev + 1;
      }
      var p := devs[d].proxy.value;
      if devs[p].host.None? {
        if target.None? && fault.NoHost? {
          return FAILED;
        }
        House(p, target);
        return if fault.Late? then FAILED else OK;
      }
      return OK;
    }

    /** Prepare a proxy of either kind and take its host if none was chosen. */
    method Settle(d: DevId, host: Option<HostId>, fault: Fault, useNew: bool)
      returns (newHost: Option<HostId>, status: Status, dev: DevId, id: nat)
      requires Proxies(View()) && d in devs && (host.Some? ==> host.value in hosts)
      modifies this
      ensures var r := if useNew then A.PrepareNewProxy(old(View()), d, host, fault)
                                 else A.PrepareProxy(old(View()), d, host, fault);
              Turn(View(), newHost, status, dev, id) == A.Settle(r, host, d, useNew)
    {
      var proxy: Option<DevId>;
      if useNew {
        PrepareNewProxyEffect(View(), d, host, fault);
        status := PrepareNewProxy(d, host, fault);
        proxy := devs[d].newProxy;
      } else {
        PrepareProxyEffect(View(), d, host, fault);
        status := PrepareProxy(d, host, fault);
        proxy := devs[d].proxy;
      }
      if status != OK {
        return host, status, 0, 0;
      }
      var settled := devs[proxy.value];
      newHost := if host.None? then settled.host else host;
      return newHost, OK, proxy.value, settled.localId;
    }

    /** One turn of the assembly loop. */
    method PlaceOne(s: Slot, host: Option<HostId>, fault: Fault)
      returns (newHost: Option<HostId>, status: Status, dev: DevId, id: nat)
      requires Proxies(View()) && Known(View(), s) && (host.Some? ==> host.value in hosts)
      modifies this
      ensures Turn(View(), newHost, status, dev, id) == Place(old(View()), host, s, fault)
    {
      ghost var w := View();
      Kept(w, s.bound);
      var bound := s.bound;
      if devs[bound].proxy.Some? {
        bound := devs[bound].proxy.value;
      }
      Kept(w, bound);
      if devs[bound].newProxy.Some? {
        bound := devs[bound].newProxy.value;
      }
      assert bound == Effective(w, s.bound);
      var useNew := devs[bound].outgoing;
      if !useNew && s.frag.None? {
        return host, NULL_DEREF, 0, 0;
      }
      if devs[bound].host == host && !useNew {
        return host, OK, s.frag.value, devs[s.frag.value].localId;
      }
      var d := if useNew then bound else s.frag.value;
      Kept(w, d);
      var p := if useNew then devs[d].newProxy else devs[d].proxy;
      if host.Some? && p.Some? && devs[p.value].host.Some? && devs[p.value].host != host {
        return host, BAD_STATE, 0, 0;
      }
      newHost, status, dev, id := Settle(d, host, fault, useNew);
    }

    /** The loop that gives every fragment a device in one host and writes
        that device's local id into the fragment's slot. */
    method PlaceFragments(slots: seq<Slot>, start: Option<HostId>, faults: seq<Fault>, ids: array<Option<nat>>)
      returns (status: Status, host: Option<HostId>)
      requires AllKnown(View(), slots) && |faults| == |slots| && (start.Some? ==> start.value in hosts)
      requires Covering(slots) && ids.Length == |slots|
      requires forall i :: 0 <= i < ids.Length ==> ids[i] == None
      modifies this, ids
      ensures var l := PlaceAll(old(View()), start, slots, faults);
              && View() == l.w && status == l.status && host == l.host
              && (status == OK ==>
                    && |l.placed| == |slots|
                    && (forall k :: 0 <= k < |slots| ==> ids[slots[k].index] == Some(l.placed[k].id))
                    && (forall i :: 0 <= i < ids.Length ==> ids[i].Some?))
    {
      hide AllKnown, Proxies, Known, Place, PlaceAll, HasIndex;
      host := start;
      status := OK;
      ghost var l := PlaceAll(View(), start, slots, faults);
      ghost var placed: seq<Placed> := [];
      var n := 0;
      assert slots[0..] == slots && faults[0..] == faults;
      while n < |slots|
        invariant 0 <= n <= |slots|
        invariant AllKnown(View(), slots[n..]) && (host.Some? ==> host.value in hosts)
        invariant |placed| == n && status == OK
        invariant var m := PlaceAll(View(), host, slots[n..], faults[n..]);
                  l == m.(placed := placed + m.placed)
        invariant forall k :: 0 <= k < n ==> ids[slots[k].index] == Some(placed[k].id)
        invariant forall k :: n <= k < |slots| ==> ids[slots[k].index] == None
      {
        var s := slots[n];
        ghost var rest, more := slots[n..], faults[n..];
        assert rest[0] == s && rest[1..] == slots[n + 1..] && more[1..] == faults[n + 1..] && more[0] == faults[n];
        Unfold(View(), host, rest, more);
        var dev, id;
        host, status, dev, id := PlaceOne(s, host, faults[n]);
        if status != OK {
          return;
        }
        ids[s.index] := Some(id);
        placed := placed + [Placed(s.index, dev, id)];
        n := n + 1;
      }
      EndOfLoop(View(), host, slots[n..], faults[n..]);
      Filled(slots, ids[..]);
    }

    method ChooseHost(slots: seq<Slot>, colocated: bool, primary: nat) returns (host: Option<HostId>)
      requires Covering(slots) && forall k :: 0 <= k < |slots| ==> slots[k].bound in devs
      ensures Starts(View(), slots, colocated, primary, host)
    {
      host := None;
      if colocated {
        var n := 0;
        while n < |slots|
          invariant n <= |slots|
          invariant forall k :: 0 <= k < n && slots[k].index == primary ==> host == devs[slots[k].bound].host
          invariant (forall k :: 0 <= k < n ==> slots[k].index != primary) ==> host.None?
        {
          if slots[n].index == primary {
            host := devs[slots[n].bound].host;
          }
          n := n + 1;
        }
      }
    }

    /** TryAssemble from the choice of a host on: a colocated composite starts
        from the host of the device its primary fragment is bound to, and the
        loop ends as told from the tables before the call. */
    method Assemble(slots: seq<Slot>, colocated: bool, primary: nat, faults: seq<Fault>, ids: array<Option<nat>>)
      returns (status: Status, host: Option<HostId>, ghost start: Option<HostId>)
      requires Linked(View()) && Sound(Plan(View(), None, slots)) && |faults| == |slots|
      requires Covering(slots) && ids.Length == |slots| && (forall i :: 0 <= i < ids.Length ==> ids[i] == None)
      requires forall k :: 0 <= k < |slots| ==> slots[k].bound in devs
      modifies this, ids
      ensures Starts(old(View()), slots, colocated, primary, start)
      ensures var p := Plan(old(View()), start, slots);
              && Sound(p)
              && var l := Loop(p, faults);
                 && View() == l.w && status == l.status && host == l.host && Ends(p, faults, l)
                 && (status == OK ==> |l.placed| == |slots| && forall k :: 0 <= k < |slots| ==>
                       ids[slots[k].index] == Some(l.placed[k].id))
    {
      hide AllKnown, PlaceAll, Fit, Proxies, Ends;
      var chosen := ChooseHost(slots, colocated, primary);
      ChosenIsHost(View(), slots, colocated, primary, chosen);
      start := chosen;
      ghost var p := Plan(View(), start, slots);
      assert Sound(p);
      SoundKnown(p);
      LoopEnds(p, faults);
      status, host := PlaceFragments(slots, chosen, faults, ids);
    }
  }

  lemma ChosenIsHost(w: World, slots: seq<Slot>, colocated: bool, primary: nat, host: Option<HostId>)
    requires Linked(w) && (forall k :: 0 <= k < |slots| ==> slots[k].bound in w.devs)
    requires Starts(w, slots, colocated, primary, host)
    ensures host.Some? ==> host.value in w.hosts
  {
  }
}
