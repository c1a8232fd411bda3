/** Choosing one driver host for a composite and placing every fragment in it
    (CompositeDevice::TryAssemble of composite_device.cc, PrepareProxy and
    PrepareNewProxy of coordinator.cc, CreateProxy and CreateNewProxy of device.cc). */
module Assembly {
  import opened Common
  import opened Hosts

  /** One bound fragment: its index, the device it is bound to and the device
      the fragment driver added, if any. */
  datatype Slot = Slot(index: nat, bound: DevId, frag: Option<DevId>)

  /** Where preparing a proxy fails, if it does: before the proxy exists, when
      a new host is to be launched, or in the remote call made last. */
  datatype Fault = NoFault | Early | NoHost | Late

  /** NULL_DEREF stands for reading through a null fragment device, ASSERTS
      for a ZX_ASSERT that stops the process. */
  datatype Status = OK | BAD_STATE | FAILED | NULL_DEREF | ASSERTS

  datatype Prepared = Prepared(w: World, status: Status)

  function FreshProxy(serves: Serving): Hosted { Hosted(None, 0, None, None, false, serves, false) }

  function CreateProxy(w: World, d: DevId): World
    requires d in w.devs
  {
    w.(devs := w.devs[w.nextDev := FreshProxy(OldProxyOf(d))][d := w.devs[d].(proxy := Some(w.nextDev))],
       nextDev := w.nextDev + 1)
  }

  function CreateNewProxy(w: World, d: DevId): World
    requires d in w.devs
  {
    w.(devs := w.devs[w.nextDev := FreshProxy(NewProxyOf(d))][d := w.devs[d].(newProxy := Some(w.nextDev))],
       nextDev := w.nextDev + 1)
  }

  function LaunchHost(w: World): World {
    w.(hosts := w.hosts[w.nextHost := Host(1, [])], nextHost := w.nextHost + 1)
  }

  /** The proxy `p` is given the target host, or a newly launched one. */
  function House(w: World, p: DevId, target: Option<HostId>): World
    requires p in w.devs && (target.Some? ==> target.value in w.hosts)
  {
    if target.Some? then SetHost(w, p, target)
    else SetHost(LaunchHost(w), p, Some(w.nextHost))
  }

  function HandOver(w: World, d: DevId): World
    requires d in w.devs
  {
    w.(devs := w.devs[d := w.devs[d].(outgoing := false)])
  }

  function PrepareNewProxy(w: World, d: DevId, target: Option<HostId>, fault: Fault): Prepared
    requires Proxies(w) && d in w.devs && (target.Some? ==> target.value in w.hosts)
  {
    if !w.devs[d].isolate then Prepared(w, ASSERTS)
    else if w.devs[d].newProxy.None? && fault.Early? then Prepared(w, FAILED)
    else
      var w1 := if w.devs[d].newProxy.None? then CreateNewProxy(w, d) else w;
      assert WellKept(w, d);
      var p := w1.devs[d].newProxy.value;
      if target.None? && fault.NoHost? then Prepared(w1, FAILED)
      else
        var w2 := House(w1, p, target);
        // the remote call consumes the outgoing directory whether or not it succeeds
        Prepared(HandOver(w2, d), if fault.Late? then FAILED else OK)
  }

  function PrepareProxy(w: World, d: DevId, target: Option<HostId>, fault: Fault): Prepared
    requires Proxies(w) && d in w.devs && (target.Some? ==> target.value in w.hosts)
  {
    if w.devs[d].serves != Nobody || !w.devs[d].isolate then Prepared(w, ASSERTS)
    else if fault.Early? then Prepared(w, FAILED)
    else
      var w1 := if w.devs[d].proxy.None? then CreateProxy(w, d) else w;
      assert WellKept(w, d);
      var p := w1.devs[d].proxy.value;
      if w1.devs[p].host.Some? then Prepared(w1, OK)
      else if target.None? && fault.NoHost? then Prepared(w1, FAILED)
      else Prepared(House(w1, p, target), if fault.Late? then FAILED else OK)
  }

  /** Proxies are devices of their own, each serving one device. */
  ghost predicate Proxies(w: World) {
    && (forall d :: d in w.devs ==> WellKept(w, d))
    && (forall h :: h in w.hosts ==> h < w.nextHost)
  }

  /** A proxy has none of the flags and sides of the device it stands for, and
      an outgoing directory makes a device isolated. */
  ghost predicate WellKept(w: World, d: DevId)
    requires d in w.devs
  {
    var r := w.devs[d];
    && d < w.nextDev
    && (r.serves != Nobody ==> !r.isolate && r.proxy.None? && r.newProxy.None?)
    && (r.outgoing ==> r.isolate)
    && (r.host.Some? ==> r.host.value in w.hosts)
    && (r.proxy.Some? ==> Serves(w, r.proxy.value, OldProxyOf(d)))
    && (r.newProxy.Some? ==> Serves(w, r.newProxy.value, NewProxyOf(d)))
  }

  ghost predicate Serves(w: World, p: DevId, serves: Serving) {
    p in w.devs && w.devs[p].serves == serves
  }

  /** The side of a bound device that a composite talks to. */
  function Effective(w: World, d: DevId): DevId
    requires Proxies(w) && d in w.devs
  {
    assert WellKept(w, d);
    var b := if w.devs[d].proxy.Some? then w.devs[d].proxy.value else d;
    assert WellKept(w, b);
    if w.devs[b].newProxy.Some? then w.devs[b].newProxy.value else b
  }

  /** The outcome of one turn of the loop: `dev` is the device whose local id
      goes into the fragment's slot. */
  datatype Turn = Turn(w: World, host: Option<HostId>, status: Status, dev: DevId, id: nat)

  /** The devices of a fragment exist and are no proxies. */
  ghost predicate Known(w: World, s: Slot) {
    && s.bound in w.devs && w.devs[s.bound].serves == Nobody
    && (s.frag.Some? ==> s.frag.value in w.devs && w.devs[s.frag.value].serves == Nobody)
  }

  function Place(w: World, host: Option<HostId>, s: Slot, fault: Fault): Turn
    requires Proxies(w) && Known(w, s) && (host.Some? ==> host.value in w.hosts)
  {
    var b := Effective(w, s.bound);
    assert b in w.devs by { EffectiveKnown(w, s.bound); }
    if w.devs[b].host == host && !w.devs[b].outgoing then
      if s.frag.None? then Turn(w, host, NULL_DEREF, 0, 0)
      else Turn(w, host, OK, s.frag.value, w.devs[s.frag.value].localId)
    else if w.devs[b].outgoing then
      if ProxyElsewhere(w, host, w.devs[b].newProxy) then Turn(w, host, BAD_STATE, 0, 0)
      else Settle(PrepareNewProxy(w, b, host, fault), host, b, true)
    else if s.frag.None? then Turn(w, host, NULL_DEREF, 0, 0)
    else if ProxyElsewhere(w, host, w.devs[s.frag.value].proxy) then Turn(w, host, BAD_STATE, 0, 0)
    else Settle(PrepareProxy(w, s.frag.value, host, fault), host, s.frag.value, false)
  }

  /** There is a host already, and the proxy sits in another one. */
  predicate ProxyElsewhere(w: World, host: Option<HostId>, p: Option<DevId>) {
    host.Some? && p.Some? && p.value in w.devs && w.devs[p.value].host.Some? && w.devs[p.value].host != host
  }

  function Settle(r: Prepared, host: Option<HostId>, d: DevId, useNew: bool): Turn {
    if r.status != OK then Turn(r.w, host, r.status, 0, 0)
    else
      var p := if d in r.w.devs then (if useNew then r.w.devs[d].newProxy else r.w.devs[d].proxy) else None;
      if p.None? || p.value !in r.w.devs then Turn(r.w, host, NULL_DEREF, 0, 0)
      else
        var dev := r.w.devs[p.value];
        Turn(r.w, if host.None? then dev.host else host, OK, p.value, dev.localId)
  }

  /** A device stands for itself unless it has a proxy; only then can it be the
      one with the outgoing directory. */
  lemma EffectiveKnown(w: World, d: DevId)
    requires Proxies(w) && d in w.devs
    ensures var b := Effective(w, d);
            && b in w.devs
            && (w.devs[d].serves == Nobody ==>
                  b == if w.devs[d].proxy.Some? then w.devs[d].proxy.value
                       else if w.devs[d].newProxy.Some? then w.devs[d].newProxy.value
                       else d)
            && (w.devs[d].serves == Nobody && b != d ==> w.devs[b].serves != Nobody && !w.devs[b].outgoing)
  {
    assert WellKept(w, d);
    var p := if w.devs[d].proxy.Some? then w.devs[d].proxy.value else d;
    assert WellKept(w, p);
    assert WellKept(w, Effective(w, d));
  }

  // ----- what one turn changes

  /** `w'` extends `w`: new devices and hosts may appear, and of the old
      devices only those in `t` may have changed. */
  ghost predicate Extends(w: World, w': World, t: set<DevId>) {
    && w.nextDev <= w'.nextDev && w.nextHost <= w'.nextHost
    && w.devs.Keys <= w'.devs.Keys && w.hosts.Keys <= w'.hosts.Keys
    && (forall x :: x in w'.devs && x !in w.devs ==> w.nextDev <= x)
    && (forall x :: x in w.devs && x !in t ==> w'.devs[x] == w.devs[x])
  }

  function Just(d: Option<DevId>): set<DevId> { if d.Some? then {d.value} else {} }

  /** The host a proxy without one is given. */
  function Home(w: World, target: Option<HostId>): HostId {
    if target.Some? then target.value else w.nextHost
  }

  /** The host the proxy of `d` ends up in: its own, if it has one. */
  function ProxyHome(w: World, d: DevId, target: Option<HostId>): HostId
    requires d in w.devs
  {
    var p := w.devs[d].proxy;
    if p.Some? && p.value in w.devs && w.devs[p.value].host.Some? then w.devs[p.value].host.value else Home(w, target)
  }

  lemma Kept(w: World, d: DevId)
    requires Proxies(w) && d in w.devs
    ensures WellKept(w, d) && w.nextDev !in w.devs
  {
  }

  lemma ExtendsChain(w: World, w1: World, w2: World, t1: set<DevId>, t2: set<DevId>, t: set<DevId>)
    requires Extends(w, w1, t1) && Extends(w1, w2, t2)
    requires forall x :: x in t1 + t2 && x in w.devs ==> x in t
    ensures Extends(w, w2, t)
  {
  }

  lemma HouseEffect(w: World, p: DevId, target: Option<HostId>)
    requires Proxies(w) && p in w.devs && w.devs[p].serves != Nobody && (target.Some? ==> target.value in w.hosts)
    ensures var w' := House(w, p, target);
            && Proxies(w') && Extends(w, w', {p}) && w'.nextDev == w.nextDev
            && w'.devs[p] == w.devs[p].(host := Some(Home(w, target)), localId := w'.devs[p].localId)
            && Home(w, target) in w'.hosts
  {
  }

  lemma CreateNewProxyEffect(w: World, d: DevId)
    requires Proxies(w) && d in w.devs && w.devs[d].newProxy.None? && w.devs[d].serves == Nobody
    ensures var w' := CreateNewProxy(w, d);
            && Proxies(w') && Extends(w, w', {d}) && w'.nextDev == w.nextDev + 1
            && w'.hosts == w.hosts && w'.nextHost == w.nextHost
            && w'.devs[d] == w.devs[d].(newProxy := Some(w.nextDev))
            && w'.devs[w.nextDev] == FreshProxy(NewProxyOf(d))
  {
  }

  lemma HandOverEffect(w: World, d: DevId)
    requires Proxies(w) && d in w.devs
    ensures var w' := HandOver(w, d);
            Proxies(w') && Extends(w, w', {d}) && w'.devs[d] == w.devs[d].(outgoing := false) && w'.hosts == w.hosts
  {
  }

  /** Preparing a new proxy asserts exactly on a device that is not isolated;
      without a fault it otherwise leaves the device with a new proxy, its own
      or one just made, in the target host or one just launched, and without
      its outgoing directory. */
  lemma PrepareNewProxyEffect(w: World, d: DevId, target: Option<HostId>, fault: Fault)
    requires Proxies(w) && d in w.devs && (target.Some? ==> target.value in w.hosts)
    ensures var r := PrepareNewProxy(w, d, target, fault);
            var own := w.devs[d].newProxy;
            var q := if own.Some? then own.value else w.nextDev;
            && r.status in {OK, FAILED, ASSERTS}
            && (r.status == ASSERTS <==> !w.devs[d].isolate)
            && (r.status == FAILED ==> fault != NoFault)
            && Proxies(r.w) && Extends(w, r.w, {d} + Just(own))
            && d in r.w.devs && r.w.devs[d] ==
                 w.devs[d].(newProxy := r.w.devs[d].newProxy, outgoing := r.w.devs[d].outgoing)
            && (r.w.devs[d].outgoing ==> w.devs[d].outgoing)
            && (own.Some? ==>
                  q in r.w.devs && r.w.devs[q] == w.devs[q].(host := r.w.devs[q].host, localId := r.w.devs[q].localId))
            && (r.status == OK ==>
                  && q in r.w.devs && q != d && r.w.devs[q].serves == NewProxyOf(d)
                  && r.w.devs[d] == w.devs[d].(newProxy := Some(q), outgoing := false)
                  && r.w.devs[q].host == Some(Home(w, target)) && Home(w, target) in r.w.hosts)
  {
    hide House, Proxies, CreateNewProxy, HandOver, Extends;
    Kept(w, d);
    Stays(w);
    if w.devs[d].isolate && !(w.devs[d].newProxy.None? && fault.Early?) {
      var w1 := if w.devs[d].newProxy.None? then CreateNewProxy(w, d) else w;
      if w.devs[d].newProxy.None? { CreateNewProxyEffect(w, d); }
      NewlyHoused(w, w1, d, target);
    }
  }

  lemma Stays(w: World)
    ensures forall t: set<DevId> :: Extends(w, w, t)
  {
  }

  /** The new proxy `q` of `d`, one just made or an older one, is housed and
      given the outgoing directory. */
  lemma NewlyHoused(w: World, w1: World, d: DevId, target: Option<HostId>)
    requires Proxies(w) && Proxies(w1) && d in w.devs && d in w1.devs && (target.Some? ==> target.value in w1.hosts)
    requires w1.nextHost == w.nextHost && w1.devs[d] == w.devs[d].(newProxy := w1.devs[d].newProxy)
    requires w1.devs[d].newProxy.Some?
    requires if w.devs[d].newProxy.Some? then w1 == w
             else Extends(w, w1, {d}) && w1.devs[d].newProxy.value == w.nextDev
    ensures var q := w1.devs[d].newProxy.value;
            && q in w1.devs && Extends(w, w1, {d} + Just(w.devs[d].newProxy))
            && var w2 := House(w1, q, target);
               && d in w2.devs
               && var w3 := HandOver(w2, d);
                  && Proxies(w3) && Extends(w, w3, {d} + Just(w.devs[d].newProxy))
                  && q in w3.devs && q != d && w3.devs[q].serves == NewProxyOf(d)
                  && d in w3.devs && w3.devs[d] == w.devs[d].(newProxy := Some(q), outgoing := false)
                  && w3.devs[q] == w1.devs[q].(host := w3.devs[q].host, localId := w3.devs[q].localId)
                  && w3.devs[q].host == Some(Home(w, target)) && Home(w, target) in w3.hosts
  {
    hide House, Proxies, HandOver;
    var q := w1.devs[d].newProxy.value;
    Kept(w, d);
    Kept(w1, d);
    HouseEffect(w1, q, target);
    var w2 := House(w1, q, target);
    HandOverEffect(w2, d);
    ExtendsChain(w, w1, w2, {d}, {q}, {d} + Just(w.devs[d].newProxy));
  }

  lemma CreateProxyEffect(w: World, d: DevId)
    requires Proxies(w) && d in w.devs && w.devs[d].proxy.None? && w.devs[d].serves == Nobody
    ensures var w' := CreateProxy(w, d);
            && Proxies(w') && Extends(w, w', {d}) && w'.nextDev == w.nextDev + 1
            && w'.hosts == w.hosts && w'.nextHost == w.nextHost
            && w'.devs[d] == w.devs[d].(proxy := Some(w.nextDev))
            && w'.devs[w.nextDev] == FreshProxy(OldProxyOf(d))
  {
  }

  /** Preparing an old proxy asserts exactly on a proxy or a device that is
      not isolated; without a fault it otherwise leaves the device with a proxy
      that keeps its host if it has one. */
  lemma PrepareProxyEffect(w: World, d: DevId, target: Option<HostId>, fault: Fault)
    requires Proxies(w) && d in w.devs && (target.Some? ==> target.value in w.hosts)
    ensures var r := PrepareProxy(w, d, target, fault);
            var own := w.devs[d].proxy;
            var p := if own.Some? then own.value else w.nextDev;
            && r.status in {OK, FAILED, ASSERTS}
            && (r.status == ASSERTS <==> w.devs[d].serves != Nobody || !w.devs[d].isolate)
            && (r.status == FAILED ==> fault != NoFault)
            && Proxies(r.w) && Extends(w, r.w, {d} + Just(own))
            && d in r.w.devs && r.w.devs[d].(proxy := own) == w.devs[d] && (own.Some? ==> r.w.devs[d].proxy == own)
            && (own.Some? && w.devs[p].host.Some? ==> r.w == w)
            && (own.Some? ==>
                  p in r.w.devs && r.w.devs[p] == w.devs[p].(host := r.w.devs[p].host, localId := r.w.devs[p].localId))
            && (r.status == OK ==>
                  && p in r.w.devs && p != d && r.w.devs[p].serves == OldProxyOf(d)
                  && r.w.devs[d].proxy == Some(p)
                  && r.w.devs[p].host == Some(ProxyHome(w, d, target)) && ProxyHome(w, d, target) in r.w.hosts)
  {
    hide House, Proxies, CreateProxy;
    Kept(w, d);
    if w.devs[d].serves == Nobody && w.devs[d].isolate && !fault.Early? {
      var w1 := if w.devs[d].proxy.None? then CreateProxy(w, d) else w;
      if w.devs[d].proxy.None? { CreateProxyEffect(w, d); }
      var p := w1.devs[d].proxy.value;
      Kept(w1, d);
      Kept(w1, p);
      if w1.devs[p].host.None? && !(target.None? && fault.NoHost?) {
        HouseEffect(w1, p, target);
        ExtendsChain(w, w1, House(w1, p, target), {d}, {p}, {d} + Just(w.devs[d].proxy));
      }
    }
  }

  /** What no turn takes back: devices, their hosts and ids, their proxies,
      and the use of an outgoing directory. */
  ghost predicate Evolves(w: World, w': World) {
    && w.nextDev <= w'.nextDev && w.hosts.Keys <= w'.hosts.Keys
    && forall d :: d in w.devs ==> d in w'.devs && EvolvesAt(w.devs[d], w'.devs[d])
  }

  ghost predicate EvolvesAt(r: Hosted, r': Hosted) {
    && r'.serves == r.serves && r'.isolate == r.isolate && (r'.outgoing ==> r.outgoing)
    && (r.host.Some? ==> r'.host == r.host && r'.localId == r.localId)
    && (r.proxy.Some? ==> r'.proxy == r.proxy)
    && (r.newProxy.Some? ==> r'.newProxy == r.newProxy)
  }

  /** How a turn that succeeds ends, by the branch it takes. */
  ghost predicate Shared(w: World, host: Option<HostId>, s: Slot, r: Turn) {
    s.frag.Some? && s.frag.value in w.devs && r == Turn(w, host, OK, s.frag.value, w.devs[s.frag.value].localId)
  }

  ghost predicate Renewed(w: World, host: Option<HostId>, s: Slot, r: Turn) {
    var b, q := s.bound, w.nextDev;
    && Extends(w, r.w, {b}) && b in w.devs && q in r.w.devs && q != b
    && r.w.devs[b] == w.devs[b].(newProxy := Some(q), outgoing := false)
    && r.w.devs[q].serves == NewProxyOf(b)
    && r.w.devs[q].host == Some(Home(w, host)) && Home(w, host) in r.w.hosts
    && r.host == Some(Home(w, host)) && r.dev == q && r.id == r.w.devs[q].localId
  }

  ghost predicate Mended(w: World, host: Option<HostId>, s: Slot, r: Turn) {
    s.frag.Some? && s.frag.value in w.devs &&
    var f := s.frag.value;
    var own := w.devs[f].proxy;
    var p := if own.Some? then own.value else w.nextDev;
    && Extends(w, r.w, {f} + Just(own)) && p in r.w.devs && p != f
    && r.w.devs[f] == w.devs[f].(proxy := Some(p))
    && r.w.devs[p].serves == OldProxyOf(f)
    && (own.Some? && p in w.devs ==>
          && r.w.devs[p] == w.devs[p].(host := r.w.devs[p].host, localId := r.w.devs[p].localId)
          && (w.devs[p].host.Some? ==> r.w == w))
    && r.w.devs[p].host == Some(ProxyHome(w, f, host)) && ProxyHome(w, f, host) in r.w.hosts
    && r.host == (if host.Some? then host else Some(ProxyHome(w, f, host))) && r.dev == p && r.id == r.w.devs[p].localId
  }

  /** One turn in any situation: which branch it takes, and what comes of it. */
  lemma PlaceCases(w: World, host: Option<HostId>, s: Slot, fault: Fault)
    requires Proxies(w) && Known(w, s) && (host.Some? ==> host.value in w.hosts)
    ensures var r := Place(w, host, s, fault);
            var b := Effective(w, s.bound);
            && b in w.devs && Proxies(r.w)
            && (r.status == FAILED ==> fault != NoFault)
            && (if w.devs[b].outgoing then
                  b == s.bound && r.status in {OK, FAILED} && (r.status == OK ==> Renewed(w, host, s, r))
                else if s.frag.None? then r.status == NULL_DEREF
                else if w.devs[b].host == host then Shared(w, host, s, r)
                else if ProxyElsewhere(w, host, w.devs[s.frag.value].proxy) then r.status == BAD_STATE
                else if !w.devs[s.frag.value].isolate then r.status == ASSERTS
                else r.status in {OK, FAILED} && (r.status == OK ==> Mended(w, host, s, r)))
  {
    hide PrepareNewProxy, PrepareProxy, Proxies, Effective;
    EffectiveKnown(w, s.bound);
    var b := Effective(w, s.bound);
    Kept(w, b);
    if w.devs[b].outgoing {
      PrepareNewProxyEffect(w, b, host, fault);
    } else if s.frag.Some? {
      PrepareProxyEffect(w, s.frag.value, host, fault);
    }
  }

  /** A turn that succeeds has a host from then on and takes nothing back. */
  lemma PlaceKeeps(w: World, host: Option<HostId>, s: Slot, fault: Fault)
    requires Proxies(w) && Known(w, s) && (host.Some? ==> host.value in w.hosts)
    requires Place(w, host, s, fault).status == OK
    ensures var r := Place(w, host, s, fault);
            && Proxies(r.w) && Evolves(w, r.w)
            && (host.Some? ==> r.host == host)
            && (r.host.Some? ==> r.host.value in r.w.hosts)
  {
    hide Place, Proxies, Effective;
    PlaceCases(w, host, s, fault);
    var b := Effective(w, s.bound);
    EffectiveKnown(w, s.bound);
    Kept(w, s.bound);
    if !w.devs[b].outgoing { Kept(w, s.frag.value); }
  }

  // ----- the whole loop

  datatype Placed = Placed(index: nat, dev: DevId, id: nat)
  datatype Layout = Layout(w: World, host: Option<HostId>, status: Status, placed: seq<Placed>)

  ghost predicate AllKnown(w: World, slots: seq<Slot>) {
    Proxies(w) && forall k :: 0 <= k < |slots| ==> Known(w, slots[k])
  }

  lemma KnownTail(w: World, w': World, slots: seq<Slot>)
    requires slots != [] && AllKnown(w, slots) && Proxies(w') && Evolves(w, w')
    ensures AllKnown(w', slots[1..])
  {
    hide Proxies;
    forall k | 0 <= k < |slots[1..]| ensures Known(w', slots[1..][k]) {
      assert Known(w, slots[k + 1]);
    }
  }

  /** The loop over the bound fragments, stopping at the first failure. */
  function PlaceAll(w: World, host: Option<HostId>, slots: seq<Slot>, faults: seq<Fault>): Layout
    requires AllKnown(w, slots) && |faults| == |slots| && (host.Some? ==> host.value in w.hosts)
    decreases |slots|
  {
    if slots == [] then Layout(w, host, OK, [])
    else
      var r := Place(w, host, slots[0], faults[0]);
      if r.status != OK then Layout(r.w, r.host, r.status, [])
      else
        PlaceKeeps(w, host, slots[0], faults[0]);
        KnownTail(w, r.w, slots);
        var l := PlaceAll(r.w, r.host, slots[1..], faults[1..]);
        l.(placed := [Placed(slots[0].index, r.dev, r.id)] + l.placed)
  }

  // ----- distinct ids

  /** `w'` hosts the same devices under the same ids, next to new hostless ones. */
  ghost predicate SameHosting(w: World, w': World) {
    && w'.hosts == w.hosts && w'.nextHost == w.nextHost && w.nextDev <= w'.nextDev
    && w.devs.Keys <= w'.devs.Keys
    && (forall d :: d in w.devs ==> w'.devs[d].host == w.devs[d].host && w'.devs[d].localId == w.devs[d].localId)
    && (forall d :: d in w'.devs && d !in w.devs ==> w'.devs[d].host.None? && w'.devs[d].localId == 0 && d < w'.nextDev)
  }

  lemma SameHostingNamed(w: World, w': World)
    requires SameHosting(w, w') && Linked(w) && Named(w)
    ensures Linked(w') && Named(w')
  {
    forall e, f ensures !Clash(w', e, f) {
      assert !Clash(w, e, f);
    }
  }

  lemma LaunchNamed(w: World, k: nat)
    requires Linked(w) && Named(w) && Room(w, k) && k + 1 < TWO64
    ensures var w' := LaunchHost(w); Linked(w') && Named(w') && Room(w', k)
  {
    var w' := LaunchHost(w);
    forall d | d in w'.devs && w'.devs[d].host.Some?
      ensures w'.devs[d].host.value in w.hosts && w'.hosts[w'.devs[d].host.value] == w.hosts[w'.devs[d].host.value]
    {
    }
    forall e, f ensures !Clash(w', e, f) {
      assert !Clash(w, e, f);
    }
  }

  lemma HouseNamed(w: World, p: DevId, target: Option<HostId>, k: nat)
    requires p in w.devs && (target.Some? ==> target.value in w.hosts)
    requires Linked(w) && Named(w) && Room(w, k + 1) && k + 2 < TWO64
    ensures var w' := House(w, p, target); Linked(w') && Named(w') && Room(w', k)
  {
    hide SetHost, Linked, Named;
    var w1 := if target.Some? then w else LaunchHost(w);
    var t := if target.Some? then target else Some(w.nextHost);
    if target.None? { LaunchNamed(w, k + 1); }
    SetHostLinked(w1, p, t);
    SetHostNamed(w1, p, t);
    SetHostCounter(w1, p, t);
  }

  ghost predicate Healthy(w: World, k: nat) { Linked(w) && Named(w) && Room(w, k) }

  lemma HandOverNamed(w: World, d: DevId, k: nat)
    requires d in w.devs && Healthy(w, k)
    ensures Healthy(HandOver(w, d), k)
  {
    SameHostingNamed(w, HandOver(w, d));
  }

  lemma PrepareNewNamed(w: World, d: DevId, host: Option<HostId>, fault: Fault, k: nat)
    requires Proxies(w) && d in w.devs && (host.Some? ==> host.value in w.hosts)
    requires Healthy(w, k + 1) && k + 2 < TWO64
    ensures Healthy(PrepareNewProxy(w, d, host, fault).w, k)
  {
    assert WellKept(w, d);
    var w1 := if w.devs[d].newProxy.None? then CreateNewProxy(w, d) else w;
    assert Healthy(w1, k + 1) by { SameHostingNamed(w, w1); }
    if !(w.devs[d].newProxy.None? && fault.Early?) && !(host.None? && fault.NoHost?) {
      var p := w1.devs[d].newProxy.value;
      HouseNamed(w1, p, host, k);
      HandOverNamed(House(w1, p, host), d, k);
    }
  }

  lemma PrepareOldNamed(w: World, d: DevId, host: Option<HostId>, fault: Fault, k: nat)
    requires Proxies(w) && d in w.devs && (host.Some? ==> host.value in w.hosts)
    requires Healthy(w, k + 1) && k + 2 < TWO64
    ensures Healthy(PrepareProxy(w, d, host, fault).w, k)
  {
    hide House, Linked, Named;
    assert WellKept(w, d);
    var w1 := if w.devs[d].proxy.None? then CreateProxy(w, d) else w;
    assert Healthy(w1, k + 1) by { SameHostingNamed(w, w1); }
    var p := w1.devs[d].proxy.value;
    assert Healthy(House(w1, p, host), k) by { HouseNamed(w1, p, host, k); }
    assert PrepareProxy(w, d, host, fault).w in {w, w1, House(w1, p, host)};
  }

  lemma PlaceWorld(w: World, host: Option<HostId>, s: Slot, fault: Fault)
    requires Proxies(w) && Known(w, s) && (host.Some? ==> host.value in w.hosts)
    ensures var w' := Place(w, host, s, fault).w;
            var b := Effective(w, s.bound);
            b in w.devs &&
            (|| w' == w
             || w' == PrepareNewProxy(w, b, host, fault).w
             || (s.frag.Some? && w' == PrepareProxy(w, s.frag.value, host, fault).w))
  {
    EffectiveKnown(w, s.bound);
    hide PrepareNewProxy, PrepareProxy, Effective, Proxies;
  }

  lemma HealthyLess(w: World, k: nat)
    requires Healthy(w, k + 1)
    ensures Healthy(w, k)
  {
  }

  lemma PlaceNamed(w: World, host: Option<HostId>, s: Slot, fault: Fault, k: nat)
    requires Proxies(w) && Known(w, s) && (host.Some? ==> host.value in w.hosts)
    requires Healthy(w, k + 1) && k + 2 < TWO64
    ensures Healthy(Place(w, host, s, fault).w, k)
  {
    hide Place, PrepareNewProxy, PrepareProxy, Effective, Proxies, Healthy;
    PlaceWorld(w, host, s, fault);
    HealthyLess(w, k);
    PrepareNewNamed(w, Effective(w, s.bound), host, fault, k);
    if s.frag.Some? { PrepareOldNamed(w, s.frag.value, host, fault, k); }
  }

  /** However the loop ends, no two devices of one host go by the same id. */
  lemma {:induction false} NamedThroughLoop(w: World, host: Option<HostId>, slots: seq<Slot>, faults: seq<Fault>)
    requires AllKnown(w, slots) && |faults| == |slots| && (host.Some? ==> host.value in w.hosts)
    requires Linked(w) && Named(w) && Room(w, |slots|) && |slots| + 2 < TWO64
    ensures Named(PlaceAll(w, host, slots, faults).w)
    decreases |slots|
  {
    hide Place, Proxies, Linked, Named;
    if slots == [] {
    } else {
      var r := Place(w, host, slots[0], faults[0]);
      PlaceNamed(w, host, slots[0], faults[0], |slots| - 1);
      if r.status == OK {
        PlaceKeeps(w, host, slots[0], faults[0]);
        KnownTail(w, r.w, slots);
        NamedThroughLoop(r.w, r.host, slots[1..], faults[1..]);
      }
    }
  }
}
