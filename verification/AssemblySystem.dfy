/** The assembly loop in reachable states: what the fragment graph guarantees
    the loop, and what the loop does to the fragment graph. */
module AssemblySystem {
  import opened Common
  import opened Hosts
  import A = Assembly
  import opened AssemblyLoop
  import opened Placement
  import C = Composites
  import R = CompositeRuns
  import O = CompositeOrder
  import M = CompositeMatching
  import Y = CompositeSystem

  /** The bound fragments of a composite, in list order. */
  ghost function SlotsOf(st: C.State, c: C.CompId): seq<A.Slot>
    requires c in st.comps && AllBound(st, c)
  {
    seq(|st.comps[c].bound|, k requires 0 <= k < |st.comps[c].bound| => SlotAt(st, c, st.comps[c].bound[k]))
  }

  ghost predicate AllBound(st: C.State, c: C.CompId)
    requires c in st.comps
  {
    forall k :: 0 <= k < |st.comps[c].bound| ==> BoundAt(st, c, st.comps[c].bound[k])
  }

  ghost predicate BoundAt(st: C.State, c: C.CompId, i: nat) {
    C.FragId(c, i) in st.frags && st.frags[C.FragId(c, i)].bound.Some?
    && st.frags[C.FragId(c, i)].bound.value in st.devs
  }

  ghost function SlotAt(st: C.State, c: C.CompId, i: nat): A.Slot
    requires BoundAt(st, c, i)
  {
    A.Slot(i, st.frags[C.FragId(c, i)].bound.value, st.frags[C.FragId(c, i)].fragDev)
  }

  /** The host tables know the devices of the graph: none is a proxy, they
      agree on outgoing directories, and a fragment device and the side it was
      added through have hosts. */
  ghost predicate Mirrors(st: C.State, w: World) {
    && A.Proxies(w)
    && (forall d :: d in st.devs ==>
          d in w.devs && w.devs[d].serves == Nobody && w.devs[d].outgoing == st.devs[d].outgoing)
    && (forall f :: f in st.frags && st.frags[f].fragDev.Some? && st.frags[f].bound.Some? ==>
          Live(w, st.frags[f].fragDev.value) && Live(w, st.frags[f].bound.value))
  }

  ghost predicate Live(w: World, d: DevId)
    requires A.Proxies(w)
  {
    d in w.devs && w.devs[d].host.Some? && A.Effective(w, d) in w.devs && w.devs[A.Effective(w, d)].host.Some?
  }

  lemma AllAreBound(st: C.State, c: C.CompId)
    requires R.Inv(st) && c in st.comps
    ensures AllBound(st, c)
  {
    forall k | 0 <= k < |st.comps[c].bound| ensures BoundAt(st, c, st.comps[c].bound[k]) {
      assert st.comps[c].bound[k] in st.comps[c].bound;
      assert R.ListsAt(st, c);
    }
  }

  lemma ReachableGood(matched: iset<C.CompId>, steps: seq<Y.Step>, st: C.State)
    requires Y.Run(Y.Boot(), matched, steps, st)
    ensures Y.Good(st, matched) && R.Inv(st) && O.Orderly(st)
  {
    Y.BootGood(matched);
    Y.RunGood(Y.Boot(), matched, steps, st);
  }

  lemma SlotFit(st: C.State, w: World, c: C.CompId, i: nat)
    requires R.Inv(st) && c in st.comps && i in st.comps[c].bound && C.AllReady(st, c) && Mirrors(st, w)
    requires BoundAt(st, c, i)
    ensures Fit(w, SlotAt(st, c, i))
  {
    var f := C.FragId(c, i);
    assert C.FragmentReady(st, f);
    if st.frags[f].fragDev.Some? {
      assert R.FragDevAt(st, st.frags[f]);
    }
  }

  /** The bound list as the loop sees it: indexes 0..n-1 once each, every
      fragment ready, and no fragment device shared or its own parent. */
  lemma SlotsSound(st: C.State, w: World, c: C.CompId, start: Option<HostId>)
    requires R.Inv(st) && c in st.comps && st.comps[c].unbound == [] && C.AllReady(st, c) && Mirrors(st, w)
    requires start.Some? ==> start.value in w.hosts
    ensures AllBound(st, c) && Sound(Plan(w, start, SlotsOf(st, c)))
  {
    hide R.Inv, Fit, Mirrors;
    AllAreBound(st, c);
    var slots := SlotsOf(st, c);
    assert A.Proxies(w) by { MirrorsProxies(st, w); }
    forall k | 0 <= k < |slots| ensures Fit(w, slots[k]) { SlotFit(st, w, c, st.comps[c].bound[k]); }
    forall j, k | 0 <= j < k < |slots| && slots[j].frag.Some? ensures slots[j].frag != slots[k].frag {
      NotShared(st, c, j, k);
    }
  }

  lemma MirrorsProxies(st: C.State, w: World)
    requires Mirrors(st, w)
    ensures A.Proxies(w)
  {
  }

  lemma NotShared(st: C.State, c: C.CompId, j: nat, k: nat)
    requires R.Inv(st) && c in st.comps && AllBound(st, c) && j < k < |st.comps[c].bound|
    requires SlotsOf(st, c)[j].frag.Some?
    ensures SlotsOf(st, c)[j].frag != SlotsOf(st, c)[k].frag
  {
    assert R.ListsAt(st, c);
    var f, g := C.FragId(c, st.comps[c].bound[j]), C.FragId(c, st.comps[c].bound[k]);
    assert f != g;
  }

  lemma SlotsCover(st: C.State, c: C.CompId)
    requires R.Inv(st) && c in st.comps && st.comps[c].unbound == [] && AllBound(st, c)
    ensures Covering(SlotsOf(st, c)) && |SlotsOf(st, c)| == st.comps[c].count
  {
    var slots, r := SlotsOf(st, c), st.comps[c];
    assert R.ListsAt(st, c);
    forall i: nat | i < r.count ensures i in r.bound && HasIndex(slots, i) {
      assert C.FragId(c, i) in st.frags && i !in r.unbound;
      var k :| 0 <= k < |r.bound| && r.bound[k] == i;
      assert slots[k].index == i;
    }
    forall k | 0 <= k < |r.bound| ensures r.bound[k] < r.count { assert r.bound[k] in r.bound; }
    Pigeonhole(r.bound, r.count);
  }

  /** A list that holds exactly the numbers below `n`, once each, has length `n`. */
  lemma Pigeonhole(s: seq<nat>, n: nat)
    requires NoDup(s) && (forall k :: 0 <= k < |s| ==> s[k] < n) && (forall i: nat :: i < n ==> i in s)
    ensures |s| == n
    decreases n
  {
    if n == 0 {
    } else {
      var last: nat := n - 1;
      var t := Erase(s, last);
      EraseSpec(s, last);
      forall k | 0 <= k < |t| ensures t[k] < n - 1 {
        assert t[k] in t;
        var j :| 0 <= j < |s| && s[j] == t[k];
      }
      Pigeonhole(t, n - 1);
    }
  }

  /** In every reachable state a composite that TryAssemble goes on with gives
      the loop a sound plan with one slot per fragment; a fragment device is
      never the device its own fragment is bound to; and the fragments of a
      matched composite are on distinct devices. */
  lemma ReachablePlan(matched: iset<C.CompId>, steps: seq<Y.Step>, st: C.State, w: World, c: C.CompId,
                      start: Option<HostId>)
    requires Y.Run(Y.Boot(), matched, steps, st) && c in st.comps && Mirrors(st, w)
    requires st.comps[c].unbound == [] && C.AllReady(st, c) && (start.Some? ==> start.value in w.hosts)
    ensures AllBound(st, c) && Covering(SlotsOf(st, c)) && Sound(Plan(w, start, SlotsOf(st, c)))
    ensures forall k :: 0 <= k < |SlotsOf(st, c)| ==> Shape(w, SlotsOf(st, c)[k])
    ensures c in matched ==> forall j, k :: 0 <= j < k < |SlotsOf(st, c)| ==>
              SlotsOf(st, c)[j].bound != SlotsOf(st, c)[k].bound
  {
    hide R.Inv, Sound, Covering, O.Orderly, Y.Run, Mirrors, Shape;
    ReachableGood(matched, steps, st);
    SlotsSound(st, w, c, start);
    SlotsCover(st, c);
    forall k | 0 <= k < |SlotsOf(st, c)| ensures Shape(w, SlotsOf(st, c)[k]) {
      SlotShape(st, w, c, st.comps[c].bound[k]);
    }
    if c in matched {
      forall j, k | 0 <= j < k < |SlotsOf(st, c)| ensures SlotsOf(st, c)[j].bound != SlotsOf(st, c)[k].bound {
        BoundApart(matched, st, c, j, k);
      }
    }
  }

  /** A fragment has a fragment device, younger than the device it is bound to,
      exactly if that device has no outgoing directory. */
  ghost predicate Shape(w: World, s: A.Slot) {
    s.bound in w.devs && (s.frag.Some? <==> !w.devs[s.bound].outgoing) && (s.frag.Some? ==> s.bound < s.frag.value)
  }

  lemma SlotShape(st: C.State, w: World, c: C.CompId, i: nat)
    requires R.Inv(st) && O.Orderly(st) && c in st.comps && i in st.comps[c].bound && C.AllReady(st, c)
    requires Mirrors(st, w)
    requires BoundAt(st, c, i)
    ensures Shape(w, SlotAt(st, c, i))
  {
    var f := C.FragId(c, i);
    assert C.FragmentReady(st, f);
    if st.frags[f].fragDev.Some? {
      assert R.FragDevAt(st, st.frags[f]) && R.TreeAt(st, st.frags[f].fragDev.value);
    }
  }

  lemma BoundApart(matched: iset<C.CompId>, st: C.State, c: C.CompId, j: nat, k: nat)
    requires Y.Good(st, matched) && c in st.comps && c in matched && AllBound(st, c) && j < k < |st.comps[c].bound|
    ensures SlotsOf(st, c)[j].bound != SlotsOf(st, c)[k].bound
  {
    assert R.ListsAt(st, c);
    var bound := st.comps[c].bound;
    assert bound[j] in bound && bound[k] in bound && bound[j] != bound[k];
    M.ExclusiveOnce(st, c, bound[j], bound[k]);
  }

  // ----- what the loop does to the graph

  /** A turn takes the outgoing directory of the bound device, if any. */
  lemma PlaceOutgoing(w: World, host: Option<HostId>, s: A.Slot, fault: A.Fault)
    requires A.Proxies(w) && A.Known(w, s) && (host.Some? ==> host.value in w.hosts)
    ensures var w' := A.Place(w, host, s, fault).w;
            forall d :: d in w.devs ==>
              d in w'.devs && (w'.devs[d].outgoing == w.devs[d].outgoing || (d == s.bound && !w'.devs[d].outgoing))
  {
    hide A.Place, A.Proxies, A.Effective, A.PrepareNewProxy, A.PrepareProxy;
    var b := A.Effective(w, s.bound);
    A.EffectiveKnown(w, s.bound);
    A.PlaceWorld(w, host, s, fault);
    NewProxyOutgoing(w, b, host, fault);
    if s.frag.Some? { ProxyOutgoing(w, s.frag.value, host, fault); }
    A.Kept(w, b);
    if b != s.bound { A.Kept(A.PrepareNewProxy(w, b, host, fault).w, b); }
  }

  lemma NewProxyOutgoing(w: World, b: DevId, host: Option<HostId>, fault: A.Fault)
    requires A.Proxies(w) && b in w.devs && (host.Some? ==> host.value in w.hosts)
    ensures var w' := A.PrepareNewProxy(w, b, host, fault).w;
            && A.Proxies(w') && b in w'.devs && w'.devs[b].serves == w.devs[b].serves
            && (w'.devs[b].outgoing ==> w.devs[b].outgoing)
            && forall d :: d in w.devs && d != b ==> d in w'.devs && w'.devs[d].outgoing == w.devs[d].outgoing
  {
    hide A.Proxies, A.PrepareNewProxy;
    A.PrepareNewProxyEffect(w, b, host, fault);
    A.Kept(w, b);
  }

  lemma ProxyOutgoing(w: World, f: DevId, host: Option<HostId>, fault: A.Fault)
    requires A.Proxies(w) && f in w.devs && (host.Some? ==> host.value in w.hosts)
    ensures var w' := A.PrepareProxy(w, f, host, fault).w;
            forall d :: d in w.devs ==> d in w'.devs && w'.devs[d].outgoing == w.devs[d].outgoing
  {
    hide A.Proxies, A.PrepareProxy;
    A.PrepareProxyEffect(w, f, host, fault);
    A.Kept(w, f);
  }

  ghost predicate HasBound(slots: seq<A.Slot>, d: DevId) {
    exists k :: 0 <= k < |slots| && slots[k].bound == d
  }

  /** The loop takes outgoing directories of bound devices only. */
  lemma {:induction false} LoopOutgoing(w: World, host: Option<HostId>, slots: seq<A.Slot>, faults: seq<A.Fault>)
    requires A.AllKnown(w, slots) && |faults| == |slots| && (host.Some? ==> host.value in w.hosts)
    ensures var l := A.PlaceAll(w, host, slots, faults);
            forall d :: d in w.devs ==>
              d in l.w.devs && (l.w.devs[d].outgoing ==
                                w.devs[d].outgoing || (HasBound(slots, d) && !l.w.devs[d].outgoing))
    decreases |slots|
  {
    hide A.Place, A.Proxies, A.Known, A.Evolves;
    if slots == [] {
    } else {
      assert A.Known(w, slots[0]);
      PlaceOutgoing(w, host, slots[0], faults[0]);
      assert HasBound(slots, slots[0].bound);
      var r := A.Place(w, host, slots[0], faults[0]);
      if r.status == A.OK {
        A.PlaceKeeps(w, host, slots[0], faults[0]);
        A.KnownTail(w, r.w, slots);
        LoopOutgoing(r.w, r.host, slots[1..], faults[1..]);
        forall d | HasBound(slots[1..], d) ensures HasBound(slots, d) {
          var k :| 0 <= k < |slots[1..]| && slots[1..][k].bound == d;
          assert slots[k + 1].bound == d;
        }
      }
    }
  }

  /** What the fragment graph learns of the loop. */
  ghost function PlacingOf(w: World, l: A.Layout): C.Placing {
    C.Placing(l.status == A.OK, set d | d in w.devs && d in l.w.devs && w.devs[d].outgoing && !l.w.devs[d].outgoing)
  }

  /** The loop as a step of the fragment graph, in every reachable state and
      with any faults: the composite is assembled exactly if the loop gets
      through, the graph and the tables still agree on outgoing directories,
      only bound devices have lost theirs, and on success all of them have. */
  lemma Assembles(matched: iset<C.CompId>, steps: seq<Y.Step>, st: C.State, w: World, c: C.CompId,
                  start: Option<HostId>,
                  faults: seq<A.Fault>)
    requires Y.Run(Y.Boot(), matched, steps, st) && c in st.comps && Mirrors(st, w) && st.comps[c].device.None?
    requires st.comps[c].unbound == [] && C.AllReady(st, c) && (start.Some? ==> start.value in w.hosts)
    requires |faults| == |st.comps[c].bound|
    ensures AllBound(st, c) && Sound(Plan(w, start, SlotsOf(st, c)))
    ensures var l := Loop(Plan(w, start, SlotsOf(st, c)), faults);
            var r := C.TryAssemble(st, c, PlacingOf(w, l));
            && r.Done? && c in r.st.comps && (r.st.comps[c].device.Some? <==> l.status == A.OK)
            && (forall d :: d in st.devs ==>
                  d in r.st.devs && d in l.w.devs && r.st.devs[d].outgoing == l.w.devs[d].outgoing)
            && (forall d :: d in PlacingOf(w, l).consumed ==> HasBound(SlotsOf(st, c), d))
            && (l.status == A.OK ==> forall d :: HasBound(SlotsOf(st, c), d) ==> d in l.w.devs && !l.w.devs[d].outgoing)
  {
    hide R.Inv, Sound, O.Orderly, Y.Run, Shape, Loop, C.AllReady, Mirrors, Covering;
    ReachablePlan(matched, steps, st, w, c, start);
    ReachableGood(matched, steps, st);
    var p := Plan(w, start, SlotsOf(st, c));
    var l := Loop(p, faults);
    SoundOutgoing(p, faults);
    O.NoSuchDevice(st);
    SameFlags(st, w, l, c);
    if l.status == A.OK {
      forall d | HasBound(SlotsOf(st, c), d) ensures d in l.w.devs && !l.w.devs[d].outgoing {
        var k :| 0 <= k < |p.slots| && p.slots[k].bound == d;
        TakenAtEnd(p, faults, k);
      }
    }
  }

  lemma SameFlags(st: C.State, w: World, l: A.Layout, c: C.CompId)
    requires Mirrors(st, w) && st.nextDev !in st.devs && c in st.comps
    requires forall d :: d in w.devs ==> d in l.w.devs && (l.w.devs[d].outgoing ==> w.devs[d].outgoing)
    ensures var st1 := C.Consume(st, PlacingOf(w, l).consumed);
            && st1.comps == st.comps
            && (forall d :: d in st.devs ==>
                  && d in st1.devs && d in l.w.devs && st1.devs[d].outgoing == l.w.devs[d].outgoing
                  && d in C.Assembled(st1, c).devs && C.Assembled(st1, c).devs[d] == st1.devs[d])
  {
  }

  lemma SoundOutgoing(p: Plan, faults: seq<A.Fault>)
    requires Sound(p) && |faults| == |p.slots|
    ensures var l := Loop(p, faults);
            forall d :: d in p.w.devs ==>
              d in l.w.devs && (l.w.devs[d].outgoing ==
                                p.w.devs[d].outgoing || (HasBound(p.slots, d) && !l.w.devs[d].outgoing))
  {
    hide A.PlaceAll, A.AllKnown;
    SoundKnown(p);
    LoopOutgoing(p.w, p.start, p.slots, faults);
  }

  lemma TakenAtEnd(p: Plan, faults: seq<A.Fault>, k: nat)
    requires Sound(p) && |faults| == |p.slots| && k < |p.slots| && Loop(p, faults).status == A.OK
    requires Shape(p.w, p.slots[k])
    ensures var l := Loop(p, faults); p.slots[k].bound in l.w.devs && !l.w.devs[p.slots[k].bound].outgoing
  {
    hide Sound, Loop, A.Proxies, Chosen;
    var l := Loop(p, faults);
    LoopEnds(p, faults);
    SoundAt(p, k, k);
    SoundOutgoing(p, faults);
    assert Seated(p, k, l.w, l.placed[k]) && !Stops(p, k);
  }

  // ----- the failing families are reachable

  const NO := C.Placing(false, {})

  lemma NoSteps(st: C.State)
    ensures Y.Run(st, iset{}, [], st)
  {
  }

  lemma TwoFragments(st: C.State)
    requires st.comps == map[] && st.frags == map[]
    ensures var st' := C.AddComposite(st, 0, true, [[], []], Y.BARE);
            && st'.devs == st.devs && st'.nextDev == st.nextDev
            && st'.comps == map[0 := C.Comp(true, 2, [0, 1], [], None, Y.BARE)]
            && st'.frags == map[C.FragId(0, 0) := C.Frag([], None, None), C.FragId(0, 1) := C.Frag([], None, None)]
  {
    assert seq(2, i => i) == [0, 1];
  }

  /** Composite 0 waits for two fragments chosen by an index; device 1 is
      there, with an outgoing directory or not. */
  lemma Waiting(outgoing: bool) returns (steps: seq<Y.Step>, st: C.State)
    ensures Y.Run(Y.Boot(), iset{}, steps, st)
    ensures st.devs.Keys == {0, 1} && st.nextDev == 2 && st.comps == map[0 := C.Comp(true, 2, [0, 1], [], None, Y.BARE)]
    ensures !st.devs[0].outgoing && st.devs[1] == C.Dev(Some(0), [], [], None, false, outgoing, true, Y.BARE)
    ensures st.frags == map[C.FragId(0, 0) := C.Frag([], None, None), C.FragId(0, 1) := C.Frag([], None, None)]
  {
    hide Y.Run, C.AddComposite;
    var s0, s1 := Y.AddDeviceStep(0, false, outgoing, Y.BARE, NO), Y.AddCompositeStep(0, true, [[], []], Y.BARE);
    var st1 := C.Create(Y.Boot(), 0, false, outgoing, Y.BARE);
    NoSteps(Y.Boot());
    Y.RunAppend(Y.Boot(), iset{}, [], Y.Boot(), s0);
    TwoFragments(st1);
    st := C.AddComposite(st1, 0, true, [[], []], Y.BARE);
    Y.RunAppend(Y.Boot(), iset{}, [] + [s0], st1, s1);
    steps := [] + [s0] + [s1];
  }

  /** The fragment device of `f` arrives; hosts are not ready yet. */
  lemma Arrival(st: C.State, f: C.FragId, s: Y.Step) returns (st': C.State)
    requires s.AddDeviceStep? && s.fragDriver && s.pl == NO && s.parent in st.devs && !s.outgoing
    requires !st.devs[s.parent].outgoing
    requires st.devs[s.parent].fragments == [f] && f in st.frags && f.comp in st.comps && st.frags[f].fragDev.None?
    requires st.comps[f.comp].device.None? && st.nextDev !in st.devs
    ensures Y.Enabled(st, iset{}, s) && Y.Apply(st, iset{}, s) == C.Done(st')
    ensures st'.comps == st.comps && st'.frags == st.frags[f := st.frags[f].(fragDev := Some(st.nextDev))]
    ensures st'.nextDev == st.nextDev + 1 && st'.devs.Keys == st.devs.Keys + {st.nextDev}
    ensures st'.devs[st.nextDev] == C.Dev(Some(s.parent), [], [], None, true, false, true, s.ctx)
    ensures forall d :: d in st.devs ==> st'.devs[d] == st.devs[d].(children := st'.devs[d].children)
  {
    var st1 := C.Create(st, s.parent, true, false, s.ctx);
    assert C.FirstFree(st1, s.parent, [f]) == Some(f);
    var st2 := C.Arrive(st1, f, st.nextDev);
    assert Y.Apply(st, iset{}, s) == C.TryAssemble(st2, f.comp, NO);
    st' := C.TryAssemble(st2, f.comp, NO).st;
    assert C.Consume(st2, {}).devs == st2.devs;
  }

  /** Fragment `f` is bound to a device; if that has an outgoing directory the
      composite may be assembled, but hosts are not ready yet. */
  lemma Binding(st: C.State, f: C.FragId, d: DevId) returns (st': C.State)
    requires d in st.devs && f in st.frags && f.comp in st.comps && f.index in st.comps[f.comp].unbound
    requires st.frags[f].bound.None? && st.comps[f.comp].device.None?
    ensures var s := Y.BindStep(f, d, true, NO); Y.Enabled(st, iset{}, s) && Y.Apply(st, iset{}, s) == C.Done(st')
    ensures st'.nextDev == st.nextDev && st'.frags == st.frags[f := st.frags[f].(bound := Some(d))]
    ensures var r := st.comps[f.comp];
            st'.comps == st.comps[f.comp := r.(unbound := Erase(r.unbound, f.index), bound := r.bound + [f.index])]
    ensures st'.devs == st.devs[d := st.devs[d].(fragments := st.devs[d].fragments + [f])]
  {
    hide Erase;
    st' := C.Bind(st, f, d);
    assert C.Consume(st', {}).devs == st'.devs;
  }

  lemma TwoSlots(st: C.State, b0: DevId, f0: Option<DevId>, b1: DevId, f1: Option<DevId>)
    requires 0 in st.comps && st.comps[0].bound == [0, 1] && b0 in st.devs && b1 in st.devs
    requires st.frags == map[C.FragId(0, 0) := C.Frag([], Some(b0), f0), C.FragId(0, 1) := C.Frag([], Some(b1), f1)]
    requires (f0.None? ==> st.devs[b0].outgoing) && (f1.None? ==> st.devs[b1].outgoing)
    ensures C.AllReady(st, 0) && AllBound(st, 0) && SlotsOf(st, 0) == [A.Slot(0, b0, f0), A.Slot(1, b1, f1)]
  {
    assert SlotsOf(st, 0)[0] == A.Slot(0, b0, f0) && SlotsOf(st, 0)[1] == A.Slot(1, b1, f1);
  }

  /** Both fragments on one device with an outgoing directory, ready to be
      assembled: the loop reads null (`AssemblyLoop.NullReads`). */
  lemma SharedOutgoingReachable() returns (steps: seq<Y.Step>, st: C.State)
    ensures Y.Run(Y.Boot(), iset{}, steps, st)
    ensures 0 in st.comps && st.comps[0].unbound == [] && C.AllReady(st, 0) && AllBound(st, 0)
    ensures SlotsOf(st, 0) == [A.Slot(0, 1, None), A.Slot(1, 1, None)]
    ensures Mirrors(st, ThreeDevices(true, false))
  {
    hide Y.Run, Y.Apply, A.Proxies, C.AllReady, AllBound, Mirrors;
    var st1;
    steps, st1 := Waiting(true);
    var f, g := C.FragId(0, 0), C.FragId(0, 1);
    var st2 := Binding(st1, f, 1);
    assert Erase([0, 1], 0) == [1];
    Y.RunAppend(Y.Boot(), iset{}, steps, st1, Y.BindStep(f, 1, true, NO));
    steps := steps + [Y.BindStep(f, 1, true, NO)];
    st := Binding(st2, g, 1);
    Y.RunAppend(Y.Boot(), iset{}, steps, st2, Y.BindStep(g, 1, true, NO));
    steps := steps + [Y.BindStep(g, 1, true, NO)];
    TwoSlots(st, 1, None, 1, None);
    OneMirrored(st);
  }

  lemma OneMirrored(st: C.State)
    requires st.devs.Keys == {0, 1} && !st.devs[0].outgoing && st.devs[1].outgoing
    requires forall f :: f in st.frags ==> st.frags[f].fragDev.None?
    ensures Mirrors(st, ThreeDevices(true, false))
  {
    hide A.Proxies;
    ThreeDevicesProxies(true, false);
  }

  /** The first fragment has its fragment device, device 2. */
  lemma HalfChain() returns (steps: seq<Y.Step>, st: C.State)
    ensures Y.Run(Y.Boot(), iset{}, steps, st)
    ensures st.devs.Keys == {0, 1, 2} && st.nextDev == 3
    ensures st.comps == map[0 := C.Comp(true, 2, [1], [0], None, Y.BARE)]
    ensures forall d :: d in st.devs ==> !st.devs[d].outgoing
    ensures st.devs[2].fragments == []
    ensures st.frags == map[C.FragId(0, 0) := C.Frag([], Some(1), Some(2)), C.FragId(0, 1) := C.Frag([], None, None)]
  {
    hide Y.Run, Y.Apply;
    var st1;
    steps, st1 := Waiting(false);
    var f := C.FragId(0, 0);
    var st2 := Binding(st1, f, 1);
    assert Erase([0, 1], 0) == [1];
    Y.RunAppend(Y.Boot(), iset{}, steps, st1, Y.BindStep(f, 1, true, NO));
    steps := steps + [Y.BindStep(f, 1, true, NO)];
    assert st2.comps[0] == C.Comp(true, 2, [1], [0], None, Y.BARE);
    var s := Y.AddDeviceStep(1, true, false, Y.BARE, NO);
    st := Arrival(st2, f, s);
    Y.RunAppend(Y.Boot(), iset{}, steps, st2, s);
    steps := steps + [s];
  }

  /** The second fragment on the fragment device of the first, ready to be
      assembled: the loop mixes hosts (`AssemblyLoop.MixedHosts`). */
  lemma ChainReachable() returns (steps: seq<Y.Step>, st: C.State)
    ensures Y.Run(Y.Boot(), iset{}, steps, st)
    ensures 0 in st.comps && st.comps[0].unbound == [] && C.AllReady(st, 0) && AllBound(st, 0)
    ensures SlotsOf(st, 0) == [A.Slot(0, 1, Some(2)), A.Slot(1, 2, Some(3))]
    ensures Mirrors(st, ThreeDevices(false, false))
  {
    hide Y.Run, Y.Apply, Mirrors, C.AllReady, AllBound;
    var st1;
    steps, st1 := HalfChain();
    var g := C.FragId(0, 1);
    var st2 := Binding(st1, g, 2);
    assert Erase([1], 1) == [];
    Y.RunAppend(Y.Boot(), iset{}, steps, st1, Y.BindStep(g, 2, true, NO));
    steps := steps + [Y.BindStep(g, 2, true, NO)];
    var s := Y.AddDeviceStep(2, true, false, Y.BARE, NO);
    st := Arrival(st2, g, s);
    Y.RunAppend(Y.Boot(), iset{}, steps, st2, s);
    steps := steps + [s];
    TwoSlots(st, 1, Some(2), 2, Some(3));
    ChainMirrored(st);
  }

  lemma ChainMirrored(st: C.State)
    requires st.devs.Keys == {0, 1, 2, 3} && forall d :: d in st.devs ==> !st.devs[d].outgoing
    requires st.frags == map[C.FragId(0, 0) := C.Frag([], Some(1), Some(2)),
                             C.FragId(0, 1) := C.Frag([], Some(2), Some(3))]
    ensures Mirrors(st, ThreeDevices(false, false))
  {
    hide A.Proxies, A.Effective;
    var w := ThreeDevices(false, false);
    ThreeDevicesProxies(false, false);
    A.EffectiveKnown(w, 1);
    A.EffectiveKnown(w, 2);
    A.EffectiveKnown(w, 3);
    assert Live(w, 1) && Live(w, 2) && Live(w, 3);
  }
}
