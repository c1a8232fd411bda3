/** What comes of the assembly loop of composite_device.cc, told from the
    state it starts in: which fragments end up in the chosen driver host, which
    do not, and where it stops. */
module AssemblyLoop {
  import opened Common
  import opened Hosts
  import opened Assembly

  /** One call: the tables it starts from, the host it is to colocate with, if
      any, and the bound fragments in list order. */
  datatype Plan = Plan(w: World, start: Option<HostId>, slots: seq<Slot>)

  /** What TryAssemble has checked of a fragment, and that live devices have hosts. */
  ghost predicate Fit(w: World, s: Slot) {
    && Proxies(w) && Known(w, s)
    && (s.frag.None? ==> w.devs[s.bound].outgoing)
    && (s.frag.Some? ==>
          w.devs[s.frag.value].host.Some? && Effective(w, s.bound) in w.devs
          && w.devs[Effective(w, s.bound)].host.Some?)
  }

  ghost predicate Sound(p: Plan) {
    && Proxies(p.w) && (p.start.Some? ==> p.start.value in p.w.hosts)
    && (forall k :: 0 <= k < |p.slots| ==> Fit(p.w, p.slots[k]))
    && (forall j, k :: 0 <= j < k < |p.slots| && p.slots[j].frag.Some? ==> p.slots[j].frag != p.slots[k].frag)
  }

  /** The device is talked to through its own outgoing directory. */
  ghost predicate Direct(w: World, s: Slot)
    requires Fit(w, s)
  {
    w.devs[s.bound].outgoing && Effective(w, s.bound) == s.bound
  }

  /** The host the loop settles on: the given one, or that of the first
      fragment's proxy, or the next one to be launched. */
  ghost function Chosen(p: Plan): HostId
    requires Sound(p)
  {
    if p.start.Some? then p.start.value
    else if p.slots == [] || p.slots[0].frag.None? || Direct(p.w, p.slots[0]) then p.w.nextHost
    else ProxyHome(p.w, p.slots[0].frag.value, None)
  }

  /** One of the first `n` turns gives device `d` a side in the chosen host. */
  ghost predicate Covered(p: Plan, n: nat, d: DevId)
    requires Sound(p) && n <= |p.slots|
    decreases n, 0
  {
    n > 0 && (Covered(p, n - 1, d) || Gives(p, n - 1, d))
  }

  /** Turn `k` takes the fragment device as it is. */
  ghost predicate Shares(p: Plan, k: nat)
    requires Sound(p) && k < |p.slots|
    decreases k, 1
  {
    var s := p.slots[k];
    || Covered(p, k, s.bound)
    || (&& !Direct(p.w, s) && (k > 0 || p.start.Some?) && Effective(p.w, s.bound) in p.w.devs
        && p.w.devs[Effective(p.w, s.bound)].host == Some(Chosen(p)))
  }

  /** Turn `k` makes a proxy for device `d`: a new one for a device with an
      outgoing directory, an old one for a fragment device without. */
  ghost predicate Gives(p: Plan, k: nat, d: DevId)
    requires Sound(p) && k < |p.slots|
    decreases k, 2
  {
    var s := p.slots[k];
    !Shares(p, k) &&
    if Direct(p.w, s) then s.bound == d
    else s.frag == Some(d) && d in p.w.devs && p.w.devs[d].proxy.None?
  }

  /** Turn `k` reads the fragment device it does not have. */
  ghost predicate ReadsNull(p: Plan, k: nat)
    requires Sound(p) && k < |p.slots|
  {
    p.slots[k].frag.None? && (Shares(p, k) || !Direct(p.w, p.slots[k]))
  }

  /** Turn `k` needs the fragment device's proxy, which is in another host. */
  ghost predicate Refuses(p: Plan, k: nat)
    requires Sound(p) && k < |p.slots|
  {
    var s := p.slots[k];
    && s.frag.Some? && !Shares(p, k) && !Direct(p.w, s)
    && ProxyHome(p.w, s.frag.value, Some(Chosen(p))) != Chosen(p)
  }

  /** Turn `k` would have to proxy a fragment device that is not isolated. */
  ghost predicate Aborts(p: Plan, k: nat)
    requires Sound(p) && k < |p.slots|
  {
    var s := p.slots[k];
    s.frag.Some? && !Shares(p, k) && !Direct(p.w, s) && !Refuses(p, k) && !p.w.devs[s.frag.value].isolate
  }

  ghost predicate Stops(p: Plan, k: nat)
    requires Sound(p) && k < |p.slots|
  {
    ReadsNull(p, k) || Refuses(p, k) || Aborts(p, k)
  }

  /** Turn `k` takes the fragment device as it is, in some other host. */
  ghost predicate Stray(p: Plan, k: nat)
    requires Sound(p) && k < |p.slots|
  {
    var s := p.slots[k];
    s.frag.Some? && Shares(p, k) && p.w.devs[s.frag.value].host != Some(Chosen(p))
  }

  // ----- the state after the first n turns

  ghost predicate At(p: Plan, n: nat, v: World, h: Option<HostId>)
    requires Sound(p) && n <= |p.slots|
  {
    && Proxies(v) && Evolves(p.w, v)
    && (n == 0 ==> v == p.w && h == p.start)
    && (n > 0 ==> h == Some(Chosen(p)))
    && (h.Some? ==> h.value in v.hosts)
    && (forall k :: 0 <= k < |p.slots| ==> SideAt(p, n, v, p.slots[k]))
    && (forall k :: n <= k < |p.slots| ==> ProxyAt(p.w, v, p.slots[k]))
  }

  /** The side a fragment's bound device is talked to through: given in the
      chosen host on the way, or what it was. */
  ghost predicate SideAt(p: Plan, n: nat, v: World, s: Slot)
    requires Sound(p) && n <= |p.slots| && Proxies(v) && Fit(p.w, s)
  {
    && s.bound in v.devs && Effective(v, s.bound) in v.devs && Effective(p.w, s.bound) in p.w.devs
    && var b, b' := Effective(p.w, s.bound), Effective(v, s.bound);
       if Covered(p, n, s.bound) then !v.devs[b'].outgoing && v.devs[b'].host == Some(Chosen(p))
       else b' == b && v.devs[b'].outgoing == p.w.devs[b].outgoing && (s.frag.Some? ==>
             v.devs[b'].host == p.w.devs[b].host)
  }

  /** The fragment device's proxy is what it was. */
  ghost predicate ProxyAt(w: World, v: World, s: Slot) {
    s.frag.Some? ==>
      && s.frag.value in w.devs && s.frag.value in v.devs && v.devs[s.frag.value].proxy == w.devs[s.frag.value].proxy
      && var p := w.devs[s.frag.value].proxy;
         p.Some? ==> p.value in w.devs && p.value in v.devs && v.devs[p.value] == w.devs[p.value]
  }

  lemma AtStart(p: Plan)
    requires Sound(p)
    ensures At(p, 0, p.w, p.start)
  {
    forall k | 0 <= k < |p.slots|
      ensures SideAt(p, 0, p.w, p.slots[k]) && ProxyAt(p.w, p.w, p.slots[k])
    {
      assert Fit(p.w, p.slots[k]);
      EffectiveKnown(p.w, p.slots[k].bound);
      if p.slots[k].frag.Some? { Kept(p.w, p.slots[k].frag.value); }
    }
  }

  lemma SoundAt(p: Plan, j: nat, k: nat)
    requires Sound(p) && j < |p.slots| && k < |p.slots|
    ensures Proxies(p.w) && Fit(p.w, p.slots[j]) && Fit(p.w, p.slots[k])
    ensures j < k && p.slots[j].frag.Some? ==> p.slots[j].frag != p.slots[k].frag
  {
  }

  // ----- one more turn

  /** The branch a turn takes is the one told from the initial state. */
  lemma Branch(p: Plan, n: nat, v: World, h: Option<HostId>)
    requires Sound(p) && n < |p.slots| && At(p, n, v, h)
    ensures var s := p.slots[n];
            var b := Effective(v, s.bound);
            && Proxies(v) && (h.Some? ==> h.value in v.hosts)
            && Known(v, s) && b in v.devs
            && (v.devs[b].outgoing <==> Direct(p.w, s) && !Shares(p, n))
            && (s.frag.Some? ==> (v.devs[b].host == h && !v.devs[b].outgoing <==> Shares(p, n)))
            && (s.frag.Some? && !Shares(p, n) && !Direct(p.w, s) ==>
                  && (ProxyElsewhere(v, h, v.devs[s.frag.value].proxy) <==> Refuses(p, n))
                  && v.devs[s.frag.value].isolate == p.w.devs[s.frag.value].isolate)
  {
    var s := p.slots[n];
    assert Fit(p.w, s) && SideAt(p, n, v, s) && ProxyAt(p.w, v, s);
    EffectiveKnown(p.w, s.bound);
    EffectiveKnown(v, s.bound);
  }

  /** How turn `n` ends. */
  lemma TurnEnds(p: Plan, n: nat, v: World, h: Option<HostId>, fault: Fault)
    requires Sound(p) && n < |p.slots| && At(p, n, v, h)
    ensures Proxies(v) && Known(v, p.slots[n]) && (h.Some? ==> h.value in v.hosts)
    ensures var r := Place(v, h, p.slots[n], fault);
            if ReadsNull(p, n) then r.status == NULL_DEREF
            else if Refuses(p, n) then r.status == BAD_STATE
            else if Aborts(p, n) then r.status == ASSERTS
            else r.status == OK || (r.status == FAILED && fault != NoFault)
  {
    hide At, Sound, Place, Proxies, Shares, Chosen, Fit;
    Branch(p, n, v, h);
    PlaceCases(v, h, p.slots[n], fault);
  }

  /** A turn that makes a new proxy for device `b` gives it a side, and
      leaves every other device with the side it has. */
  lemma SideRenewed(p: Plan, n: nat, v: World, h: Option<HostId>, r: Turn, t: Slot)
    requires Sound(p) && n < |p.slots| && Fit(p.w, t) && Known(v, t)
    requires Proxies(v) && SideAt(p, n, v, t)
    requires Direct(p.w, p.slots[n]) && !Shares(p, n) && Known(v, p.slots[n])
    requires Effective(v, p.slots[n].bound) == p.slots[n].bound
    requires Proxies(r.w) && Renewed(v, h, p.slots[n], r) && Home(v, h) == Chosen(p)
    ensures SideAt(p, n + 1, r.w, t)
    ensures t.frag.Some? && ProxyAt(p.w, v, t) ==> ProxyAt(p.w, r.w, t)
  {
    hide Proxies, Sound, Fit, Effective, Shares, Direct, Chosen;
    var d := t.bound;
    EffectiveKnown(v, p.slots[n].bound);
    EffectiveKnown(v, d);
    EffectiveKnown(r.w, d);
    Kept(r.w, r.dev);
    Kept(v, p.slots[n].bound);
    assert Gives(p, n, d) <==> d == p.slots[n].bound;
    if t.frag.Some? { Kept(v, t.frag.value); }
  }

  /** The same for a turn that makes or houses the proxy of a fragment device. */
  lemma SideMended(p: Plan, n: nat, v: World, h: Option<HostId>, r: Turn, t: Slot)
    requires Sound(p) && n < |p.slots| && Fit(p.w, t) && Known(v, t)
    requires Proxies(v) && SideAt(p, n, v, t)
    requires !Direct(p.w, p.slots[n]) && !Shares(p, n) && Known(v, p.slots[n]) && ProxyAt(p.w, v, p.slots[n])
    requires Proxies(r.w) && Mended(v, h, p.slots[n], r) && ProxyHome(v, p.slots[n].frag.value, h) == Chosen(p)
    ensures SideAt(p, n + 1, r.w, t)
    ensures t.frag.Some? && t.frag != p.slots[n].frag && ProxyAt(p.w, v, t) ==> ProxyAt(p.w, r.w, t)
  {
    hide Proxies, Sound, Effective, Shares, Direct, Chosen;
    var d, f := t.bound, p.slots[n].frag.value;
    EffectiveKnown(v, d);
    EffectiveKnown(r.w, d);
    Kept(r.w, r.dev);
    Kept(v, f);
    Kept(v, d);
    assert Gives(p, n, d) <==> d == f && v.devs[f].proxy.None?;
    if t.frag.Some? { Kept(v, t.frag.value); }
  }

  lemma EvolvesChain(w: World, w1: World, w2: World)
    requires Evolves(w, w1) && Evolves(w1, w2)
    ensures Evolves(w, w2)
  {
  }

  lemma KnownLater(w: World, w': World, s: Slot)
    requires Known(w, s) && Evolves(w, w')
    ensures Known(w', s)
  {
  }

  /** The host at the end of a turn that prepared a proxy. */
  lemma Settles(p: Plan, n: nat, v: World, h: Option<HostId>)
    requires Sound(p) && n < |p.slots| && At(p, n, v, h) && !Shares(p, n)
    ensures Direct(p.w, p.slots[n]) ==> Home(v, h) == Chosen(p)
    ensures var s := p.slots[n];
            !Direct(p.w, s) && s.frag.Some? && !Refuses(p, n) ==>
              s.frag.value in v.devs && ProxyHome(v, s.frag.value, h) == Chosen(p)
  {
    assert ProxyAt(p.w, v, p.slots[n]) && Fit(p.w, p.slots[n]);
  }

  lemma NextAt(p: Plan, n: nat, v: World, h: Option<HostId>, fault: Fault)
    requires Sound(p) && n < |p.slots| && At(p, n, v, h)
    requires Proxies(v) && Known(v, p.slots[n]) && (h.Some? ==> h.value in v.hosts)
    requires Place(v, h, p.slots[n], fault).status == OK
    ensures var r := Place(v, h, p.slots[n], fault); At(p, n + 1, r.w, r.host)
  {
    hide Place, Proxies, Effective, Shares, Direct, Chosen, Refuses, Renewed, Mended, SideAt, ProxyAt, Evolves, Fit,
         Known;
    var s := p.slots[n];
    var r := Place(v, h, s, fault);
    Branch(p, n, v, h);
    TurnEnds(p, n, v, h, fault);
    PlaceCases(v, h, s, fault);
    PlaceKeeps(v, h, s, fault);
    EvolvesChain(p.w, v, r.w);
    forall k | 0 <= k < |p.slots|
      ensures SideAt(p, n + 1, r.w, p.slots[k])
      ensures n < k ==> ProxyAt(p.w, r.w, p.slots[k])
    {
      NextSide(p, n, v, h, fault, k);
    }
    NextHost(p, n, v, h, fault);
  }

  lemma NextHost(p: Plan, n: nat, v: World, h: Option<HostId>, fault: Fault)
    requires Sound(p) && n < |p.slots| && At(p, n, v, h)
    requires Proxies(v) && Known(v, p.slots[n]) && (h.Some? ==> h.value in v.hosts)
    requires Place(v, h, p.slots[n], fault).status == OK
    ensures var r := Place(v, h, p.slots[n], fault); r.host == Some(Chosen(p)) && r.host.value in r.w.hosts
  {
    hide Place, Proxies, Effective, Sound, Direct, Refuses, SideAt, ProxyAt, Evolves, Fit, Known, Extends, ProxyHome,
         Home;
    var s := p.slots[n];
    Branch(p, n, v, h);
    TurnEnds(p, n, v, h, fault);
    PlaceCases(v, h, s, fault);
    PlaceKeeps(v, h, s, fault);
    if !Shares(p, n) { Settles(p, n, v, h); }
  }

  lemma NextSide(p: Plan, n: nat, v: World, h: Option<HostId>, fault: Fault, k: nat)
    requires Sound(p) && n < |p.slots| && At(p, n, v, h) && k < |p.slots|
    requires Proxies(v) && Known(v, p.slots[n]) && (h.Some? ==> h.value in v.hosts)
    requires Place(v, h, p.slots[n], fault).status == OK
    ensures var r := Place(v, h, p.slots[n], fault);
            && Proxies(r.w) && SideAt(p, n + 1, r.w, p.slots[k])
            && (n < k ==> ProxyAt(p.w, r.w, p.slots[k]))
  {
    hide Place, Proxies, Effective, Sound, Chosen, Renewed, Mended, Evolves, Known;
    var s, t := p.slots[n], p.slots[k];
    var r := Place(v, h, s, fault);
    SoundAt(p, n, k);
    KnownLater(p.w, v, t);
    Branch(p, n, v, h);
    TurnEnds(p, n, v, h, fault);
    PlaceCases(v, h, s, fault);
    if Shares(p, n) {
      assert r.w == v;
      assert !Gives(p, n, t.bound);
    } else {
      Settles(p, n, v, h);
      EffectiveKnown(v, s.bound);
      if Direct(p.w, s) { SideRenewed(p, n, v, h, r, t); } else { SideMended(p, n, v, h, r, t); }
    }
  }

  // ----- the whole loop

  /** Where the device of turn `k` is: in the chosen host unless it strays. */
  ghost predicate Seated(p: Plan, k: nat, v: World, x: Placed)
    requires Sound(p) && k < |p.slots|
  {
    var s := p.slots[k];
    && x.index == s.index && x.dev in v.devs && v.devs[x.dev].host.Some? && x.id == v.devs[x.dev].localId
    && (v.devs[x.dev].host == Some(Chosen(p)) <==> !Stray(p, k))
    && s.bound in v.devs && (s.frag.Some? ==> s.frag.value in v.devs)
    && (if Shares(p, k) then s.frag == Some(x.dev)
        else if Direct(p.w, s) then v.devs[s.bound].newProxy == Some(x.dev) && !v.devs[s.bound].outgoing
        else s.frag.Some? && v.devs[s.frag.value].proxy == Some(x.dev))
  }

  lemma SeatedLater(p: Plan, k: nat, v: World, v': World, x: Placed)
    requires Sound(p) && k < |p.slots| && Seated(p, k, v, x) && Evolves(v, v')
    ensures Seated(p, k, v', x)
  {
    hide Sound, Shares, Direct, Chosen, Stray;
  }

  lemma SeatedNow(p: Plan, n: nat, v: World, h: Option<HostId>, fault: Fault)
    requires Sound(p) && n < |p.slots| && At(p, n, v, h)
    requires Proxies(v) && Known(v, p.slots[n]) && (h.Some? ==> h.value in v.hosts)
    requires Place(v, h, p.slots[n], fault).status == OK
    ensures !Stops(p, n)
    ensures var r := Place(v, h, p.slots[n], fault); Seated(p, n, r.w, Placed(p.slots[n].index, r.dev, r.id))
  {
    hide Place, Proxies, Effective, Sound, Shares, Direct, Chosen, ProxyHome, Home, SideAt, ProxyAt;
    var s := p.slots[n];
    SoundAt(p, n, n);
    Branch(p, n, v, h);
    TurnEnds(p, n, v, h, fault);
    PlaceCases(v, h, s, fault);
    if !Shares(p, n) { Settles(p, n, v, h); }
  }

  /** How the loop ends: the turns before the end were all good ones, and it
      ends at the first fragment that stops it, or at a fault. */
  ghost predicate Ends(p: Plan, faults: seq<Fault>, l: Layout)
    requires Sound(p) && |faults| == |p.slots|
  {
    var m := |l.placed|;
    && m <= |p.slots|
    && (forall k :: 0 <= k < m ==> !Stops(p, k))
    && (l.status == OK <==> m == |p.slots|)
    && (l.status == OK ==> l.host == if p.slots == [] then p.start else Some(Chosen(p)))
    && (l.status == OK ==> Proxies(l.w) && forall k :: 0 <= k < m ==> Seated(p, k, l.w, l.placed[k]))
    && (l.status == FAILED ==> faults[m] != NoFault)
    && (l.status == NULL_DEREF ==> ReadsNull(p, m))
    && (l.status == BAD_STATE ==> Refuses(p, m) && !ReadsNull(p, m))
    && (l.status == ASSERTS ==> Aborts(p, m) && !ReadsNull(p, m) && !Refuses(p, m))
  }

  lemma {:induction false} LoopFrom(p: Plan, faults: seq<Fault>, n: nat, v: World, h: Option<HostId>,
                                    placed: seq<Placed>)
    requires Sound(p) && |faults| == |p.slots| && n <= |p.slots| && At(p, n, v, h)
    requires |placed| == n && forall k :: 0 <= k < n ==> !Stops(p, k) && Seated(p, k, v, placed[k])
    requires AllKnown(v, p.slots[n..]) && (h.Some? ==> h.value in v.hosts)
    ensures var l := PlaceAll(v, h, p.slots[n..], faults[n..]); Ends(p, faults, l.(placed := placed + l.placed))
    decreases |p.slots| - n
  {
    hide At, Sound, Place, Proxies, Known, Stops, Seated, Evolves, ReadsNull, Refuses, Aborts, Chosen;
    var slots, more := p.slots[n..], faults[n..];
    if n == |p.slots| {
      AtEnd(p, v, h);
      assert placed + [] == placed;
    } else {
      assert slots[0] == p.slots[n] && more[0] == faults[n];
      TurnEnds(p, n, v, h, faults[n]);
      var r := Place(v, h, slots[0], more[0]);
      if r.status == OK {
        PlaceKeeps(v, h, slots[0], more[0]);
        NextAt(p, n, v, h, faults[n]);
        KnownTail(v, r.w, slots);
        SeatedNow(p, n, v, h, faults[n]);
        var x := Placed(slots[0].index, r.dev, r.id);
        forall k | 0 <= k < n ensures Seated(p, k, r.w, placed[k]) { SeatedLater(p, k, v, r.w, placed[k]); }
        assert slots[1..] == p.slots[n + 1..] && more[1..] == faults[n + 1..];
        LoopFrom(p, faults, n + 1, r.w, r.host, placed + [x]);
        var l := PlaceAll(r.w, r.host, p.slots[n + 1..], faults[n + 1..]);
        assert (placed + [x]) + l.placed == placed + ([x] + l.placed);
      } else {
        assert placed + [] == placed;
      }
    }
  }

  lemma AtEnd(p: Plan, v: World, h: Option<HostId>)
    requires Sound(p) && At(p, |p.slots|, v, h)
    ensures Proxies(v) && h == if p.slots == [] then p.start else Some(Chosen(p))
  {
  }

  lemma SoundKnown(p: Plan)
    requires Sound(p)
    ensures AllKnown(p.w, p.slots)
  {
    forall k | 0 <= k < |p.slots| ensures Known(p.w, p.slots[k]) { assert Fit(p.w, p.slots[k]); }
  }

  /** The loop as TryAssemble runs it. */
  ghost function Loop(p: Plan, faults: seq<Fault>): Layout
    requires Sound(p) && |faults| == |p.slots|
  {
    SoundKnown(p);
    PlaceAll(p.w, p.start, p.slots, faults)
  }

  /** How the loop ends, told from the state it starts in: it gets as far as
      the first fragment that stops it, for the reason told from that state, or
      as the first fault; and if it gets through, each fragment's slot holds
      the local id of a device that is in the chosen host unless it strays. */
  lemma LoopEnds(p: Plan, faults: seq<Fault>)
    requires Sound(p) && |faults| == |p.slots|
    ensures Ends(p, faults, Loop(p, faults))
  {
    hide At, AllKnown, Ends, PlaceAll;
    SoundKnown(p);
    AtStart(p);
    assert p.slots[0..] == p.slots && faults[0..] == faults;
    LoopFrom(p, faults, 0, p.w, p.start, []);
    var l := PlaceAll(p.w, p.start, p.slots, faults);
    assert l.(placed := [] + l.placed) == l;
  }

  // ----- exact conditions

  ghost predicate NoFaults(faults: seq<Fault>) { forall k :: 0 <= k < |faults| ==> faults[k] == NoFault }

  /** `k` is the first fragment that stops the loop. */
  ghost predicate FirstStop(p: Plan, k: nat)
    requires Sound(p)
  {
    k < |p.slots| && Stops(p, k) && forall i :: 0 <= i < k ==> !Stops(p, i)
  }

  /** Without faults the loop gets through exactly if no fragment stops it, and
      otherwise the first that does decides how it ends. */
  lemma EndsExactly(p: Plan, faults: seq<Fault>)
    requires Sound(p) && |faults| == |p.slots| && NoFaults(faults)
    ensures var status := Loop(p, faults).status;
            && (status == OK <==> forall k :: 0 <= k < |p.slots| ==> !Stops(p, k))
            && (status == NULL_DEREF <==> exists k: nat :: FirstStop(p, k) && ReadsNull(p, k))
            && (status == BAD_STATE <==> exists k: nat :: FirstStop(p, k) && Refuses(p, k) && !ReadsNull(p, k))
            && (status == ASSERTS <==> exists k: nat :: FirstStop(p, k) && Aborts(p, k) && !ReadsNull(p, k))
            && status != FAILED
  {
    hide Sound, Loop, ReadsNull, Seated, Refuses;
    LoopEnds(p, faults);
    var l := Loop(p, faults);
    if l.status != OK {
      var m := |l.placed|;
      assert m < |p.slots| && faults[m] == NoFault;
      assert FirstStop(p, m);
      forall k: nat | FirstStop(p, k) ensures k == m {
        assert !(k < m) && !(m < k);
      }
    }
  }

  /** A fragment that has a fragment device has it in the host of the side it
      was bound through, and needs no outgoing directory. */
  ghost predicate Ordinary(p: Plan)
    requires Sound(p)
  {
    forall k :: 0 <= k < |p.slots| && p.slots[k].frag.Some? ==> OrdinaryAt(p.w, p.slots[k])
  }

  ghost predicate OrdinaryAt(w: World, s: Slot)
    requires Fit(w, s) && s.frag.Some?
  {
    !w.devs[s.bound].outgoing && w.devs[s.frag.value].host == w.devs[Effective(w, s.bound)].host
  }

  /** Fragment `k` does not already sit in the chosen host. */
  ghost predicate Exposed(p: Plan, k: nat)
    requires Sound(p) && k < |p.slots|
  {
    var f := p.slots[k].frag;
    f.None? || p.w.devs[f.value].host != Some(Chosen(p))
  }

  /** Fragment `j` gets in the way of the later fragment `k`: both are bound to
      one device with an outgoing directory, or `k` is bound to the fragment
      device of `j`, which needs its first proxy. */
  ghost predicate InTheWay(p: Plan, j: nat, k: nat)
    requires Sound(p) && j < |p.slots| && k < |p.slots|
  {
    var s, t := p.slots[j], p.slots[k];
    && j < k && Exposed(p, k)
    && (|| (Direct(p.w, s) && s.bound == t.bound)
        || (s.frag == Some(t.bound) && p.w.devs[t.bound].proxy.None? && Exposed(p, j)))
  }

  /** Fragment `k` could be placed by itself. */
  ghost predicate Able(p: Plan, k: nat)
    requires Sound(p) && k < |p.slots|
  {
    var s := p.slots[k];
    if s.frag.None? then Direct(p.w, s)
    else Exposed(p, k) || (k == 0 && p.start.None?) ==>
      ProxyHome(p.w, s.frag.value, Some(Chosen(p))) == Chosen(p) && p.w.devs[s.frag.value].isolate
  }

  ghost predicate Covers(p: Plan, k: nat)
    requires Sound(p) && k < |p.slots|
  {
    Covered(p, k, p.slots[k].bound) && Exposed(p, k)
  }

  lemma {:induction false} CoveredBy(p: Plan, n: nat, d: DevId) returns (j: nat)
    requires Sound(p) && n <= |p.slots| && Covered(p, n, d)
    ensures j < n && Gives(p, j, d)
  {
    if Gives(p, n - 1, d) {
      j := n - 1;
    } else {
      j := CoveredBy(p, n - 1, d);
    }
  }

  lemma {:induction false} GivesCovers(p: Plan, j: nat, n: nat, d: DevId)
    requires Sound(p) && j < n <= |p.slots| && Gives(p, j, d)
    ensures Covered(p, n, d)
  {
    if j == n - 1 {
    } else {
      GivesCovers(p, j, n - 1, d);
    }
  }

  /** A host that is about to be launched is nobody's yet. */
  lemma NewHostIsNew(p: Plan, j: nat)
    requires Sound(p) && j < |p.slots| && p.slots[j].frag.Some? && !Direct(p.w, p.slots[j])
    requires j == 0 && p.start.None? && p.w.devs[p.slots[j].frag.value].proxy.None?
    ensures Exposed(p, j)
  {
    assert Fit(p.w, p.slots[j]);
    Kept(p.w, p.slots[j].frag.value);
  }

  /** Whoever gives a side to a later fragment's device was in its way. */
  lemma CoveredIsInTheWay(p: Plan, k: nat)
    requires Sound(p) && Ordinary(p) && k < |p.slots| && Covers(p, k)
    ensures exists j :: 0 <= j < |p.slots| && InTheWay(p, j, k)
  {
    hide Sound, Chosen;
    var d := p.slots[k].bound;
    var j := CoveredBy(p, k, d);
    SoundAt(p, j, k);
    EffectiveKnown(p.w, p.slots[j].bound);
    if !Direct(p.w, p.slots[j]) {
      if j == 0 && p.start.None? {
        NewHostIsNew(p, j);
      } else {
        assert OrdinaryAt(p.w, p.slots[j]);
      }
    }
    assert InTheWay(p, j, k);
  }

  lemma InTheWayCovers(p: Plan, j: nat, k: nat)
    requires Sound(p) && Ordinary(p) && j < |p.slots| && k < |p.slots| && InTheWay(p, j, k)
    ensures Covers(p, j) || Covers(p, k)
  {
    hide Sound, Chosen;
    SoundAt(p, j, k);
    EffectiveKnown(p.w, p.slots[j].bound);
    if p.slots[j].frag.Some? { assert OrdinaryAt(p.w, p.slots[j]); }
    if !Covered(p, j, p.slots[j].bound) {
      assert Gives(p, j, p.slots[k].bound);
      GivesCovers(p, j, k, p.slots[k].bound);
    }
  }

  /** Neither stopping nor straying. */
  lemma FineIff(p: Plan, k: nat)
    requires Sound(p) && Ordinary(p) && k < |p.slots|
    ensures !Stops(p, k) && !Stray(p, k) <==> Able(p, k) && !Covers(p, k)
  {
    hide Sound, Chosen, Covered, Gives, ProxyHome;
    SoundAt(p, k, k);
    EffectiveKnown(p.w, p.slots[k].bound);
    if p.slots[k].frag.Some? { assert OrdinaryAt(p.w, p.slots[k]); }
    if k == 0 { assert !Covered(p, k, p.slots[k].bound) by { NothingYet(p, p.slots[k].bound); } }
  }

  lemma NothingYet(p: Plan, d: DevId)
    requires Sound(p)
    ensures !Covered(p, 0, d)
  {
  }

  ghost predicate AllSit(l: Layout) {
    forall k :: 0 <= k < |l.placed| ==>
      l.placed[k].dev in l.w.devs && l.host.Some? && l.w.devs[l.placed[k].dev].host == l.host
  }

  /** Fragment `k` could be placed by itself: a new proxy is made for its device,
      or it is taken as it is in the chosen host, or its proxy can be there. */
  ghost predicate Placeable(p: Plan, k: nat)
    requires Sound(p) && k < |p.slots|
  {
    var s := p.slots[k];
    Direct(p.w, s) ||
    (&& s.frag.Some?
     && if (k > 0 || p.start.Some?) && p.w.devs[Effective(p.w, s.bound)].host == Some(Chosen(p)) then !Exposed(p, k)
        else ProxyHome(p.w, s.frag.value, Some(Chosen(p))) == Chosen(p) && p.w.devs[s.frag.value].isolate)
  }

  lemma FineExactly(p: Plan, k: nat)
    requires Sound(p) && k < |p.slots|
    ensures !Stops(p, k) && !Stray(p, k) <==>
              if Covered(p, k, p.slots[k].bound) then !Exposed(p, k) else Placeable(p, k)
  {
    hide Sound, Chosen, Covered, Gives, ProxyHome;
    SoundAt(p, k, k);
    EffectiveKnown(p.w, p.slots[k].bound);
  }

  /** One driver host for the whole composite. Without faults the loop gets
      through with every fragment in the one chosen host exactly if each could
      be placed by itself, or was given a side there by an earlier one and is
      there already. */
  lemma OneHost(p: Plan, faults: seq<Fault>)
    requires Sound(p) && |faults| == |p.slots| && NoFaults(faults)
    ensures var l := Loop(p, faults);
            (l.status == OK && AllSit(l)) <==>
            forall k :: 0 <= k < |p.slots| ==>
              if Covered(p, k, p.slots[k].bound) then !Exposed(p, k) else Placeable(p, k)
  {
    hide Sound, Loop, Stops, Stray, Covered, Exposed, Placeable;
    EndsExactly(p, faults);
    AllSitIff(p, faults);
    forall k | 0 <= k < |p.slots|
      ensures !Stops(p, k) && !Stray(p, k) <==>
                if Covered(p, k, p.slots[k].bound) then !Exposed(p, k) else Placeable(p, k)
    {
      FineExactly(p, k);
    }
  }

  /** The same over pairs, where fragment devices are in the host of the side
      they were added through: each could be placed by itself and none gets in
      the way of a later one. */
  lemma OneHostPairs(p: Plan, faults: seq<Fault>)
    requires Sound(p) && Ordinary(p) && |faults| == |p.slots| && NoFaults(faults)
    ensures var l := Loop(p, faults);
            (l.status == OK && AllSit(l)) <==>
            (&& (forall k :: 0 <= k < |p.slots| ==> Able(p, k))
             && (forall j, k :: 0 <= j < |p.slots| && 0 <= k < |p.slots| ==> !InTheWay(p, j, k)))
  {
    hide Sound, Loop, Stops, Able, Ordinary, InTheWay, Covers;
    var l := Loop(p, faults);
    LoopEnds(p, faults);
    EndsExactly(p, faults);
    AllSitIff(p, faults);
    forall k | 0 <= k < |p.slots|
      ensures !Stops(p, k) && !Stray(p, k) <==> Able(p, k) && !Covers(p, k)
    {
      FineIff(p, k);
    }
    forall k | 0 <= k < |p.slots| && Covers(p, k) ensures exists j :: 0 <= j < |p.slots| && InTheWay(p, j, k) {
      CoveredIsInTheWay(p, k);
    }
    forall j, k | 0 <= j < |p.slots| && 0 <= k < |p.slots| && InTheWay(p, j, k) ensures Covers(p, j) || Covers(p, k) {
      InTheWayCovers(p, j, k);
    }
  }

  /** Whatever the faults, a loop that gets through has mixed hosts exactly if
      some fragment strays. */
  lemma AllSitIff(p: Plan, faults: seq<Fault>)
    requires Sound(p) && |faults| == |p.slots|
    ensures var l := Loop(p, faults);
            l.status == OK ==> (AllSit(l) <==> forall k :: 0 <= k < |p.slots| ==> !Stray(p, k))
  {
    hide Sound, Loop, Stops, Stray, Chosen;
    LoopEnds(p, faults);
    var l := Loop(p, faults);
    if l.status == OK {
      forall k | 0 <= k < |p.slots| ensures l.w.devs[l.placed[k].dev].host == Some(Chosen(p)) <==> !Stray(p, k) {
        assert Seated(p, k, l.w, l.placed[k]);
      }
    }
  }

  // ----- ids

  /** No device serves two fragments. */
  lemma DistinctDevices(p: Plan, v: World, j: nat, k: nat, x: Placed, y: Placed)
    requires Sound(p) && j < k < |p.slots| && Proxies(v) && Evolves(p.w, v)
    requires Seated(p, j, v, x) && Seated(p, k, v, y)
    ensures x.dev != y.dev
  {
    hide Sound, Proxies, Chosen, Stray;
    SoundAt(p, j, k);
    var s, t := p.slots[j], p.slots[k];
    Kept(v, s.bound);
    Kept(v, t.bound);
    if s.frag.Some? { Kept(v, s.frag.value); }
    if t.frag.Some? { Kept(v, t.frag.value); }
    if !Shares(p, j) && Direct(p.w, s) && s.bound == t.bound {
      assert Gives(p, j, t.bound);
      GivesCovers(p, j, k, t.bound);
    }
  }

  lemma {:induction false} LoopEvolves(w: World, host: Option<HostId>, slots: seq<Slot>, faults: seq<Fault>)
    requires AllKnown(w, slots) && |faults| == |slots| && (host.Some? ==> host.value in w.hosts)
    ensures var l := PlaceAll(w, host, slots, faults); l.status == OK ==> Evolves(w, l.w)
    decreases |slots|
  {
    hide Place, Proxies, Known, EvolvesAt;
    if slots == [] {
      EvolvesSame(w);
    } else {
      var r := Place(w, host, slots[0], faults[0]);
      if r.status == OK {
        PlaceKeeps(w, host, slots[0], faults[0]);
        KnownTail(w, r.w, slots);
        LoopEvolves(r.w, r.host, slots[1..], faults[1..]);
        var l := PlaceAll(r.w, r.host, slots[1..], faults[1..]);
        if l.status == OK { EvolvesChain(w, r.w, l.w); }
      }
    }
  }

  lemma EvolvesSame(w: World)
    ensures Evolves(w, w)
  {
  }

  /** The ids sent to the host are non-zero, each of a device of its own, and
      two of them can only be equal if one of their fragments strays. */
  lemma DistinctIds(p: Plan, faults: seq<Fault>)
    requires Sound(p) && |faults| == |p.slots| && Loop(p, faults).status == OK
    requires Linked(p.w) && Named(p.w) && Room(p.w, |p.slots|) && |p.slots| + 2 < TWO64
    ensures var placed := Loop(p, faults).placed;
            && |placed| == |p.slots|
            && (forall k :: 0 <= k < |p.slots| ==> placed[k].id != 0)
            && (forall j, k :: 0 <= j < k < |p.slots| ==> placed[j].dev != placed[k].dev)
            && (forall j, k :: 0 <= j < k < |p.slots| && placed[j].id == placed[k].id ==> Stray(p, j) || Stray(p, k))
  {
    hide Linked, PlaceAll, Proxies, Evolves, Stray, Sound, Stops, AllKnown, Known, Chosen, Shares, Direct;
    var l := Loop(p, faults);
    SoundKnown(p);
    StartKnown(p);
    LoopEnds(p, faults);
    LoopEvolves(p.w, p.start, p.slots, faults);
    NamedThroughLoop(p.w, p.start, p.slots, faults);
    forall k | 0 <= k < |p.slots| ensures Seated(p, k, l.w, l.placed[k]) { }
    forall j, k | 0 <= j < k < |p.slots|
      ensures l.placed[j].dev != l.placed[k].dev
      ensures l.placed[j].id == l.placed[k].id ==> Stray(p, j) || Stray(p, k)
    {
      assert Seated(p, j, l.w, l.placed[j]) && Seated(p, k, l.w, l.placed[k]);
      DistinctDevices(p, l.w, j, k, l.placed[j], l.placed[k]);
      assert !Clash(l.w, l.placed[j].dev, l.placed[k].dev);
    }
  }

  lemma StartKnown(p: Plan)
    requires Sound(p)
    ensures p.start.Some? ==> p.start.value in p.w.hosts
  {
  }

  // ----- the failing families, each with an input

  function Device(id: nat, outgoing: bool): Hosted { Hosted(Some(0), id, None, None, outgoing, Nobody, true) }

  /** The root and three devices of host 0. */
  function ThreeDevices(outgoing1: bool, outgoing2: bool): World {
    World(map[0 := Hosted(None, 0, None, None, false, Nobody, true),
              1 := Device(2, outgoing1), 2 := Device(3, outgoing2), 3 := Device(1, false)],
          map[0 := Host(4, [3, 1, 2])], 4, 1)
  }

  lemma ThreeDevicesProxies(outgoing1: bool, outgoing2: bool)
    ensures Proxies(ThreeDevices(outgoing1, outgoing2))
  {
  }

  lemma ThreeDevicesSound(outgoing1: bool, outgoing2: bool, s: Slot, t: Slot)
    requires s.bound == 1 && (t.bound == 1 || t.bound == 2)
    requires if outgoing1 then s.frag == None else s.frag == Some(2)
    requires if (if t.bound == 1 then outgoing1 else outgoing2) then t.frag == None else t.frag == Some(3)
    ensures var p := Plan(ThreeDevices(outgoing1, outgoing2), None, [s, t]);
            && Sound(p) && Ordinary(p) && Able(p, 0) && Able(p, 1) && Chosen(p) == 1
            && (Direct(p.w, s) <==> s.frag.None?)
            && p.w.devs.Keys == {0, 1, 2, 3} && (forall d :: 1 <= d < 4 ==>
                                                   p.w.devs[d].proxy.None? && p.w.devs[d].host == Some(0))
  {
    hide Proxies;
    ThreeDevicesProxies(outgoing1, outgoing2);
    var w := ThreeDevices(outgoing1, outgoing2);
    EffectiveKnown(w, 1);
    EffectiveKnown(w, 2);
    assert Fit(w, s) && Fit(w, t);
  }

  /** A fragment bound to the fragment device of an earlier one: the loop gets
      through, sends the id of a device of host 0 to host 1, and the two slots
      hold the same id. */
  lemma MixedHosts()
    ensures var p := Plan(ThreeDevices(false, false), None, [Slot(0, 1, Some(2)), Slot(1, 2, Some(3))]);
            && Sound(p) && Ordinary(p) && Able(p, 0) && Able(p, 1) && InTheWay(p, 0, 1)
            && var l := Loop(p, [NoFault, NoFault]);
               && l.status == OK && l.host == Some(1) && l.placed == [Placed(0, 4, 1), Placed(1, 3, 1)]
               && 3 in l.w.devs && l.w.devs[3].host == Some(0)
  {
    var w, s, t := ThreeDevices(false, false), Slot(0, 1, Some(2)), Slot(1, 2, Some(3));
    hide Sound, Chosen, Ordinary, Able, Place, PlaceAll, ThreeDevices;
    ThreeDevicesSound(false, false, s, t);
    TwoTurns(w, s, t);
  }

  /** The tables between the two turns. */
  function FourDevices(): World {
    World(map[0 := Hosted(None, 0, None, None, false, Nobody, true),
              1 := Device(2, false), 2 := Device(3, false).(proxy := Some(4)), 3 := Device(1, false),
              4 := Hosted(Some(1), 1, None, None, false, OldProxyOf(2), false)],
          map[0 := Host(4, [3, 1, 2]), 1 := Host(2, [4])], 5, 2)
  }

  lemma Housed(w: World)
    requires w == CreateProxy(ThreeDevices(false, false), 2)
    ensures House(w, 4, None) == FourDevices()
  {
    var w1 := LaunchHost(w);
    assert Evict(w1, 4) == w1 && Admit(w1, 4, 1).hosts[1] == Host(2, [4]);
  }

  lemma FirstTurn()
    ensures var w, s := ThreeDevices(false, false), Slot(0, 1, Some(2));
            && Proxies(w) && Known(w, s)
            && Place(w, None, s, NoFault) == Turn(FourDevices(), Some(1), OK, 4, 1)
  {
    hide House, Proxies;
    var w, s := ThreeDevices(false, false), Slot(0, 1, Some(2));
    ThreeDevicesProxies(false, false);
    EffectiveKnown(w, 1);
    var w1 := CreateProxy(w, 2);
    Housed(w1);
    assert PrepareProxy(w, 2, None, NoFault) == Prepared(House(w1, 4, None), OK);
  }

  lemma SecondTurn()
    ensures var w, s := FourDevices(), Slot(1, 2, Some(3));
            && Proxies(w) && Known(w, s)
            && 1 in w.hosts && Place(w, Some(1), s, NoFault) == Turn(w, Some(1), OK, 3, 1)
  {
    assert Effective(FourDevices(), 2) == 4;
  }

  lemma TwoTurns(w: World, s: Slot, t: Slot)
    requires w == ThreeDevices(false, false) && s == Slot(0, 1, Some(2)) && t == Slot(1, 2, Some(3))
    ensures AllKnown(w, [s, t])
    ensures PlaceAll(w, None, [s, t], [NoFault, NoFault]) ==
            Layout(FourDevices(), Some(1), OK, [Placed(0, 4, 1), Placed(1, 3, 1)])
    ensures 3 in FourDevices().devs && FourDevices().devs[3].host == Some(0)
  {
    assert Known(w, t);
    hide Place, ThreeDevices, Proxies;
    FirstTurn();
    SecondTurn();
    assert [s, t][1..] == [t] && [NoFault, NoFault][1..] == [NoFault];
    assert PlaceAll(FourDevices(), Some(1), [t], [NoFault]) == Layout(FourDevices(), Some(1), OK, [Placed(1, 3, 1)]);
  }

  /** A fragment without a fragment device, bound to the fragment device of an
      earlier one, and two such fragments bound to one device: null is read. */
  lemma NullReads()
    ensures var p := Plan(ThreeDevices(false, true), None, [Slot(0, 1, Some(2)), Slot(1, 2, None)]);
            && Sound(p) && Ordinary(p) && Able(p, 0) && Able(p, 1) && InTheWay(p, 0, 1)
            && Loop(p, [NoFault, NoFault]).status == NULL_DEREF
    ensures var p := Plan(ThreeDevices(true, false), None, [Slot(0, 1, None), Slot(1, 1, None)]);
            && Sound(p) && Ordinary(p) && Able(p, 0) && Able(p, 1) && InTheWay(p, 0, 1)
            && Loop(p, [NoFault, NoFault]).status == NULL_DEREF
  {
    hide Sound, Chosen, Ordinary, Able, Direct, Loop, ThreeDevices;
    ThreeDevicesSound(false, true, Slot(0, 1, Some(2)), Slot(1, 2, None));
    SecondReadsNull(Plan(ThreeDevices(false, true), None, [Slot(0, 1, Some(2)), Slot(1, 2, None)]));
    ThreeDevicesSound(true, false, Slot(0, 1, None), Slot(1, 1, None));
    SecondReadsNull(Plan(ThreeDevices(true, false), None, [Slot(0, 1, None), Slot(1, 1, None)]));
  }

  lemma SecondReadsNull(p: Plan)
    requires Sound(p) && Ordinary(p) && |p.slots| == 2 && Able(p, 0) && p.start.None?
    requires InTheWay(p, 0, 1) && p.slots[1].frag.None?
    ensures Loop(p, [NoFault, NoFault]).status == NULL_DEREF
  {
    hide Sound, Chosen, Loop, Covered;
    SoundAt(p, 0, 1);
    NothingYet(p, p.slots[0].bound);
    FineIff(p, 0);
    InTheWayCovers(p, 0, 1);
    EndsExactly(p, [NoFault, NoFault]);
    assert FirstStop(p, 1) && ReadsNull(p, 1);
  }
}
