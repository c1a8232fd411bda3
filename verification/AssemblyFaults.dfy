/** What a turn of the assembly loop leaves behind when it fails, and how the
    loop is made of its turns (coordinator.cc, composite_device.cc). */
module AssemblyFaults {
  import opened Common
  import opened Hosts
  import opened Assembly

  /** Preparing a new proxy of an isolated device fails exactly if it cannot be
      made, no host can be launched for it or the host cannot be told. The
      first leaves everything as it was, the second a proxy without a host, and
      the third a proxy in its host and the outgoing directory used up. */
  lemma NewProxyFaults(w: World, d: DevId, target: Option<HostId>, fault: Fault)
    requires Proxies(w) && d in w.devs && (target.Some? ==> target.value in w.hosts) && w.devs[d].isolate
    ensures var r, own := PrepareNewProxy(w, d, target, fault), w.devs[d].newProxy;
            var q := if own.Some? then own.value else w.nextDev;
            && r.status == (if (fault.Early? && own.None?) || (fault.NoHost? && target.None?) || fault.Late?
                            then FAILED else OK)
            && (fault.Early? && own.None? ==> r.w == w)
            && (fault.NoHost? && target.None? ==>
                  && r.w.hosts == w.hosts && d in r.w.devs && r.w.devs[d] == w.devs[d].(newProxy := Some(q))
                  && q in r.w.devs && (if own.Some? then r.w == w else r.w.devs[q].host.None?))
            && (fault.Late? ==>
                  && d in r.w.devs && r.w.devs[d] == w.devs[d].(newProxy := Some(q), outgoing := false)
                  && q in r.w.devs && r.w.devs[q].host == Some(if target.Some? then target.value else w.nextHost))
  {
    hide House, Proxies, HandOver, Extends;
    Kept(w, d);
    if w.devs[d].isolate && !(w.devs[d].newProxy.None? && fault.Early?) {
      var w1 := if w.devs[d].newProxy.None? then CreateNewProxy(w, d) else w;
      if w.devs[d].newProxy.None? { CreateNewProxyEffect(w, d); }
      NewlyHoused(w, w1, d, target);
    }
  }

  /** The same for an old proxy, which is left alone if it has a host. */
  lemma OldProxyFaults(w: World, d: DevId, target: Option<HostId>, fault: Fault)
    requires Proxies(w) && d in w.devs && (target.Some? ==> target.value in w.hosts)
    requires w.devs[d].isolate && w.devs[d].serves == Nobody
    ensures var r, own := PrepareProxy(w, d, target, fault), w.devs[d].proxy;
            var q := if own.Some? then own.value else w.nextDev;
            var settled := own.Some? && own.value in w.devs && w.devs[own.value].host.Some?;
            && r.status == (if fault.Early? || (!settled && ((fault.NoHost? && target.None?) || fault.Late?))
                            then FAILED else OK)
            && (fault.Early? || settled ==> r.w == w)
            && (fault.NoHost? && target.None? && !settled ==>
                  && r.w.hosts == w.hosts && d in r.w.devs && r.w.devs[d] == w.devs[d].(proxy := Some(q))
                  && q in r.w.devs && r.w.devs[q].host.None?)
            && (fault.Late? && !settled ==>
                  && d in r.w.devs && r.w.devs[d] == w.devs[d].(proxy := Some(q))
                  && q in r.w.devs && r.w.devs[q].host == Some(if target.Some? then target.value else w.nextHost))
  {
    hide House, Proxies;
    Kept(w, d);
    if !fault.Early? {
      var w1 := if w.devs[d].proxy.None? then CreateProxy(w, d) else w;
      if w.devs[d].proxy.None? { CreateProxyEffect(w, d); }
      var p := w1.devs[d].proxy.value;
      Kept(w1, d);
      Kept(w1, p);
      if w1.devs[p].host.None? && !(target.None? && fault.NoHost?) { HouseEffect(w1, p, target); }
    }
  }

  /** A turn that does not succeed does not choose a host; it leaves what the
      failed preparation left, and nothing is changed by one that reads null or
      finds a proxy in another host. */
  lemma PlaceFaults(w: World, host: Option<HostId>, s: Slot, fault: Fault)
    requires Proxies(w) && Known(w, s) && (host.Some? ==> host.value in w.hosts)
    requires Place(w, host, s, fault).status != OK
    ensures var r, b := Place(w, host, s, fault), Effective(w, s.bound);
            && b in w.devs && r.host == host
            && if w.devs[b].outgoing then r.w == PrepareNewProxy(w, b, host, fault).w
               else if s.frag.Some? && r.status in {FAILED, ASSERTS}
               then r.w == PrepareProxy(w, s.frag.value, host, fault).w
               else r.w == w
  {
    hide PrepareNewProxy, PrepareProxy, Proxies, Effective;
    PlaceCases(w, host, s, fault);
  }

  /** The loop over one fragment more is the loop and, if that got through, one
      turn: what it placed before it failed stays placed. */
  lemma {:induction false} LoopThenTurn(w: World, host: Option<HostId>, slots: seq<Slot>, faults: seq<Fault>, s: Slot,
                                        fault: Fault)
    requires AllKnown(w, slots) && AllKnown(w, slots + [s]) && |faults| == |slots|
    requires host.Some? ==> host.value in w.hosts
    ensures var l, l' := PlaceAll(w, host, slots, faults), PlaceAll(w, host, slots + [s], faults + [fault]);
            if l.status != OK then l' == l
            else
              && Proxies(l.w) && Known(l.w, s) && (l.host.Some? ==> l.host.value in l.w.hosts)
              && var r := Place(l.w, l.host, s, fault);
              && l'.w == r.w && l'.host == r.host && l'.status == r.status
              && l'.placed == l.placed + if r.status == OK then [Placed(s.index, r.dev, r.id)] else []
    decreases |slots|
  {
    hide Place, Proxies, Known;
    var all, every := slots + [s], faults + [fault];
    if slots == [] {
      assert all == [s] && every == [fault];
      assert all[0] == s && all[1..] == [] && every[0] == fault && every[1..] == [];
      OneTurn(w, host, s, fault);
    } else {
      assert all[0] == slots[0] && all[1..] == slots[1..] + [s];
      assert every[0] == faults[0] && every[1..] == faults[1..] + [fault];
      var r := Place(w, host, slots[0], faults[0]);
      if r.status == OK {
        PlaceKeeps(w, host, slots[0], faults[0]);
        KnownTail(w, r.w, slots);
        KnownTail(w, r.w, all);
        LoopThenTurn(r.w, r.host, slots[1..], faults[1..], s, fault);
        var first, l := [Placed(slots[0].index, r.dev, r.id)], PlaceAll(r.w, r.host, slots[1..], faults[1..]);
        if l.status == OK {
          var t := Place(l.w, l.host, s, fault);
          var last := if t.status == OK then [Placed(s.index, t.dev, t.id)] else [];
          assert first + (l.placed + last) == (first + l.placed) + last;
        }
      }
    }
  }

  lemma OneTurn(w: World, host: Option<HostId>, s: Slot, fault: Fault)
    requires AllKnown(w, [s]) && (host.Some? ==> host.value in w.hosts)
    ensures Proxies(w) && Known(w, s)
    ensures var l, r := PlaceAll(w, host, [s], [fault]), Place(w, host, s, fault);
            && l.w == r.w && l.host == r.host && l.status == r.status
            && l.placed == if r.status == OK then [Placed(s.index, r.dev, r.id)] else []
  {
    assert [s][0] == s && [s][1..] == [];
    hide Place, Proxies;
    var r := Place(w, host, s, fault);
    if r.status == OK {
      PlaceKeeps(w, host, s, fault);
      KnownTail(w, r.w, [s]);
      assert PlaceAll(r.w, r.host, [s][1..], [fault][1..]) == Layout(r.w, r.host, OK, []);
    }
  }
}
