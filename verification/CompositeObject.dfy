/** The fragment graph in place: the operations of the driver manager with
    their loops, each equal to the function that specifies it. */
module CompositeObject {
  import opened Common
  import opened Composites
  import S = Composites
  import B = BindProgram

  class Manager {
    var devs: map<DevId, Dev>
    var comps: map<CompId, Comp>
    var frags: map<FragId, Frag>
    var nextDev: DevId

    ghost function View(): State reads this { State(devs, comps, frags, nextDev) }

    constructor ()
      ensures View() == State(map[], map[], map[], 0)
    {
      devs, comps, frags, nextDev := map[], map[], map[], 0;
    }

    /** The outcome of an operation: the assertion met, or the new state. */
    ghost predicate Is(r: Option<Site>, o: Outcome) reads this {
      match r case None => o == Done(View()) case Some(s) => o == Asserts(s)
    }

    method FragmentsReady(c: CompId) returns (ready: bool)
      requires c in comps
      ensures ready == AllReady(View(), c)
    {
      var list := comps[c].bound;
      for k := 0 to |list|
        invariant forall i :: i in list[..k] && FragId(c, i) in frags ==> FragmentReady(View(), FragId(c, i))
      {
        var f := FragId(c, list[k]);
        if f in frags {
          var fr := frags[f];
          if fr.fragDev.None? && !(fr.bound.Some? && fr.bound.value in devs && devs[fr.bound.value].outgoing) {
            assert list[k] in list && !FragmentReady(View(), f);
            return false;
          }
        }
      }
      assert list[..|list|] == list;
      return true;
    }

    method TryAssemble(c: CompId, pl: Placing) returns (asserted: Option<Site>)
      requires c in comps
      modifies this
      ensures Is(asserted, S.TryAssemble(old(View()), c, pl))
    {
      if comps[c].device.Some? {
        return Some(ASSEMBLED);
      }
      if comps[c].unbound != [] {
        return None;
      }
      var ready := FragmentsReady(c);
      if !ready {
        return None;
      }
      devs := map d | d in devs :: if d in pl.consumed then devs[d].(outgoing := false) else devs[d];
      if pl.ok {
        devs := devs[nextDev := Dev(None, [], [], Some(c), false, false, true, comps[c].ctx)];
        comps := comps[c := comps[c].(device := Some(nextDev))];
        nextDev := nextDev + 1;
      }
      return None;
    }

    method BindFragment(f: FragId, d: DevId, bindOk: bool, pl: Placing) returns (asserted: Option<Site>)
      requires f.comp in comps && d in devs
      modifies this
      ensures Is(asserted, S.BindFragment(old(View()), f, d, bindOk, pl))
    {
      var list, found := comps[f.comp].unbound, false;
      for k := 0 to |list|
        invariant found <==> f.index in list[..k]
      {
        found := found || list[k] == f.index;
      }
      assert list[..|list|] == list;
      if !found || f !in frags {
        return None;
      }
      if frags[f].bound.Some? {
        return Some(BOUND_ALREADY);
      }
      var outgoing := devs[d].outgoing;
      if !outgoing && !bindOk {
        return None;
      }
      var c := comps[f.comp];
      frags := frags[f := frags[f].(bound := Some(d))];
      devs := devs[d := devs[d].(fragments := devs[d].fragments + [f])];
      comps := comps[f.comp := c.(unbound := Erase(c.unbound, f.index), bound := c.bound + [f.index])];
      assert View() == S.Bind(old(View()), f, d);
      if outgoing {
        asserted := TryAssemble(f.comp, pl);
      } else {
        asserted := None;
      }
    }

    /** The first fragment of a list whose program accepts the device. */
    method FindMatch(c: CompId, list: seq<nat>, d: DevId) returns (r: Option<nat>)
      requires d in devs
      ensures r == FirstMatch(View(), c, list, d)
    {
      for k := 0 to |list|
        invariant FirstMatch(View(), c, list, d) == FirstMatch(View(), c, list[k..], d)
      {
        assert list[k..][0] == list[k] && list[k..][1..] == list[k + 1..];
        var f := FragId(c, list[k]);
        if f in frags {
          var ok := B.Evaluate(devs[d].ctx.(autobind := 1), frags[f].rules);
          if ok {
            return Some(list[k]);
          }
        }
      }
      return None;
    }

    method TryMatchBindFragments(c: CompId, d: DevId, bindOk: bool, pl: Placing) returns (asserted: Option<Site>)
      requires c in comps && d in devs
      modifies this
      ensures Is(asserted, S.TryMatchBindFragments(old(View()), c, d, bindOk, pl))
    {
      if comps[c].fromIndex {
        return None;
      }
      var ambiguous := FindMatch(c, comps[c].bound, d);
      if ambiguous.Some? {
        return None;
      }
      var m := FindMatch(c, comps[c].unbound, d);
      if m.None? {
        return None;
      }
      asserted := BindFragment(FragId(c, m.value), d, bindOk, pl);
    }

    /** CompositeDevice::Remove. */
    method Remove(c: CompId)
      requires c in comps
      modifies this
      ensures View() == Forget(old(View()), c)
    {
      var dev := comps[c].device;
      if dev.Some? && dev.value in devs {
        devs := devs[dev.value := devs[dev.value].(comp := None)];
      }
      comps := comps[c := comps[c].(device := None)];
    }

    /** The caller's erasing of the fragment and CompositeDeviceFragment::Unbind. */
    method Unbind(d: DevId, f: FragId) returns (asserted: Option<Site>)
      requires f in frags && f.comp in comps && d in devs
      modifies this
      ensures Is(asserted, Release(old(View()), d, f))
    {
      devs := devs[d := devs[d].(fragments := Erase(devs[d].fragments, f))];
      var b := frags[f].bound;
      if b.None? || b.value !in devs {
        return Some(NOT_BOUND);
      }
      if comps[f.comp].device.Some? {
        Remove(f.comp);
      }
      if comps[f.comp].device.Some? {
        return Some(STILL_ASSEMBLED);
      }
      var c := comps[f.comp];
      comps := comps[f.comp := c.(bound := Erase(c.bound, f.index), unbound := c.unbound + [f.index])];
      frags := frags[f := frags[f].(bound := None, fragDev := None)];
      devs := devs[b.value := devs[b.value].(comp := None)];
      ghost var o := old(View());
      assert View() == Release(o, d, f).st;
      return None;
    }

    /** Give a new fragment device to the first fragment waiting for one. */
    method Inform(e: DevId, p: DevId, pl: Placing) returns (asserted: Option<Site>)
      requires p in devs
      modifies this
      ensures var st := old(View());
              Is(asserted, match FirstFree(st, p, st.devs[p].fragments)
                           case None => Done(st)
                           case Some(f) => S.TryAssemble(Arrive(st, f, e), f.comp, pl))
    {
      hide S.TryAssemble, Consume;
      var list := devs[p].fragments;
      for k := 0 to |list|
        invariant View() == old(View())
        invariant FirstFree(View(), p, list) == FirstFree(View(), p, list[k..])
      {
        assert list[k..][0] == list[k] && list[k..][1..] == list[k + 1..];
        var f := list[k];
        if f in frags && f.comp in comps && frags[f].fragDev.None? && !devs[p].outgoing {
          frags := frags[f := frags[f].(fragDev := Some(e))];
          asserted := TryAssemble(f.comp, pl);
          return;
        }
      }
      return None;
    }

    method AddDevice(p: DevId, fragDriver: bool, outgoing: bool, ctx: B.Context,
                     pl: Placing) returns (asserted: Option<Site>)
      requires p in devs
      modifies this
      ensures Is(asserted, S.AddDevice(old(View()), p, fragDriver, outgoing, ctx, pl))
    {
      var e := nextDev;
      devs := devs[e := Dev(Some(p), [], [], None, fragDriver, outgoing, true, ctx)]
                  [p := devs[p].(children := devs[p].children + [e])];
      nextDev := nextDev + 1;
      assert View() == Create(old(View()), p, fragDriver, outgoing, ctx);
      asserted := None;
      if fragDriver {
        asserted := Inform(e, p, pl);
      }
    }

    method FindOfComp(list: seq<FragId>, c: CompId) returns (r: Option<FragId>)
      ensures r == FirstOfComp(list, c)
    {
      for k := 0 to |list|
        invariant FirstOfComp(list, c) == FirstOfComp(list[k..], c)
      {
        assert list[k..][0] == list[k] && list[k..][1..] == list[k + 1..];
        if list[k].comp == c {
          return Some(list[k]);
        }
      }
      return None;
    }

    method FindOfDevice(list: seq<FragId>, e: DevId) returns (r: Option<FragId>)
      ensures r == FirstOfDevice(View(), list, e)
    {
      for k := 0 to |list|
        invariant FirstOfDevice(View(), list, e) == FirstOfDevice(View(), list[k..], e)
      {
        assert list[k..][0] == list[k] && list[k..][1..] == list[k + 1..];
        if list[k] in frags && frags[list[k]].fragDev == Some(e) {
          return Some(list[k]);
        }
      }
      return None;
    }

    /** The loop of RemoveDevice over the fragments of a composite. */
    method DisbandAll(c: CompId, list: seq<nat>) returns (asserted: Option<Site>)
      requires c in comps
      modifies this
      ensures Is(asserted, Disband(old(View()), c, list))
    {
      hide Release, Forget;
      ghost var st0 := View();
      for k := 0 to |list|
        invariant c in comps && Disband(st0, c, list) == Disband(View(), c, list[k..])
      {
        assert list[k..][0] == list[k] && list[k..][1..] == list[k + 1..];
        var f := FragId(c, list[k]);
        if f in frags && frags[f].fragDev.Some? {
          continue;
        }
        if f !in frags || frags[f].bound.None? || frags[f].bound.value !in devs {
          return Some(NOT_BOUND);
        }
        var b := frags[f].bound.value;
        var g := FindOfComp(devs[b].fragments, c);
        if g.None? || g.value !in frags {
          return Some(NO_FRAGMENT);
        }
        ghost var st1 := View();
        asserted := Unbind(b, g.value);
        if asserted.Some? {
          return;
        }
        ReleaseKeepsComps(st1, b, g.value);
      }
      Remove(c);
      return None;
    }

    method DropDevice(e: DevId) returns (asserted: Option<Site>)
      requires e in devs
      modifies this
      ensures Is(asserted, DropFragmentDevice(old(View()), e))
    {
      hide Release;
      var p := devs[e].parent;
      if !devs[e].fragDriver || p.None? || p.value !in devs {
        return None;
      }
      var f := FindOfDevice(devs[p.value].fragments, e);
      if f.None? || f.value.comp !in comps {
        return Some(NO_FRAGMENT);
      }
      asserted := Unbind(p.value, f.value);
    }

    method RemoveDevice(d: DevId) returns (asserted: Option<Site>)
      requires d in devs
      modifies this
      ensures Is(asserted, S.RemoveDevice(old(View()), d))
    {
      hide Disband, DropFragmentDevice;
      if !devs[d].live {
        return None;
      }
      devs := devs[d := devs[d].(live := false)];
      var c := devs[d].comp;
      if c.Some? && c.value in comps {
        asserted := DisbandAll(c.value, comps[c.value].bound);
        if asserted.Some? {
          return;
        }
      }
      if d !in devs {
        return None;
      }
      asserted := DropDevice(d);
      if asserted.Some? {
        return;
      }
      if d in devs {
        var p := devs[d].parent;
        if p.Some? && p.value in devs {
          devs := devs[p.value := devs[p.value].(children := Erase(devs[p.value].children, d))];
        }
        devs := devs[d := devs[d].(parent := None)];
      }
    }
  }

  lemma ReleaseKeepsComps(st: State, d: DevId, f: FragId)
    requires f in st.frags && f.comp in st.comps && d in st.devs && Release(st, d, f).Done?
    ensures Release(st, d, f).st.comps.Keys == st.comps.Keys
  {
  }
}
