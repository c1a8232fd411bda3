/** What makes taking a composite apart find the right fragments: which of the
    fragments on one device have a fragment device, and in which order the
    lists name them. */
module CompositeOrder {
  import opened Common
  import opened Composites
  import opened CompositeRuns
  import B = BindProgram

  /** A fragment that has a fragment device is bound to a device without an
      outgoing directory. */
  ghost predicate Served(st: State) {
    forall f :: f in st.frags && st.frags[f].fragDev.Some? && st.frags[f].bound.Some?
                && st.frags[f].bound.value in st.devs ==>
      !st.devs[st.frags[f].bound.value].outgoing
  }

  /** Of the fragments of `c` on one device, all or none have a fragment device. */
  ghost predicate AgreesOn(st: State, c: CompId) {
    forall f, g :: f in st.frags && g in st.frags && f.comp == c && g.comp == c && st.frags[f].bound.Some?
                   && st.frags[f].bound == st.frags[g].bound ==>
      st.frags[f].fragDev.Some? == st.frags[g].fragDev.Some?
  }

  ghost predicate Agrees(st: State) {
    forall c :: c in st.comps && st.comps[c].device.Some? ==> AgreesOn(st, c)
  }

  /** A device lists the fragments of a composite in the order in which the
      composite does. */
  ghost predicate Ordered(st: State) {
    forall d, f: FragId, g: FragId :: d in st.devs && f.comp in st.comps && g.comp == f.comp
                                      && Before(st.devs[d].fragments, f, g) ==>
      Before(st.comps[f.comp].bound, f.index, g.index)
  }

  ghost predicate Orderly(st: State) { Served(st) && Agrees(st) && Ordered(st) }

  /** A change that leaves fragments and lists alone, gives no device an
      outgoing directory and assembles nothing. */
  lemma OrderlyFrame(st: State, st': State)
    requires Orderly(st) && Inv(st) && st'.frags == st.frags && st'.comps.Keys == st.comps.Keys
    requires st.devs.Keys <= st'.devs.Keys
    requires forall c :: c in st.comps ==>
               st'.comps[c].bound == st.comps[c].bound && (st'.comps[c].device.Some? ==> st.comps[c].device.Some?)
    requires forall d :: d in st.devs ==>
               st'.devs[d].fragments == st.devs[d].fragments && (st'.devs[d].outgoing ==> st.devs[d].outgoing)
    requires forall d :: d in st'.devs && d !in st.devs ==> st'.devs[d].fragments == []
    ensures Orderly(st')
  {
    hide Inv, Before, AgreesOn;
    BoundInDevs(st);
    forall c | c in st'.comps && st'.comps[c].device.Some? ensures AgreesOn(st', c) { SameAgrees(st, st', c); }
    forall d, f: FragId, g: FragId | d in st'.devs && f.comp in st'.comps && g.comp == f.comp
                                     && Before(st'.devs[d].fragments, f, g)
      ensures Before(st'.comps[f.comp].bound, f.index, g.index)
    {
      if d !in st.devs { NothingBefore(f, g); }
    }
  }

  lemma BoundInDevs(st: State)
    requires Inv(st)
    ensures forall f :: f in st.frags && st.frags[f].bound.Some? ==> st.frags[f].bound.value in st.devs
  {
  }

  lemma SameAgrees(st: State, st': State, c: CompId)
    requires AgreesOn(st, c) && st'.frags == st.frags
    ensures AgreesOn(st', c)
  {
  }

  lemma NoSuchDevice(st: State)
    requires Inv(st)
    ensures st.nextDev !in st.devs
  {
  }

  lemma NothingBefore(f: FragId, g: FragId)
    ensures !Before([], f, g)
  {
  }

  lemma BindOrdered(st: State, f: FragId, d: DevId)
    requires Inv(st) && Ordered(st) && f in st.frags && f.comp in st.comps && d in st.devs
    ensures Ordered(Bind(st, f, d))
  {
    hide Inv, Before;
    var st' := Bind(st, f, d);
    forall e, g: FragId, h: FragId | e in st'.devs && g.comp in st'.comps && h.comp == g.comp
                                     && Before(st'.devs[e].fragments, g, h)
      ensures Before(st'.comps[g.comp].bound, g.index, h.index)
    {
      AppendBefore(st.devs[d].fragments, f, g, h);
      AppendBefore(st.comps[f.comp].bound, f.index, g.index, h.index);
      if e == d && h == f && g in st.devs[d].fragments {
        BoundHere(st, d, g);
        InBound(st, g);
      }
    }
  }

  lemma InBound(st: State, f: FragId)
    requires Inv(st) && f in st.frags && st.frags[f].bound.Some?
    ensures f.comp in st.comps && f.index in st.comps[f.comp].bound
  {
  }

  lemma UnboundUnserved(st: State, f: FragId)
    requires Inv(st) && f in st.frags && st.frags[f].bound.None?
    ensures st.frags[f].fragDev.None?
  {
  }

  lemma BindOrderly(st: State, f: FragId, d: DevId)
    requires Inv(st) && Orderly(st) && f in st.frags && f.comp in st.comps && d in st.devs
    requires f.index in st.comps[f.comp].unbound
    ensures Orderly(Bind(st, f, d))
  {
    hide Inv, Ordered;
    BindInv(st, f, d);
    BindOrdered(st, f, d);
    UnboundUnserved(st, f);
    var st' := Bind(st, f, d);
    forall c | c in st'.comps && st'.comps[c].device.Some? ensures AgreesOn(st', c) {
      assert AgreesOn(st, c) && c != f.comp;
    }
  }

  lemma ArriveOrderly(st: State, f: FragId, e: DevId)
    requires Orderly(st) && f in st.frags && f.comp in st.comps && st.comps[f.comp].device.None?
    requires st.frags[f].bound.Some? && st.frags[f].bound.value in st.devs && !st.devs[st.frags[f].bound.value].outgoing
    ensures Orderly(Arrive(st, f, e))
  {
    hide Before;
    var st' := Arrive(st, f, e);
    forall c | c in st'.comps && st'.comps[c].device.Some? ensures AgreesOn(st', c) {
      assert AgreesOn(st, c) && c != f.comp;
    }
  }

  /** Fragments that are all ready agree: those on a device with an outgoing
      directory have no fragment device, the others have one. */
  lemma ReadyAgrees(st: State, c: CompId)
    requires Inv(st) && Served(st) && c in st.comps && AllReady(st, c)
    ensures AgreesOn(st, c)
  {
    forall f, g | f in st.frags && g in st.frags && f.comp == c && g.comp == c && st.frags[f].bound.Some?
                  && st.frags[f].bound == st.frags[g].bound
      ensures st.frags[f].fragDev.Some? == st.frags[g].fragDev.Some?
    {
      InBound(st, f);
      InBound(st, g);
      assert FragmentReady(st, FragId(c, f.index)) && FragmentReady(st, FragId(c, g.index));
    }
  }

  lemma TryAssembleOrderly(st: State, c: CompId, pl: Placing)
    requires Inv(st) && Orderly(st) && c in st.comps && TryAssemble(st, c, pl).Done?
    ensures Orderly(TryAssemble(st, c, pl).st)
  {
    hide Inv, Served, Agrees, AgreesOn, Ordered, AllReady;
    if st.comps[c].unbound == [] && AllReady(st, c) {
      var st1 := Consume(st, pl.consumed);
      ReadyAgrees(st, c);
      FlagsInv(st, st1);
      OrderlyFrame(st, st1);
      SameAgrees(st, st1, c);
      if pl.ok { AssembledOrderly(st1, c); }
    }
  }

  lemma AssembledOrderly(st: State, c: CompId)
    requires Inv(st) && Orderly(st) && c in st.comps && AgreesOn(st, c)
    ensures Orderly(Assembled(st, c))
  {
    hide Inv, Before, AgreesOn;
    var st' := Assembled(st, c);
    BoundInDevs(st);
    NoSuchDevice(st);
    forall k | k in st'.comps && st'.comps[k].device.Some? ensures AgreesOn(st', k) {
      assert AgreesOn(st, k);
      SameAgrees(st, st', k);
    }
    forall d, f: FragId, g: FragId | d in st'.devs && f.comp in st'.comps && g.comp == f.comp
                                     && Before(st'.devs[d].fragments, f, g)
      ensures Before(st'.comps[f.comp].bound, f.index, g.index)
    {
      if d !in st.devs { NothingBefore(f, g); }
    }
  }

  /** Taking a fragment off its lists. */
  lemma ReleaseOrderly(st: State, d: DevId, f: FragId)
    requires Inv(st) && Orderly(st) && d in st.devs && f in st.devs[d].fragments
    ensures f in st.frags && f.comp in st.comps && Release(st, d, f).Done? && Orderly(Release(st, d, f).st)
    ensures forall c :: c in st.comps && AgreesOn(st, c) ==> AgreesOn(Release(st, d, f).st, c)
  {
    hide Inv, Release, Served, Agrees, AgreesOn, Ordered, Forget, Dropped;
    ReleaseInv(st, d, f);
    var st1 := Forget(st, f.comp);
    ForgetInv(st, f.comp);
    ForgetOrderly(st, f.comp);
    DroppedOrdered(st1, d, f);
    DroppedAgrees(st1, d, f);
    forall c | c in st.comps && AgreesOn(st, c) ensures AgreesOn(Release(st, d, f).st, c) {
      SameAgrees(st, st1, c);
    }
  }

  lemma ForgetOrderly(st: State, c: CompId)
    requires Inv(st) && Orderly(st) && c in st.comps
    ensures Orderly(Forget(st, c)) && Forget(st, c).frags == st.frags && Forget(st, c).comps.Keys == st.comps.Keys
    ensures forall d :: d in st.devs ==>
              d in Forget(st, c).devs && Forget(st, c).devs[d].fragments == st.devs[d].fragments
  {
    hide Inv, Orderly;
    OrderlyFrame(st, Forget(st, c));
  }

  lemma DroppedAgrees(st: State, d: DevId, f: FragId)
    requires Served(st) && Agrees(st) && d in st.devs && f in st.frags && f.comp in st.comps
    requires st.comps[f.comp].device.None?
    ensures Served(Dropped(st, d, f)) && Agrees(Dropped(st, d, f))
    ensures Dropped(st, d, f).comps.Keys == st.comps.Keys
    ensures forall c :: AgreesOn(st, c) ==> AgreesOn(Dropped(st, d, f), c)
  {
    hide Erase, AgreesOn;
    var st' := Dropped(st, d, f);
    forall c | AgreesOn(st, c) ensures AgreesOn(st', c) { FewerAgree(st, st', f, c); }
  }

  lemma FewerAgree(st: State, st': State, f: FragId, c: CompId)
    requires AgreesOn(st, c) && f in st.frags && st'.frags.Keys == st.frags.Keys && st'.frags[f].bound.None?
    requires forall g :: g in st.frags && g != f ==> st'.frags[g] == st.frags[g]
    ensures AgreesOn(st', c)
  {
  }

  lemma DroppedOrdered(st: State, d: DevId, f: FragId)
    requires Inv(st) && Ordered(st) && d in st.devs && f in st.devs[d].fragments && f in st.frags && f.comp in st.comps
    ensures Ordered(Dropped(st, d, f))
  {
    hide Before;
    var st' := Dropped(st, d, f);
    forall e, g: FragId, h: FragId | e in st'.devs && g.comp in st'.comps && h.comp == g.comp
                                     && Before(st'.devs[e].fragments, g, h)
      ensures Before(st'.comps[g.comp].bound, g.index, h.index)
    {
      DroppedBefore(st, d, f, e, g, h);
    }
  }

  lemma DroppedBefore(st: State, d: DevId, f: FragId, e: DevId, g: FragId, h: FragId)
    requires Inv(st) && Ordered(st) && d in st.devs && f in st.devs[d].fragments && f in st.frags && f.comp in st.comps
    requires e in st.devs && g.comp in st.comps && h.comp == g.comp && Before(Dropped(st, d, f).devs[e].fragments, g, h)
    ensures Before(Dropped(st, d, f).comps[g.comp].bound, g.index, h.index)
  {
    hide Inv, Before, Erase;
    var st' := Dropped(st, d, f);
    NotErased(st, d, f, e, g, h);
    assert Before(st.comps[g.comp].bound, g.index, h.index);
    if g.comp == f.comp { EraseKeepsBefore(st.comps[f.comp].bound, f.index, g.index, h.index); }
  }

  lemma NotErased(st: State, d: DevId, f: FragId, e: DevId, g: FragId, h: FragId)
    requires Inv(st) && d in st.devs && f in st.devs[d].fragments && e in st.devs
    requires Before(if e == d then Erase(st.devs[d].fragments, f) else st.devs[e].fragments, g, h)
    ensures g != f && h != f && Before(st.devs[e].fragments, g, h)
  {
    hide Inv, Before, Erase;
    BoundHere(st, d, f);
    ListNoDup(st, d);
    if e == d {
      BeforeIn(Erase(st.devs[d].fragments, f), g, h);
      EraseSpec(st.devs[d].fragments, f);
      EraseBefore(st.devs[d].fragments, f, g, h);
    } else {
      BeforeIn(st.devs[e].fragments, g, h);
      BoundHere(st, e, g);
      BoundHere(st, e, h);
    }
  }

  lemma ListNoDup(st: State, d: DevId)
    requires Inv(st) && d in st.devs
    ensures NoDup(st.devs[d].fragments)
  {
  }

  lemma AddedOrderly(st: State, st': State, c: CompId)
    requires Inv(st) && Orderly(st) && Added(st, st', c)
    ensures Orderly(st')
  {
    hide Inv, Before;
    BoundInDevs(st);
    forall k | k in st'.comps && st'.comps[k].device.Some? ensures AgreesOn(st', k) {
      assert k != c && AgreesOn(st, k);
    }
    forall d, f: FragId, g: FragId | d in st'.devs && f.comp in st'.comps && g.comp == f.comp
                                     && Before(st'.devs[d].fragments, f, g)
      ensures Before(st'.comps[f.comp].bound, f.index, g.index)
    {
      BeforeIn(st.devs[d].fragments, f, g);
      BoundHere(st, d, f);
    }
  }

  lemma AddDeviceOrderly(st: State, p: DevId, fragDriver: bool, outgoing: bool, ctx: B.Context, pl: Placing)
    requires Inv(st) && Orderly(st) && p in st.devs && AddDevice(st, p, fragDriver, outgoing, ctx, pl).Done?
    ensures Orderly(AddDevice(st, p, fragDriver, outgoing, ctx, pl).st)
  {
    hide Inv, Orderly;
    var st1 := Create(st, p, fragDriver, outgoing, ctx);
    CreateInv(st, p, fragDriver, outgoing, ctx);
    OrderlyFrame(st, st1);
    var r := FirstFree(st1, p, st1.devs[p].fragments);
    if fragDriver && r.Some? {
      BoundHere(st1, p, r.value);
      ArriveInv(st1, r.value, st.nextDev);
      var st2 := Arrive(st1, r.value, st.nextDev);
      ArriveOrderly(st1, r.value, st.nextDev);
      TryAssembleOrderly(st2, r.value.comp, pl);
    }
  }

  lemma BindFragmentOrderly(st: State, f: FragId, d: DevId, bindOk: bool, pl: Placing)
    requires Inv(st) && Orderly(st) && f.comp in st.comps && d in st.devs && BindFragment(st, f, d, bindOk, pl).Done?
    ensures Orderly(BindFragment(st, f, d, bindOk, pl).st)
    ensures BindFragment(st, f, d, bindOk, pl).st.comps.Keys == st.comps.Keys
  {
    hide Inv, Orderly, AllReady;
    if f.index in st.comps[f.comp].unbound && f in st.frags {
      BindInv(st, f, d);
      BindOrderly(st, f, d);
      if TryAssemble(Bind(st, f, d), f.comp, pl).Done? { TryAssembleOrderly(Bind(st, f, d), f.comp, pl); }
    }
  }
}
