/** What every operation on the fragment graph keeps, over all runs. */
module CompositeRuns {
  import opened Common
  import opened Composites
  import B = BindProgram

  /** Parents are older than their children, and both agree on being related. */
  ghost predicate Tree(st: State) {
    forall d :: d in st.devs ==> TreeAt(st, d)
  }

  ghost predicate TreeAt(st: State, d: DevId)
    requires d in st.devs
  {
    var r := st.devs[d];
    && d < st.nextDev
    && (r.parent.Some? ==> r.parent.value in st.devs && r.parent.value < d && d in st.devs[r.parent.value].children)
    && NoDup(r.children)
    && (forall x :: x in r.children ==> x in st.devs && st.devs[x].parent == Some(d))
  }

  /** The two lists of a composite partition 0..count-1, a fragment is in the
      bound list exactly when it has a bound device, and an assembled composite
      has no unbound fragment. */
  ghost predicate Lists(st: State) {
    && (forall f :: f in st.frags ==> f.comp in st.comps && f.index < st.comps[f.comp].count)
    && (forall c :: c in st.comps ==> ListsAt(st, c))
  }

  ghost predicate ListsAt(st: State, c: CompId)
    requires c in st.comps
  {
    var r := st.comps[c];
    && NoDup(r.unbound) && NoDup(r.bound)
    && (forall i: nat :: i < r.count ==> FragId(c, i) in st.frags)
    && (forall i: nat :: i in r.unbound <==> FragId(c, i) in st.frags && st.frags[FragId(c, i)].bound.None?)
    && (forall i: nat :: i in r.bound <==> FragId(c, i) in st.frags && st.frags[FragId(c, i)].bound.Some?)
    && (r.device.Some? ==> r.unbound == [])
  }

  /** A device's fragment list holds, once each, the fragments bound to it. */
  ghost predicate Links(st: State) {
    && (forall f :: f in st.frags && st.frags[f].bound.Some? ==>
          st.frags[f].bound.value in st.devs && f in st.devs[st.frags[f].bound.value].fragments)
    && (forall d :: d in st.devs ==> NoDup(st.devs[d].fragments))
    && (forall d, f :: d in st.devs && f in st.devs[d].fragments ==> f in st.frags && st.frags[f].bound == Some(d))
  }

  /** A fragment device is a fragment-driver child of the bound device, and
      belongs to one fragment. */
  ghost predicate FragDevs(st: State) {
    && (forall f :: f in st.frags && st.frags[f].fragDev.Some? ==> FragDevAt(st, st.frags[f]))
    && (forall f, g :: f in st.frags && g in st.frags && st.frags[f].fragDev.Some?
                       && st.frags[f].fragDev == st.frags[g].fragDev ==>
          f == g)
  }

  ghost predicate FragDevAt(st: State, r: Frag)
    requires r.fragDev.Some?
  {
    r.bound.Some? && r.fragDev.value in st.devs && st.devs[r.fragDev.value].fragDriver
    && st.devs[r.fragDev.value].parent == r.bound
  }

  /** An assembled device has no parent, is younger than every device its
      fragments are bound to, and belongs to one composite. */
  ghost predicate Devices(st: State) {
    && (forall c :: c in st.comps && st.comps[c].device.Some? ==>
          st.comps[c].device.value in st.devs && st.devs[st.comps[c].device.value].parent.None?)
    && (forall c, c' :: c in st.comps && c' in st.comps && st.comps[c].device.Some?
                        && st.comps[c].device == st.comps[c'].device ==>
          c == c')
    && (forall d :: d in st.devs && st.devs[d].comp.Some? ==>
          st.devs[d].comp.value in st.comps && st.comps[st.devs[d].comp.value].device == Some(d))
    && (forall f :: f in st.frags && f.comp in st.comps && st.frags[f].bound.Some? && st.comps[f.comp].device.Some? ==>
          st.frags[f].bound.value < st.comps[f.comp].device.value)
  }

  ghost predicate Inv(st: State) {
    Tree(st) && Lists(st) && Links(st) && FragDevs(st) && Devices(st)
  }

  // ----- parts a change does not touch

  lemma TreeFrame(st: State, st': State)
    requires Tree(st) && st'.devs.Keys == st.devs.Keys && st.nextDev <= st'.nextDev
    requires forall d :: d in st.devs ==>
               st'.devs[d].parent == st.devs[d].parent && st'.devs[d].children == st.devs[d].children
    ensures Tree(st')
  {
  }

  lemma ListsFrame(st: State, st': State)
    requires Lists(st) && st'.frags.Keys == st.frags.Keys && st'.comps.Keys == st.comps.Keys
    requires forall f :: f in st.frags ==> st'.frags[f].bound == st.frags[f].bound
    requires forall c :: c in st.comps ==>
               && st'.comps[c].(device := st.comps[c].device) == st.comps[c]
               && (st'.comps[c].device.Some? && st.comps[c].device.None? ==> st.comps[c].unbound == [])
    ensures Lists(st')
  {
    forall c | c in st'.comps ensures ListsAt(st', c) { assert ListsAt(st, c); }
  }

  lemma LinksFrame(st: State, st': State)
    requires Links(st) && st'.frags.Keys == st.frags.Keys && st.devs.Keys <= st'.devs.Keys
    requires forall f :: f in st.frags ==> st'.frags[f].bound == st.frags[f].bound
    requires forall d :: d in st'.devs ==> st'.devs[d].fragments == if d in st.devs then st.devs[d].fragments else []
    ensures Links(st')
  {
  }

  lemma FragDevsFrame(st: State, st': State)
    requires FragDevs(st) && st'.frags == st.frags && st.devs.Keys <= st'.devs.Keys
    requires forall d :: d in st.devs ==> st'.devs[d].fragDriver == st.devs[d].fragDriver
    requires forall f :: f in st.frags && st.frags[f].fragDev.Some? && st.frags[f].fragDev.value in st.devs ==>
               st'.devs[st.frags[f].fragDev.value].parent == st.devs[st.frags[f].fragDev.value].parent
    ensures FragDevs(st')
  {
  }

  lemma DevicesFrame(st: State, st': State)
    requires Devices(st) && st'.comps == st.comps && st'.frags.Keys == st.frags.Keys && st.devs.Keys <= st'.devs.Keys
    requires forall f :: f in st.frags ==> st'.frags[f].bound == st.frags[f].bound
    requires forall d :: d in st'.devs && st'.devs[d].comp.Some? ==> d in st.devs && st'.devs[d].comp == st.devs[d].comp
    requires forall d :: d in st.devs && st.devs[d].parent.None? ==> st'.devs[d].parent.None?
    ensures Devices(st')
  {
  }

  // ----- the primitive changes

  lemma FlagsInv(st: State, st': State)
    requires Inv(st) && st'.comps == st.comps && st'.frags == st.frags && st'.nextDev == st.nextDev
    requires st'.devs.Keys == st.devs.Keys
    requires forall d :: d in st.devs ==>
               st'.devs[d].(outgoing := st.devs[d].outgoing, live := st.devs[d].live) == st.devs[d]
    ensures Inv(st')
  {
    hide Tree, Lists, Links, FragDevs, Devices;
    TreeFrame(st, st');
    ListsFrame(st, st');
    LinksFrame(st, st');
    FragDevsFrame(st, st');
    DevicesFrame(st, st');
  }

  lemma Ages(st: State)
    requires Tree(st)
    ensures forall d :: d in st.devs ==> d < st.nextDev
  {
  }

  lemma NewDevTree(st: State, st': State, x: Dev)
    requires Tree(st) && st'.nextDev == st.nextDev + 1 && st'.devs == st.devs[st.nextDev := x] && x.parent.None?
    requires x.children == []
    ensures Tree(st') && st.nextDev !in st.devs
  {
  }

  lemma AssembledDevices(st: State, c: CompId)
    requires Tree(st) && Links(st) && Devices(st) && c in st.comps && st.comps[c].device.None?
    requires st.nextDev !in st.devs
    ensures Devices(Assembled(st, c))
  {
    forall f | f in st.frags && st.frags[f].bound.Some? ensures st.frags[f].bound.value < st.nextDev {
      assert TreeAt(st, st.frags[f].bound.value);
    }
  }

  lemma AssembledInv(st: State, c: CompId)
    requires Inv(st) && c in st.comps && st.comps[c].device.None? && st.comps[c].unbound == []
    ensures Inv(Assembled(st, c))
  {
    var st' := Assembled(st, c);
    hide Tree, Lists, Links, FragDevs, Devices;
    NewDevTree(st, st', st'.devs[st.nextDev]);
    ListsFrame(st, st');
    LinksFrame(st, st');
    FragDevsFrame(st, st');
    AssembledDevices(st, c);
  }

  lemma BindLists(st: State, f: FragId, d: DevId)
    requires Lists(st) && f in st.frags && f.comp in st.comps && d in st.devs && f.index in st.comps[f.comp].unbound
    ensures Lists(Bind(st, f, d)) && st.frags[f].bound.None? && st.comps[f.comp].device.None?
  {
    var st' := Bind(st, f, d);
    assert ListsAt(st, f.comp);
    EraseSpec(st.comps[f.comp].unbound, f.index);
    AppendNoDup(st.comps[f.comp].bound, f.index);
    forall c | c in st'.comps ensures ListsAt(st', c) { assert ListsAt(st, c); }
  }

  lemma BindLinks(st: State, f: FragId, d: DevId)
    requires Links(st) && f in st.frags && f.comp in st.comps && d in st.devs && st.frags[f].bound.None?
    ensures Links(Bind(st, f, d))
  {
    AppendNoDup(st.devs[d].fragments, f);
  }

  lemma BindFragDevs(st: State, f: FragId, d: DevId)
    requires FragDevs(st) && f in st.frags && f.comp in st.comps && d in st.devs && st.frags[f].bound.None?
    ensures FragDevs(Bind(st, f, d))
  {
  }

  lemma BindDevices(st: State, f: FragId, d: DevId)
    requires Devices(st) && f in st.frags && f.comp in st.comps && d in st.devs && st.comps[f.comp].device.None?
    ensures Devices(Bind(st, f, d))
  {
  }

  lemma BindInv(st: State, f: FragId, d: DevId)
    requires Inv(st) && f in st.frags && f.comp in st.comps && d in st.devs && f.index in st.comps[f.comp].unbound
    ensures Inv(Bind(st, f, d)) && st.comps[f.comp].device.None? && st.frags[f].bound.None?
  {
    hide Tree, Lists, Links, FragDevs, Devices;
    BindLists(st, f, d);
    BindLinks(st, f, d);
    BindFragDevs(st, f, d);
    BindDevices(st, f, d);
    TreeFrame(st, Bind(st, f, d));
  }

  lemma CreateTree(st: State, p: DevId, fragDriver: bool, outgoing: bool, ctx: B.Context)
    requires Tree(st) && p in st.devs
    ensures Tree(Create(st, p, fragDriver, outgoing, ctx)) && st.nextDev !in st.devs
  {
    var st', x := Create(st, p, fragDriver, outgoing, ctx), st.nextDev;
    Ages(st);
    assert TreeAt(st, p);
    AppendNoDup(st.devs[p].children, x);
    forall e | e in st'.devs ensures TreeAt(st', e) { if e != x { assert TreeAt(st, e); } }
  }

  lemma NoSuchFragDev(st: State, e: DevId)
    requires FragDevs(st) && e !in st.devs
    ensures forall f :: f in st.frags ==> st.frags[f].fragDev != Some(e)
  {
  }

  lemma CreateInv(st: State, p: DevId, fragDriver: bool, outgoing: bool, ctx: B.Context)
    requires Inv(st) && p in st.devs
    ensures Inv(Create(st, p, fragDriver, outgoing, ctx)) && st.nextDev !in st.devs
    ensures forall f :: f in st.frags ==> st.frags[f].fragDev != Some(st.nextDev)
  {
    hide Tree, Lists, Links, FragDevs, Devices;
    var st' := Create(st, p, fragDriver, outgoing, ctx);
    CreateTree(st, p, fragDriver, outgoing, ctx);
    NoSuchFragDev(st, st.nextDev);
    ListsFrame(st, st');
    LinksFrame(st, st');
    FragDevsFrame(st, st');
    DevicesFrame(st, st');
  }

  lemma ArriveFragDevs(st: State, f: FragId, e: DevId)
    requires FragDevs(st) && f in st.frags && e in st.devs && st.devs[e].fragDriver && st.devs[e].parent.Some?
    requires st.frags[f].bound == st.devs[e].parent
    requires forall g :: g in st.frags ==> st.frags[g].fragDev != Some(e)
    ensures FragDevs(Arrive(st, f, e))
  {
  }

  lemma ArriveInv(st: State, f: FragId, e: DevId)
    requires Inv(st) && f in st.frags && e in st.devs && st.devs[e].fragDriver && st.devs[e].parent.Some?
    requires st.frags[f].bound == st.devs[e].parent
    requires forall g :: g in st.frags ==> st.frags[g].fragDev != Some(e)
    ensures Inv(Arrive(st, f, e))
  {
    var st' := Arrive(st, f, e);
    hide Tree, Lists, Links, FragDevs, Devices;
    ArriveFragDevs(st, f, e);
    TreeFrame(st, st');
    ListsFrame(st, st');
    LinksFrame(st, st');
    DevicesFrame(st, st');
  }

  lemma ForgetDevices(st: State, c: CompId)
    requires Devices(st) && c in st.comps
    ensures Devices(Forget(st, c)) && Forget(st, c).comps[c].device.None?
  {
  }

  lemma ForgetFacts(st: State, c: CompId)
    requires c in st.comps
    ensures var st' := Forget(st, c);
            && st'.frags == st.frags && st'.nextDev == st.nextDev && st'.comps.Keys == st.comps.Keys
            && st'.devs.Keys == st.devs.Keys
            && (forall k :: k in st.comps ==>
                  st'.comps[k] == st.comps[k].(device := if k == c then None else st.comps[k].device))
            && (forall d :: d in st.devs ==> st'.devs[d] == st.devs[d].(comp := st'.devs[d].comp))
  {
  }

  lemma ForgetInv(st: State, c: CompId)
    requires Inv(st) && c in st.comps
    ensures Inv(Forget(st, c)) && Forget(st, c).comps[c].device.None?
  {
    var st' := Forget(st, c);
    hide Tree, Lists, Links, FragDevs, Devices, Forget;
    ForgetFacts(st, c);
    ForgetDevices(st, c);
    TreeFrame(st, st');
    ListsFrame(st, st');
    LinksFrame(st, st');
    FragDevsFrame(st, st');
  }

  /** A fragment leaves the bound list and its device's list. */
  ghost function Dropped(st: State, d: DevId, f: FragId): State
    requires f in st.frags && f.comp in st.comps && d in st.devs
  {
    var st1 := Unlist(st, f);
    st1.(devs := st1.devs[d := st1.devs[d].(comp := None, fragments := Erase(st1.devs[d].fragments, f))])
  }

  lemma DroppedLists(st: State, d: DevId, f: FragId)
    requires Lists(st) && f in st.frags && d in st.devs && st.frags[f].bound == Some(d) && st.comps[f.comp].device.None?
    ensures Lists(Dropped(st, d, f))
  {
    var st' := Dropped(st, d, f);
    assert ListsAt(st, f.comp);
    EraseSpec(st.comps[f.comp].bound, f.index);
    AppendNoDup(st.comps[f.comp].unbound, f.index);
    forall c | c in st'.comps ensures ListsAt(st', c) { assert ListsAt(st, c); }
  }

  lemma DroppedLinks(st: State, d: DevId, f: FragId)
    requires Links(st) && f in st.frags && f.comp in st.comps && d in st.devs && st.frags[f].bound == Some(d)
    ensures Links(Dropped(st, d, f))
  {
    EraseSpec(st.devs[d].fragments, f);
  }

  lemma DroppedFragDevs(st: State, d: DevId, f: FragId)
    requires FragDevs(st) && f in st.frags && f.comp in st.comps && d in st.devs
    ensures FragDevs(Dropped(st, d, f))
  {
  }

  lemma DroppedDevices(st: State, d: DevId, f: FragId)
    requires Devices(st) && f in st.frags && f.comp in st.comps && d in st.devs
    ensures Devices(Dropped(st, d, f))
  {
  }

  lemma DroppedTree(st: State, d: DevId, f: FragId)
    requires Tree(st) && f in st.frags && f.comp in st.comps && d in st.devs
    ensures Tree(Dropped(st, d, f))
  {
  }

  lemma ReleaseIs(st: State, d: DevId, f: FragId)
    requires f in st.frags && f.comp in st.comps && d in st.devs && st.frags[f].bound == Some(d)
    ensures Release(st, d, f) == Done(Dropped(Forget(st, f.comp), d, f))
    ensures var st1 := Forget(st, f.comp); st1.frags == st.frags && d in st1.devs && f.comp in st1.comps
  {
    assert Release(st, d, f).st.devs == Dropped(Forget(st, f.comp), d, f).devs;
  }

  /** Releasing a fragment on its device's list never meets an assertion: it
      forgets the assembled device, unbinds this fragment and no other, and
      keeps the invariant. */
  lemma ReleaseInv(st: State, d: DevId, f: FragId)
    requires Inv(st) && d in st.devs && f in st.devs[d].fragments
    ensures f in st.frags && f.comp in st.comps && st.frags[f].bound == Some(d)
    ensures d in Forget(st, f.comp).devs && f in Forget(st, f.comp).frags && f.comp in Forget(st, f.comp).comps
    ensures Release(st, d, f) == Done(Dropped(Forget(st, f.comp), d, f))
    ensures Inv(Release(st, d, f).st)
  {
    var st1 := Forget(st, f.comp);
    ForgetInv(st, f.comp);
    ReleaseIs(st, d, f);
    hide Tree, Lists, Links, FragDevs, Devices, Release, Dropped, Forget;
    DroppedLists(st1, d, f);
    DroppedLinks(st1, d, f);
    DroppedFragDevs(st1, d, f);
    DroppedDevices(st1, d, f);
    DroppedTree(st1, d, f);
  }

  lemma DetachTree(st: State, d: DevId)
    requires Tree(st) && d in st.devs
    ensures Tree(Detach(st, d))
  {
    var st' := Detach(st, d);
    assert TreeAt(st, d);
    var p := st.devs[d].parent;
    if p.Some? { assert TreeAt(st, p.value); EraseSpec(st.devs[p.value].children, d); }
    forall e | e in st'.devs ensures TreeAt(st', e) { assert TreeAt(st, e); }
  }

  lemma DetachFacts(st: State, d: DevId)
    requires d in st.devs
    ensures var st' := Detach(st, d);
            && st'.comps == st.comps && st'.frags == st.frags && st'.devs.Keys == st.devs.Keys
            && (forall e :: e in st.devs ==>
                  st'.devs[e] == st.devs[e].(parent := if e == d then None
                                                       else st.devs[e].parent, children := st'.devs[e].children))
  {
  }

  lemma DetachInv(st: State, d: DevId)
    requires Inv(st) && d in st.devs
    requires forall f :: f in st.frags ==> st.frags[f].fragDev != Some(d)
    ensures Inv(Detach(st, d))
  {
    var st' := Detach(st, d);
    hide Tree, Lists, Links, FragDevs, Devices, Detach;
    DetachFacts(st, d);
    DetachTree(st, d);
    ListsFrame(st, st');
    LinksFrame(st, st');
    FragDevsFrame(st, st');
    DevicesFrame(st, st');
  }

  lemma AddCompositeInv(st: State, c: CompId, fromIndex: bool, rules: seq<seq<B.Inst>>, ctx: B.Context)
    requires Inv(st) && c !in st.comps
    ensures Inv(AddComposite(st, c, fromIndex, rules, ctx))
  {
    var st' := AddComposite(st, c, fromIndex, rules, ctx);
    NewFragments(st, c, fromIndex, rules, ctx);
    hide Tree, Lists, Links, FragDevs, Devices, AddComposite;
    TreeFrame(st, st');
    AddedLists(st, st', c);
    AddedLinks(st, st', c);
    AddedFragDevs(st, st', c);
    AddedDevices(st, st', c);
  }

  /** `st'` is `st` with a composite of unbound fragments added. */
  ghost predicate Added(st: State, st': State, c: CompId) {
    && c !in st.comps && c in st'.comps && st'.devs == st.devs && st'.nextDev == st.nextDev
    && st'.comps == st.comps[c := st'.comps[c]]
    && st'.comps[c].bound == [] && st'.comps[c].device.None? && NoDup(st'.comps[c].unbound)
    && (forall i: nat :: i in st'.comps[c].unbound <==> i < st'.comps[c].count)
    && (forall i: nat :: FragId(c, i) in st'.frags <==> i < st'.comps[c].count)
    && (forall f :: f in st'.frags && f.comp == c ==> st'.frags[f].bound.None? && st'.frags[f].fragDev.None?)
    && (forall f: FragId :: f.comp != c ==> (f in st'.frags <==> f in st.frags))
    && (forall f :: f in st.frags && f.comp != c ==> st'.frags[f] == st.frags[f])
    && (forall f :: f in st.frags ==> f.comp in st.comps)
  }

  lemma NewFragments(st: State, c: CompId, fromIndex: bool, rules: seq<seq<B.Inst>>, ctx: B.Context)
    requires Lists(st) && c !in st.comps
    ensures Added(st, AddComposite(st, c, fromIndex, rules, ctx), c)
  {
    var st' := AddComposite(st, c, fromIndex, rules, ctx);
    forall i: nat | i < |rules| ensures i in st'.comps[c].unbound { assert st'.comps[c].unbound[i] == i; }
    assert st'.devs == st.devs && st'.comps[c].count == |rules|;
    forall f: FragId | f.comp == c ensures f !in st.frags { }
  }

  lemma AddedLists(st: State, st': State, c: CompId)
    requires Lists(st) && Added(st, st', c)
    ensures Lists(st')
  {
    forall k | k in st'.comps ensures ListsAt(st', k) { if k != c { assert ListsAt(st, k); } }
  }

  lemma AddedLinks(st: State, st': State, c: CompId)
    requires Links(st) && Added(st, st', c)
    ensures Links(st')
  {
  }

  lemma AddedFragDevs(st: State, st': State, c: CompId)
    requires FragDevs(st) && Added(st, st', c)
    ensures FragDevs(st')
  {
  }

  lemma AddedDevices(st: State, st': State, c: CompId)
    requires Devices(st) && Added(st, st', c)
    ensures Devices(st')
  {
  }

  // ----- the operations

  /** Assembling keeps the invariant; its assertion fires exactly on a
      composite that is assembled already. */
  lemma TryAssembleInv(st: State, c: CompId, pl: Placing)
    requires Inv(st) && c in st.comps
    ensures TryAssemble(st, c, pl).Asserts? <==> st.comps[c].device.Some?
    ensures TryAssemble(st, c, pl).Done? ==> Inv(TryAssemble(st, c, pl).st)
  {
    hide Inv;
    if TryAssemble(st, c, pl).Done? {
      var st1 := Consume(st, pl.consumed);
      FlagsInv(st, st1);
      if st.comps[c].unbound == [] { AssembledInv(st1, c); }
    }
  }

  /** Binding a fragment never meets an assertion, that of TryAssemble included. */
  lemma BindFragmentInv(st: State, f: FragId, d: DevId, bindOk: bool, pl: Placing)
    requires Inv(st) && f.comp in st.comps && d in st.devs
    ensures BindFragment(st, f, d, bindOk, pl).Done? && Inv(BindFragment(st, f, d, bindOk, pl).st)
  {
    hide Inv;
    if f.index in st.comps[f.comp].unbound && f in st.frags {
      BindInv(st, f, d);
      TryAssembleInv(Bind(st, f, d), f.comp, pl);
    }
  }

  lemma TryMatchInv(st: State, c: CompId, d: DevId, bindOk: bool, pl: Placing)
    requires Inv(st) && c in st.comps && d in st.devs
    ensures TryMatchBindFragments(st, c, d, bindOk, pl).Done?
    ensures Inv(TryMatchBindFragments(st, c, d, bindOk, pl).st)
  {
    hide Inv, BindFragment;
    var m := FirstMatch(st, c, st.comps[c].unbound, d);
    if m.Some? { BindFragmentInv(st, FragId(c, m.value), d, bindOk, pl); }
  }

  /** A fragment of an assembled composite, bound to `p`, that looks as if it
      were still waiting for a fragment device because the outgoing directory
      of `p` has been handed to a proxy. */
  ghost predicate LooksUnserved(st: State, p: DevId, f: FragId)
    requires p in st.devs
  {
    f in st.frags && f.comp in st.comps && st.frags[f].fragDev.None? && !st.devs[p].outgoing
    && st.comps[f.comp].device.Some?
  }

  /** Adding a device keeps the invariant, except that the assertion of
      TryAssemble fires exactly when a fragment-driver device arrives and the
      first waiting fragment of its parent belongs to an assembled composite. */
  lemma AddDeviceInv(st: State, p: DevId, fragDriver: bool, outgoing: bool, ctx: B.Context, pl: Placing)
    requires Inv(st) && p in st.devs
    ensures var r := AddDevice(st, p, fragDriver, outgoing, ctx, pl);
            && (r.Asserts? <==> fragDriver && FirstFree(st, p, st.devs[p].fragments).Some?
                                && LooksUnserved(st, p, FirstFree(st, p, st.devs[p].fragments).value))
            && (r.Done? ==> Inv(r.st))
  {
    var st1 := Create(st, p, fragDriver, outgoing, ctx);
    CreateInv(st, p, fragDriver, outgoing, ctx);
    SameFree(st, st1, p, st.devs[p].fragments);
    if fragDriver {
      var r := FirstFree(st1, p, st1.devs[p].fragments);
      if r.Some? {
        var f := r.value;
        BoundHere(st1, p, f);
        hide Inv;
        ArriveInv(st1, f, st.nextDev);
        TryAssembleInv(Arrive(st1, f, st.nextDev), f.comp, pl);
      }
    }
  }

  lemma BoundHere(st: State, p: DevId, f: FragId)
    requires Inv(st) && p in st.devs && f in st.devs[p].fragments
    ensures f in st.frags && f.comp in st.comps && st.frags[f].bound == Some(p)
  {
  }

  lemma {:induction false} SameFree(st: State, st': State, p: DevId, list: seq<FragId>)
    requires p in st.devs && p in st'.devs && st'.frags == st.frags && st'.comps == st.comps
    requires st'.devs[p].outgoing == st.devs[p].outgoing
    ensures FirstFree(st', p, list) == FirstFree(st, p, list)
  {
    if list == [] {
    } else {
      SameFree(st, st', p, list[1..]);
    }
  }
}
