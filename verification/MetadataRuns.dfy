/** A reachable state in which a metadata read contradicts the size query. */
module MetadataRuns {
  import opened Common
  import opened Composites
  import opened CompositeSystem
  import opened AssemblySystem
  import R = CompositeRuns
  import opened Metadata

  /** The loop gets through and uses both outgoing directories up. */
  const BOTH := Placing(true, {1, 2})

  /** Composite 0 is assembled as device 3 over devices 1 and 2. */
  lemma TwoFragmentComposite() returns (steps: seq<Step>, st: State)
    ensures Run(Boot(), iset{}, steps, st)
    ensures st.devs.Keys == {0, 1, 2, 3} && st.devs[3].parent.None? && st.devs[3].comp == Some(0)
    ensures 0 in st.comps && st.comps[0].bound == [0, 1] && st.comps[0].device == Some(3)
    ensures st.frags == map[FragId(0, 0) := Frag([], Some(1), None), FragId(0, 1) := Frag([], Some(2), None)]
  {
    hide Run, Apply;
    var st0;
    steps, st0 := Waiting(true);
    var s := AddDeviceStep(0, false, true, BARE, NO);
    var st1 := Create(st0, 0, false, true, BARE);
    assert Apply(st0, iset{}, s) == Done(st1) by { AddsPlain(st0, s, st1); }
    RunAppend(Boot(), iset{}, steps, st0, s);
    steps := steps + [s];
    var f, g := FragId(0, 0), FragId(0, 1);
    var st2 := Binding(st1, f, 1);
    assert Erase([0, 1], 0) == [1] && Erase([1], 1) == [];
    RunAppend(Boot(), iset{}, steps, st1, BindStep(f, 1, true, NO));
    steps := steps + [BindStep(f, 1, true, NO)];
    st := LastBinding(st2, g, 2);
    RunAppend(Boot(), iset{}, steps, st2, BindStep(g, 2, true, BOTH));
    steps := steps + [BindStep(g, 2, true, BOTH)];
  }

  lemma AddsPlain(st: State, s: Step, st': State)
    requires s.AddDeviceStep? && !s.fragDriver && s.parent in st.devs
    requires st' == Create(st, s.parent, false, s.outgoing, s.ctx)
    ensures Enabled(st, iset{}, s) && Apply(st, iset{}, s) == Done(st')
  {
  }

  /** The last fragment is bound to a device with an outgoing directory. */
  lemma LastBinding(st: State, f: FragId, d: nat) returns (st': State)
    requires d in st.devs && f in st.frags && f.comp in st.comps && st.devs[d].outgoing && st.frags[f].bound.None?
    requires st.comps[f.comp].device.None? && st.comps[f.comp].unbound == [f.index] && st.nextDev !in st.devs
    requires AllReady(st, f.comp)
    ensures var s := BindStep(f, d, true, BOTH); Enabled(st, iset{}, s) && Apply(st, iset{}, s) == Done(st')
    ensures st'.devs.Keys == st.devs.Keys + {st.nextDev} && st'.frags == st.frags[f := st.frags[f].(bound := Some(d))]
    ensures st'.devs[st.nextDev].parent.None? && st'.devs[st.nextDev].comp == Some(f.comp)
    ensures f.comp in st'.comps && st'.comps[f.comp].bound == st.comps[f.comp].bound + [f.index]
    ensures st'.comps[f.comp].device == Some(st.nextDev)
  {
    var st1 := Bind(st, f, d);
    assert Erase([f.index], f.index) == [];
    forall i | i in st1.comps[f.comp].bound && FragId(f.comp, i) in st1.frags
      ensures FragmentReady(st1, FragId(f.comp, i))
    {
      if i != f.index { assert i in st.comps[f.comp].bound && FragmentReady(st, FragId(f.comp, i)); }
    }
    assert AllReady(st1, f.comp);
    assert BindFragment(st, f, d, true, BOTH) == TryAssemble(st1, f.comp, BOTH);
    st' := Assembled(Consume(st1, BOTH.consumed), f.comp);
  }

  lemma OwnEntry(st: State, md: Store, d: nat, e: Entry)
    requires R.Inv(st) && d in st.devs && d in md && md[d] == [e]
    ensures Candidates(st, md, d, e.kind) == [e]
  {
    hide R.Inv;
    assert FirstOfKind([e], e.kind) == Some(e);
  }

  /** Two entries behind two fragments: the size is that of the first, and a
      buffer that only has room for the second gets that. */
  lemma TwoEntries(st: State, md: Store, t: nat, c: CompId, b0: nat, b1: nat, e0: Entry, e1: Entry)
    requires R.Inv(st) && t in st.devs && st.devs[t].parent.None? && st.devs[t].comp == Some(c)
    requires c in st.comps && st.comps[c].device == Some(t) && st.comps[c].bound == [0, 1]
    requires FragId(c, 0) in st.frags && FragId(c, 1) in st.frags && b0 in st.devs && b1 in st.devs
    requires st.frags[FragId(c, 0)].bound == Some(b0) && st.frags[FragId(c, 1)].bound == Some(b1)
    requires t !in md && b0 in md && b1 in md && md[b0] == [e0] && md[b1] == [e1]
    requires e0.kind == e1.kind && |e1.data| < |e0.data|
    ensures Get(st, md, t, e0.kind, None) == Found(e0)
    ensures Get(st, md, t, e0.kind, Some(|e1.data|)) == Found(e1)
  {
    hide R.Inv, Get;
    var kind := e0.kind;
    assert Chain(st, t) == [t] by { ParentChain(st, t); }
    assert Own(st, md, t, kind) == None by {
      assert ListOf(md, t) == [] && [t][1..] == [];
      assert Along(md, [], kind) == None;
    }
    var list := st.comps[c].bound;
    hide Candidates;
    OwnEntry(st, md, b0, e0);
    OwnEntry(st, md, b1, e1);
    assert list[1..] == [1] && [1][1..] == [];
    assert BoundTo(st, c, t, 0) == b0 && BoundTo(st, c, t, 1) == b1;
    assert InFragments(st, md, c, t, [], kind) == [];
    assert InFragments(st, md, c, t, [1], kind) == [e1] + [];
    assert InFragments(st, md, c, t, list, kind) == [e0] + ([e1] + []);
    ThroughFragments(st, md, t, kind);
    assert Candidates(st, md, t, kind) == [e0, e1];
    GetFirstFit(st, md, t, kind, None);
    GetFirstFit(st, md, t, kind, Some(|e1.data|));
    assert [e0, e1][1..] == [e1];
  }

  lemma ThroughFragments(st: State, md: Store, t: nat, kind: nat)
    requires R.Inv(st) && t in st.devs && Own(st, md, t, kind).None? && Top(st, t) == t && st.devs[t].comp.Some?
    ensures st.devs[t].comp.value in st.comps
    ensures var c := st.devs[t].comp.value;
            st.comps[c].device == Some(t)
            && Candidates(st, md, t, kind) == InFragments(st, md, c, t, st.comps[c].bound, kind)
  {
    TopComposite(st, t);
  }

  /** A run and a store for which the size query reports 2 bytes and a read
      with room for one succeeds, with the other fragment's entry. */
  lemma SmallReadSucceeds() returns (steps: seq<Step>, st: State, md: Store)
    ensures Run(Boot(), iset{}, steps, st) && R.Inv(st) && 3 in st.devs
    ensures Get(st, md, 3, 7, None) == Found(Entry(7, [0, 0]))
    ensures Get(st, md, 3, 7, Some(1)) == Found(Entry(7, [1]))
  {
    hide Run, R.Inv, Get;
    steps, st := TwoFragmentComposite();
    ReachableGood(iset{}, steps, st);
    var e0, e1 := Entry(7, [0, 0]), Entry(7, [1]);
    md := map[1 := [e0], 2 := [e1]];
    TwoEntries(st, md, 3, 0, 1, 2, e0, e1);
  }
}
