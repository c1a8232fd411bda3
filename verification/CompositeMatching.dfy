/** Unambiguous matching: what keeps the fragments of a composite on distinct
    devices. */
module CompositeMatching {
  import opened Common
  import opened Composites
  import opened CompositeRuns
  import opened CompositeOrder
  import opened CompositeRemoval
  import B = BindProgram

  /** Fragment `i` of `c` accepts the device that fragment `j` is bound to. */
  ghost predicate Accepts(st: State, c: CompId, i: nat, j: nat) {
    && FragId(c, i) in st.frags && FragId(c, j) in st.frags
    && st.frags[FragId(c, j)].bound.Some? && st.frags[FragId(c, j)].bound.value in st.devs
    && Matches(st, FragId(c, i), st.frags[FragId(c, j)].bound.value)
  }

  /** Every bound fragment accepts its own device and rejects every device
      bound after it. */
  ghost predicate Exclusive(st: State, c: CompId)
    requires c in st.comps
  {
    && (forall i :: i in st.comps[c].bound ==> Accepts(st, c, i, i))
    && (forall i, j :: Before(st.comps[c].bound, i, j) ==> !Accepts(st, c, i, j))
  }

  /** So no device is bound to two fragments of such a composite. */
  lemma ExclusiveOnce(st: State, c: CompId, i: nat, j: nat)
    requires c in st.comps && Exclusive(st, c) && i in st.comps[c].bound && j in st.comps[c].bound && i != j
    ensures st.frags[FragId(c, i)].bound != st.frags[FragId(c, j)].bound
  {
    var bound := st.comps[c].bound;
    var a :| 0 <= a < |bound| && bound[a] == i;
    var b :| 0 <= b < |bound| && bound[b] == j;
    if a < b { assert Before(bound, i, j); } else { assert Before(bound, j, i); }
  }

  // ----- what other operations do to a composite's bound list

  /** From `st` to `st'` the bound list of `c` has at most lost elements, and
      programs and properties are as they were. */
  ghost predicate Evolves(st: State, st': State, c: CompId) {
    && c in st.comps && c in st'.comps
    && (forall d :: d in st.devs ==> d in st'.devs && st'.devs[d].ctx == st.devs[d].ctx)
    && (forall f :: f in st.frags ==> f in st'.frags && st'.frags[f].rules == st.frags[f].rules)
    && (forall i :: i in st'.comps[c].bound ==>
          i in st.comps[c].bound && FragId(c, i) in st.frags && FragId(c, i) in st'.frags
          && st'.frags[FragId(c, i)].bound == st.frags[FragId(c, i)].bound)
    && (forall i, j :: Before(st'.comps[c].bound, i, j) ==> Before(st.comps[c].bound, i, j))
  }

  lemma EvolvesTrans(st: State, st1: State, st2: State, c: CompId)
    requires Evolves(st, st1, c) && Evolves(st1, st2, c)
    ensures Evolves(st, st2, c)
  {
  }

  lemma EvolvesExclusive(st: State, st': State, c: CompId)
    requires Evolves(st, st', c) && Exclusive(st, c)
    ensures Exclusive(st', c)
  {
  }

  /** A change that leaves the bound list of `c` and its fragments alone. */
  lemma EvolvesSame(st: State, st': State, c: CompId)
    requires Inv(st) && c in st.comps && c in st'.comps && st'.comps[c].bound == st.comps[c].bound
    requires forall d :: d in st.devs ==> d in st'.devs && st'.devs[d].ctx == st.devs[d].ctx
    requires forall f :: f in st.frags ==> f in st'.frags && st'.frags[f].rules == st.frags[f].rules
    requires forall f :: f in st.frags && f.comp == c ==> st'.frags[f].bound == st.frags[f].bound
    ensures Evolves(st, st', c)
  {
  }

  /** A change that takes one index off the bound list of `c`. */
  lemma EvolvesErase(st: State, st': State, c: CompId, x: nat)
    requires Inv(st) && c in st.comps && c in st'.comps && st'.comps[c].bound == Erase(st.comps[c].bound, x)
    requires forall d :: d in st.devs ==> d in st'.devs && st'.devs[d].ctx == st.devs[d].ctx
    requires forall f :: f in st.frags ==> f in st'.frags && st'.frags[f].rules == st.frags[f].rules
    requires forall f :: f in st.frags && f != FragId(c, x) ==> st'.frags[f].bound == st.frags[f].bound
    ensures Evolves(st, st', c)
  {
    BoundNoDup(st, c);
    EraseSpec(st.comps[c].bound, x);
    forall i | i in st'.comps[c].bound
      ensures i in st.comps[c].bound && FragId(c, i) in st.frags
    {
      ListedBound(st, c, i);
    }
    hide Inv, Erase;
    forall i, j | Before(st'.comps[c].bound, i, j)
      ensures Before(st.comps[c].bound, i, j)
    {
      EraseBefore(st.comps[c].bound, x, i, j);
    }
  }

  lemma ReleaseEvolves(st: State, d: DevId, f: FragId, c: CompId)
    requires Inv(st) && d in st.devs && f in st.devs[d].fragments && c in st.comps
    requires f in st.frags && f.comp in st.comps && Release(st, d, f).Done?
    ensures Evolves(st, Release(st, d, f).st, c)
  {
    hide Inv, Release, Evolves;
    BoundHere(st, d, f);
    var st' := Release(st, d, f).st;
    ReleaseShrinks(st, d, f);
    ReleaseComps(st, d, f);
    if c != f.comp {
      EvolvesSame(st, st', c);
    } else {
      EvolvesErase(st, st', c, f.index);
    }
  }

  lemma {:induction false} DisbandEvolves(st: State, k: CompId, list: seq<nat>, c: CompId)
    requires Inv(st) && Orderly(st) && k in st.comps && Remaining(st, k, list) && c in st.comps
    ensures Disband(st, k, list).Done? && Evolves(st, Disband(st, k, list).st, c)
    decreases |list|
  {
    hide Inv, Orderly, Evolves, Release, Remaining;
    if list == [] {
      EvolvesSame(st, Forget(st, k), c);
    } else {
      var st1 := DisbandOne(st, k, list);
      if st1 == st {
        EvolvesSame(st, st1, c);
      } else {
        var b :| Released(st, b, FragId(k, list[0]), st1);
        ReleaseEvolves(st, b, FragId(k, list[0]), c);
      }
      hide Disband, Disbanded;
      DisbandEvolves(st1, k, list[1..], c);
      EvolvesTrans(st, st1, Disband(st1, k, list[1..]).st, c);
    }
  }

  lemma TryAssembleEvolves(st: State, k: CompId, pl: Placing, c: CompId)
    requires Inv(st) && k in st.comps && c in st.comps && TryAssemble(st, k, pl).Done?
    ensures Evolves(st, TryAssemble(st, k, pl).st, c)
  {
    hide Inv;
    NoSuchDevice(st);
    EvolvesSame(st, TryAssemble(st, k, pl).st, c);
  }

  lemma BindEvolves(st: State, f: FragId, d: DevId, c: CompId)
    requires Inv(st) && f in st.frags && f.comp in st.comps && d in st.devs && c in st.comps && c != f.comp
    ensures Evolves(st, Bind(st, f, d), c)
  {
    hide Inv;
    EvolvesSame(st, Bind(st, f, d), c);
  }

  /** Binding a fragment of another composite. */
  lemma BindOtherEvolves(st: State, f: FragId, d: DevId, bindOk: bool, pl: Placing, c: CompId)
    requires Inv(st) && f.comp in st.comps && d in st.devs && c in st.comps && c != f.comp
    ensures BindFragment(st, f, d, bindOk, pl).Done? && Evolves(st, BindFragment(st, f, d, bindOk, pl).st, c)
  {
    hide Inv, Evolves;
    BindFragmentInv(st, f, d, bindOk, pl);
    EvolvesSame(st, st, c);
    if f.index in st.comps[f.comp].unbound && f in st.frags {
      BindInv(st, f, d);
      BindEvolves(st, f, d, c);
      if TryAssemble(Bind(st, f, d), f.comp, pl).Done? {
        TryAssembleEvolves(Bind(st, f, d), f.comp, pl, c);
        EvolvesTrans(st, Bind(st, f, d), TryAssemble(Bind(st, f, d), f.comp, pl).st, c);
      }
    }
  }

  lemma AddDeviceEvolves(st: State, p: DevId, fragDriver: bool, outgoing: bool, ctx: B.Context, pl: Placing, c: CompId)
    requires Inv(st) && p in st.devs && c in st.comps && AddDevice(st, p, fragDriver, outgoing, ctx, pl).Done?
    ensures Evolves(st, AddDevice(st, p, fragDriver, outgoing, ctx, pl).st, c)
  {
    hide Inv, Evolves;
    var st1 := Create(st, p, fragDriver, outgoing, ctx);
    CreateInv(st, p, fragDriver, outgoing, ctx);
    EvolvesSame(st, st1, c);
    var r := FirstFree(st1, p, st1.devs[p].fragments);
    if fragDriver && r.Some? {
      BoundHere(st1, p, r.value);
      ArriveInv(st1, r.value, st.nextDev);
      var st2 := Arrive(st1, r.value, st.nextDev);
      EvolvesSame(st1, st2, c);
      EvolvesTrans(st, st1, st2, c);
      TryAssembleEvolves(st2, r.value.comp, pl, c);
      EvolvesTrans(st, st2, TryAssemble(st2, r.value.comp, pl).st, c);
    }
  }

  lemma RemoveEvolves(st: State, d: DevId, c: CompId)
    requires Inv(st) && Orderly(st) && d in st.devs && c in st.comps && RemoveDevice(st, d).Done?
    ensures Evolves(st, RemoveDevice(st, d).st, c)
  {
    hide Inv, Orderly, Evolves, Disband, Release, Detach, Serving, Forget;
    EvolvesSame(st, st, c);
    if st.devs[d].live {
      var st1 := Die(st, d);
      DieKeeps(st, d);
      EvolvesSame(st, st1, c);
      LeaveComposite(st1, d);
      LeaveEvolves(st1, d, c);
      var st2 := Leave(st1, d).st;
      EvolvesTrans(st, st1, st2, c);
      assert Shrunk(st1, st2);
      assert d in st2.devs;
      DropInv(st2, d);
      DropEvolves(st2, d, c);
      var st3 := DropFragmentDevice(st2, d).st;
      EvolvesTrans(st, st2, st3, c);
      DetachFacts(st3, d);
      EvolvesSame(st3, Detach(st3, d), c);
      EvolvesTrans(st, st3, Detach(st3, d), c);
    }
  }

  lemma LeaveEvolves(st: State, d: DevId, c: CompId)
    requires Inv(st) && Orderly(st) && d in st.devs && c in st.comps
    ensures Leave(st, d).Done? && Evolves(st, Leave(st, d).st, c)
  {
    hide Inv, Orderly, Evolves, Disband;
    EvolvesSame(st, st, c);
    if st.devs[d].comp.Some? {
      MarkedDevice(st, d);
      DisbandEvolves(st, st.devs[d].comp.value, st.comps[st.devs[d].comp.value].bound, c);
    }
  }

  lemma DropEvolves(st: State, e: DevId, c: CompId)
    requires Inv(st) && e in st.devs && c in st.comps && DropFragmentDevice(st, e).Done?
    ensures Evolves(st, DropFragmentDevice(st, e).st, c)
  {
    hide Inv, Evolves, Release;
    EvolvesSame(st, st, c);
    if st.devs[e].fragDriver && st.devs[e].parent.Some? && st.devs[e].parent.value in st.devs {
      var p := st.devs[e].parent.value;
      var r := FirstOfDevice(st, st.devs[p].fragments, e);
      BoundHere(st, p, r.value);
      ReleaseEvolves(st, p, r.value, c);
    }
  }
}
