/** Whole runs of the fragment graph: devices and composites come, are matched,
    assembled, disassembled and go, in any order. */
module CompositeSystem {
  import opened Common
  import opened Composites
  import opened CompositeRuns
  import opened CompositeOrder
  import opened CompositeRemoval
  import opened CompositeMatching
  import B = BindProgram

  datatype Step =
    | AddDeviceStep(parent: DevId, fragDriver: bool, outgoing: bool, ctx: B.Context, pl: Placing)
    | AddCompositeStep(c: CompId, fromIndex: bool, rules: seq<seq<B.Inst>>, ctx: B.Context)
    | MatchStep(c: CompId, d: DevId, bindOk: bool, pl: Placing)
    | BindStep(f: FragId, d: DevId, bindOk: bool, pl: Placing)
    | RemoveStep(d: DevId)
    | ConsumeStep(ds: set<DevId>)

  /** A step names existing devices and composites. Composites in `matched`
      are bound by matching only; the others only by an index chosen
      elsewhere, which may offer a device to a composite any number of times. */
  ghost predicate Enabled(st: State, matched: iset<CompId>, s: Step) {
    match s
    case AddDeviceStep(p, _, _, _, _) => p in st.devs
    case AddCompositeStep(c, _, _, _) => c !in st.comps
    case MatchStep(c, d, _, _) => c in st.comps && c in matched && d in st.devs
    case BindStep(f, d, _, _) => f.comp in st.comps && f.comp !in matched && d in st.devs
    case RemoveStep(d) => d in st.devs
    case ConsumeStep(_) => true
  }

  ghost function Apply(st: State, matched: iset<CompId>, s: Step): Outcome
    requires Enabled(st, matched, s)
  {
    match s
    case AddDeviceStep(p, fragDriver, outgoing, ctx, pl) => AddDevice(st, p, fragDriver, outgoing, ctx, pl)
    case AddCompositeStep(c, fromIndex, rules, ctx) => Done(AddComposite(st, c, fromIndex, rules, ctx))
    case MatchStep(c, d, bindOk, pl) => TryMatchBindFragments(st, c, d, bindOk, pl)
    case BindStep(f, d, bindOk, pl) => BindFragment(st, f, d, bindOk, pl)
    case RemoveStep(d) => RemoveDevice(st, d)
    case ConsumeStep(ds) => Done(Consume(st, ds))
  }

  ghost predicate Good(st: State, matched: iset<CompId>) {
    Inv(st) && Orderly(st) && forall c :: c in st.comps && c in matched ==> Exclusive(st, c)
  }

  /** The two ways a ZX_ASSERT can fire: a fragment-driver device arrives at a
      parent whose first waiting fragment is already part of an assembled
      composite, or one that no fragment was given is removed. */
  ghost predicate Fatal(st: State, s: Step) {
    || (s.AddDeviceStep? && s.parent in st.devs && s.fragDriver
        && FirstFree(st, s.parent, st.devs[s.parent].fragments).Some?
        && LooksUnserved(st, s.parent, FirstFree(st, s.parent, st.devs[s.parent].fragments).value))
    || (s.RemoveStep? && s.d in st.devs && st.devs[s.d].live && st.devs[s.d].fragDriver
        && st.devs[s.d].parent.Some? && !Serving(st, s.d))
  }

  // ----- matching

  lemma MatchExclusive(st: State, c: CompId, d: DevId, i: nat)
    requires Inv(st) && c in st.comps && d in st.devs && Exclusive(st, c) && i in st.comps[c].unbound
    requires FragId(c, i) in st.frags && Matches(st, FragId(c, i), d)
    requires forall k :: k in st.comps[c].bound && FragId(c, k) in st.frags ==> !Matches(st, FragId(c, k), d)
    ensures Exclusive(Bind(st, FragId(c, i), d), c)
  {
    hide Inv, Matches;
    var st' := Bind(st, FragId(c, i), d);
    var bound, bound' := st.comps[c].bound, st'.comps[c].bound;
    assert bound' == bound + [i];
    BindInv(st, FragId(c, i), d);
    forall k | k in bound ensures k != i && FragId(c, k) in st.frags { ListedBound(st, c, k); }
    forall k, j ensures k in bound && j in bound ==>
      Accepts(st', c, k, j) == Accepts(st, c, k, j) { SameMatch(st, st', c, k, j); }
    SameMatch(st, st', c, i, i);
    forall k, j | Before(bound', k, j) ensures !Accepts(st', c, k, j) {
      AppendBefore(bound, i, k, j);
      BeforeIn(bound', k, j);
      SameMatch(st, st', c, k, j);
    }
  }

  lemma SameMatch(st: State, st': State, c: CompId, k: nat, j: nat)
    requires forall d :: d in st.devs ==> d in st'.devs && st'.devs[d].ctx == st.devs[d].ctx
    requires forall f :: f in st.frags ==> f in st'.frags && st'.frags[f].rules == st.frags[f].rules
    ensures forall d :: d in st.devs && FragId(c, k) in st.frags ==>
              Matches(st', FragId(c, k), d) == Matches(st, FragId(c, k), d)
  {
  }

  lemma TryAssembleComps(st: State, c: CompId, pl: Placing)
    requires c in st.comps && TryAssemble(st, c, pl).Done?
    ensures TryAssemble(st, c, pl).st.comps.Keys == st.comps.Keys
  {
  }

  lemma MatchGood(st: State, matched: iset<CompId>, c: CompId, d: DevId, bindOk: bool, pl: Placing)
    requires Good(st, matched) && c in st.comps && c in matched && d in st.devs
    ensures var r := TryMatchBindFragments(st, c, d, bindOk, pl); r.Done? && Good(r.st, matched)
  {
    hide Inv, Orderly, Exclusive, FirstMatch, Matches;
    var r := TryMatchBindFragments(st, c, d, bindOk, pl);
    TryMatchInv(st, c, d, bindOk, pl);
    var m := FirstMatch(st, c, st.comps[c].unbound, d);
    if !st.comps[c].fromIndex && FirstMatch(st, c, st.comps[c].bound, d).None? && m.Some? {
      var f := FragId(c, m.value);
      BindInv(st, f, d);
      MatchExclusive(st, c, d, m.value);
      BindOrderly(st, f, d);
      var st1 := Bind(st, f, d);
      TryAssembleInv(st1, c, pl);
      TryAssembleOrderly(st1, c, pl);
      TryAssembleComps(st1, c, pl);
      TryAssembleEvolves(st1, c, pl, c);
      hide Evolves;
      EvolvesExclusive(st1, TryAssemble(st1, c, pl).st, c);
      forall k | k in st.comps && k in matched && k != c ensures k in r.st.comps && Exclusive(r.st, k) {
        BindOtherEvolves(st, f, d, bindOk, pl, k);
        EvolvesIn(st, r.st, k);
        EvolvesExclusive(st, r.st, k);
      }
    }
  }

  lemma EvolvesIn(st: State, st': State, c: CompId)
    requires Evolves(st, st', c)
    ensures c in st.comps && c in st'.comps
  {
  }

  lemma BindGood(st: State, matched: iset<CompId>, f: FragId, d: DevId, bindOk: bool, pl: Placing)
    requires Good(st, matched) && Enabled(st, matched, BindStep(f, d, bindOk, pl))
    ensures var r := BindFragment(st, f, d, bindOk, pl); r.Done? && Good(r.st, matched)
  {
    hide Inv, Orderly, Exclusive, Evolves, BindFragment;
    var r := BindFragment(st, f, d, bindOk, pl);
    BindFragmentInv(st, f, d, bindOk, pl);
    BindFragmentOrderly(st, f, d, bindOk, pl);
    forall k | k in st.comps && k in matched ensures k in r.st.comps && Exclusive(r.st, k) {
      BindOtherEvolves(st, f, d, bindOk, pl, k);
      EvolvesIn(st, r.st, k);
      EvolvesExclusive(st, r.st, k);
    }
  }

  lemma AddDeviceGood(st: State, matched: iset<CompId>, p: DevId, fragDriver: bool, outgoing: bool, ctx: B.Context,
                      pl: Placing)
    requires Good(st, matched) && p in st.devs
    ensures var r := AddDevice(st, p, fragDriver, outgoing, ctx, pl);
            && (r.Asserts? <==> Fatal(st, AddDeviceStep(p, fragDriver, outgoing, ctx, pl)))
            && (r.Done? ==> Good(r.st, matched) && r.st.comps.Keys == st.comps.Keys)
  {
    hide Inv, Orderly, Exclusive, Evolves, FirstFree;
    var r := AddDevice(st, p, fragDriver, outgoing, ctx, pl);
    AddDeviceInv(st, p, fragDriver, outgoing, ctx, pl);
    if r.Done? {
      AddDeviceOrderly(st, p, fragDriver, outgoing, ctx, pl);
      forall k | k in st.comps && k in matched ensures Exclusive(r.st, k) {
        AddDeviceEvolves(st, p, fragDriver, outgoing, ctx, pl, k);
        EvolvesExclusive(st, r.st, k);
      }
    }
  }

  lemma RemoveGood(st: State, matched: iset<CompId>, d: DevId)
    requires Good(st, matched) && d in st.devs
    ensures var r := RemoveDevice(st, d);
            && (r.Asserts? <==> Fatal(st, RemoveStep(d)))
            && (r.Done? ==> Good(r.st, matched))
  {
    hide Inv, Orderly, Exclusive, Evolves, Serving, RemoveDevice;
    var r := RemoveDevice(st, d);
    RemoveDeviceInv(st, d);
    if r.Done? {
      RemoveComps(st, d);
      forall k | k in st.comps && k in matched ensures k in r.st.comps && Exclusive(r.st, k) {
        RemoveEvolves(st, d, k);
        EvolvesIn(st, r.st, k);
        EvolvesExclusive(st, r.st, k);
      }
    }
  }

  lemma RemoveComps(st: State, d: DevId)
    requires Inv(st) && Orderly(st) && d in st.devs && RemoveDevice(st, d).Done?
    ensures RemoveDevice(st, d).st.comps.Keys <= st.comps.Keys
  {
    hide Inv, Orderly, Serving, Release, Remaining;
    if st.devs[d].live {
      var st1 := Die(st, d);
      DieKeeps(st, d);
      var k := st1.devs[d].comp;
      var st2 := st1;
      if k.Some? {
        MarkedDevice(st1, d);
        DisbandInv(st1, k.value, st1.comps[k.value].bound);
        st2 := Disband(st1, k.value, st1.comps[k.value].bound).st;
      }
      hide Disband;
      DropComps(st2, d);
    }
  }

  lemma DropComps(st: State, e: DevId)
    requires Inv(st) && e in st.devs && DropFragmentDevice(st, e).Done?
    ensures DropFragmentDevice(st, e).st.comps.Keys == st.comps.Keys
  {
    hide Inv, Release;
    if st.devs[e].fragDriver && st.devs[e].parent.Some? && st.devs[e].parent.value in st.devs {
      var p := st.devs[e].parent.value;
      var r := FirstOfDevice(st, st.devs[p].fragments, e);
      BoundHere(st, p, r.value);
      ReleaseComps(st, p, r.value);
    }
  }

  lemma AddCompositeGood(st: State, matched: iset<CompId>, c: CompId, fromIndex: bool, rules: seq<seq<B.Inst>>,
                         ctx: B.Context)
    requires Good(st, matched) && c !in st.comps
    ensures Good(AddComposite(st, c, fromIndex, rules, ctx), matched)
  {
    var st' := AddComposite(st, c, fromIndex, rules, ctx);
    AddCompositeInv(st, c, fromIndex, rules, ctx);
    NewFragments(st, c, fromIndex, rules, ctx);
    hide Inv, Orderly, Exclusive, Evolves, AddComposite;
    assert Added(st, st', c);
    AddedOrderly(st, st', c);
    FreshExclusive(st', c);
    forall k | k in st.comps && k in matched ensures Exclusive(st', k) {
      AddedEvolves(st, st', c, k);
      EvolvesExclusive(st, st', k);
    }
  }

  lemma FreshExclusive(st: State, c: CompId)
    requires c in st.comps && st.comps[c].bound == []
    ensures Exclusive(st, c)
  {
  }

  lemma AddedEvolves(st: State, st': State, c: CompId, k: CompId)
    requires Inv(st) && Added(st, st', c) && k in st.comps
    ensures Evolves(st, st', k)
  {
    hide Inv, Evolves;
    EvolvesSame(st, st', k);
  }

  lemma ConsumeGood(st: State, matched: iset<CompId>, ds: set<DevId>)
    requires Good(st, matched)
    ensures Good(Consume(st, ds), matched)
  {
    var st' := Consume(st, ds);
    hide Inv, Orderly, Exclusive, Evolves;
    FlagsInv(st, st');
    OrderlyFrame(st, st');
    forall k | k in st.comps && k in matched ensures Exclusive(st', k) {
      EvolvesSame(st, st', k);
      EvolvesExclusive(st, st', k);
    }
  }

  /** Every step keeps the partition of fragments, their links and unambiguous
      matching; an assertion fires exactly on the fatal steps. */
  lemma StepGood(st: State, matched: iset<CompId>, s: Step)
    requires Good(st, matched) && Enabled(st, matched, s)
    ensures Apply(st, matched, s).Asserts? <==> Fatal(st, s)
    ensures Apply(st, matched, s).Done? ==> Good(Apply(st, matched, s).st, matched)
  {
    hide Good, AddDevice, AddComposite, TryMatchBindFragments, BindFragment, RemoveDevice, Consume, FirstFree, Serving;
    match s
    case AddDeviceStep(p, fragDriver, outgoing, ctx, pl) =>
      AddDeviceGood(st, matched, p, fragDriver, outgoing, ctx, pl);
    case AddCompositeStep(c, fromIndex, rules, ctx) => AddCompositeGood(st, matched, c, fromIndex, rules, ctx);
    case MatchStep(c, d, bindOk, pl) => MatchGood(st, matched, c, d, bindOk, pl);
    case BindStep(f, d, bindOk, pl) => BindGood(st, matched, f, d, bindOk, pl);
    case RemoveStep(d) => RemoveGood(st, matched, d);
    case ConsumeStep(ds) => ConsumeGood(st, matched, ds);
  }

  // ----- runs

  /** The state before any composite or child device exists. */
  ghost function Boot(): State {
    State(map[0 := Dev(None, [], [], None, false, false, true, B.Context([], 0, 0))], map[], map[], 1)
  }

  /** `steps` lead from `st` to `st'` without an assertion firing. */
  ghost predicate Run(st: State, matched: iset<CompId>, steps: seq<Step>, st': State)
    decreases |steps|
  {
    if steps == [] then st' == st
    else
      && Enabled(st, matched, steps[0])
      && Apply(st, matched, steps[0]).Done?
      && Run(Apply(st, matched, steps[0]).st, matched, steps[1..], st')
  }

  lemma BootGood(matched: iset<CompId>)
    ensures Good(Boot(), matched)
  {
  }

  lemma {:induction false} RunGood(st: State, matched: iset<CompId>, steps: seq<Step>, st': State)
    requires Good(st, matched) && Run(st, matched, steps, st')
    ensures Good(st', matched)
    decreases |steps|
  {
    if steps == [] {
    } else {
      hide Good, Apply;
      StepGood(st, matched, steps[0]);
      RunGood(Apply(st, matched, steps[0]).st, matched, steps[1..], st');
    }
  }

  /** In every reachable state: the lists of each composite partition its
      indexes, a fragment is bound exactly when it is on the bound list and
      then also on its device's list, an assembled composite has no unbound
      fragment, a device lists a composite's fragments in the composite's own
      order, and a matched composite has no two fragments on one device. */
  lemma Reachable(matched: iset<CompId>, steps: seq<Step>, st: State, c: CompId, i: nat)
    requires Run(Boot(), matched, steps, st) && c in st.comps
    ensures NoDup(st.comps[c].unbound) && NoDup(st.comps[c].bound)
    ensures i < st.comps[c].count <==> (i in st.comps[c].unbound || i in st.comps[c].bound)
    ensures !(i in st.comps[c].unbound && i in st.comps[c].bound)
    ensures i < st.comps[c].count ==>
              && FragId(c, i) in st.frags
              && (i in st.comps[c].bound <==> st.frags[FragId(c, i)].bound.Some?)
              && (forall d :: d in st.devs ==>
                    (st.frags[FragId(c, i)].bound == Some(d) <==> FragId(c, i) in st.devs[d].fragments))
    ensures st.comps[c].device.Some? ==> st.comps[c].unbound == []
    ensures c in matched ==> Exclusive(st, c)
    ensures forall j :: i in st.comps[c].bound && j in st.comps[c].bound && i != j && c in matched ==>
              FragId(c, i) in st.frags && FragId(c, j) in st.frags
              && st.frags[FragId(c, i)].bound != st.frags[FragId(c, j)].bound
    ensures forall d, j: nat :: d in st.devs && Before(st.devs[d].fragments, FragId(c, i), FragId(c, j)) ==>
              Before(st.comps[c].bound, i, j)
  {
    hide Before, Exclusive;
    BootGood(matched);
    RunGood(Boot(), matched, steps, st);
    assert ListsAt(st, c);
    if c in matched {
      forall j | i in st.comps[c].bound && j in st.comps[c].bound && i != j
        ensures FragId(c, i) in st.frags && FragId(c, j) in st.frags
        ensures st.frags[FragId(c, i)].bound != st.frags[FragId(c, j)].bound
      {
        ExclusiveOnce(st, c, i, j);
      }
    }
  }

  // ----- what does not hold

  const ALWAYS: seq<B.Inst> := [B.Inst(0x100_0000, 0)]
  const BARE := B.Context([], 0, 0)

  lemma AlwaysMatches(ctx: B.Context)
    ensures B.Eval(ctx, ALWAYS)
  {
  }

  /** Device 1 has an outgoing directory and composite 0 waits for one fragment. */
  lemma OneComposite(fragDriver: bool) returns (steps: seq<Step>, st: State)
    ensures Run(Boot(), iset{0, 1}, steps, st)
    ensures st.devs.Keys == {0, 1} && st.nextDev == 2 && st.comps == map[0 := Comp(false, 1, [0], [], None, BARE)]
    ensures st.devs[1] == Dev(Some(0), [], [], None, fragDriver, true, true, BARE)
    ensures st.frags == map[FragId(0, 0) := Frag(ALWAYS, None, None)]
  {
    var m := iset{0, 1};
    var s0, s1 := AddDeviceStep(0, fragDriver, true, BARE, Placing(true, {})),
    AddCompositeStep(0, false, [ALWAYS], BARE);
    var st1 := Apply(Boot(), m, s0).st;
    st := Apply(st1, m, s1).st;
    assert seq(1, i => i) == [0];
    assert st.comps[0] == Comp(false, 1, [0], [], None, BARE);
    assert st.frags == map[FragId(0, 0) := Frag(ALWAYS, None, None)];
    steps := [s0, s1];
    assert steps[1..] == [s1] && [s1][1..] == [] && Run(st1, m, [s1], st);
  }

  /** Composite 0 is assembled over device 1 as device 2. */
  lemma AssembledComposite(fragDriver: bool) returns (steps: seq<Step>, st: State)
    ensures Run(Boot(), iset{0, 1}, steps, st)
    ensures st.devs.Keys == {0, 1, 2} && st.nextDev == 3 && st.comps == map[0 := Comp(false, 1, [], [0], Some(2), BARE)]
    ensures st.devs[1] == Dev(Some(0), [], [FragId(0, 0)], None, fragDriver, false, true, BARE)
    ensures st.devs[2] == Dev(None, [], [], Some(0), false, false, true, BARE)
    ensures st.frags == map[FragId(0, 0) := Frag(ALWAYS, Some(1), None)]
  {
    hide Run;
    var m, pl := iset{0, 1}, Placing(true, {1});
    var st2;
    steps, st2 := OneComposite(fragDriver);
    var s2 := MatchStep(0, 1, true, pl);
    AlwaysMatches(BARE.(autobind := 1));
    assert FirstMatch(st2, 0, [0], 1) == Some(0);
    var b := Bind(st2, FragId(0, 0), 1);
    assert b.comps[0] == Comp(false, 1, [], [0], None, BARE) && AllReady(b, 0);
    assert Apply(st2, m, s2) == TryAssemble(b, 0, pl);
    st := Assembled(Consume(b, {1}), 0);
    RunAppend(Boot(), m, steps, st2, s2);
    steps := steps + [s2];
  }

  /** And composite 1 waits for one fragment. */
  lemma TwoComposites() returns (steps: seq<Step>, st: State)
    ensures Run(Boot(), iset{0, 1}, steps, st)
    ensures st.devs.Keys == {0, 1, 2} && st.comps.Keys == {0, 1}
    ensures st.frags.Keys == {FragId(0, 0), FragId(1, 0)} && st.nextDev == 3
    ensures st.devs[1] == Dev(Some(0), [], [FragId(0, 0)], None, false, false, true, BARE)
    ensures st.devs[2] == Dev(None, [], [], Some(0), false, false, true, BARE)
    ensures st.comps[0] == Comp(false, 1, [], [0], Some(2), BARE) && st.comps[1] == Comp(false, 1, [0], [], None, BARE)
    ensures st.frags[FragId(0, 0)] == Frag(ALWAYS, Some(1), None) && st.frags[FragId(1, 0)] == Frag(ALWAYS, None, None)
  {
    hide Run;
    var st3;
    steps, st3 := AssembledComposite(false);
    var s3 := AddCompositeStep(1, false, [ALWAYS], BARE);
    st := AddComposite(st3, 1, false, [ALWAYS], BARE);
    assert seq(1, i => i) == [0];
    RunAppend(Boot(), iset{0, 1}, steps, st3, s3);
    steps := steps + [s3];
  }

  lemma {:induction false} RunAppend(st: State, matched: iset<CompId>, steps: seq<Step>, st1: State, s: Step)
    requires Run(st, matched, steps, st1) && Enabled(st1, matched, s) && Apply(st1, matched, s).Done?
    ensures Run(st, matched, steps + [s], Apply(st1, matched, s).st)
    decreases |steps|
  {
    hide Apply;
    var all := steps + [s];
    if steps == [] {
      assert all[0] == s && all[1..] == [];
    } else {
      assert all[0] == steps[0] && all[1..] == steps[1..] + [s];
      RunAppend(Apply(st, matched, steps[0]).st, matched, steps[1..], st1, s);
    }
  }

  /** "A fragment device can arrive at any time" is false: when device 1, whose
      directory the first assembly consumed, joins a second composite, the
      arrival of its fragment device is credited to the first and asserts. */
  lemma ArrivalCanAssert() returns (steps: seq<Step>, st: State, s: Step)
    ensures Run(Boot(), iset{0, 1}, steps, st) && Enabled(st, iset{0, 1}, s)
    ensures Apply(st, iset{0, 1}, s) == Asserts(ASSEMBLED)
  {
    var m := iset{0, 1};
    var st0;
    steps, st0 := TwoComposites();
    var s4 := MatchStep(1, 1, true, Placing(true, {}));
    AlwaysMatches(BARE.(autobind := 1));
    assert FirstMatch(st0, 1, [0], 1) == Some(0);
    st := Bind(st0, FragId(1, 0), 1);
    assert Apply(st0, m, s4) == Done(st);
    RunAppend(Boot(), m, steps, st0, s4);
    steps := steps + [s4];
    s := AddDeviceStep(1, true, false, BARE, Placing(true, {}));
    assert st.devs[1].fragments == [FragId(0, 0), FragId(1, 0)];
  }

  /** "A fragment device can be removed at any time" is false: device 1 comes
      from the fragment driver, but no fragment of its parent waited for it. */
  lemma RemovalCanAssert() returns (steps: seq<Step>, st: State)
    ensures Run(Boot(), iset{}, steps, st) && Enabled(st, iset{}, RemoveStep(1))
    ensures Apply(st, iset{}, RemoveStep(1)) == Asserts(NO_FRAGMENT)
  {
    var s := AddDeviceStep(0, true, false, BARE, Placing(true, {}));
    st := Apply(Boot(), iset{}, s).st;
    assert st.devs[0].fragments == [] && st.devs[1] == Dev(Some(0), [], [], None, true, false, true, BARE);
    steps := [] + [s];
    RunAppend(Boot(), iset{}, [], Boot(), s);
  }

  /** An assembled device carries the mark of its composite. */
  ghost predicate Marked(st: State) {
    forall c :: c in st.comps && st.comps[c].device.Some? && st.comps[c].device.value in st.devs ==>
      st.devs[st.comps[c].device.value].comp == Some(c)
  }

  /** Unbinding a fragment keeps the marks exactly when the device it was bound
      to is not itself an assembled composite. */
  lemma ReleaseKeepsMarks(st: State, d: DevId, f: FragId)
    requires Inv(st) && Marked(st) && d in st.devs && f in st.devs[d].fragments
    ensures f in st.frags && f.comp in st.comps && Release(st, d, f).Done?
    ensures Marked(Release(st, d, f).st) <==> st.devs[d].comp.None?
  {
    ReleaseInv(st, d, f);
    BoundHere(st, d, f);
    var st' := Release(st, d, f).st;
    ReleaseMarks(st, d, f);
    if st.devs[d].comp.Some? {
      var c := st.devs[d].comp.value;
      assert c in st.comps && st.comps[c].device == Some(d);
      assert c != f.comp;
      assert st'.comps[c].device == Some(d) && st'.devs[d].comp.None?;
    } else {
      forall c | c in st'.comps && st'.comps[c].device.Some? && st'.comps[c].device.value in st'.devs
        ensures st'.devs[st'.comps[c].device.value].comp == Some(c)
      {
        assert c != f.comp;
      }
    }
  }

  lemma ReleaseMarks(st: State, d: DevId, f: FragId)
    requires f in st.frags && f.comp in st.comps && d in st.devs && st.frags[f].bound == Some(d)
    ensures Release(st, d, f).Done?
    ensures var st' := Release(st, d, f).st;
            && st'.comps.Keys == st.comps.Keys && st'.devs.Keys == st.devs.Keys && st'.comps[f.comp].device.None?
            && (forall c :: c in st.comps && c != f.comp ==> st'.comps[c] == st.comps[c])
            && (forall e :: e in st.devs ==>
                  st'.devs[e].comp == if e == d || Some(e) == st.comps[f.comp].device then None else st.devs[e].comp)
  {
  }

  /** The marks can be lost: composite 1 is assembled over the device of
      composite 0; when that fragment goes, device 2 is still the device of
      composite 0 but no longer marked as such. */
  lemma MarkCanBeLost() returns (steps: seq<Step>, st: State)
    ensures Run(Boot(), iset{0, 1}, steps, st)
    ensures 0 in st.comps && st.comps[0].device == Some(2) && 2 in st.devs && st.devs[2].comp.None?
  {
    var m := iset{0, 1};
    var st0;
    steps, st0 := TwoComposites();
    var s4 := MatchStep(1, 2, true, Placing(true, {}));
    AlwaysMatches(BARE.(autobind := 1));
    assert FirstMatch(st0, 1, [0], 2) == Some(0);
    var st1 := Bind(st0, FragId(1, 0), 2);
    assert Apply(st0, m, s4) == Done(st1);
    RunAppend(Boot(), m, steps, st0, s4);
    steps := steps + [s4];
    assert st1.devs[2] == Dev(None, [], [FragId(1, 0)], Some(0), false, false, true, BARE);
    assert st1.comps[1] == Comp(false, 1, [], [0], None, BARE);
    var s5 := AddDeviceStep(2, true, false, BARE, Placing(false, {}));
    var c2 := Create(st1, 2, true, false, BARE);
    assert FirstFree(c2, 2, [FragId(1, 0)]) == Some(FragId(1, 0));
    assert Apply(st1, m, s5) == TryAssemble(Arrive(c2, FragId(1, 0), 3), 1, Placing(false, {}));
    var st2 := Apply(st1, m, s5).st;
    RunAppend(Boot(), m, steps, st1, s5);
    steps := steps + [s5];
    assert st2.devs[3] == Dev(Some(2), [], [], None, true, false, true, BARE);
    assert st2.devs[2] == Dev(None, [3], [FragId(1, 0)], Some(0), false, false, true, BARE);
    assert st2.frags[FragId(1, 0)] == Frag(ALWAYS, Some(2), Some(3)) && st2.comps[0].device == Some(2);
    var s6 := RemoveStep(3);
    var d3 := Die(st2, 3);
    assert FirstOfDevice(d3, [FragId(1, 0)], 3) == Some(FragId(1, 0));
    assert DropFragmentDevice(d3, 3) == Release(d3, 2, FragId(1, 0));
    ReleaseMarks(d3, 2, FragId(1, 0));
    var r := Release(d3, 2, FragId(1, 0)).st;
    assert Apply(st2, m, s6) == Done(Detach(r, 3));
    DetachFacts(r, 3);
    st := Detach(r, 3);
    RunAppend(Boot(), m, steps, st2, s6);
    steps := steps + [s6];
  }
}
