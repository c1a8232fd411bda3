/** What the operations on the fragment graph do, told from the state before
    them (composite_device.cc and v1/device_manager.cc). */
module CompositeEffects {
  import opened Common
  import opened Composites
  import opened CompositeRuns
  import opened CompositeOrder
  import opened CompositeRemoval
  import B = BindProgram

  // ----- assembling

  /** The fragment is bound, and it has its fragment device or its bound device
      has an outgoing directory. */
  ghost predicate Sourced(st: State, f: FragId) {
    && f in st.frags && st.frags[f].bound.Some?
    && (st.frags[f].fragDev.Some?
        || (st.frags[f].bound.value in st.devs && st.devs[st.frags[f].bound.value].outgoing))
  }

  ghost predicate AllSourced(st: State, c: CompId) {
    c in st.comps && forall i: nat :: i < st.comps[c].count ==> Sourced(st, FragId(c, i))
  }

  /** `st'` has a new device for composite `c`, or none if placing its
      fragments failed; outgoing directories have been handed over either way. */
  ghost predicate Attempted(st: State, c: CompId, pl: Placing, st': State) {
    && c in st.comps && st'.frags == st.frags
    && (forall d :: d in st.devs ==>
          d in st'.devs && st'.devs[d] == st.devs[d].(outgoing := st.devs[d].outgoing && d !in pl.consumed))
    && if pl.ok then
      && st'.devs.Keys == st.devs.Keys + {st.nextDev} && st'.nextDev == st.nextDev + 1
      && st'.devs[st.nextDev] == Dev(None, [], [], Some(c), false, false, true, st.comps[c].ctx)
      && st'.comps == st.comps[c := st.comps[c].(device := Some(st.nextDev))]
    else st'.devs.Keys == st.devs.Keys && st'.nextDev == st.nextDev && st'.comps == st.comps
  }

  /** A composite is assembled by a call exactly if it is not yet, each of its
      fragments is bound and has a source, and they can be placed. */
  ghost predicate Tried(st: State, c: CompId, pl: Placing, st': State) {
    if AllSourced(st, c) then Attempted(st, c, pl, st') else st' == st
  }

  lemma AssembleEffect(st: State, c: CompId, pl: Placing)
    requires Inv(st) && c in st.comps && st.comps[c].device.None?
    ensures TryAssemble(st, c, pl).Done? && Tried(st, c, pl, TryAssemble(st, c, pl).st)
  {
    hide Inv, AllSourced, AllReady;
    SourcedIff(st, c);
    NewNumber(st);
  }

  lemma NewNumber(st: State)
    requires Inv(st)
    ensures st.nextDev !in st.devs
  {
    Ages(st);
  }

  lemma SourcedIff(st: State, c: CompId)
    requires Inv(st) && c in st.comps
    ensures AllSourced(st, c) <==> st.comps[c].unbound == [] && AllReady(st, c)
  {
    assert ListsAt(st, c);
    if st.comps[c].unbound != [] {
      var i := st.comps[c].unbound[0];
      assert !Sourced(st, FragId(c, i)) && i < st.comps[c].count;
    }
    if st.comps[c].unbound == [] {
      forall i: nat | i < st.comps[c].count
        ensures i in st.comps[c].bound && (Sourced(st, FragId(c, i)) <==> FragmentReady(st, FragId(c, i)))
      {
        assert FragId(c, i) in st.frags && i !in st.comps[c].unbound;
      }
      assert forall i :: i in st.comps[c].bound ==> i < st.comps[c].count;
    }
  }

  // ----- binding

  /** `st1` is `st` with fragment `f` moved to the end of the bound list and of
      the list of device `d`. */
  ghost predicate Placed(st: State, f: FragId, d: DevId, st1: State) {
    && f in st.frags && f.comp in st.comps && d in st.devs && st1.nextDev == st.nextDev
    && st1.frags == st.frags[f := Frag(st.frags[f].rules, Some(d), st.frags[f].fragDev)]
    && st1.comps.Keys == st.comps.Keys && st1.devs.Keys == st.devs.Keys
    && (forall c :: c in st.comps && c != f.comp ==> st1.comps[c] == st.comps[c])
    && (forall e :: e in st.devs ==>
          st1.devs[e] == st.devs[e].(fragments := st.devs[e].fragments + if e == d then [f] else []))
    && var was, now := st.comps[f.comp], st1.comps[f.comp];
    && now == was.(unbound := now.unbound, bound := was.bound + [f.index])
    && SameBut(was.unbound, f.index, now.unbound)
  }

  /** The fragment is bound, and then, if the device has an outgoing directory,
      assembly is tried. */
  ghost predicate BoundAndTried(st: State, f: FragId, d: DevId, pl: Placing, st': State) {
    d in st.devs && exists st1 :: Placed(st, f, d, st1) && if st.devs[d].outgoing then Tried(st1, f.comp, pl, st')
                                                           else st' == st1
  }

  /** Binding a fragment does nothing if the fragment is bound, or if the
      fragment driver is needed on the device and cannot be bound to it. */
  lemma BindEffect(st: State, f: FragId, d: DevId, bindOk: bool, pl: Placing)
    requires Inv(st) && f in st.frags && d in st.devs
    ensures f.comp in st.comps && BindFragment(st, f, d, bindOk, pl).Done?
    ensures var st' := BindFragment(st, f, d, bindOk, pl).st;
            if st.frags[f].bound.None? && (st.devs[d].outgoing || bindOk) then BoundAndTried(st, f, d, pl, st')
            else st' == st
  {
    UnboundIff(st, f);
    BindFragmentInv(st, f, d, bindOk, pl);
    if st.frags[f].bound.None? {
      var st1 := Bind(st, f, d);
      PlacedBy(st, f, d);
      BindInv(st, f, d);
      hide Inv, Placed, Bind, TryAssemble, Tried;
      if st.devs[d].outgoing { AssembleEffect(st1, f.comp, pl); }
    }
  }

  lemma UnboundIff(st: State, f: FragId)
    requires Inv(st) && f in st.frags
    ensures f.comp in st.comps && NoDup(st.comps[f.comp].unbound)
    ensures f.index in st.comps[f.comp].unbound <==> st.frags[f].bound.None?
    ensures st.frags[f].bound.None? ==> st.comps[f.comp].device.None?
  {
    assert ListsAt(st, f.comp) && FragId(f.comp, f.index) == f;
  }

  lemma PlacedBy(st: State, f: FragId, d: DevId)
    requires f in st.frags && f.comp in st.comps && d in st.devs && NoDup(st.comps[f.comp].unbound)
    ensures Placed(st, f, d, Bind(st, f, d)) && Bind(st, f, d).comps[f.comp].device == st.comps[f.comp].device
  {
    EraseSameBut(st.comps[f.comp].unbound, f.index);
    hide SameBut, Erase;
    assert forall e :: e in st.devs && e != d ==>
      st.devs[e] == st.devs[e].(fragments := st.devs[e].fragments + []);
  }

  // ----- matching

  /** The bind program of the fragment accepts the device, asked with autobind. */
  ghost predicate TakenBy(st: State, f: FragId, d: DevId) {
    && f in st.frags && d in st.devs
    && B.Eval(B.Context(st.devs[d].ctx.props, st.devs[d].ctx.protocolId, 1), st.frags[f].rules)
  }

  ghost predicate FirstTaking(st: State, c: CompId, list: seq<nat>, d: DevId, k: int) {
    && 0 <= k < |list| && TakenBy(st, FragId(c, list[k]), d)
    && forall j :: 0 <= j < k ==> !TakenBy(st, FragId(c, list[j]), d)
  }

  ghost predicate NoneTaking(st: State, c: CompId, list: seq<nat>, d: DevId) {
    forall j :: 0 <= j < |list| ==> !TakenBy(st, FragId(c, list[j]), d)
  }

  lemma {:induction false} FirstMatchIs(st: State, c: CompId, list: seq<nat>, d: DevId)
    requires d in st.devs
    ensures var r := FirstMatch(st, c, list, d);
            if r.Some? then exists k :: FirstTaking(st, c, list, d, k) && list[k] == r.value
            else NoneTaking(st, c, list, d)
  {
    hide B.Eval;
    var r := FirstMatch(st, c, list, d);
    if list == [] {
    } else if FragId(c, list[0]) in st.frags && Matches(st, FragId(c, list[0]), d) {
      assert FirstTaking(st, c, list, d, 0);
    } else {
      FirstMatchIs(st, c, list[1..], d);
      if r.Some? {
        var k :| FirstTaking(st, c, list[1..], d, k) && list[1..][k] == r.value;
        assert forall j :: 0 < j < k + 1 ==> list[j] == list[1..][j - 1];
        assert FirstTaking(st, c, list, d, k + 1);
      } else {
        assert forall j :: 0 < j < |list| ==> list[j] == list[1..][j - 1];
      }
    }
  }

  /** Matching a device binds it to the first unbound fragment that takes it,
      unless the composite came from the index or a bound fragment takes the
      device already. */
  lemma MatchEffect(st: State, c: CompId, d: DevId, bindOk: bool, pl: Placing)
    requires c in st.comps && d in st.devs
    ensures var r := TryMatchBindFragments(st, c, d, bindOk, pl);
            if st.comps[c].fromIndex || !NoneTaking(st, c, st.comps[c].bound, d)
               || NoneTaking(st, c, st.comps[c].unbound, d)
            then r == Done(st)
            else exists k :: FirstTaking(st, c, st.comps[c].unbound, d, k)
                             && r == BindFragment(st, FragId(c, st.comps[c].unbound[k]), d, bindOk, pl)
  {
    FirstMatchIs(st, c, st.comps[c].bound, d);
    FirstMatchIs(st, c, st.comps[c].unbound, d);
    hide FirstMatch, BindFragment, TakenBy;
  }

  // ----- arrivals

  /** `st1` is `st` with a new last child of `p`. */
  ghost predicate Born(st: State, p: DevId, fragDriver: bool, outgoing: bool, ctx: B.Context, st1: State) {
    && p in st.devs && st1.frags == st.frags && st1.comps == st.comps && st1.nextDev == st.nextDev + 1
    && st1.devs.Keys == st.devs.Keys + {st.nextDev}
    && st1.devs[st.nextDev] == Dev(Some(p), [], [], None, fragDriver, outgoing, true, ctx)
    && (forall e :: e in st.devs ==>
          st1.devs[e] == st.devs[e].(children := st.devs[e].children + if e == p then [st.nextDev] else []))
  }

  /** The fragment at place `k` of the device's list is the first without a
      fragment device. */
  ghost predicate FirstWaiting(st: State, p: DevId, k: int) {
    && p in st.devs && 0 <= k < |st.devs[p].fragments|
    && Waiting(st, st.devs[p].fragments[k])
    && forall j :: 0 <= j < k ==> !Waiting(st, st.devs[p].fragments[j])
  }

  ghost predicate Waiting(st: State, f: FragId) {
    f in st.frags && st.frags[f].fragDev.None?
  }

  ghost predicate NoneWaiting(st: State, p: DevId) {
    p in st.devs && forall j :: 0 <= j < |st.devs[p].fragments| ==> !Waiting(st, st.devs[p].fragments[j])
  }

  /** The new device is given to the first waiting fragment of its parent, whose
      composite may then be assembled. */
  ghost predicate Given(st: State, p: DevId, st1: State, pl: Placing, r: Outcome) {
    exists k :: FirstWaiting(st, p, k) &&
      var f := st.devs[p].fragments[k];
      && f in st1.frags && f.comp in st.comps
      && var st2 := st1.(frags := st1.frags[f := Frag(st1.frags[f].rules, st1.frags[f].bound, Some(st.nextDev))]);
      if st.comps[f.comp].device.Some? then r.Asserts? else r.Done? && Tried(st2, f.comp, pl, r.st)
  }

  lemma {:induction false} FirstFreeIs(st: State, p: DevId, list: seq<FragId>)
    requires p in st.devs && !st.devs[p].outgoing && forall f :: f in list ==> f in st.frags && f.comp in st.comps
    ensures var r := FirstFree(st, p, list);
            if r.Some?
            then exists k :: 0 <= k < |list| && list[k] == r.value && Waiting(st, list[k])
                             && forall j :: 0 <= j < k ==> !Waiting(st, list[j])
            else forall j :: 0 <= j < |list| ==> !Waiting(st, list[j])
  {
    var r := FirstFree(st, p, list);
    if list == [] {
    } else if Waiting(st, list[0]) {
    } else {
      FirstFreeIs(st, p, list[1..]);
      if r.Some? {
        var k :| 0 <= k < |list[1..]| && list[1..][k] == r.value && Waiting(st, list[1..][k])
                 && forall j :: 0 <= j < k ==> !Waiting(st, list[1..][j]);
        assert forall j :: 0 < j < k + 1 ==> list[j] == list[1..][j - 1];
        assert list[k + 1] == r.value;
      } else {
        assert forall j :: 0 < j < |list| ==> list[j] == list[1..][j - 1];
      }
    }
  }

  /** Where the search for a waiting fragment ends, in terms of the state before. */
  lemma WaitingBefore(st: State, p: DevId, st1: State)
    requires Inv(st) && p in st.devs && !st.devs[p].outgoing && p in st1.devs && !st1.devs[p].outgoing
    requires st1.frags == st.frags && st1.comps == st.comps && st1.devs[p].fragments == st.devs[p].fragments
    ensures var r := FirstFree(st1, p, st1.devs[p].fragments);
            if r.Some? then exists k :: FirstWaiting(st, p, k) && st.devs[p].fragments[k] == r.value
            else NoneWaiting(st, p)
  {
    var list := st.devs[p].fragments;
    forall f | f in list ensures f in st.frags && f.comp in st.comps { BoundHere(st, p, f); }
    hide Inv;
    FirstFreeIs(st1, p, list);
    forall j | 0 <= j < |list| ensures Waiting(st1, list[j]) == Waiting(st, list[j]) { }
    var r := FirstFree(st1, p, list);
    if r.Some? {
      var k :| 0 <= k < |list| && list[k] == r.value && Waiting(st1, list[k])
               && forall j :: 0 <= j < k ==> !Waiting(st1, list[j]);
      assert FirstWaiting(st, p, k);
    }
  }

  lemma GivenTo(st: State, p: DevId, st1: State, k: nat, pl: Placing)
    requires Inv(st1) && FirstWaiting(st, p, k) && st1.frags == st.frags && st1.comps == st.comps
    requires p in st1.devs && st1.devs[p].fragments == st.devs[p].fragments && !st1.devs[p].outgoing
    requires st.nextDev in st1.devs && st1.devs[st.nextDev].fragDriver && st1.devs[st.nextDev].parent == Some(p)
    requires forall f :: f in st1.frags ==> st1.frags[f].fragDev != Some(st.nextDev)
    ensures var f := st.devs[p].fragments[k];
            && f in st1.frags && f.comp in st1.comps
            && Given(st, p, st1, pl, TryAssemble(Arrive(st1, f, st.nextDev), f.comp, pl))
  {
    var f := st.devs[p].fragments[k];
    BoundHere(st1, p, f);
    hide Inv, FirstWaiting, Tried;
    ArriveInv(st1, f, st.nextDev);
    var st2 := Arrive(st1, f, st.nextDev);
    if st.comps[f.comp].device.None? { AssembleEffect(st2, f.comp, pl); }
  }

  /** A device of the fragment driver goes to the first fragment of its parent
      that waits for one, if the parent has no outgoing directory; any other
      device is only added. */
  lemma ArrivalEffect(st: State, p: DevId, fragDriver: bool, outgoing: bool, ctx: B.Context, pl: Placing)
    requires Inv(st) && p in st.devs
    ensures var r := AddDevice(st, p, fragDriver, outgoing, ctx, pl);
            exists st1 :: Born(st, p, fragDriver, outgoing, ctx, st1) &&
              if !fragDriver || st.devs[p].outgoing || NoneWaiting(st, p) then r == Done(st1)
              else Given(st, p, st1, pl, r)
  {
    hide Inv, Born, Create, Given, FirstFree, TryAssemble, NoneWaiting, Waiting;
    var st1 := Create(st, p, fragDriver, outgoing, ctx);
    BornBy(st, p, fragDriver, outgoing, ctx);
    BornFacts(st, p, fragDriver, outgoing, ctx, st1);
    CreateInv(st, p, fragDriver, outgoing, ctx);
    var r := FirstFree(st1, p, st1.devs[p].fragments);
    if fragDriver && !st.devs[p].outgoing {
      WaitingBefore(st, p, st1);
      if r.Some? {
        var k :| FirstWaiting(st, p, k) && st.devs[p].fragments[k] == r.value;
        NotNone(st, p, k);
        GivenTo(st, p, st1, k, pl);
      }
    } else if fragDriver {
      assert r.None?;
    }
  }

  lemma NotNone(st: State, p: DevId, k: nat)
    requires FirstWaiting(st, p, k)
    ensures !NoneWaiting(st, p)
  {
  }

  lemma BornFacts(st: State, p: DevId, fragDriver: bool, outgoing: bool, ctx: B.Context, st1: State)
    requires Born(st, p, fragDriver, outgoing, ctx, st1)
    ensures st1.frags == st.frags && st1.comps == st.comps && p in st1.devs && st.nextDev in st1.devs
    ensures st1.devs[p].fragments == st.devs[p].fragments && st1.devs[p].outgoing == st.devs[p].outgoing
    ensures st1.devs[st.nextDev].fragDriver == fragDriver && st1.devs[st.nextDev].parent == Some(p)
  {
  }

  lemma BornBy(st: State, p: DevId, fragDriver: bool, outgoing: bool, ctx: B.Context)
    requires Inv(st) && p in st.devs
    ensures Born(st, p, fragDriver, outgoing, ctx, Create(st, p, fragDriver, outgoing, ctx))
  {
    hide Inv;
    NewNumber(st);
    assert forall e :: e in st.devs && e != p ==> st.devs[e] == st.devs[e].(children := st.devs[e].children + []);
  }

  // ----- unbinding

  /** Unbinding a fragment of a device: the fragment goes to the end of the
      unbound list and off the lists it was on, its composite loses its device,
      and that device and the one the fragment was bound to lose their
      composite marks. */
  lemma ReleaseEffect(st: State, d: DevId, f: FragId)
    requires Inv(st) && d in st.devs && f in st.devs[d].fragments
    ensures f in st.frags && f.comp in st.comps && Release(st, d, f).Done?
    ensures var st' := Release(st, d, f).st;
            && st'.nextDev == st.nextDev && st'.comps.Keys == st.comps.Keys && st'.devs.Keys == st.devs.Keys
            && st'.frags == st.frags[f := Frag(st.frags[f].rules, None, None)]
            && (forall c :: c in st.comps && c != f.comp ==> st'.comps[c] == st.comps[c])
            && ListsLeft(st.comps[f.comp], f.index, st'.comps[f.comp])
            && (forall e :: e in st.devs ==>
                  UnmarkedAt(st.devs[e], e == d || st.comps[f.comp].device == Some(e), e == d, f, st'.devs[e]))
  {
    hide Inv, Release, SameBut, NoDup, Dropped, Forget;
    ReleaseInv(st, d, f);
    NoRepeats(st, d, f);
    var st1 := Forget(st, f.comp);
    ForgetFacts(st, f.comp);
    Unmarks(st, f.comp);
    DroppedEffect(st1, d, f);
  }

  lemma Unmarks(st: State, c: CompId)
    requires Inv(st) && c in st.comps
    ensures var st1 := Forget(st, c);
            && st1.devs.Keys == st.devs.Keys
            && forall e :: e in st.devs ==>
                 st1.devs[e] == st.devs[e].(comp := if st.comps[c].device == Some(e) then None else st.devs[e].comp)
  {
    hide Inv;
  }

  lemma DroppedEffect(st: State, d: DevId, f: FragId)
    requires f in st.frags && f.comp in st.comps && d in st.devs
    requires NoDup(st.comps[f.comp].bound) && NoDup(st.devs[d].fragments) && st.comps[f.comp].device.None?
    ensures var st' := Dropped(st, d, f);
            && st'.nextDev == st.nextDev && st'.comps.Keys == st.comps.Keys && st'.devs.Keys == st.devs.Keys
            && st'.frags == st.frags[f := Frag(st.frags[f].rules, None, None)]
            && (forall c :: c in st.comps && c != f.comp ==> st'.comps[c] == st.comps[c])
            && ListsLeft(st.comps[f.comp], f.index, st'.comps[f.comp])
            && (forall e :: e in st.devs ==> UnmarkedAt(st.devs[e], e == d, e == d, f, st'.devs[e]))
  {
    hide SameBut, Erase, NoDup;
    EraseSameBut(st.comps[f.comp].bound, f.index);
    EraseSameBut(st.devs[d].fragments, f);
  }

  ghost predicate ListsLeft(was: Comp, i: nat, now: Comp) {
    && now == was.(device := None, unbound := was.unbound + [i], bound := now.bound)
    && SameBut(was.bound, i, now.bound)
  }

  ghost predicate UnmarkedAt(was: Dev, unmarked: bool, here: bool, f: FragId, now: Dev) {
    && now == was.(comp := if unmarked then None else was.comp, fragments := now.fragments)
    && if here then SameBut(was.fragments, f, now.fragments) else now.fragments == was.fragments
  }

  lemma NoRepeats(st: State, d: DevId, f: FragId)
    requires Inv(st) && d in st.devs && f in st.devs[d].fragments
    ensures f in st.frags && f.comp in st.comps && NoDup(st.comps[f.comp].bound) && NoDup(st.devs[d].fragments)
  {
    assert ListsAt(st, f.comp);
  }

  // ----- removals

  /** What becomes of fragment `f` when device `d` is removed: it is unbound if
      `d` is its fragment device, or if `d` is the device of its composite and
      it has no fragment device. */
  ghost function FragmentLeft(st: State, d: DevId, f: FragId): Frag
    requires d in st.devs && f in st.frags
  {
    var r := st.frags[f];
    if r.fragDev == Some(d) then Frag(r.rules, None, None)
    else if st.devs[d].comp == Some(f.comp) && r.fragDev.None? then Frag(r.rules, None, None)
    else r
  }

  /** Some fragment of composite `c` has `e` as its fragment device. */
  ghost predicate Serves(st: State, e: DevId, c: CompId) {
    exists f :: f in st.frags && f.comp == c && st.frags[f].fragDev == Some(e)
  }

  /** The composite loses its device when that device is removed, or the
      fragment device of one of its fragments. */
  ghost predicate LosesDevice(st: State, d: DevId, c: CompId)
    requires d in st.devs
  {
    st.devs[d].comp == Some(c) || Serves(st, d, c)
  }

  ghost predicate FragmentsLeft(st: State, d: DevId, st': State) {
    && d in st.devs && st'.frags.Keys == st.frags.Keys && st'.comps.Keys == st.comps.Keys
    && (forall f :: f in st.frags ==> st'.frags[f] == FragmentLeft(st, d, f))
    && (forall c :: c in st.comps ==>
          st'.comps[c].device == if LosesDevice(st, d, c) then None else st.comps[c].device)
  }

  /** The device is dead and off its parent's list; the others are where they
      were. */
  ghost predicate TreeLeft(st: State, d: DevId, st': State) {
    && d in st.devs && st'.devs.Keys == st.devs.Keys && st'.nextDev == st.nextDev
    && forall e :: e in st.devs ==> LeftAt(st.devs[e], e, d, st.devs[d].parent, st'.devs[e])
  }

  ghost predicate LeftAt(r: Dev, e: DevId, d: DevId, p: Option<DevId>, r': Dev) {
    && r'.live == (r.live && e != d)
    && r'.parent == (if e == d then None else r.parent)
    && if p == Some(e) then SameBut(r.children, d, r'.children) else r'.children == r.children
  }

  /** The first two parts of a removal. */
  lemma LeaveEffect(st: State, d: DevId)
    requires Inv(st) && Orderly(st) && d in st.devs
    ensures Leave(st, d).Done?
    ensures var st' := Leave(st, d).st;
            && Inv(st') && Orderly(st') && Shrunk(st, st') && st'.frags.Keys == st.frags.Keys
            && st'.comps.Keys == st.comps.Keys
            && (forall f :: f in st.frags ==>
                  st'.frags[f] == if st.devs[d].comp == Some(f.comp) && st.frags[f].fragDev.None?
                                  then Frag(st.frags[f].rules, None, None) else st.frags[f])
            && (forall c :: c in st.comps ==>
                  st'.comps[c].device == if st.devs[d].comp == Some(c) then None else st.comps[c].device)
  {
    hide Inv, Orderly, Shrunk, Disband;
    LeaveComposite(st, d);
    var c := st.devs[d].comp;
    if c.Some? {
      MarkedDevice(st, d);
      DisbandInv(st, c.value, st.comps[c.value].bound);
      forall f | f in st.frags && f.comp == c.value ensures f.index in st.comps[c.value].bound { AllBound(st, d, f); }
    }
  }

  lemma AllBound(st: State, d: DevId, f: FragId)
    requires Inv(st) && d in st.devs && f in st.frags && st.devs[d].comp == Some(f.comp)
    ensures f.comp in st.comps && f.index in st.comps[f.comp].bound
  {
    assert ListsAt(st, f.comp) && FragId(f.comp, f.index) == f;
  }

  lemma DropEffect(st: State, e: DevId)
    requires Inv(st) && Orderly(st) && e in st.devs && DropFragmentDevice(st, e).Done?
    ensures var st' := DropFragmentDevice(st, e).st;
            && st'.frags.Keys == st.frags.Keys && st'.comps.Keys == st.comps.Keys
            && (forall f :: f in st.frags ==>
                  st'.frags[f] == if st.frags[f].fragDev == Some(e) then Frag(st.frags[f].rules, None, None)
                                  else st.frags[f])
            && (forall c :: c in st.comps ==>
                  st'.comps[c].device == if Serves(st, e, c) then None else st.comps[c].device)
  {
    ServingHere(st, e);
    OneFragment(st, e);
    if st.devs[e].fragDriver && st.devs[e].parent.Some? {
      var p := st.devs[e].parent.value;
      var f := FirstOfDevice(st, st.devs[p].fragments, e).value;
      BoundHere(st, p, f);
      hide Inv, Orderly, Release;
      ReleaseInv(st, p, f);
      ReleaseShrinks(st, p, f);
      ReleaseComps(st, p, f);
      assert Serves(st, e, f.comp);
    }
  }

  lemma OneFragment(st: State, e: DevId)
    requires Inv(st)
    ensures forall f, g :: f in st.frags && g in st.frags && st.frags[f].fragDev == Some(e)
                           && st.frags[g].fragDev == Some(e) ==>
              f == g
  {
  }

  lemma ParentList(st: State, d: DevId)
    requires Inv(st) && d in st.devs && st.devs[d].parent.Some?
    ensures st.devs[d].parent.value in st.devs && st.devs[d].parent.value != d
    ensures NoDup(st.devs[st.devs[d].parent.value].children)
  {
    assert TreeAt(st, d) && TreeAt(st, st.devs[d].parent.value);
  }

  lemma DetachEffect(st: State, d: DevId)
    requires Inv(st) && d in st.devs
    ensures var st' := Detach(st, d);
            && st'.nextDev == st.nextDev && st'.devs.Keys == st.devs.Keys
            && forall e :: e in st.devs ==>
                 if st.devs[d].parent == Some(e) then SameBut(st.devs[e].children, d, st'.devs[e].children)
                 else st'.devs[e].children == st.devs[e].children
  {
    hide Inv, SameBut, Erase, NoDup;
    if st.devs[d].parent.Some? {
      ParentList(st, d);
      EraseSameBut(st.devs[st.devs[d].parent.value].children, d);
    }
  }

  /** Removing a live device takes it off the tree, unbinds the fragment it was
      given to and, if it is a composite's device, that composite's fragments
      without fragment devices; every other fragment and the devices of other
      composites stay. */
  lemma RemovalEffect(st: State, d: DevId)
    requires Inv(st) && Orderly(st) && d in st.devs && RemoveDevice(st, d).Done?
    ensures var st' := RemoveDevice(st, d).st;
            if st.devs[d].live then TreeLeft(st, d, st') && FragmentsLeft(st, d, st') else st' == st
  {
    hide Inv, Orderly, Disband, DropFragmentDevice, Detach, TreeLeft, FragmentsLeft, Shrunk, Die;
    if st.devs[d].live {
      var st1 := Die(st, d);
      DieKeeps(st, d);
      DieFacts(st, d);
      LeaveComposite(st1, d);
      var st2 := Leave(st1, d).st;
      ShrunkKeys(st1, st2);
      DropInv(st2, d);
      ShrunkKeys(st2, DropFragmentDevice(st2, d).st);
      var st3 := DropFragmentDevice(st2, d).st;
      RemovalFragments(st, d, st2, st3);
      RemovalTree(st, d, st2, st3);
    }
  }

  lemma DieFacts(st: State, d: DevId)
    requires d in st.devs
    ensures var st1 := Die(st, d);
            && st1.frags == st.frags && st1.comps == st.comps && st1.nextDev == st.nextDev
            && st1.devs.Keys == st.devs.Keys && !st1.devs[d].live
            && forall e :: e in st.devs ==> st1.devs[e] == st.devs[e].(live := st.devs[e].live && e != d)
  {
  }

  lemma RemovalFragments(st: State, d: DevId, st2: State, st3: State)
    requires Inv(st) && Orderly(st) && d in st.devs && d in Die(st, d).devs && Leave(Die(st, d), d) == Done(st2)
    requires d in st2.devs && DropFragmentDevice(st2, d) == Done(st3) && d in st3.devs
    ensures FragmentsLeft(st, d, Detach(st3, d))
  {
    hide Inv, Orderly, Leave, DropFragmentDevice, Detach, Shrunk, Die, Serves;
    DieKeeps(st, d);
    DieFacts(st, d);
    LeaveEffect(Die(st, d), d);
    DropEffect(st2, d);
    DetachFacts(st3, d);
    TwoParts(st, d, st2, st3);
  }

  lemma TwoParts(st: State, d: DevId, st2: State, st3: State)
    requires d in st.devs && st2.frags.Keys == st.frags.Keys && st2.comps.Keys == st.comps.Keys
    requires st3.frags.Keys == st2.frags.Keys && st3.comps.Keys == st2.comps.Keys
    requires forall f :: f in st.frags ==>
               st2.frags[f] == if st.devs[d].comp == Some(f.comp) && st.frags[f].fragDev.None?
                               then Frag(st.frags[f].rules, None, None) else st.frags[f]
    requires forall f :: f in st2.frags ==>
               st3.frags[f] == if st2.frags[f].fragDev == Some(d) then Frag(st2.frags[f].rules, None, None)
                               else st2.frags[f]
    requires forall c :: c in st.comps ==>
               st2.comps[c].device == if st.devs[d].comp == Some(c) then None else st.comps[c].device
    requires forall c :: c in st2.comps ==>
               st3.comps[c].device == if Serves(st2, d, c) then None else st2.comps[c].device
    ensures FragmentsLeft(st, d, st3)
  {
    hide Serves;
    forall c ensures Serves(st2, d, c) == Serves(st, d, c) { SameServes(st, st2, d, c); }
  }

  lemma SameServes(st: State, st': State, d: DevId, c: CompId)
    requires st'.frags.Keys == st.frags.Keys
    requires forall f :: f in st.frags ==> st'.frags[f].fragDev == st.frags[f].fragDev
    ensures Serves(st', d, c) == Serves(st, d, c)
  {
  }

  lemma ShrunkKeys(st: State, st': State)
    requires Shrunk(st, st')
    ensures st'.devs.Keys == st.devs.Keys
  {
  }

  lemma RemovalTree(st: State, d: DevId, st2: State, st3: State)
    requires d in st.devs && Shrunk(Die(st, d), st2) && Shrunk(st2, st3) && Inv(st3) && d in st3.devs
    ensures TreeLeft(st, d, Detach(st3, d))
  {
    hide Inv, Detach, SameBut, Die, Shrunk;
    DieFacts(st, d);
    DetachFacts(st3, d);
    DetachEffect(st3, d);
    ShrunkTwice(Die(st, d), st2, st3);
  }

  lemma ShrunkTwice(st: State, st1: State, st2: State)
    requires Shrunk(st, st1) && Shrunk(st1, st2)
    ensures st2.devs.Keys == st.devs.Keys && st2.nextDev == st.nextDev
    ensures forall e :: e in st.devs ==>
              && st2.devs[e].live == st.devs[e].live && st2.devs[e].parent == st.devs[e].parent
              && st2.devs[e].children == st.devs[e].children
  {
  }

  // ----- new composites

  /** A new composite waits for all its fragments, in the order of their
      programs, and nothing else changes. */
  lemma NewCompositeEffect(st: State, c: CompId, fromIndex: bool, rules: seq<seq<B.Inst>>, ctx: B.Context)
    requires Inv(st) && c !in st.comps
    ensures var st' := AddComposite(st, c, fromIndex, rules, ctx);
            && st'.devs == st.devs && st'.nextDev == st.nextDev && st'.comps.Keys == st.comps.Keys + {c}
            && (forall k :: k in st.comps ==> st'.comps[k] == st.comps[k])
            && (forall f :: f in st'.frags <==> f in st.frags || (f.comp == c && f.index < |rules|))
            && (forall f :: f in st.frags ==> st'.frags[f] == st.frags[f])
            && (forall i: nat :: i < |rules| ==> st'.frags[FragId(c, i)] == Frag(rules[i], None, None))
            && var r := st'.comps[c];
            && r.fromIndex == fromIndex && r.ctx == ctx && r.count == |rules| && r.bound == [] && r.device.None?
            && |r.unbound| == |rules| && forall i: nat :: i < |rules| ==> r.unbound[i] == i
  {
    forall f | f in st.frags ensures f.comp != c { }
    hide Inv;
  }
}
