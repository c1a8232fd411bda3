/** The children of a device. Assembled composites have several parents, so
    `Device::children()` walks the child list and then recovers composites from
    fragment lists (ChildListIterator of device.h). */
module Children {
  import opened Common
  import opened Composites
  import opened CompositeRuns
  import opened CompositeSystem

  /** The fragment list the iterator looks through after the child list: the
      parent's for a device of the fragment driver, its own otherwise. */
  function Source(st: State, d: DevId): seq<FragId>
    requires d in st.devs
  {
    var p := st.devs[d].parent;
    if !st.devs[d].fragDriver then st.devs[d].fragments
    else if p.Some? && p.value in st.devs then st.devs[p.value].fragments
    else []
  }

  function DeviceOf(st: State, f: FragId): Option<DevId> {
    if f.comp in st.comps then st.comps[f.comp].device else None
  }

  /** A fragment makes its composite a child of `d`. */
  predicate Qualifies(st: State, d: DevId, f: FragId)
    requires d in st.devs
  {
    && f in st.frags && DeviceOf(st, f).Some?
    && st.frags[f].fragDev == if st.devs[d].fragDriver then Some(d) else None
  }

  function Filter(st: State, d: DevId, list: seq<FragId>): (r: seq<FragId>)
    requires d in st.devs
    ensures forall f :: f in r <==> f in list && Qualifies(st, d, f)
  {
    if list == [] then []
    else (if Qualifies(st, d, list[0]) then [list[0]] else []) + Filter(st, d, list[1..])
  }

  function Shown(st: State, d: DevId): seq<FragId>
    requires d in st.devs
  {
    Filter(st, d, Source(st, d))
  }

  function DevicesOf(st: State, fs: seq<FragId>): (r: seq<DevId>)
    requires forall f :: f in fs ==> DeviceOf(st, f).Some?
  {
    seq(|fs|, i requires 0 <= i < |fs| => assert fs[i] in fs; DeviceOf(st, fs[i]).value)
  }

  /** The child list followed by the qualifying composites. */
  function ChildrenOf(st: State, d: DevId): seq<DevId>
    requires d in st.devs
  {
    st.devs[d].children + DevicesOf(st, Shown(st, d))
  }

  // ----- the iterator

  /** The composites a device has as children by the fragments in the list, in
      its order: those assembled whose fragment has no fragment device, or for
      a device of the fragment driver has that device. */
  ghost predicate Adopts(st: State, d: DevId, list: seq<FragId>, out: seq<DevId>)
    requires d in st.devs
    decreases |list|
  {
    if list == [] then out == []
    else if AdoptsBy(st, d, list[0]) then
      && out != [] && st.comps[list[0].comp].device == Some(out[0]) && Adopts(st, d, list[1..], out[1..])
    else Adopts(st, d, list[1..], out)
  }

  ghost predicate AdoptsBy(st: State, d: DevId, f: FragId)
    requires d in st.devs
  {
    && f in st.frags && f.comp in st.comps && st.comps[f.comp].device.Some?
    && if st.devs[d].fragDriver then st.frags[f].fragDev == Some(d) else st.frags[f].fragDev.None?
  }

  lemma {:induction false} FilterAdopts(st: State, d: DevId, list: seq<FragId>)
    requires d in st.devs
    ensures Adopts(st, d, list, DevicesOf(st, Filter(st, d, list)))
  {
    if list == [] {
    } else {
      FilterAdopts(st, d, list[1..]);
      var rest := Filter(st, d, list[1..]);
      assert [] + rest == rest;
      if Qualifies(st, d, list[0]) {
        assert Filter(st, d, list) == [list[0]] + rest;
        assert DevicesOf(st, [list[0]] + rest)[1..] == DevicesOf(st, rest);
      } else {
        assert Filter(st, d, list) == rest;
      }
    }
  }

  /** The children of a device are those on its list, in order, and then the
      composites: by its own fragments, or for a device of the fragment driver
      by those of its parent. */
  lemma ChildrenEffect(st: State, d: DevId)
    requires d in st.devs
    ensures exists out :: && ChildrenOf(st, d) == st.devs[d].children + out
                          && Adopts(st, d, if !st.devs[d].fragDriver then st.devs[d].fragments
                                           else if st.devs[d].parent.Some? && st.devs[d].parent.value in st.devs
                                           then st.devs[st.devs[d].parent.value].fragments else [], out)
  {
    FilterAdopts(st, d, Source(st, d));
    assert ChildrenOf(st, d) == st.devs[d].children + DevicesOf(st, Filter(st, d, Source(st, d)));
  }

  /** The three stages of the iterator. */
  datatype Cursor = AtChild(k: nat) | AtFragment(k: nat) | AtEnd

  predicate InRange(st: State, d: DevId, c: Cursor) {
    && d in st.devs
    && (c.AtChild? ==> c.k <= |st.devs[d].children|)
    && (c.AtFragment? ==> c.k <= |Source(st, d)|)
  }

  /** What an iterator at a cursor has still to yield. */
  function From(st: State, d: DevId, c: Cursor): seq<DevId>
    requires InRange(st, d, c)
  {
    match c
    case AtChild(k) => st.devs[d].children[k..] + DevicesOf(st, Shown(st, d))
    case AtFragment(k) => DevicesOf(st, Filter(st, d, Source(st, d)[k..]))
    case AtEnd => []
  }

  /** The cursor stands on an element or at the end. */
  predicate Settled(st: State, d: DevId, c: Cursor)
    requires InRange(st, d, c)
  {
    match c
    case AtChild(k) => k < |st.devs[d].children|
    case AtFragment(k) => k < |Source(st, d)| && Qualifies(st, d, Source(st, d)[k])
    case AtEnd => true
  }

  lemma EndOfChildren(st: State, d: DevId)
    requires d in st.devs
    ensures From(st, d, AtChild(|st.devs[d].children|)) == From(st, d, AtFragment(0))
  {
  }

  lemma FragmentStep(st: State, d: DevId, k: nat)
    requires d in st.devs && k < |Source(st, d)|
    ensures var rest := From(st, d, AtFragment(k + 1));
            if Qualifies(st, d, Source(st, d)[k])
              then From(st, d, AtFragment(k)) == [DeviceOf(st, Source(st, d)[k]).value] + rest
            else From(st, d, AtFragment(k)) == rest
  {
  }

  class ChildIterator {
    const st: State
    const d: DevId
    var cursor: Cursor

    constructor (st: State, d: DevId)
      requires d in st.devs
      ensures this.st == st && this.d == d && InRange(st, d, cursor) && Settled(st, d, cursor)
      ensures From(st, d, cursor) == ChildrenOf(st, d)
    {
      this.st := st;
      this.d := d;
      cursor := AtChild(0);
      new;
      assert From(st, d, cursor) == ChildrenOf(st, d);
      SkipInvalidStates();
    }

    /** Move on to the next valid state without losing an element. */
    method SkipInvalidStates()
      requires InRange(st, d, cursor)
      modifies this
      ensures InRange(st, d, cursor) && Settled(st, d, cursor) && From(st, d, cursor) == old(From(st, d, cursor))
    {
      hide From, Qualifies, ChildrenOf;
      var more := true;
      while more
        invariant InRange(st, d, cursor) && From(st, d, cursor) == old(From(st, d, cursor))
        invariant !more ==> Settled(st, d, cursor)
        decreases match cursor case AtChild(_) => 2 case AtFragment(_) => 1 case AtEnd => 0,
                  if cursor.AtFragment? then |Source(st, d)| - cursor.k else 0, more
      {
        match cursor {
          case AtChild(k) =>
            if k < |st.devs[d].children| {
              more := false;
            } else {
              EndOfChildren(st, d);
              var p := st.devs[d].parent;
              if st.devs[d].fragDriver && !(p.Some? && p.value in st.devs) {
                Ended(st, d);
                cursor := AtEnd;
                more := false;
              } else {
                cursor := AtFragment(0);
              }
            }
          case AtFragment(k) =>
            if k == |Source(st, d)| {
              Ended(st, d);
              cursor := AtEnd;
              more := false;
            } else if Qualifies(st, d, Source(st, d)[k]) {
              more := false;
            } else {
              FragmentStep(st, d, k);
              cursor := AtFragment(k + 1);
            }
          case AtEnd =>
            more := false;
        }
      }
    }

    method Current() returns (x: DevId)
      requires InRange(st, d, cursor) && Settled(st, d, cursor) && cursor != AtEnd
      ensures From(st, d, cursor) != [] && x == From(st, d, cursor)[0]
    {
      match cursor {
        case AtChild(k) =>
          x := st.devs[d].children[k];
        case AtFragment(k) =>
          FragmentStep(st, d, k);
          x := DeviceOf(st, Source(st, d)[k]).value;
      }
    }

    method Next()
      requires InRange(st, d, cursor) && Settled(st, d, cursor) && cursor != AtEnd
      modifies this
      ensures InRange(st, d, cursor) && Settled(st, d, cursor)
      ensures old(From(st, d, cursor)) != [] && From(st, d, cursor) == old(From(st, d, cursor))[1..]
    {
      match cursor {
        case AtChild(k) =>
          cursor := AtChild(k + 1);
        case AtFragment(k) =>
          FragmentStep(st, d, k);
          cursor := AtFragment(k + 1);
      }
      assert From(st, d, cursor) == old(From(st, d, cursor))[1..];
      SkipInvalidStates();
    }
  }

  lemma Ended(st: State, d: DevId)
    requires d in st.devs
    ensures From(st, d, AtFragment(|Source(st, d)|)) == From(st, d, AtEnd) == []
  {
  }

  /** Iterating over children() terminates and yields exactly the child list
      followed by the qualifying composites. */
  method Collect(st: State, d: DevId) returns (all: seq<DevId>)
    requires d in st.devs
    ensures all == ChildrenOf(st, d)
  {
    hide From, Settled, ChildrenOf;
    var it := new ChildIterator(st, d);
    all := [];
    while it.cursor != AtEnd
      invariant it.st == st && it.d == d && InRange(st, d, it.cursor) && Settled(st, d, it.cursor)
      invariant all + From(st, d, it.cursor) == ChildrenOf(st, d)
      decreases |From(st, d, it.cursor)|
    {
      var x := it.Current();
      all := all + [x];
      it.Next();
    }
    Ended(st, d);
  }

  // ----- completeness

  /** The one device a fragment's composite should be a child of. */
  function Home(f: Frag): Option<DevId> {
    if f.fragDev.Some? then f.fragDev else f.bound
  }

  /** A fragment bound, without a fragment device, to a device that the
      fragment driver itself added. */
  predicate Lost(st: State, f: FragId) {
    && f in st.frags && st.frags[f].fragDev.None? && st.frags[f].bound.Some?
    && st.frags[f].bound.value in st.devs && st.devs[st.frags[f].bound.value].fragDriver
  }

  lemma {:induction false} FilterNoDup(st: State, d: DevId, list: seq<FragId>)
    requires d in st.devs && NoDup(list)
    ensures NoDup(Filter(st, d, list))
  {
    if list == [] {
    } else {
      FilterNoDup(st, d, list[1..]);
      assert list == [list[0]] + list[1..];
      assert list[0] !in Filter(st, d, list[1..]);
    }
  }

  /** Every fragment of an assembled composite is shown by its home and by no
      other device, and there once; the exception is the lost fragment, which
      no device shows. */
  lemma ShownAtHome(st: State, f: FragId, d: DevId)
    requires Inv(st) && f in st.frags && DeviceOf(st, f).Some? && d in st.devs
    ensures f in Shown(st, d) <==> Home(st.frags[f]) == Some(d) && !Lost(st, f)
    ensures NoDup(Shown(st, d))
  {
    assert TreeAt(st, d);
    FilterNoDup(st, d, Source(st, d));
    if st.frags[f].fragDev.Some? {
      assert FragDevAt(st, st.frags[f]);
    }
    assert ListsAt(st, f.comp);
  }

  ghost function HomedAt(st: State, c: CompId, d: DevId): set<FragId> {
    set f | f in st.frags && f.comp == c && Home(st.frags[f]) == Some(d) && !Lost(st, f)
  }

  lemma {:induction false} CountDevices(st: State, fs: seq<FragId>, x: DevId, mine: set<FragId>)
    requires NoDup(fs) && (forall f :: f in fs ==> DeviceOf(st, f).Some?)
    requires forall f :: f in mine <==> f in fs && DeviceOf(st, f) == Some(x)
    ensures multiset(DevicesOf(st, fs))[x] == |mine|
  {
    if fs == [] {
      assert mine == {};
    } else {
      var f, rest := fs[0], fs[1..];
      assert fs == [f] + rest && f !in rest;
      assert DevicesOf(st, fs) == [DeviceOf(st, f).value] + DevicesOf(st, rest);
      CountDevices(st, rest, x, mine - {f});
    }
  }

  /** An assembled composite occurs in the children of `d` exactly once for
      each of its fragments that is at home there. */
  lemma CompositeChildren(st: State, c: CompId, d: DevId)
    requires Inv(st) && c in st.comps && st.comps[c].device.Some? && d in st.devs
    ensures multiset(ChildrenOf(st, d))[st.comps[c].device.value] == |HomedAt(st, c, d)|
  {
    var x := st.comps[c].device.value;
    var fs, kids := Shown(st, d), st.devs[d].children;
    assert TreeAt(st, d);
    FilterNoDup(st, d, Source(st, d));
    forall f ensures f in HomedAt(st, c, d) <==> f in fs && DeviceOf(st, f) == Some(x) {
      OneDevice(st, c, x, f);
      if f in st.frags && DeviceOf(st, f).Some? { ShownAtHome(st, f, d); }
    }
    CountDevices(st, fs, x, HomedAt(st, c, d));
    NotListed(st, x, d);
    assert multiset(kids + DevicesOf(st, fs)) == multiset(kids) + multiset(DevicesOf(st, fs));
  }

  lemma OneDevice(st: State, c: CompId, x: DevId, f: FragId)
    requires Inv(st) && c in st.comps && st.comps[c].device == Some(x)
    ensures DeviceOf(st, f) == Some(x) <==> f.comp == c
  {
  }

  lemma NotListed(st: State, x: DevId, d: DevId)
    requires Inv(st) && x in st.devs && st.devs[x].parent.None? && d in st.devs
    ensures x !in st.devs[d].children
  {
  }

  /** A composite can be nobody's child: device 1 comes from the fragment
      driver, has an outgoing directory and is the only part of composite 0. */
  lemma CompositeWithoutParent() returns (steps: seq<Step>, st: State)
    ensures Run(Boot(), iset{0, 1}, steps, st)
    ensures 0 in st.comps && st.comps[0].device == Some(2)
    ensures forall d :: d in st.devs ==> 2 !in ChildrenOf(st, d)
  {
    steps, st := AssembledComposite(true);
    BootGood(iset{0, 1});
    RunGood(Boot(), iset{0, 1}, steps, st);
    forall d | d in st.devs ensures 2 !in ChildrenOf(st, d) {
      CompositeChildren(st, 0, d);
      assert HomedAt(st, 0, d) == {};
    }
  }
}
