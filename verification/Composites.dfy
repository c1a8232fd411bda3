/** The fragment graph of driver_manager: composites, the fragments they keep
    in an unbound and a bound list, and the devices those fragments are bound to
    (composite_device.cc, composite_device.h, device.h and the adding and
    removing of devices in v1/device_manager.cc).

    The state is a value and each operation a function, so that runs can be
    reasoned about; module `CompositeObject` has the operations in place. */
module Composites {
  import opened Common
  import B = BindProgram

  type DevId = nat
  type CompId = nat

  /** A fragment is known by its composite and its index there. */
  datatype FragId = FragId(comp: CompId, index: nat)

  datatype Frag = Frag(rules: seq<B.Inst>, bound: Option<DevId>, fragDev: Option<DevId>)

  datatype Comp = Comp(fromIndex: bool, count: nat, unbound: seq<nat>, bound: seq<nat>, device: Option<DevId>,
                       ctx: B.Context)

  /** A device. `fragDriver` marks a device added by the fragment driver;
      `comp` is the composite a device was assembled from. */
  datatype Dev = Dev(
    parent: Option<DevId>, children: seq<DevId>, fragments: seq<FragId>,
    comp: Option<CompId>, fragDriver: bool, outgoing: bool, live: bool, ctx: B.Context)

  datatype State = State(devs: map<DevId, Dev>, comps: map<CompId, Comp>, frags: map<FragId, Frag>, nextDev: DevId)

  /** Where a ZX_ASSERT of the source can stop the process. */
  datatype Site = ASSEMBLED | BOUND_ALREADY | NOT_BOUND | STILL_ASSEMBLED | NO_FRAGMENT

  datatype Outcome = Done(st: State) | Asserts(site: Site)

  // ----- operations on the whole state

  /** How the part of TryAssemble that talks to driver hosts ends. Outgoing
      directories in `consumed` are handed to a proxy on the way. */
  datatype Placing = Placing(ok: bool, consumed: set<DevId>)

  function Consume(st: State, ds: set<DevId>): State {
    st.(devs := map d | d in st.devs :: if d in ds then st.devs[d].(outgoing := false) else st.devs[d])
  }

  predicate FragmentReady(st: State, f: FragId)
    requires f in st.frags
  {
    var r := st.frags[f];
    r.fragDev.Some? || (r.bound.Some? && r.bound.value in st.devs && st.devs[r.bound.value].outgoing)
  }

  /** Every fragment of the bound list has its fragment device or needs none. */
  predicate AllReady(st: State, c: CompId)
    requires c in st.comps
  {
    forall i :: i in st.comps[c].bound && FragId(c, i) in st.frags ==> FragmentReady(st, FragId(c, i))
  }

  function TryAssemble(st: State, c: CompId, pl: Placing): Outcome
    requires c in st.comps
  {
    if st.comps[c].device.Some? then Asserts(ASSEMBLED)
    else if st.comps[c].unbound != [] || !AllReady(st, c) then Done(st)
    else if !pl.ok then Done(Consume(st, pl.consumed))
    else Done(Assembled(Consume(st, pl.consumed), c))
  }

  function Assembled(st: State, c: CompId): State
    requires c in st.comps
  {
    st.(devs := st.devs[st.nextDev := Dev(None, [], [], Some(c), false, false, true, st.comps[c].ctx)],
        comps := st.comps[c := st.comps[c].(device := Some(st.nextDev))],
        nextDev := st.nextDev + 1)
  }

  /** Fragment `f` moves to the bound list, and onto the list of device `d`. */
  function Bind(st: State, f: FragId, d: DevId): State
    requires f in st.frags && f.comp in st.comps && d in st.devs
  {
    var c := st.comps[f.comp];
    st.(comps := st.comps[f.comp := c.(unbound := Erase(c.unbound, f.index), bound := c.bound + [f.index])],
        frags := st.frags[f := st.frags[f].(bound := Some(d))],
        devs := st.devs[d := st.devs[d].(fragments := st.devs[d].fragments + [f])])
  }

  /** `bindOk` is the answer of the driver manager when the device needs the
      fragment driver bound to it first. */
  function BindFragment(st: State, f: FragId, d: DevId, bindOk: bool, pl: Placing): Outcome
    requires f.comp in st.comps && d in st.devs
  {
    if f.index !in st.comps[f.comp].unbound || f !in st.frags then Done(st)
    else if st.frags[f].bound.Some? then Asserts(BOUND_ALREADY)
    else if !st.devs[d].outgoing && !bindOk then Done(st)
    else if st.devs[d].outgoing then TryAssemble(Bind(st, f, d), f.comp, pl)
    else Done(Bind(st, f, d))
  }

  /** A fragment's program accepts a device. */
  predicate Matches(st: State, f: FragId, d: DevId)
    requires f in st.frags && d in st.devs
  {
    B.Eval(st.devs[d].ctx.(autobind := 1), st.frags[f].rules)
  }

  /** The first index of a list whose fragment accepts the device. */
  function FirstMatch(st: State, c: CompId, list: seq<nat>, d: DevId): (r: Option<nat>)
    requires d in st.devs
    ensures r.Some? ==> r.value in list && FragId(c, r.value) in st.frags && Matches(st, FragId(c, r.value), d)
    ensures r.None? ==> forall i :: i in list && FragId(c, i) in st.frags ==> !Matches(st, FragId(c, i), d)
  {
    if list == [] then None
    else if FragId(c, list[0]) in st.frags && Matches(st, FragId(c, list[0]), d) then Some(list[0])
    else FirstMatch(st, c, list[1..], d)
  }

  function TryMatchBindFragments(st: State, c: CompId, d: DevId, bindOk: bool, pl: Placing): Outcome
    requires c in st.comps && d in st.devs
  {
    if st.comps[c].fromIndex || FirstMatch(st, c, st.comps[c].bound, d).Some? then Done(st)
    else match FirstMatch(st, c, st.comps[c].unbound, d)
      case None => Done(st)
      case Some(i) => BindFragment(st, FragId(c, i), d, bindOk, pl)
  }

  /** CompositeDevice::Remove: forget the assembled device. */
  function Forget(st: State, c: CompId): State
    requires c in st.comps
  {
    var dev := st.comps[c].device;
    st.(comps := st.comps[c := st.comps[c].(device := None)],
        devs := if dev.Some? && dev.value in st.devs then st.devs[dev.value := st.devs[dev.value].(comp := None)]
                else st.devs)
  }

  /** The fragment moves back to the unbound list. */
  function Unlist(st: State, f: FragId): State
    requires f in st.frags && f.comp in st.comps
  {
    var c := st.comps[f.comp];
    st.(comps := st.comps[f.comp := c.(bound := Erase(c.bound, f.index), unbound := c.unbound + [f.index])],
        frags := st.frags[f := st.frags[f].(bound := None, fragDev := None)])
  }

  /** A fragment is taken off its bound device's list by the caller and
      unbound: CompositeDeviceFragment::Unbind. The bound device loses its own
      composite, too. */
  function Release(st: State, d: DevId, f: FragId): Outcome
    requires f in st.frags && f.comp in st.comps && d in st.devs
  {
    var st1 := st.(devs := st.devs[d := st.devs[d].(fragments := Erase(st.devs[d].fragments, f))]);
    var b := st.frags[f].bound;
    if b.None? || b.value !in st.devs then Asserts(NOT_BOUND)
    else
      var st2 := Forget(st1, f.comp);
      if st2.comps[f.comp].device.Some? then Asserts(STILL_ASSEMBLED)
      else
        var st3 := Unlist(st2, f);
        Done(st3.(devs := st3.devs[b.value := st3.devs[b.value].(comp := None)]))
  }

  predicate Free(st: State, p: DevId, f: FragId)
    requires p in st.devs
  {
    f in st.frags && f.comp in st.comps && st.frags[f].fragDev.None? && !st.devs[p].outgoing
  }

  /** The first fragment of the list that has no fragment device and needs one. */
  function FirstFree(st: State, p: DevId, list: seq<FragId>): (r: Option<FragId>)
    requires p in st.devs
    ensures r.Some? ==> r.value in list && Free(st, p, r.value)
    ensures r.None? ==> forall f :: f in list ==> !Free(st, p, f)
  {
    if list == [] then None
    else if Free(st, p, list[0]) then Some(list[0])
    else FirstFree(st, p, list[1..])
  }

  function Create(st: State, p: DevId, fragDriver: bool, outgoing: bool, ctx: B.Context): State
    requires p in st.devs
  {
    st.(devs := st.devs[st.nextDev := Dev(Some(p), [], [], None, fragDriver, outgoing, true, ctx)]
                       [p := st.devs[p].(children := st.devs[p].children + [st.nextDev])],
        nextDev := st.nextDev + 1)
  }

  function Arrive(st: State, f: FragId, e: DevId): State
    requires f in st.frags
  {
    st.(frags := st.frags[f := st.frags[f].(fragDev := Some(e))])
  }

  /** DeviceManager::AddDevice: a device of the fragment driver is given to
      the first fragment of its parent that is waiting for one. */
  function AddDevice(st: State, p: DevId, fragDriver: bool, outgoing: bool, ctx: B.Context, pl: Placing): Outcome
    requires p in st.devs
  {
    var st1 := Create(st, p, fragDriver, outgoing, ctx);
    if !fragDriver then Done(st1)
    else match FirstFree(st1, p, st1.devs[p].fragments)
      case None => Done(st1)
      case Some(f) => TryAssemble(Arrive(st1, f, st.nextDev), f.comp, pl)
  }

  function AddComposite(st: State, c: CompId, fromIndex: bool, rules: seq<seq<B.Inst>>, ctx: B.Context): State {
    st.(comps := st.comps[c := Comp(fromIndex, |rules|, seq(|rules|, i => i), [], None, ctx)],
        frags := st.frags + map i | 0 <= i < |rules| :: FragId(c, i) := Frag(rules[i], None, None))
  }

  function FirstOfComp(list: seq<FragId>, c: CompId): (r: Option<FragId>)
    ensures r.Some? ==> r.value in list && r.value.comp == c
    ensures r.None? ==> forall f :: f in list ==> f.comp != c
  {
    if list == [] then None else if list[0].comp == c then Some(list[0]) else FirstOfComp(list[1..], c)
  }

  function FirstOfDevice(st: State, list: seq<FragId>, e: DevId): (r: Option<FragId>)
    ensures r.Some? ==> r.value in list && r.value in st.frags && st.frags[r.value].fragDev == Some(e)
    ensures r.None? ==> forall f :: f in list && f in st.frags ==> st.frags[f].fragDev != Some(e)
  {
    if list == [] then None
    else if list[0] in st.frags && st.frags[list[0]].fragDev == Some(e) then Some(list[0])
    else FirstOfDevice(st, list[1..], e)
  }

  /** Removing a composite device: every fragment without a fragment device is
      taken off its bound device and unbound. `list` is the bound list. */
  function Disband(st: State, c: CompId, list: seq<nat>): Outcome
    requires c in st.comps
    decreases |list|
  {
    if list == [] then Done(Forget(st, c))
    else
      var f := FragId(c, list[0]);
      if f in st.frags && st.frags[f].fragDev.Some? then Disband(st, c, list[1..])
      else if f !in st.frags || st.frags[f].bound.None? || st.frags[f].bound.value !in st.devs then Asserts(NOT_BOUND)
      else
        var b := st.frags[f].bound.value;
        match FirstOfComp(st.devs[b].fragments, c)
        case None => Asserts(NO_FRAGMENT)
        case Some(g) =>
          if g !in st.frags then Asserts(NO_FRAGMENT)
          else match Release(st, b, g)
            case Asserts(s) => Asserts(s)
            case Done(st1) => Disband(st1, c, list[1..])
  }

  function DropFragmentDevice(st: State, e: DevId): Outcome
    requires e in st.devs
  {
    if !st.devs[e].fragDriver || st.devs[e].parent.None? || st.devs[e].parent.value !in st.devs then Done(st)
    else
      var p := st.devs[e].parent.value;
      match FirstOfDevice(st, st.devs[p].fragments, e)
      case None => Asserts(NO_FRAGMENT)
      case Some(f) => if f.comp in st.comps then Release(st, p, f) else Asserts(NO_FRAGMENT)
  }

  function Detach(st: State, d: DevId): State
    requires d in st.devs
  {
    var p := st.devs[d].parent;
    var devs1 := if p.Some? && p.value in st.devs
                 then st.devs[p.value := st.devs[p.value].(children := Erase(st.devs[p.value].children, d))]
                   else st.devs;
    st.(devs := devs1[d := devs1[d].(parent := None)])
  }

  function Die(st: State, d: DevId): State
    requires d in st.devs
  {
    st.(devs := st.devs[d := st.devs[d].(live := false)])
  }

  /** DeviceManager::RemoveDevice. */
  function RemoveDevice(st: State, d: DevId): Outcome
    requires d in st.devs
  {
    if !st.devs[d].live then Done(st)
    else
      var st1 := Die(st, d);
      var c := st1.devs[d].comp;
      match (if c.Some? && c.value in st1.comps then Disband(st1, c.value, st1.comps[c.value].bound) else Done(st1))
      case Asserts(s) => Asserts(s)
      case Done(st2) =>
        if d !in st2.devs then Done(st2)
        else match DropFragmentDevice(st2, d)
          case Asserts(s) => Asserts(s)
          case Done(st3) => if d in st3.devs then Done(Detach(st3, d)) else Done(st3)
  }
}
