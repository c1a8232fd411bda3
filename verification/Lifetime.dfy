/** The life of devices in a driver host (core.cc, zx_device.cc and
    driver_host_context.h): reference counts, the enumeration lock, deferred
    finalization, which can re-enter itself, and the delayed freeing of destroyed
    devices.

    Each section under the API lock is one step. Finalization drops the lock
    around the hooks of a driver, so any number of finalizations can be under way,
    each a `Frame`, and their steps may alternate in any way. */
module Lifetime {
  import opened Common

  type DevId = nat
  type FrameId = nat

  /** What a finalization will do next with its current device. */
  datatype Pc = PRE_RELEASE | RELEASE | DROP_PARENT | DESTROY

  datatype Phase = Live | Deferred | Stranded | Listed(f: FrameId) | Current(f: FrameId, pc: Pc) | Destroyed | Freed

  /** `refs` counts the references of others, `ext`, and those of children.
      `mother` remembers the parent a device was added to. `busy` is the flag
      that is set while a device is being added. */
  datatype Dev = Dev(
    refs: nat, ext: nat, parent: Option<DevId>, children: seq<DevId>, added: bool, dead: bool, phase: Phase,
    mother: Option<DevId>, busy: bool)

  /** The rest of the snapshot, and the device taken from it. */
  datatype Frame = Frame(list: seq<DevId>, cur: Option<DevId>)

  /** A hook of a driver that was called: that of the parent before a child is
      released, or that of the device itself. */
  datatype Hook = PreReleased(parent: DevId, child: DevId) | Released(dev: DevId)

  /** `released`, `destroyed` and `hooks` record the order of these events. */
  datatype State = State(
    devs: map<DevId, Dev>, enumerators: nat, defer: seq<DevId>, frames: map<FrameId, Frame>, nextFrame: FrameId,
    dead: seq<DevId>, deadCount: nat, released: seq<DevId>, destroyed: seq<DevId>,
    hooks: seq<Hook>)

  const DEAD_DEVICE_MAX: nat := 7

  // ----- sections under the lock

  /** The snapshot's devices leave their parents' lists of children. */
  function DetachAll(devs: map<DevId, Dev>, list: seq<DevId>): map<DevId, Dev>
    decreases |list|
  {
    if list == [] then devs else DetachAll(Detach(devs, list[0]), list[1..])
  }

  function Detach(devs: map<DevId, Dev>, d: DevId): map<DevId, Dev> {
    if d in devs && devs[d].parent.Some? && devs[d].parent.value in devs
    then var p := devs[d].parent.value; devs[p := devs[p].(children := Erase(devs[p].children, d))]
    else devs
  }

  function ToFrame(devs: map<DevId, Dev>, list: seq<DevId>, f: FrameId): map<DevId, Dev> {
    map d | d in devs :: if d in list then devs[d].(phase := Listed(f)) else devs[d]
  }

  /** The beginning of FinalizeDyingDevices. */
  function Begin(st: State): State {
    if st.defer == [] then st
    else st.(devs := ToFrame(DetachAll(st.devs, st.defer), st.defer, st.nextFrame),
             frames := st.frames[st.nextFrame := Frame(st.defer, None)],
             nextFrame := st.nextFrame + 1,
             defer := [])
  }

  /** QueueDeviceForFinalization, called when the last reference is gone. */
  function Recycle(st: State, d: DevId): State
    requires d in st.devs
  {
    var st1 := st.(defer := st.defer + [d], devs := st.devs[d := st.devs[d].(phase := Deferred)]);
    if st.enumerators == 0 then Begin(st1) else st1
  }

  /** The last reference to a busy device goes without any consequence. */
  function Unref(st: State, d: DevId): State
    requires d in st.devs && st.devs[d].refs > 0
  {
    var st1 := st.(devs := st.devs[d := st.devs[d].(refs := st.devs[d].refs - 1)]);
    if st1.devs[d].refs > 0 then st1
    else if st1.devs[d].busy then st1.(devs := st1.devs[d := st1.devs[d].(phase := Stranded)])
    else Recycle(st1, d)
  }

  /** DeviceAdd. Whatever goes wrong, the device is marked dead. */
  function Add(st: State, d: DevId, p: Option<DevId>, ok: bool): State
    requires d in st.devs && (p.Some? ==> p.value in st.devs)
  {
    if st.devs[d].added || p.None? || st.devs[p.value].dead then st.(devs := st.devs[d := st.devs[d].(dead := true)])
    else if !ok then st.(devs := st.devs[d := st.devs[d].(dead := true, busy := false)])
    else
      var devs1 := st.devs[p.value := st.devs[p.value].(refs := st.devs[p.value].refs + 1,
                                                        children := st.devs[p.value].children + [d])];
      st.(devs := devs1[d := devs1[d].(parent := p, added := true, mother := p, busy := false)])
  }

  /** What DeviceAdd is told by the context of a create() call. */
  datatype Create = Create(first: bool, invisible: bool)

  /** DeviceAdd on a thread that runs a driver's create() for `p`: only the
      first child is taken, and not an invisible one. That refusal leaves the
      device busy. */
  function AddProxy(st: State, d: DevId, p: DevId, create: Create): State
    requires d in st.devs && p in st.devs
  {
    var r := st.devs[d];
    st.(devs := st.devs[d := if r.added || st.devs[p].dead || !create.first then r.(dead := true)
                             else if create.invisible then r.(dead := true, busy := true)
                             else r.(added := true, busy := false)])
  }

  /** DeviceDestroy: the device joins the dead ones, and an older one is freed. */
  function Bury(st: State, d: DevId): State
    requires d in st.devs
  {
    var st1 := st.(devs := st.devs[d := st.devs[d].(phase := Destroyed)], dead := st.dead + [d],
                   destroyed := st.destroyed + [d]);
    if st.deadCount == DEAD_DEVICE_MAX then
      var old' := st1.dead[0];
      st1.(dead := st1.dead[1..], devs := if old' in st1.devs then st1.devs[old' := st1.devs[old'].(phase := Freed)]
                                          else st1.devs)
    else st1.(deadCount := st.deadCount + 1)
  }

  // ----- steps

  datatype Step =
    | CreateStep(d: DevId)
    | RefStep(d: DevId)
    | DropStep(d: DevId)
    | AddStep(d: DevId, p: Option<DevId>, ok: bool)
    | AddProxyStep(d: DevId, q: DevId, create: Create)
    | MarkDeadStep(d: DevId)
    | EnumAcquireStep
    | EnumReleaseStep
    | PopStep(f: FrameId)
    | PreReleaseStep(f: FrameId)
    | ReleaseStep(f: FrameId)
    | DropParentStep(f: FrameId)
    | DestroyStep(f: FrameId)
    | ReturnStep(f: FrameId)

  predicate At(st: State, f: FrameId, pc: Pc) {
    && f in st.frames && st.frames[f].cur.Some? && st.frames[f].cur.value in st.devs
    && st.devs[st.frames[f].cur.value].phase == Current(f, pc)
  }

  /** A reference is copied from one that exists, and given up by its holder. */
  predicate Enabled(st: State, step: Step) {
    match step
    case CreateStep(d) => d !in st.devs
    case RefStep(d) => d in st.devs && st.devs[d].phase == Live
    case DropStep(d) => d in st.devs && st.devs[d].ext > 0 && st.devs[d].refs > 0
    case AddStep(d, p, _) => d in st.devs && st.devs[d].ext > 0 && (p.Some? ==>
          p.value in st.devs && st.devs[p.value].ext > 0 && p.value != d)
    case AddProxyStep(d, q, _) => d in st.devs && st.devs[d].ext > 0 && q in st.devs && st.devs[q].ext > 0
    case MarkDeadStep(d) => d in st.devs && st.devs[d].phase == Live
    case EnumAcquireStep => true
    case EnumReleaseStep => st.enumerators > 0
    case PopStep(f) => f in st.frames && st.frames[f].cur.None? && st.frames[f].list != []
    && st.frames[f].list[0] in st.devs
    case PreReleaseStep(f) => At(st, f, PRE_RELEASE)
    case ReleaseStep(f) => At(st, f, RELEASE)
    case DropParentStep(f) => At(st, f, DROP_PARENT)
    case DestroyStep(f) => At(st, f, DESTROY)
    case ReturnStep(f) => f in st.frames && st.frames[f] == Frame([], None)
  }

  function Pop(st: State, f: FrameId): State
    requires Enabled(st, PopStep(f))
  {
    var d := st.frames[f].list[0];
    var r := st.devs[d];
    var pc := if !r.added then DROP_PARENT else if r.parent.Some? then PRE_RELEASE else RELEASE;
    st.(frames := st.frames[f := Frame(st.frames[f].list[1..], Some(d))],
        devs := st.devs[d := r.(phase := Current(f, pc))])
  }

  function MoveTo(st: State, f: FrameId, pc: Pc): State
    requires f in st.frames && st.frames[f].cur.Some? && st.frames[f].cur.value in st.devs
  {
    var d := st.frames[f].cur.value;
    st.(devs := st.devs[d := st.devs[d].(phase := Current(f, pc))])
  }

  /** The parent's hook is called for the child. */
  function PreRelease(st: State, f: FrameId): State
    requires At(st, f, PRE_RELEASE)
  {
    var d := st.frames[f].cur.value;
    var p := st.devs[d].parent;
    MoveTo(st, f, RELEASE).(hooks := if p.Some? then st.hooks + [PreReleased(p.value, d)] else st.hooks)
  }

  /** The device's own release hook is called. */
  function Release(st: State, f: FrameId): State
    requires At(st, f, RELEASE)
  {
    var d := st.frames[f].cur.value;
    MoveTo(st, f, DROP_PARENT).(released := st.released + [d], hooks := st.hooks + [Released(d)])
  }

  /** The device gives up its reference to its parent, which may be the last. */
  function DropParent(st: State, f: FrameId): State
    requires At(st, f, DROP_PARENT)
  {
    var d := st.frames[f].cur.value;
    var p := st.devs[d].parent;
    var st1 := MoveTo(st.(devs := st.devs[d := st.devs[d].(parent := None)]), f, DESTROY);
    if p.Some? && p.value in st1.devs && st1.devs[p.value].refs > 0 then Unref(st1, p.value) else st1
  }

  function Apply(st: State, step: Step): State
    requires Enabled(st, step)
  {
    match step
    case CreateStep(d) => st.(devs := st.devs[d := Dev(1, 1, None, [], false, false, Live, None, false)])
    case RefStep(d) => st.(devs := st.devs[d := st.devs[d].(refs := st.devs[d].refs + 1, ext := st.devs[d].ext + 1)])
    case DropStep(d) => Unref(st.(devs := st.devs[d := st.devs[d].(ext := st.devs[d].ext - 1)]), d)
    case AddStep(d, p, ok) => Add(st, d, p, ok)
    case AddProxyStep(d, q, create) => AddProxy(st, d, q, create)
    case MarkDeadStep(d) => st.(devs := st.devs[d := st.devs[d].(dead := true)])
    case EnumAcquireStep => st.(enumerators := st.enumerators + 1)
    case EnumReleaseStep =>
      var st1 := st.(enumerators := st.enumerators - 1);
      if st1.enumerators == 0 then Begin(st1) else st1
    case PopStep(f) => Pop(st, f)
    case PreReleaseStep(f) => PreRelease(st, f)
    case ReleaseStep(f) => Release(st, f)
    case DropParentStep(f) => DropParent(st, f)
    case DestroyStep(f) => Bury(st.(frames := st.frames[f := st.frames[f].(cur := None)]), st.frames[f].cur.value)
    case ReturnStep(f) => st.(frames := st.frames - {f})
  }
}
