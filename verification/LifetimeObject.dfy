/** The driver host context in place: the sections of core.cc and
    driver_host_context.h that run under the API lock, each proved to do what
    module `Lifetime` says. */
module LifetimeObject {
  import opened Common
  import L = Lifetime

  type DevId = L.DevId
  type FrameId = L.FrameId

  class Context {
    var devs: map<DevId, L.Dev>
    var enumerators: nat
    var defer: seq<DevId>
    var frames: map<FrameId, L.Frame>
    var nextFrame: FrameId
    var dead: seq<DevId>
    var deadCount: nat
    ghost var released: seq<DevId>
    ghost var hooks: seq<L.Hook>
    ghost var destroyed: seq<DevId>

    ghost function View(): L.State reads this {
      L.State(devs, enumerators, defer, frames, nextFrame, dead, deadCount, released, destroyed, hooks)
    }

    constructor ()
      ensures View() == L.State(map[], 0, [], map[], 0, [], 0, [], [], [])
    {
      devs, enumerators, defer, frames, nextFrame := map[], 0, [], map[], 0;
      dead, deadCount, released, destroyed, hooks := [], 0, [], [], [];
    }

    /** remove_child, called on the parent. */
    method RemoveChild(d: DevId)
      modifies this`devs
      ensures devs == L.Detach(old(devs), d)
    {
      if d in devs && devs[d].parent.Some? && devs[d].parent.value in devs {
        var p := devs[d].parent.value;
        devs := devs[p := devs[p].(children := Erase(devs[p].children, d))];
      }
    }

    /** FinalizeDyingDevices up to the point where it first drops the lock: the
        list is taken over and its devices are detached from their parents. */
    method FinalizeDyingDevices()
      modifies this
      ensures View() == L.Begin(old(View()))
    {
      if defer == [] {
        return;
      }
      var list := defer;
      defer := [];
      var i := 0;
      assert list[0..] == list;
      while i < |list|
        invariant i <= |list| && L.DetachAll(devs, list[i..]) == L.DetachAll(old(devs), list)
        invariant View() == old(View()).(devs := devs, defer := [])
      {
        assert list[i..][0] == list[i] && list[i..][1..] == list[i + 1..];
        RemoveChild(list[i]);
        i := i + 1;
      }
      assert list[i..] == [];
      devs := L.ToFrame(devs, list, nextFrame);
      frames := frames[nextFrame := L.Frame(list, None)];
      nextFrame := nextFrame + 1;
    }

    method QueueDeviceForFinalization(d: DevId)
      requires d in devs
      modifies this
      ensures View() == L.Recycle(old(View()), d)
    {
      hide L.Begin;
      devs := devs[d := devs[d].(phase := L.Deferred)];
      defer := defer + [d];
      if enumerators == 0 {
        FinalizeDyingDevices();
      }
    }

    /** A RefPtr lets go; fbl_recycle runs for the last one. */
    method Release(d: DevId)
      requires d in devs && devs[d].refs > 0
      modifies this
      ensures View() == L.Unref(old(View()), d)
    {
      hide L.Recycle;
      devs := devs[d := devs[d].(refs := devs[d].refs - 1)];
      if devs[d].refs == 0 {
        Recycle(d);
      }
    }

    /** fbl_recycle, with no reference left. */
    method Recycle(d: DevId)
      requires d in devs
      modifies this
      ensures View() == if old(devs)[d].busy
                then old(View()).(devs := old(devs)[d := old(devs)[d].(phase := L.Stranded)])
                        else L.Recycle(old(View()), d)
    {
      if devs[d].busy {
        // nothing is done; the phase records that nothing ever will be
        devs := devs[d := devs[d].(phase := L.Stranded)];
        return;
      }
      QueueDeviceForFinalization(d);
    }

    method EnumLockAcquire()
      modifies this`enumerators
      ensures View() == L.Apply(old(View()), L.EnumAcquireStep)
    {
      enumerators := enumerators + 1;
    }

    method EnumLockRelease()
      requires enumerators > 0
      modifies this
      ensures View() == L.Apply(old(View()), L.EnumReleaseStep)
    {
      hide L.Begin;
      enumerators := enumerators - 1;
      if enumerators == 0 {
        FinalizeDyingDevices();
      }
    }

    /** `create` says whether the thread runs create() for the parent, and then
        whether this is the first child and invisible. */
    method DeviceAdd(d: DevId, p: Option<DevId>, ok: bool, create: Option<L.Create>)
      requires d in devs && (p.Some? ==> p.value in devs && p.value != d) && (!devs[d].added ==> devs[d].parent.None?)
      modifies this`devs
      ensures View() == if create.Some? && p.Some? then L.AddProxy(old(View()), d, p.value, create.value)
                        else L.Add(old(View()), d, p, ok)
    {
      if devs[d].added || p.None? || devs[p.value].dead || (create.Some? && !create.value.first) {
        devs := devs[d := devs[d].(dead := true)];
        return;
      }
      var q := p.value;
      devs := devs[d := devs[d].(busy := true)];
      if create.Some? {
        if create.value.invisible {
          devs := devs[d := devs[d].(dead := true)];
        } else {
          devs := devs[d := devs[d].(added := true, busy := false)];
        }
        assert devs == L.AddProxy(old(View()), d, q, create.value).devs;
        return;
      }
      AddChild(d, q, ok);
      assert devs == L.Add(old(View()), d, p, ok).devs;
    }

    /** The ordinary way: the device joins the parent's list and leaves it again
        if driver_manager refuses. */
    method AddChild(d: DevId, q: DevId, ok: bool)
      requires d in devs && q in devs && d != q && devs[d].parent.None?
      modifies this`devs
      ensures ok ==>
                devs == old(devs)[q := old(devs)[q].(refs := old(devs)[q].refs + 1,
                                                     children := old(devs)[q].children + [d])]
                                      [d := old(devs)[d].(parent := Some(q), added := true, mother := Some(q),
                                                          busy := false)]
      ensures !ok ==> devs == old(devs)[d := old(devs)[d].(dead := true, busy := false)]
    {
      devs := devs[d := devs[d].(parent := Some(q))];
      devs := devs[q := devs[q].(refs := devs[q].refs + 1, children := devs[q].children + [d])];
      if !ok {
        LastChild(old(devs)[q].children, d);
        devs := devs[q := devs[q].(refs := devs[q].refs - 1, children := devs[q].children[..|devs[q].children| - 1])];
        devs := devs[d := devs[d].(parent := None, busy := false, dead := true)];
        assert devs == old(devs)[d := old(devs)[d].(dead := true, busy := false)];
        return;
      }
      devs := devs[d := devs[d].(added := true, mother := Some(q), busy := false)];
    }

    /** DeviceDestroy. */
    method DeviceDestroy(d: DevId)
      requires d in devs
      modifies this
      ensures View() == L.Bury(old(View()), d)
    {
      devs := devs[d := devs[d].(phase := L.Destroyed)];
      dead := dead + [d];
      destroyed := destroyed + [d];
      if deadCount == L.DEAD_DEVICE_MAX {
        var gone := dead[0];
        dead := dead[1..];
        if gone in devs {
          devs := devs[gone := devs[gone].(phase := L.Freed)];
        }
      } else {
        deadCount := deadCount + 1;
      }
    }

    /** One turn of the loop of FinalizeDyingDevices after the hooks: the parent
        is let go, then the device is destroyed. Letting go may finalize again. */
    method Finish(f: FrameId)
      requires L.At(View(), f, L.DROP_PARENT)
      modifies this
      ensures View() == L.DropParent(old(View()), f)
    {
      hide L.Unref;
      var d := frames[f].cur.value;
      var p := devs[d].parent;
      devs := devs[d := devs[d].(parent := None)];
      devs := devs[d := devs[d].(phase := L.Current(f, L.DESTROY))];
      if p.Some? && p.value in devs && devs[p.value].refs > 0 {
        Release(p.value);
      }
    }

    /** dev->parent()->ChildPreReleaseOp(dev->ctx), without the lock. */
    method CallPreRelease(f: FrameId)
      requires L.At(View(), f, L.PRE_RELEASE)
      modifies this
      ensures View() == L.PreRelease(old(View()), f)
    {
      var d := frames[f].cur.value;
      if devs[d].parent.Some? {
        hooks := hooks + [L.PreReleased(devs[d].parent.value, d)];
      }
      devs := devs[d := devs[d].(phase := L.Current(f, L.RELEASE))];
    }

    /** dev->ReleaseOp(), without the lock. */
    method CallRelease(f: FrameId)
      requires L.At(View(), f, L.RELEASE)
      modifies this
      ensures View() == L.Release(old(View()), f)
    {
      var d := frames[f].cur.value;
      released := released + [d];
      hooks := hooks + [L.Released(d)];
      devs := devs[d := devs[d].(phase := L.Current(f, L.DROP_PARENT))];
    }

    /** list.pop_front() */
    method PopFront(f: FrameId)
      requires L.Enabled(View(), L.PopStep(f))
      modifies this
      ensures View() == L.Pop(old(View()), f)
    {
      var list := frames[f].list;
      var d := list[0];
      var pc := L.DROP_PARENT;
      if devs[d].added {
        pc := if devs[d].parent.Some? then L.PRE_RELEASE else L.RELEASE;
      }
      frames := frames[f := L.Frame(list[1..], Some(d))];
      devs := devs[d := devs[d].(phase := L.Current(f, pc))];
    }
  }

  lemma LastChild(s: seq<DevId>, d: DevId)
    ensures (s + [d])[..|s + [d]| - 1] == s
  {
  }
}
