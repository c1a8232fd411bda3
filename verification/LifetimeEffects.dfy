/** What adding a device and giving up a reference to one do, told from the state
    before (DeviceAdd of core.cc, fbl_recycle of zx_device.cc). */
module LifetimeEffects {
  import opened Common
  import opened Lifetime

  /** A device is added below a live parent, once, unless the manager refuses.
      It then holds a reference to the parent and is its last child. A device
      that is refused is dead, and no other is touched. */
  lemma AddEffect(st: State, d: DevId, p: Option<DevId>, ok: bool)
    requires Enabled(st, AddStep(d, p, ok))
    ensures var st', r := Apply(st, AddStep(d, p, ok)), st.devs[d];
            && st' == st.(devs := st'.devs) && st'.devs.Keys == st.devs.Keys
            && if !r.added && p.Some? && !st.devs[p.value].dead && ok then
              && st'.devs[d] == r.(parent := p, mother := p, added := true, busy := false)
              && (forall x :: x in st.devs && x != d ==>
                    st'.devs[x] == if p != Some(x) then st.devs[x]
                                   else st.devs[x].(refs := st.devs[x].refs + 1, children := st.devs[x].children + [d]))
            else
              && st'.devs[d].dead && st'.devs[d].(dead := r.dead, busy := r.busy) == r
              && (st'.devs[d].busy <==> r.busy && (r.added || p.None? || st.devs[p.value].dead))
              && (forall x :: x in st.devs && x != d ==> st'.devs[x] == st.devs[x])
  {
  }

  /** The same for a device added in a create() call, which has no parent in its
      process: one that is invisible is refused and stays busy. */
  lemma AddProxyEffect(st: State, d: DevId, q: DevId, create: Create)
    requires Enabled(st, AddProxyStep(d, q, create))
    ensures var st', r := Apply(st, AddProxyStep(d, q, create)), st.devs[d];
            && st' == st.(devs := st'.devs) && st'.devs.Keys == st.devs.Keys
            && (forall x :: x in st.devs && x != d ==> st'.devs[x] == st.devs[x])
            && st'.devs[d].(dead := r.dead, busy := r.busy, added := r.added) == r
            && var accepted := !r.added && !st.devs[q].dead && create.first && !create.invisible;
            && (st'.devs[d].added <==> r.added || accepted)
            && (st'.devs[d].dead <==> r.dead || !accepted)
            && (st'.devs[d].busy <==>
                  if r.added || st.devs[q].dead || !create.first then r.busy else create.invisible)
  {
  }

  /** Giving up a reference that is not the last changes counts only. The last
      one strands a busy device; any other goes to the end of the deferred list,
      and unless somebody enumerates devices that list is taken over, in its
      order, by a new finalization. */
  lemma DropEffect(st: State, d: DevId)
    requires Enabled(st, DropStep(d))
    ensures var st', r := Apply(st, DropStep(d)), st.devs[d];
            && st'.devs.Keys == st.devs.Keys && st'.released == st.released && st'.hooks == st.hooks
            && st'.devs[d].refs == r.refs - 1 && st'.devs[d].ext == r.ext - 1
            && if r.refs > 1 then st'.devs[d].phase == r.phase && st' == st.(devs := st'.devs)
            else if r.busy then st'.devs[d].phase == Stranded && st' == st.(devs := st'.devs)
            else if st.enumerators > 0 then
              st'.devs[d].phase == Deferred && st' == st.(devs := st'.devs, defer := st.defer + [d])
            else
              && st'.devs[d].phase == Listed(st.nextFrame)
              && st' == st.(devs := st'.devs, defer := [], nextFrame := st.nextFrame + 1,
                            frames := st.frames[st.nextFrame := Frame(st.defer + [d], None)])
  {
    hide Begin;
    var r := st.devs[d];
    if r.refs == 1 && !r.busy && st.enumerators == 0 {
      var r1 := r.(ext := r.ext - 1);
      var devs1 := st.devs[d := r1][d := r1.(refs := 0)][d := r1.(refs := 0, phase := Deferred)];
      TakeOver(st.(devs := devs1, defer := st.defer + [d]), d);
    }
  }

  /** A finalization begins with the whole deferred list. */
  lemma TakeOver(st: State, d: DevId)
    requires d in st.defer && d in st.devs
    ensures var st' := Begin(st);
            && st'.devs.Keys == st.devs.Keys && st'.devs[d].phase == Listed(st.nextFrame)
            && st'.devs[d].refs == st.devs[d].refs && st'.devs[d].ext == st.devs[d].ext
            && st' == st.(devs := st'.devs, defer := [], nextFrame := st.nextFrame + 1,
                          frames := st.frames[st.nextFrame := Frame(st.defer, None)])
  {
    DetachKeeps(st.devs, st.defer);
    hide DetachAll;
  }

  /** Enumerations are counted; the last one to end starts a finalization of
      what was deferred meanwhile. */
  lemma EnumEffect(st: State)
    ensures Apply(st, EnumAcquireStep) == st.(enumerators := st.enumerators + 1)
    ensures st.enumerators > 0 ==>
              var st' := Apply(st, EnumReleaseStep);
              if st.enumerators > 1 || st.defer == [] then st' == st.(enumerators := st.enumerators - 1)
              else st' == st.(enumerators := 0, devs := st'.devs, defer := [], nextFrame := st.nextFrame + 1,
                              frames := st.frames[st.nextFrame := Frame(st.defer, None)])
  {
  }

  /** A finalization takes the devices of its list in order. It starts with the
      hook of the parent for a device added to one, with the device's own for
      one added without, and with letting go for one never added; and when the
      list is done it is gone. */
  lemma FrameEffect(st: State, f: FrameId)
    ensures Enabled(st, PopStep(f)) ==>
              var st', d := Apply(st, PopStep(f)), st.frames[f].list[0];
              && st' == st.(devs := st'.devs, frames := st.frames[f := Frame(st.frames[f].list[1..], Some(d))])
              && st'.devs == st.devs[d := st.devs[d].(phase :=
                   Current(f, if !st.devs[d].added then DROP_PARENT
                              else if st.devs[d].parent.None? then RELEASE
                              else PRE_RELEASE))]
    ensures Enabled(st, ReturnStep(f)) ==>
              var st' := Apply(st, ReturnStep(f));
              && st' == st.(frames := st'.frames) && f !in st'.frames
              && forall g :: g in st.frames && g != f ==> g in st'.frames && st'.frames[g] == st.frames[g]
  {
  }

  lemma {:induction false} DetachKeeps(devs: map<DevId, Dev>, list: seq<DevId>)
    ensures DetachAll(devs, list).Keys == devs.Keys
    ensures forall x :: x in devs ==>
              DetachAll(devs, list)[x] == devs[x].(children := DetachAll(devs, list)[x].children)
    decreases |list|
  {
    if list == [] {
    } else {
      DetachKeeps(Detach(devs, list[0]), list[1..]);
    }
  }
}
