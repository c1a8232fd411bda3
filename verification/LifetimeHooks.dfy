/** The order in which the hooks of drivers are called while devices are torn
    down (FinalizeDyingDevices of core.cc). */
module LifetimeHooks {
  import opened Common
  import opened Lifetime
  import opened LifetimeRuns
  import opened LifetimeEffects

  /** The parent of a device, if any, has been told that it will be released. */
  predicate Told(ph: Phase) {
    Past(ph) || (ph.Current? && ph.pc == RELEASE)
  }

  /** The log of hooks agrees with the phases: a parent is told once, of devices
      added to it that got that far, and before they are released; and releases
      are logged in the order in which they are recorded. */
  ghost predicate HookLog(st: State) {
    && NoDup(st.hooks)
    && (forall d :: Released(d) in st.hooks <==> d in st.released)
    && (forall p, c :: PreReleased(p, c) in st.hooks <==> ToldOf(st, p, c))
    && (forall x, y :: Before(st.released, x, y) ==> Before(st.hooks, Released(x), Released(y)))
    && (forall p, c :: ToldOf(st, p, c) && c in st.released ==> Before(st.hooks, PreReleased(p, c), Released(c)))
    && (forall d :: d in st.devs && st.devs[d].phase.Current? && st.devs[d].phase.pc == PRE_RELEASE ==>
          HasParent(st, d))
  }

  ghost predicate ToldOf(st: State, p: DevId, c: DevId) {
    c in st.devs && st.devs[c].mother == Some(p) && Told(st.devs[c].phase)
  }

  ghost predicate HasParent(st: State, d: DevId) {
    d in st.devs && st.devs[d].parent.Some? && st.devs[d].parent == st.devs[d].mother
  }

  // ----- steps that call no hook

  /** A device is as far as it was in being released. */
  ghost predicate SameStage(r: Dev, r': Dev) {
    && (Told(r'.phase) <==> Told(r.phase))
    && (r'.mother == r.mother || !Told(r.phase))
    && (r'.phase.Current? && r'.phase.pc == PRE_RELEASE ==>
          r'.phase == r.phase && r'.parent == r.parent && r'.mother == r.mother)
  }

  lemma HookFrame(st: State, st': State)
    requires HookLog(st) && st'.hooks == st.hooks && st'.released == st.released && st.devs.Keys <= st'.devs.Keys
    requires forall d :: d in st.devs ==> SameStage(st.devs[d], st'.devs[d])
    requires forall d :: d in st'.devs && d !in st.devs ==> st'.devs[d].phase == Live
    ensures HookLog(st')
  {
    hide Past;
    forall p, c ensures ToldOf(st', p, c) <==> ToldOf(st, p, c) {
      if c in st'.devs && c !in st.devs { assert !Told(Live) by { LiveUntold(); } }
    }
    hide Before, NoDup;
  }

  lemma LiveUntold()
    ensures !Told(Live) && !Told(Deferred) && !Told(Stranded) && forall f :: !Told(Listed(f))
  {
  }

  /** Beginning a finalization moves devices from the deferred list to a frame. */
  lemma BeginStage(st: State)
    requires forall d :: d in st.defer && d in st.devs ==> st.devs[d].phase == Deferred
    ensures var st' := Begin(st);
            && st'.devs.Keys == st.devs.Keys && st'.hooks == st.hooks && st'.released == st.released
            && forall d :: d in st.devs ==> SameStage(st.devs[d], st'.devs[d])
  {
    DetachKeeps(st.devs, st.defer);
    hide DetachAll;
  }

  /** Giving up a reference, which may begin one. */
  lemma UnrefStage(st: State, x: DevId)
    requires x in st.devs && st.devs[x].refs > 0 && st.devs[x].phase == Live
    requires forall d :: d in st.defer && d in st.devs ==> st.devs[d].phase == Deferred
    ensures var st' := Unref(st, x);
            && st'.devs.Keys == st.devs.Keys && st'.hooks == st.hooks && st'.released == st.released
            && forall d :: d in st.devs ==> SameStage(st.devs[d], st'.devs[d])
  {
    hide Begin, SameStage;
    var st' := Unref(st, x);
    var devs1 := st.devs[x := st.devs[x].(refs := st.devs[x].refs - 1)];
    var st1 := st.(defer := st.defer + [x], devs := devs1[x := devs1[x].(phase := Deferred)]);
    BeginStage(st1);
    forall d | d in st.devs ensures d in st'.devs && SameStage(st.devs[d], st'.devs[d]) {
      SameDevice(st.devs[d]);
      Untold(st.devs[x], devs1[x]);
      Untold(st.devs[x], st1.devs[x]);
      Untold(st.devs[x], devs1[x].(phase := Stranded));
      StageChain(st.devs[d], st1.devs[d], Begin(st1).devs[d]);
    }
  }

  /** A device that is left with fewer references, or none. */
  lemma Untold(r: Dev, r': Dev)
    requires r.phase == Live && r' == r.(refs := r'.refs, phase := r'.phase) && r'.phase in {Live, Deferred, Stranded}
    ensures SameStage(r, r')
  {
  }

  lemma StageChain(r: Dev, r1: Dev, r2: Dev)
    requires SameStage(r, r1) && SameStage(r1, r2)
    ensures SameStage(r, r2)
  {
  }

  lemma InvParts(st: State)
    requires Inv(st)
    ensures forall d :: d in st.defer && d in st.devs ==> st.devs[d].phase == Deferred
    ensures forall d :: d in st.devs && (st.devs[d].ext > 0 || st.devs[d].refs > 0) ==> st.devs[d].phase == Live
    ensures forall d :: d in st.devs && !Parentless(st.devs[d].phase) && st.devs[d].mother.Some? ==> HasParent(st, d)
    ensures forall d :: d in st.devs && st.devs[d].parent.Some? ==> st.devs[d].mother == st.devs[d].parent
    ensures forall d :: d in st.devs && st.devs[d].mother.Some? ==> st.devs[d].added
  {
    forall d | d in st.devs ensures CountAt(st.devs, d, 0) && FamilyAt(st, d) { }
  }

  // ----- steps

  lemma DropHooks(st: State, x: DevId)
    requires Inv(st) && HookLog(st) && Enabled(st, DropStep(x))
    ensures HookLog(Apply(st, DropStep(x)))
  {
    hide Inv, HookLog, Unref, Told;
    InvParts(st);
    var st1 := st.(devs := st.devs[x := st.devs[x].(ext := st.devs[x].ext - 1)]);
    UnrefStage(st1, x);
    HookFrame(st, st1);
    HookFrame(st1, Unref(st1, x));
  }

  lemma EnumHooks(st: State)
    requires Inv(st) && HookLog(st) && Enabled(st, EnumReleaseStep)
    ensures HookLog(Apply(st, EnumReleaseStep))
  {
    hide Inv, HookLog, Begin, Told;
    InvParts(st);
    var st1 := st.(enumerators := st.enumerators - 1);
    BeginStage(st1);
    HookFrame(st, st1);
    HookFrame(st1, Begin(st1));
  }

  lemma DropParentHooks(st: State, f: FrameId)
    requires Inv(st) && HookLog(st) && At(st, f, DROP_PARENT)
    ensures HookLog(DropParent(st, f))
  {
    hide Inv, HookLog, Unref, DropParent;
    InvParts(st);
    var c := st.frames[f].cur.value;
    var p, st1 := st.devs[c].parent, st.(devs := st.devs[c := Alone(st.devs[c], f)]);
    MoveAlone(st, f);
    HookFrame(st, st1);
    if p.Some? && p.value in st1.devs && st1.devs[p.value].refs > 0 {
      UnrefStage(st1, p.value);
      HookFrame(st1, Unref(st1, p.value));
    }
  }

  lemma DestroyHooks(st: State, f: FrameId)
    requires Inv(st) && HookLog(st) && At(st, f, DESTROY)
    ensures HookLog(Bury(st.(frames := st.frames[f := st.frames[f].(cur := None)]), st.frames[f].cur.value))
  {
    assert Graves(st);
    hide Inv, HookLog, Graves, Bury, SameStage, BuryPhase;
    var d := st.frames[f].cur.value;
    var st1 := st.(frames := st.frames[f := st.frames[f].(cur := None)]);
    SameGraves(st, st1);
    BuryDevs(st1, d);
    BuryLogs(st1, d);
    var st' := Bury(st1, d);
    forall x | x in st.devs ensures SameStage(st.devs[x], st'.devs[x]) {
      BuryStage(st.devs[x], st'.devs[x], x == d, f);
    }
    HookFrame(st, st');
  }

  lemma BuryStage(r: Dev, r': Dev, self: bool, f: FrameId)
    requires r'.(phase := r.phase) == r && BuryPhase(r.phase, r'.phase, self)
    requires self ==> r.phase == Current(f, DESTROY)
    ensures SameStage(r, r')
  {
  }

  lemma BuryLogs(st: State, d: DevId)
    requires d in st.devs
    ensures Bury(st, d).hooks == st.hooks && Bury(st, d).released == st.released
  {
  }

  lemma PopHooks(st: State, f: FrameId)
    requires Inv(st) && HookLog(st) && Enabled(st, PopStep(f))
    ensures HookLog(Pop(st, f))
  {
    hide Inv, HookLog;
    PopFacts(st, f);
    var d, st' := st.frames[f].list[0], Pop(st, f);
    if st.devs[d].parent.Some? && st.devs[d].added {
      PopWaits(st, f);
    } else {
      PopSilent(st, st', d);
    }
  }

  lemma PopFacts(st: State, f: FrameId)
    requires Inv(st) && Enabled(st, PopStep(f))
    ensures var d := st.frames[f].list[0];
            && st.devs[d].phase == Listed(f)
            && (st.devs[d].parent.Some? ==> HasParent(st, d))
            && (st.devs[d].parent.None? || !st.devs[d].added ==> st.devs[d].mother.None?)
  {
    assert Lists(st);
    InvParts(st);
    PopListed(st, f);
  }

  lemma PopSilent(st: State, st': State, d: DevId)
    requires HookLog(st) && d in st.devs && st.devs[d].mother.None?
    requires st'.hooks == st.hooks && st'.released == st.released
    requires st'.devs.Keys == st.devs.Keys && st'.devs == st.devs[d := st'.devs[d]]
    requires st'.devs[d] == st.devs[d].(phase := st'.devs[d].phase)
    requires st'.devs[d].phase.Current? && st'.devs[d].phase.pc != PRE_RELEASE
    ensures HookLog(st')
  {
    hide Told;
    forall p, c ensures ToldOf(st', p, c) <==> ToldOf(st, p, c) { }
    hide Before, NoDup;
  }

  lemma PopWaits(st: State, f: FrameId)
    requires HookLog(st) && Enabled(st, PopStep(f))
    requires var d := st.frames[f].list[0];
             st.devs[d].phase == Listed(f) && st.devs[d].added && st.devs[d].parent.Some? && HasParent(st, d)
    ensures HookLog(Pop(st, f))
  {
    var d, st' := st.frames[f].list[0], Pop(st, f);
    forall p, c ensures ToldOf(st', p, c) <==> ToldOf(st, p, c) { }
    hide Before, NoDup;
  }

  lemma PreReleaseHooks(st: State, f: FrameId)
    requires Inv(st) && HookLog(st) && At(st, f, PRE_RELEASE)
    ensures HookLog(PreRelease(st, f))
  {
    var d, st' := st.frames[f].cur.value, PreRelease(st, f);
    assert HasParent(st, d);
    assert Log(st);
    hide Inv;
    ReleaseAdded(st, d);
    hide Log;
    var p := st.devs[d].parent.value;
    forall q, c ensures ToldOf(st', q, c) <==> ToldOf(st, q, c) || (q == p && c == d) { }
    TellParent(st, st', p, d);
  }

  lemma TellParent(st: State, st': State, p: DevId, d: DevId)
    requires HookLog(st) && st'.hooks == st.hooks + [PreReleased(p, d)]
    requires st'.released == st.released && d !in st.released
    requires !ToldOf(st, p, d) && forall q, c :: ToldOf(st', q, c) <==> ToldOf(st, q, c) || (q == p && c == d)
    requires d in st.devs && d in st'.devs && st'.devs == st.devs[d := st'.devs[d]] && st'.devs[d].phase.Current?
    requires st'.devs[d].phase.pc == RELEASE
    ensures HookLog(st')
  {
    hide ToldOf;
    var e := PreReleased(p, d);
    AppendNoDup(st.hooks, e);
    forall x, y ensures Before(st.hooks, x, y) ==> Before(st'.hooks, x, y) { AppendBefore(st.hooks, e, x, y); }
    hide Before, NoDup;
  }

  lemma ReleaseHooks(st: State, f: FrameId)
    requires Inv(st) && HookLog(st) && At(st, f, RELEASE)
    ensures HookLog(Release(st, f))
  {
    var d, st' := st.frames[f].cur.value, Release(st, f);
    assert Log(st);
    hide Inv;
    ReleaseAdded(st, d);
    hide Log;
    forall q, c ensures ToldOf(st', q, c) <==> ToldOf(st, q, c) { }
    LogRelease(st, st', d);
  }

  lemma LogRelease(st: State, st': State, d: DevId)
    requires HookLog(st) && st'.hooks == st.hooks + [Released(d)]
    requires st'.released == st.released + [d] && d !in st.released
    requires forall q, c :: ToldOf(st', q, c) <==> ToldOf(st, q, c)
    requires d in st.devs && d in st'.devs && st'.devs == st.devs[d := st'.devs[d]] && st'.devs[d].phase.Current?
    requires st'.devs[d].phase.pc == DROP_PARENT
    ensures HookLog(st')
  {
    hide ToldOf;
    var e := Released(d);
    AppendNoDup(st.hooks, e);
    forall x, y | Before(st'.released, x, y) ensures Before(st'.hooks, Released(x), Released(y)) {
      AppendBefore(st.released, d, x, y);
      AppendBefore(st.hooks, e, Released(x), Released(y));
    }
    forall p, c | ToldOf(st', p, c) && c in st'.released ensures Before(st'.hooks, PreReleased(p, c), Released(c)) {
      AppendBefore(st.hooks, e, PreReleased(p, c), Released(c));
    }
    hide Before, NoDup;
  }

  /** The other steps: they create, add, mark and count. */
  lemma OtherHooks(st: State, step: Step)
    requires Inv(st) && HookLog(st) && Enabled(st, step)
    requires step.CreateStep? || step.RefStep? || step.AddStep? || step.AddProxyStep? || step.MarkDeadStep?
             || step.EnumAcquireStep? || step.ReturnStep?
    ensures HookLog(Apply(st, step))
  {
    hide Inv, HookLog, SameStage;
    InvParts(st);
    var st' := Apply(st, step);
    forall d | d in st.devs ensures d in st'.devs && SameStage(st.devs[d], st'.devs[d]) {
      SameDevice(st.devs[d]);
      if st'.devs[d] != st.devs[d] { StillLive(st.devs[d], st'.devs[d]); }
    }
    HookFrame(st, st');
  }

  lemma SameDevice(r: Dev)
    ensures SameStage(r, r)
  {
  }

  lemma StillLive(r: Dev, r': Dev)
    requires r.phase == Live && r'.phase == Live
    ensures SameStage(r, r')
  {
  }

  lemma StepHooks(st: State, step: Step)
    requires Inv(st) && HookLog(st) && Enabled(st, step)
    ensures HookLog(Apply(st, step))
  {
    hide Inv, HookLog, Unref, Begin, Add, AddProxy, Pop, DropParent, Bury, PreRelease, Release;
    match step
    case DropStep(d) => DropHooks(st, d);
    case EnumReleaseStep => EnumHooks(st);
    case PopStep(f) => PopHooks(st, f);
    case PreReleaseStep(f) => PreReleaseHooks(st, f);
    case ReleaseStep(f) => ReleaseHooks(st, f);
    case DropParentStep(f) => DropParentHooks(st, f);
    case DestroyStep(f) => DestroyHooks(st, f);
    case _ => OtherHooks(st, step);
  }

  lemma {:induction false} RunHooks(st: State, steps: seq<Step>, st': State)
    requires Inv(st) && HookLog(st) && Run(st, steps, st')
    ensures Inv(st') && HookLog(st')
    decreases |steps|
  {
    hide Inv, HookLog, Apply, Enabled;
    if steps == [] {
    } else {
      StepInv(st, steps[0]);
      StepHooks(st, steps[0]);
      RunHooks(Apply(st, steps[0]), steps[1..], st');
    }
  }

  lemma BootHooks()
    ensures HookLog(Boot())
  {
  }

  /** Over every run: for each released device that was added to a parent, the
      hook of that parent was called once for it, before the device's own
      release hook, and that before the parent's; no parent's hook is called for
      any other device. */
  lemma HookOrder(steps: seq<Step>, st: State, d: DevId)
    requires Run(Boot(), steps, st)
    ensures NoDup(st.hooks)
    ensures d in st.released <==> Released(d) in st.hooks
    ensures d in st.released && d in st.devs && st.devs[d].mother.Some? ==>
              Before(st.hooks, PreReleased(st.devs[d].mother.value, d), Released(d))
    ensures d in st.released && d in st.devs && st.devs[d].mother.Some? && st.devs[d].mother.value in st.released ==>
              Before(st.hooks, Released(d), Released(st.devs[d].mother.value))
    ensures forall p: DevId :: PreReleased(p, d) in st.hooks ==> d in st.devs && st.devs[d].mother == Some(p)
  {
    BootInv();
    BootHooks();
    RunHooks(Boot(), steps, st);
    assert Log(st) && Family(st);
    hide Inv, Run, Before;
    if d in st.released && st.devs[d].mother.Some? {
      assert FamilyAt(st, d) && ToldOf(st, st.devs[d].mother.value, d);
    }
  }
}
