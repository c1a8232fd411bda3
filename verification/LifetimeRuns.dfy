/** What every step of a driver host keeps: devices are torn down children
    first, released once, and freed late. */
module LifetimeRuns {
  import opened Common
  import opened Lifetime

  ghost function Holders(devs: map<DevId, Dev>, p: DevId): set<DevId> {
    set x | x in devs && devs[x].parent == Some(p)
  }

  /** A device is past giving up its reference to its parent. */
  predicate Parentless(ph: Phase) {
    ph.Destroyed? || ph.Freed? || (ph.Current? && ph.pc == DESTROY)
  }

  /** A reference count is the number of references, and devices without
      references are the ones being torn down. */
  ghost predicate CountAt(devs: map<DevId, Dev>, d: DevId, extra: nat)
    requires d in devs
  {
    var r := devs[d];
    && r.refs == r.ext + |Holders(devs, d)| + extra
    && (r.phase == Live <==> r.refs > 0)
    && (r.parent.Some? ==> r.parent.value in devs)
    && (Parentless(r.phase) ==> r.parent.None?)
  }

  ghost predicate Counts(devs: map<DevId, Dev>) {
    forall d :: d in devs ==> CountAt(devs, d, 0)
  }

  /** A child is on its parent's list until its finalization begins. */
  ghost predicate KidsAt(devs: map<DevId, Dev>, p: DevId)
    requires p in devs
  {
    && NoDup(devs[p].children)
    && forall x :: x in devs[p].children <==>
         x in devs && devs[x].parent == Some(p) && (devs[x].phase == Live || devs[x].phase == Deferred)
  }

  ghost predicate Kids(devs: map<DevId, Dev>) {
    forall p :: p in devs ==> KidsAt(devs, p)
  }

  /** Lists hold the devices in the phase they stand for, once each. */
  ghost predicate Lists(st: State) {
    && NoDup(st.defer) && (forall d :: d in st.defer <==> d in st.devs && st.devs[d].phase == Deferred)
    && (forall f :: f in st.frames ==> f < st.nextFrame && FrameAt(st, f))
    && (forall d :: d in st.devs && st.devs[d].phase.Listed? ==> st.devs[d].phase.f in st.frames)
    && (forall d :: d in st.devs && st.devs[d].phase.Current? ==> st.devs[d].phase.f in st.frames)
  }

  ghost predicate FrameAt(st: State, f: FrameId)
    requires f in st.frames
  {
    && NoDup(st.frames[f].list) && (forall d :: d in st.frames[f].list <==>
                                      d in st.devs && st.devs[d].phase == Listed(f))
    && (forall d :: st.frames[f].cur == Some(d) <==>
          d in st.devs && st.devs[d].phase.Current? && st.devs[d].phase.f == f)
  }

  /** Finalization is deferred only for enumerations. */
  ghost predicate Idle(st: State) {
    st.enumerators == 0 ==> st.defer == []
  }

  /** The release hook of a device has run. */
  predicate Past(ph: Phase) {
    ph.Destroyed? || ph.Freed? || (ph.Current? && ph.pc in {DROP_PARENT, DESTROY})
  }

  /** The release hook runs once, for devices that were added. */
  ghost predicate Log(st: State) {
    && NoDup(st.released)
    && (forall d :: d in st.released <==> d in st.devs && st.devs[d].added && Past(st.devs[d].phase))
    && (forall d :: d in st.devs && st.devs[d].phase.Current? && !Past(st.devs[d].phase) ==> st.devs[d].added)
  }

  /** A device keeps its parent until it was released, and so is released
      before it. */
  ghost predicate FamilyAt(st: State, x: DevId)
    requires x in st.devs
  {
    var r := st.devs[x];
    && (r.parent.Some? ==> r.mother == r.parent)
    && (r.mother.Some? ==>
          && r.added && r.mother.value in st.devs
          && (r.parent == r.mother || (r.parent.None? && Parentless(r.phase)))
          && (r.mother.value in st.released ==> Before(st.released, x, r.mother.value)))
  }

  ghost predicate Family(st: State) {
    forall x :: x in st.devs ==> FamilyAt(st, x)
  }

  function Cut(n: nat): nat {
    if n <= DEAD_DEVICE_MAX then 0 else n - DEAD_DEVICE_MAX
  }

  /** The last seven destroyed devices are kept, the earlier ones are freed. */
  ghost predicate Graves(st: State) {
    var cut := Cut(|st.destroyed|);
    && st.dead == st.destroyed[cut..] && st.deadCount == |st.destroyed| - cut && NoDup(st.destroyed)
    && (forall d :: d in st.destroyed[cut..] <==> d in st.devs && st.devs[d].phase == Destroyed)
    && (forall d :: d in st.destroyed[..cut] <==> d in st.devs && st.devs[d].phase == Freed)
  }

  /** A busy device was not added and has no parent; only such devices are
      stranded. */
  ghost predicate Unlinked(devs: map<DevId, Dev>) {
    forall d :: d in devs ==>
      && (devs[d].busy ==> !devs[d].added && devs[d].parent.None?)
      && (devs[d].phase == Stranded ==> devs[d].busy)
  }

  ghost predicate Inv(st: State) {
    && Counts(st.devs) && Kids(st.devs) && Lists(st) && Idle(st) && Log(st) && Family(st) && Graves(st)
    && Unlinked(st.devs)
  }

  // ----- beginning a finalization

  lemma {:induction false} DetachAllSpec(devs: map<DevId, Dev>, list: seq<DevId>)
    requires NoDup(list) && forall p :: p in devs ==> NoDup(devs[p].children)
    ensures DetachAll(devs, list).Keys == devs.Keys
    ensures forall p :: p in devs ==> Detached(devs, list, DetachAll(devs, list), p)
    decreases |list|
  {
    if list == [] {
    } else {
      var d, devs1 := list[0], Detach(devs, list[0]);
      assert list == [d] + list[1..];
      DetachSpec(devs, d);
      DetachAllSpec(devs1, list[1..]);
      forall p | p in devs ensures Detached(devs, list, DetachAll(devs, list), p) {
        assert Detached(devs, [d], devs1, p) && Detached(devs1, list[1..], DetachAll(devs1, list[1..]), p);
        DetachedMore(devs, [d], devs1, list[1..], DetachAll(devs1, list[1..]), p);
      }
    }
  }

  ghost predicate Detached(devs: map<DevId, Dev>, list: seq<DevId>, devs': map<DevId, Dev>, p: DevId)
    requires p in devs
  {
    && devs'.Keys == devs.Keys && devs'[p].(children := devs[p].children) == devs[p] && NoDup(devs'[p].children)
    && forall x :: x in devs'[p].children <==>
         x in devs[p].children && !(x in list && x in devs && devs[x].parent == Some(p))
  }

  lemma DetachSpec(devs: map<DevId, Dev>, d: DevId)
    requires forall p :: p in devs ==> NoDup(devs[p].children)
    ensures Detach(devs, d).Keys == devs.Keys
    ensures forall p :: p in devs ==> Detached(devs, [d], Detach(devs, d), p)
  {
    var devs' := Detach(devs, d);
    forall p | p in devs ensures Detached(devs, [d], devs', p) { EraseSpec(devs[p].children, d); }
  }

  lemma DetachedMore(devs: map<DevId, Dev>, a: seq<DevId>, devs1: map<DevId, Dev>, b: seq<DevId>, devs': map<DevId,
                     Dev>, p: DevId)
    requires p in devs && devs1.Keys == devs.Keys && Detached(devs, a, devs1, p) && Detached(devs1, b, devs', p)
    requires forall x :: x in devs ==> devs1[x].parent == devs[x].parent
    ensures Detached(devs, a + b, devs', p)
  {
  }

  // ----- parts a change does not touch

  lemma CountsFrame(devs: map<DevId, Dev>, devs': map<DevId, Dev>)
    requires Counts(devs) && devs'.Keys == devs.Keys
    requires forall d :: d in devs ==>
               && devs'[d].refs == devs[d].refs && devs'[d].ext == devs[d].ext && devs'[d].parent == devs[d].parent
               && (devs'[d].phase == Live <==> devs[d].phase == Live) && (Parentless(devs'[d].phase) ==>
                        Parentless(devs[d].phase))
    ensures Counts(devs')
  {
    forall d | d in devs' ensures CountAt(devs', d, 0) {
      assert CountAt(devs, d, 0);
      assert Holders(devs', d) == Holders(devs, d);
    }
  }

  predicate OnList(ph: Phase) {
    ph == Live || ph == Deferred
  }

  lemma KidsFrame(devs: map<DevId, Dev>, devs': map<DevId, Dev>)
    requires Kids(devs) && devs'.Keys == devs.Keys
    requires forall d :: d in devs ==>
               devs'[d].children == devs[d].children && devs'[d].parent == devs[d].parent
               && (OnList(devs'[d].phase) <==> OnList(devs[d].phase))
    ensures Kids(devs')
  {
  }

  lemma ListsFrame(st: State, st': State)
    requires Lists(st) && st'.defer == st.defer && st'.frames == st.frames && st'.nextFrame == st.nextFrame
    requires st.devs.Keys <= st'.devs.Keys
    requires forall d :: d in st'.devs ==> st'.devs[d].phase == if d in st.devs then st.devs[d].phase else Live
    ensures Lists(st')
  {
    forall f | f in st'.frames ensures f < st'.nextFrame && FrameAt(st', f) { assert FrameAt(st, f); }
  }

  /** A change of a device that the record of releases need not notice. */
  predicate LogSame(r: Dev, r': Dev) {
    && (Past(r'.phase) <==> Past(r.phase))
    && (r'.added <==> r.added || (r.phase == Live && r'.added))
    && (r'.phase.Current? && !Past(r'.phase) ==> r'.phase == r.phase || r'.added)
  }

  lemma LogFrame(st: State, st': State)
    requires Log(st) && st'.released == st.released && st.devs.Keys <= st'.devs.Keys
    requires forall d :: d in st'.devs ==>
               if d in st.devs then LogSame(st.devs[d], st'.devs[d]) else st'.devs[d].phase == Live
    ensures Log(st')
  {
  }

  lemma FamilyFrame(st: State, st': State)
    requires Family(st) && st'.released == st.released && st'.devs.Keys == st.devs.Keys
    requires forall d :: d in st.devs ==>
               && st'.devs[d].parent == st.devs[d].parent && st'.devs[d].mother == st.devs[d].mother
               && (st.devs[d].added ==> st'.devs[d].added)
               && (Parentless(st.devs[d].phase) ==> Parentless(st'.devs[d].phase))
    ensures Family(st')
  {
  }

  predicate Buried(ph: Phase) {
    ph.Destroyed? || ph.Freed?
  }

  lemma GravesFrame(st: State, st': State)
    requires Graves(st) && st'.destroyed == st.destroyed && st'.dead == st.dead && st'.deadCount == st.deadCount
    requires st.devs.Keys <= st'.devs.Keys
    requires forall d :: d in st'.devs ==>
               if d in st.devs then Buried(st'.devs[d].phase) || Buried(st.devs[d].phase) ==>
                 st'.devs[d].phase == st.devs[d].phase
               else st'.devs[d].phase == Live
    ensures Graves(st')
  {
  }

  ghost predicate Rest(st: State) {
    Kids(st.devs) && Lists(st) && Log(st) && Family(st) && Graves(st) && Unlinked(st.devs)
  }

  lemma UnlinkedFrame(devs: map<DevId, Dev>, d: DevId, r: Dev)
    requires Unlinked(devs) && d in devs
    requires r.busy ==>
               (!r.added && r.parent.None?) || (r.added == devs[d].added && r.parent == devs[d].parent && devs[d].busy)
    requires r.phase == Stranded ==> r.busy || (devs[d].phase == Stranded && r.busy == devs[d].busy)
    ensures Unlinked(devs[d := r])
  {
  }

  /** One device changes in ways that only counts depend on. */
  lemma RestFrame(st: State, d: DevId, r: Dev)
    requires Rest(st) && d in st.devs
    requires r.(refs := st.devs[d].refs, ext := st.devs[d].ext, dead := st.devs[d].dead) == st.devs[d]
    ensures Rest(st.(devs := st.devs[d := r]))
  {
    hide Kids, Lists, Log, Family, Graves, OnList, Past, Parentless, Buried;
    var st' := st.(devs := st.devs[d := r]);
    KidsFrame(st.devs, st'.devs);
    ListsFrame(st, st');
    LogFrame(st, st');
    FamilyFrame(st, st');
    GravesFrame(st, st');
  }

  // ----- beginning a finalization, continued

  /** Deferred devices leave their parents' lists and go to the new frame. */
  ghost predicate Begun(st: State, st': State) {
    && st'.devs.Keys == st.devs.Keys && st'.enumerators == st.enumerators && st'.released == st.released
    && st'.dead == st.dead && st'.deadCount == st.deadCount && st'.destroyed == st.destroyed
    && (forall d :: d in st.devs ==> BegunAt(st, st', d))
  }

  ghost predicate BegunAt(st: State, st': State, d: DevId)
    requires d in st.devs
  {
    && d in st'.devs && st'.devs[d].(children := st.devs[d].children, phase := st.devs[d].phase) == st.devs[d]
    && st'.devs[d].phase == (if st.devs[d].phase == Deferred then Listed(st.nextFrame) else st.devs[d].phase)
    && NoDup(st'.devs[d].children)
    && forall x :: x in st'.devs[d].children <==>
         x in st.devs[d].children && x in st.devs && st.devs[x].phase != Deferred
  }

  lemma BeginDevs(st: State)
    requires Kids(st.devs) && Lists(st) && st.defer != []
    ensures Begun(st, Begin(st))
  {
    hide DetachAll, Kids, KidsAt;
    forall p | p in st.devs ensures NoDup(st.devs[p].children) { KidsHere(st.devs, p); }
    DetachAllSpec(st.devs, st.defer);
    var devs1, st' := DetachAll(st.devs, st.defer), Begin(st);
    forall p | p in st.devs ensures BegunAt(st, st', p) {
      KidsHere(st.devs, p);
      DetachedBegun(st, devs1, p);
    }
  }

  lemma KidsHere(devs: map<DevId, Dev>, p: DevId)
    requires Kids(devs) && p in devs
    ensures NoDup(devs[p].children) && forall x :: x in devs[p].children ==> x in devs && devs[x].parent == Some(p)
  {
  }

  lemma DetachedBegun(st: State, devs1: map<DevId, Dev>, p: DevId)
    requires p in st.devs && devs1.Keys == st.devs.Keys && Detached(st.devs, st.defer, devs1, p)
    requires forall x :: x in st.devs[p].children ==> x in st.devs && st.devs[x].parent == Some(p)
    requires forall d :: d in st.defer <==> d in st.devs && st.devs[d].phase == Deferred
    ensures BegunAt(st, st.(devs := ToFrame(devs1, st.defer, st.nextFrame)), p)
  {
  }

  lemma BeginKids(st: State, st': State)
    requires Kids(st.devs) && Begun(st, st')
    ensures Kids(st'.devs)
  {
  }

  lemma BeginLists(st: State, st': State)
    requires Lists(st) && st.defer != [] && st'.devs.Keys == st.devs.Keys
    requires forall d :: d in st.devs ==>
               st'.devs[d].phase == if st.devs[d].phase == Deferred then Listed(st.nextFrame) else st.devs[d].phase
    requires st'.defer == [] && st'.frames == st.frames[st.nextFrame := Frame(st.defer, None)]
    requires st'.nextFrame == st.nextFrame + 1
    ensures Lists(st')
  {
    forall f | f in st'.frames ensures f < st'.nextFrame && FrameAt(st', f) {
      if f in st.frames { assert FrameAt(st, f); }
    }
  }

  lemma BeginFrames(st: State)
    requires st.defer != []
    ensures Begin(st).defer == [] && Begin(st).frames == st.frames[st.nextFrame := Frame(st.defer, None)]
    ensures Begin(st).nextFrame == st.nextFrame + 1
  {
  }

  lemma BeginInv(st: State)
    requires Counts(st.devs) && Rest(st)
    ensures Inv(Begin(st))
  {
    hide Begin, Counts, Kids, Lists, Log, Family, Graves;
    if st.defer == [] {
      BeginNothing(st);
    } else {
      BeginDevs(st);
      BeginFrames(st);
      BeginKids(st, Begin(st));
      assert forall d :: d in st.devs ==> BegunAt(st, Begin(st), d);
      BeginLists(st, Begin(st));
      BeginOthers(st, Begin(st));
    }
  }

  lemma BeginOthers(st: State, st': State)
    requires Counts(st.devs) && Log(st) && Family(st) && Graves(st) && Begun(st, st')
    ensures Counts(st'.devs) && Log(st') && Family(st') && Graves(st')
  {
    hide Counts, Log, Family, Graves;
    assert forall d :: d in st.devs ==> BegunAt(st, st', d);
    CountsFrame(st.devs, st'.devs);
    LogFrame(st, st');
    FamilyFrame(st, st');
    GravesFrame(st, st');
  }

  lemma BeginNothing(st: State)
    requires st.defer == []
    ensures Begin(st) == st
  {
  }

  // ----- giving up a reference

  /** The count of `d` includes one reference that is just being given up. */
  ghost predicate CountsBut(devs: map<DevId, Dev>, d: DevId) {
    d in devs && forall x :: x in devs ==> CountAt(devs, x, if x == d then 1 else 0)
  }

  /** What becomes of a live device with `n` references left. */
  function LastPhase(r: Dev, n: nat): Phase {
    if n > 0 then Live else if r.busy then Stranded else Deferred
  }

  lemma UnrefCounts(devs: map<DevId, Dev>, d: DevId)
    requires CountsBut(devs, d)
    ensures devs[d].refs > 0 && devs[d].phase == Live
    ensures var r := devs[d].refs - 1;
            Counts(devs[d := devs[d].(refs := r, phase := LastPhase(devs[d], r))])
  {
    assert CountAt(devs, d, 1);
    var devs' := devs[d := devs[d].(refs := devs[d].refs - 1, phase := LastPhase(devs[d], devs[d].refs - 1))];
    forall x | x in devs' ensures CountAt(devs', x, 0) {
      assert CountAt(devs, x, if x == d then 1 else 0);
      assert Holders(devs', x) == Holders(devs, x);
    }
  }

  lemma DeferLists(st: State, st': State, d: DevId)
    requires Lists(st) && d in st.devs && st.devs[d].phase == Live && st'.devs.Keys == st.devs.Keys
    requires st'.defer == st.defer + [d] && st'.frames == st.frames && st'.nextFrame == st.nextFrame
    requires forall x :: x in st.devs ==> st'.devs[x].phase == if x == d then Deferred else st.devs[x].phase
    ensures Lists(st')
  {
    forall f | f in st'.frames ensures f < st'.nextFrame && FrameAt(st', f) { assert FrameAt(st, f); }
  }

  lemma DeferRest(st: State, d: DevId, r: Dev)
    requires Rest(st) && d in st.devs && st.devs[d].phase == Live && !st.devs[d].busy && r.phase == Deferred
    requires r.(refs := st.devs[d].refs, phase := Live) == st.devs[d]
    ensures Rest(st.(devs := st.devs[d := r], defer := st.defer + [d]))
  {
    hide Kids, Lists, Log, Family, Graves;
    var st' := st.(devs := st.devs[d := r], defer := st.defer + [d]);
    KidsFrame(st.devs, st'.devs);
    DeferLists(st, st', d);
    LogFrame(st, st');
    FamilyFrame(st, st');
    GravesFrame(st, st');
  }

  lemma UnrefInv(st: State, d: DevId)
    requires CountsBut(st.devs, d) && Rest(st) && Idle(st)
    ensures d in st.devs && st.devs[d].refs > 0 && Inv(Unref(st, d))
  {
    UnrefThere(st.devs, d);
    hide CountsBut, Counts, Rest, Begin, Unref, Inv;
    UnrefCounts(st.devs, d);
    var r := st.devs[d].refs - 1;
    if r == 0 && st.devs[d].busy {
      var r1 := st.devs[d].(refs := 0, phase := Stranded);
      StrandRest(st, d, r1);
      UnrefBusy(st, d);
      Whole(st.(devs := st.devs[d := r1]));
    } else if r == 0 {
      var r1 := st.devs[d].(refs := 0, phase := Deferred);
      DeferRest(st, d, r1);
      var st1 := st.(devs := st.devs[d := r1], defer := st.defer + [d]);
      UnrefLast(st, d);
      if st.enumerators == 0 { BeginInv(st1); } else { Whole(st1); }
    } else {
      var r1 := st.devs[d].(refs := r);
      RestFrame(st, d, r1);
      UnrefMore(st, d);
      Whole(st.(devs := st.devs[d := r1]));
    }
  }

  lemma UnrefThere(devs: map<DevId, Dev>, d: DevId)
    requires CountsBut(devs, d)
    ensures d in devs
  {
  }

  lemma UnrefBusy(st: State, d: DevId)
    requires d in st.devs && st.devs[d].refs == 1 && st.devs[d].busy
    ensures Unref(st, d) == st.(devs := st.devs[d := st.devs[d].(refs := 0, phase := Stranded)])
  {
    var devs1 := st.devs[d := st.devs[d].(refs := 0)];
    assert devs1[d := devs1[d].(phase := Stranded)] == st.devs[d := st.devs[d].(refs := 0, phase := Stranded)];
  }

  lemma BusyAlone(devs: map<DevId, Dev>, d: DevId)
    requires Unlinked(devs) && d in devs && devs[d].busy
    ensures !devs[d].added && devs[d].parent.None?
  {
  }

  /** A device that is left alone is on no list. */
  lemma StrandRest(st: State, d: DevId, r: Dev)
    requires Rest(st) && d in st.devs && st.devs[d].phase == Live && st.devs[d].busy && r.phase == Stranded
    requires r.(refs := st.devs[d].refs, phase := Live) == st.devs[d]
    ensures Rest(st.(devs := st.devs[d := r]))
  {
    hide Kids, Lists, Log, Family, Graves, Unlinked;
    BusyAlone(st.devs, d);
    var st' := st.(devs := st.devs[d := r]);
    UnlinkedFrame(st.devs, d, r);
    StrandKids(st.devs, d, r);
    StrandLists(st, d, r);
    LogFrame(st, st');
    FamilyFrame(st, st');
    GravesFrame(st, st');
  }

  lemma StrandKids(devs: map<DevId, Dev>, d: DevId, r: Dev)
    requires Kids(devs) && d in devs && devs[d].parent.None? && r.parent.None? && r.children == devs[d].children
    ensures Kids(devs[d := r])
  {
    forall p | p in devs ensures KidsAt(devs[d := r], p) { assert KidsAt(devs, p); }
  }

  lemma StrandLists(st: State, d: DevId, r: Dev)
    requires Lists(st) && d in st.devs && st.devs[d].phase == Live && r.phase == Stranded
    ensures Lists(st.(devs := st.devs[d := r]))
  {
    var st' := st.(devs := st.devs[d := r]);
    forall f | f in st'.frames ensures f < st'.nextFrame && FrameAt(st', f) { assert FrameAt(st, f); }
  }

  lemma UnrefLast(st: State, d: DevId)
    requires d in st.devs && st.devs[d].refs == 1 && !st.devs[d].busy
    ensures var st1 := st.(devs := st.devs[d := st.devs[d].(refs := 0, phase := Deferred)], defer := st.defer + [d]);
            Unref(st, d) == if st.enumerators == 0 then Begin(st1) else st1
  {
    hide Begin;
    var devs1 := st.devs[d := st.devs[d].(refs := 0)];
    assert devs1[d := devs1[d].(phase := Deferred)] == st.devs[d := st.devs[d].(refs := 0, phase := Deferred)];
  }

  lemma UnrefMore(st: State, d: DevId)
    requires d in st.devs && st.devs[d].refs > 1
    ensures Unref(st, d) == st.(devs := st.devs[d := st.devs[d].(refs := st.devs[d].refs - 1)])
  {
  }

  lemma Whole(st: State)
    requires Counts(st.devs) && Rest(st) && Idle(st)
    ensures Inv(st)
  {
  }

  lemma DropCounts(devs: map<DevId, Dev>, d: DevId)
    requires Counts(devs) && d in devs && devs[d].ext > 0
    ensures CountsBut(devs[d := devs[d].(ext := devs[d].ext - 1)], d)
  {
    var devs' := devs[d := devs[d].(ext := devs[d].ext - 1)];
    forall x | x in devs' ensures CountAt(devs', x, if x == d then 1 else 0) {
      assert CountAt(devs, x, 0);
      assert Holders(devs', x) == Holders(devs, x);
    }
  }

  lemma DropInv(st: State, d: DevId)
    requires Inv(st) && Enabled(st, DropStep(d))
    ensures Inv(Apply(st, DropStep(d)))
  {
    hide CountsBut, Counts, Kids, Lists, Log, Family, Graves, Unref;
    var r := st.devs[d].(ext := st.devs[d].ext - 1);
    DropCounts(st.devs, d);
    RestFrame(st, d, r);
    UnrefInv(st.(devs := st.devs[d := r]), d);
  }

  // ----- creating, adding, copying

  lemma CreateInv(st: State, d: DevId)
    requires Inv(st) && d !in st.devs
    ensures Inv(st.(devs := st.devs[d := Dev(1, 1, None, [], false, false, Live, None, false)]))
  {
    hide Counts, Kids, Lists, Log, Family, Graves;
    var st' := st.(devs := st.devs[d := Dev(1, 1, None, [], false, false, Live, None, false)]);
    CreateCounts(st.devs, st'.devs, d);
    CreateKids(st.devs, st'.devs, d);
    CreateFamily(st, st', d);
    ListsFrame(st, st');
    LogFrame(st, st');
    GravesFrame(st, st');
  }

  lemma CreateCounts(devs: map<DevId, Dev>, devs': map<DevId, Dev>, d: DevId)
    requires Counts(devs) && d !in devs && devs' == devs[d := Dev(1, 1, None, [], false, false, Live, None, false)]
    ensures Counts(devs')
  {
    forall y | y in devs ensures devs[y].parent != Some(d) { assert CountAt(devs, y, 0); }
    forall x | x in devs' ensures CountAt(devs', x, 0) {
      if x in devs { assert CountAt(devs, x, 0); }
      assert Holders(devs', x) == if x == d then {} else Holders(devs, x);
    }
  }

  lemma CreateKids(devs: map<DevId, Dev>, devs': map<DevId, Dev>, d: DevId)
    requires Counts(devs) && Kids(devs) && d !in devs
    requires devs' == devs[d := Dev(1, 1, None, [], false, false, Live, None, false)]
    ensures Kids(devs')
  {
    forall y | y in devs ensures devs[y].parent != Some(d) { assert CountAt(devs, y, 0); }
    forall p | p in devs' ensures KidsAt(devs', p) { if p in devs { assert KidsAt(devs, p); } }
  }

  lemma CreateFamily(st: State, st': State, d: DevId)
    requires Family(st) && d !in st.devs
    requires st' == st.(devs := st.devs[d := Dev(1, 1, None, [], false, false, Live, None, false)])
    ensures Family(st')
  {
  }

  lemma RefInv(st: State, d: DevId)
    requires Inv(st) && Enabled(st, RefStep(d))
    ensures Inv(Apply(st, RefStep(d)))
  {
    hide Kids, Lists, Log, Family, Graves;
    var r := st.devs[d].(refs := st.devs[d].refs + 1, ext := st.devs[d].ext + 1);
    RefCounts(st.devs, d, r);
    hide Counts;
    RestFrame(st, d, r);
    Whole(st.(devs := st.devs[d := r]));
  }

  lemma RefCounts(devs: map<DevId, Dev>, d: DevId, r: Dev)
    requires Counts(devs) && d in devs && devs[d].phase == Live
    requires r == devs[d].(refs := devs[d].refs + 1, ext := devs[d].ext + 1)
    ensures Counts(devs[d := r])
  {
    forall x | x in devs ensures CountAt(devs[d := r], x, 0) {
      assert CountAt(devs, x, 0);
      assert Holders(devs[d := r], x) == Holders(devs, x);
    }
  }

  lemma MarkInv(st: State, d: DevId)
    requires Inv(st) && d in st.devs
    ensures Inv(st.(devs := st.devs[d := st.devs[d].(dead := true)]))
  {
    FlagsInv(st, d, st.devs[d].(dead := true));
  }

  /** The flags of a device change; a live one may become busy or not if it was
      not added. */
  lemma FlagsInv(st: State, d: DevId, r: Dev)
    requires Inv(st) && d in st.devs && r.(dead := st.devs[d].dead, busy := st.devs[d].busy) == st.devs[d]
    requires r.busy != st.devs[d].busy ==> r.phase == Live && !r.added && r.parent.None?
    ensures Inv(st.(devs := st.devs[d := r]))
  {
    hide Counts, Kids, Lists, Log, Family, Graves, Unlinked, OnList, Past, Parentless, Buried;
    var st' := st.(devs := st.devs[d := r]);
    UnlinkedFrame(st.devs, d, r);
    CountsFrame(st.devs, st'.devs);
    KidsFrame(st.devs, st'.devs);
    ListsFrame(st, st');
    LogFrame(st, st');
    FamilyFrame(st, st');
    GravesFrame(st, st');
  }

  lemma AddProxyInv(st: State, step: Step)
    requires Inv(st) && step.AddProxyStep? && Enabled(st, step)
    ensures Inv(Apply(st, step))
  {
    hide Inv;
    var d, r := step.d, st.devs[step.d];
    IsLive(st, d);
    if r.added || st.devs[step.q].dead || !step.create.first {
      MarkInv(st, d);
    } else {
      Orphan(st, d);
      if step.create.invisible {
        FlagsInv(st, d, r.(dead := true, busy := true));
      } else {
        ProxyAddedInv(st, d, Apply(st, step));
      }
    }
  }

  lemma ProxyAddedInv(st: State, d: DevId, st': State)
    requires Inv(st) && d in st.devs && st.devs[d].phase == Live
    requires st' == st.(devs := st.devs[d := st.devs[d].(added := true, busy := false)])
    ensures Inv(st')
  {
    hide Counts, Kids, Lists, Log, Family, Graves, Unlinked, OnList, Past, Parentless, Buried;
    UnlinkedFrame(st.devs, d, st'.devs[d]);
    CountsFrame(st.devs, st'.devs);
    KidsFrame(st.devs, st'.devs);
    ListsFrame(st, st');
    LogFrame(st, st');
    FamilyFrame(st, st');
    GravesFrame(st, st');
  }

  lemma AddCounts(devs: map<DevId, Dev>, d: DevId, p: DevId, devs': map<DevId, Dev>)
    requires Counts(devs) && d in devs && p in devs && d != p && devs[d].phase == Live && devs[p].phase == Live
    requires devs[d].parent.None?
    requires devs'.Keys == devs.Keys && devs'[p].refs == devs[p].refs + 1 && devs'[d].parent == Some(p)
    requires forall x :: x in devs ==> devs'[x].ext == devs[x].ext && devs'[x].phase == devs[x].phase
                                       && (x != p ==> devs'[x].refs == devs[x].refs) && (x != d ==>
                                                devs'[x].parent == devs[x].parent)
    ensures Counts(devs')
  {
    forall x | x in devs' ensures CountAt(devs', x, 0) {
      assert CountAt(devs, x, 0);
      AddHolders(devs, d, p, devs', x);
      hide Holders;
    }
  }

  lemma AddHolders(devs: map<DevId, Dev>, d: DevId, p: DevId, devs': map<DevId, Dev>, x: DevId)
    requires d in devs && devs[d].parent.None? && devs'.Keys == devs.Keys && devs'[d].parent == Some(p)
    requires forall y :: y in devs && y != d ==> devs'[y].parent == devs[y].parent
    ensures |Holders(devs', x)| == |Holders(devs, x)| + if x == p then 1 else 0
  {
    assert Holders(devs', x) == if x == p then Holders(devs, x) + {d} else Holders(devs, x);
  }

  lemma AddKids(devs: map<DevId, Dev>, d: DevId, p: DevId, devs': map<DevId, Dev>)
    requires Kids(devs) && d in devs && p in devs && devs[d].phase == Live && devs[d].parent.None?
    requires devs'.Keys == devs.Keys && devs'[p].children == devs[p].children + [d] && devs'[d].parent == Some(p)
    requires forall x :: x in devs ==>
               devs'[x].phase == devs[x].phase && (x != p ==> devs'[x].children == devs[x].children)
                                       && (x != d ==> devs'[x].parent == devs[x].parent)
    ensures Kids(devs')
  {
    forall q | q in devs' ensures KidsAt(devs', q) { assert KidsAt(devs, q); }
  }

  lemma AddFamily(st: State, d: DevId, p: DevId, st': State)
    requires Family(st) && Log(st) && d in st.devs && p in st.devs && st.devs[p].phase == Live
    requires st'.released == st.released
    requires st'.devs.Keys == st.devs.Keys && st'.devs[d].parent == Some(p) && st'.devs[d].mother == Some(p)
    requires st'.devs[d].added
    requires forall x :: x in st.devs && x != d ==>
               st'.devs[x].parent == st.devs[x].parent && st'.devs[x].mother == st.devs[x].mother
               && st'.devs[x].added == st.devs[x].added
               && st'.devs[x].phase == st.devs[x].phase
    ensures Family(st')
  {
  }

  lemma AddInv(st: State, d: DevId, p: Option<DevId>, ok: bool)
    requires Inv(st) && Enabled(st, AddStep(d, p, ok))
    ensures Inv(Apply(st, AddStep(d, p, ok)))
  {
    hide Inv;
    var st' := Apply(st, AddStep(d, p, ok));
    IsLive(st, d);
    if st.devs[d].added || p.None? || st.devs[p.value].dead {
      MarkInv(st, d);
    } else if !ok {
      Orphan(st, d);
      FlagsInv(st, d, st.devs[d].(dead := true, busy := false));
    } else {
      IsLive(st, p.value);
      Orphan(st, d);
      AddOkInv(st, d, p.value, st');
    }
  }

  lemma IsLive(st: State, d: DevId)
    requires Inv(st) && d in st.devs && st.devs[d].ext > 0
    ensures st.devs[d].phase == Live
  {
  }

  lemma AddOkInv(st: State, d: DevId, p: DevId, st': State)
    requires Inv(st) && d in st.devs && p in st.devs && d != p && st.devs[d].phase == Live && st.devs[p].phase == Live
    requires !st.devs[d].added && st.devs[d].parent.None?
    requires st' == st.(devs := st.devs[p := st.devs[p].(refs := st.devs[p].refs + 1,
                                                         children := st.devs[p].children + [d])]
                                       [d := st.devs[d].(parent := Some(p), added := true, mother := Some(p),
                                                         busy := false)])
    ensures Inv(st')
  {
    hide Counts, Kids, Lists, Log, Family, Graves;
    AddCounts(st.devs, d, p, st'.devs);
    AddKids(st.devs, d, p, st'.devs);
    AddFamily(st, d, p, st');
    ListsFrame(st, st');
    LogFrame(st, st');
    GravesFrame(st, st');
  }

  lemma Orphan(st: State, d: DevId)
    requires Inv(st) && d in st.devs && !st.devs[d].added
    ensures st.devs[d].parent.None?
  {
  }

  // ----- finalization

  /** The device a frame is at, taken from its phase. */
  lemma CurrentHere(st: State, f: FrameId, pc: Pc)
    requires Inv(st) && At(st, f, pc)
    ensures var d := st.frames[f].cur.value; st.devs[d].refs == 0 && Holders(st.devs, d) == {}
  {
    assert CountAt(st.devs, st.frames[f].cur.value, 0);
  }

  /** Moving on within a frame: the phase of its current device changes. */
  lemma MoveLists(st: State, st': State, f: FrameId, d: DevId, pc: Pc)
    requires Lists(st) && f in st.frames && st.frames[f].cur == Some(d) && st'.devs.Keys == st.devs.Keys
    requires st'.defer == st.defer && st'.frames == st.frames && st'.nextFrame == st.nextFrame
    requires forall x :: x in st.devs ==> st'.devs[x].phase == if x == d then Current(f, pc) else st.devs[x].phase
    ensures Lists(st')
  {
    assert FrameAt(st, f);
    forall g | g in st'.frames ensures g < st'.nextFrame && FrameAt(st', g) { assert FrameAt(st, g); }
  }

  lemma PopLists(st: State, st': State, f: FrameId, d: DevId, pc: Pc)
    requires Lists(st) && f in st.frames && st.frames[f].cur.None? && st.frames[f].list != []
    requires st.frames[f].list[0] == d
    requires st'.devs.Keys == st.devs.Keys && st'.defer == st.defer && st'.nextFrame == st.nextFrame
    requires st'.frames == st.frames[f := Frame(st.frames[f].list[1..], Some(d))]
    requires forall x :: x in st.devs ==> st'.devs[x].phase == if x == d then Current(f, pc) else st.devs[x].phase
    ensures Lists(st')
  {
    hide FrameAt;
    Listing(st, f, d);
    PopFrame(st, st', f, d, pc);
    forall g | g in st'.frames && g != f
      ensures g < st'.nextFrame && FrameAt(st', g)
    {
      PopOther(st, st', d, f, pc, g);
    }
  }

  lemma Listing(st: State, f: FrameId, d: DevId)
    requires Lists(st) && f in st.frames && d in st.frames[f].list
    ensures d in st.devs && st.devs[d].phase == Listed(f) && d !in st.defer
  {
  }

  lemma PopOther(st: State, st': State, d: DevId, f: FrameId, pc: Pc, g: FrameId)
    requires f != g && g in st.frames && FrameAt(st, g) && g in st'.frames && st'.frames[g] == st.frames[g]
    requires d in st.devs ==> st.devs[d].phase == Listed(f)
    requires st'.devs.Keys == st.devs.Keys
    requires forall x :: x in st.devs ==> st'.devs[x].phase == if x == d then Current(f, pc) else st.devs[x].phase
    ensures FrameAt(st', g)
  {
  }

  lemma PopFrame(st: State, st': State, f: FrameId, d: DevId, pc: Pc)
    requires f in st.frames && FrameAt(st, f) && st.frames[f].cur.None? && st.frames[f].list != []
    requires st.frames[f].list[0] == d
    requires st'.devs.Keys == st.devs.Keys && st'.frames == st.frames[f := Frame(st.frames[f].list[1..], Some(d))]
    requires forall x :: x in st.devs ==> st'.devs[x].phase == if x == d then Current(f, pc) else st.devs[x].phase
    ensures FrameAt(st', f)
  {
  }

  /** A device that is being torn down moves on; counts and lists of children
      do not notice. */
  lemma MoveOn(st: State, d: DevId, ph: Phase, st': State)
    requires Counts(st.devs) && Kids(st.devs) && Graves(st) && d in st.devs && !OnList(st.devs[d].phase)
    requires !Buried(st.devs[d].phase)
    requires !OnList(ph) && !Buried(ph) && !Parentless(ph) && st'.devs == st.devs[d := st.devs[d].(phase := ph)]
    requires st'.dead == st.dead && st'.deadCount == st.deadCount && st'.destroyed == st.destroyed
    ensures Counts(st'.devs) && Kids(st'.devs) && Graves(st')
  {
    hide Counts, Kids, Graves, Past;
    CountsFrame(st.devs, st'.devs);
    KidsFrame(st.devs, st'.devs);
    GravesFrame(st, st');
  }

  lemma PopListed(st: State, f: FrameId)
    requires Lists(st) && Enabled(st, PopStep(f))
    ensures st.devs[st.frames[f].list[0]].phase == Listed(f)
  {
  }

  lemma PopLog(st: State, st': State, d: DevId, ph: Phase)
    requires Log(st) && d in st.devs && st.devs[d].phase.Listed? && ph.Current? && (Past(ph) <==> !st.devs[d].added)
    requires st'.released == st.released && st'.devs == st.devs[d := st.devs[d].(phase := ph)]
    ensures Log(st')
  {
  }

  lemma PopInv(st: State, f: FrameId, pc: Pc, st': State)
    requires Inv(st) && Enabled(st, PopStep(f)) && pc != DESTROY
    requires (pc == DROP_PARENT <==> !st.devs[st.frames[f].list[0]].added)
    requires var d := st.frames[f].list[0];
             st' == st.(frames := st.frames[f := Frame(st.frames[f].list[1..], Some(d))],
                        devs := st.devs[d := st.devs[d].(phase := Current(f, pc))])
    ensures Inv(st')
  {
    hide Counts, Kids, Lists, Log, Family, Graves;
    PopListed(st, f);
    var d := st.frames[f].list[0];
    MoveOn(st, d, Current(f, pc), st');
    PopLists(st, st', f, d, pc);
    PopLog(st, st', d, Current(f, pc));
    FamilyMove(st, st', d, Current(f, pc));
  }

  lemma FamilyMove(st: State, st': State, d: DevId, ph: Phase)
    requires Family(st) && d in st.devs && !Parentless(st.devs[d].phase) && st'.released == st.released
    requires st'.devs == st.devs[d := st.devs[d].(phase := ph)]
    ensures Family(st')
  {
  }

  lemma PreReleaseInv(st: State, f: FrameId, st': State)
    requires Inv(st) && At(st, f, PRE_RELEASE)
    requires var d := st.frames[f].cur.value;
             st'.(hooks := st.hooks) == st.(devs := st.devs[d := st.devs[d].(phase := Current(f, RELEASE))])
    ensures Inv(st')
  {
    hide Counts, Kids, Lists, Log, Family, Graves;
    var d := st.frames[f].cur.value;
    ReleaseAdded(st, d);
    MoveOn(st, d, Current(f, RELEASE), st');
    MoveLists(st, st', f, d, RELEASE);
    LogMove(st, st', d, Current(f, RELEASE));
    FamilyMove(st, st', d, Current(f, RELEASE));
  }

  lemma LogMove(st: State, st': State, d: DevId, ph: Phase)
    requires Log(st) && d in st.devs && (Past(ph) <==> Past(st.devs[d].phase))
    requires (ph.Current? && !Past(ph) ==> st.devs[d].added)
    requires st'.released == st.released && st'.devs == st.devs[d := st.devs[d].(phase := ph)]
    ensures Log(st')
  {
  }

  lemma ReleaseAdded(st: State, d: DevId)
    requires Log(st) && d in st.devs && st.devs[d].phase.Current? && !Past(st.devs[d].phase)
    ensures st.devs[d].added && d !in st.released
  {
  }

  lemma ReleaseLog(st: State, st': State, d: DevId, f: FrameId)
    requires Log(st) && d in st.devs && st.devs[d].phase == Current(f, RELEASE)
    requires st'.released == st.released + [d]
    requires st'.devs == st.devs[d := st.devs[d].(phase := Current(f, DROP_PARENT))]
    ensures Log(st')
  {
  }

  /** When a device is released, nobody has it as parent any more, so all its
      children were released before. */
  lemma ReleaseFamily(st: State, st': State, d: DevId, f: FrameId)
    requires Family(st) && Log(st) && d in st.devs && st.devs[d].phase == Current(f, RELEASE)
    requires Holders(st.devs, d) == {}
    requires st'.released == st.released + [d]
    requires st'.devs == st.devs[d := st.devs[d].(phase := Current(f, DROP_PARENT))]
    ensures Family(st')
  {
    forall x | x in st'.devs ensures FamilyAt(st', x) {
      assert FamilyAt(st, x);
      if st.devs[x].mother.Some? {
        var p := st.devs[x].mother.value;
        AppendBefore(st.released, d, x, p);
        AppendBefore(st.released, d, x, d);
        if p == d { assert x !in Holders(st.devs, d); }
      }
    }
  }

  lemma ReleaseInv(st: State, f: FrameId, st': State)
    requires Inv(st) && At(st, f, RELEASE)
    requires var d := st.frames[f].cur.value;
             st'.(hooks := st.hooks) == st.(devs := st.devs[d := st.devs[d].(phase := Current(f, DROP_PARENT))],
                                            released := st.released + [d])
    ensures Inv(st')
  {
    hide Counts, Kids, Lists, Log, Family, Graves, Holders;
    CurrentHere(st, f, RELEASE);
    var d := st.frames[f].cur.value;
    MoveOn(st, d, Current(f, DROP_PARENT), st');
    MoveLists(st, st', f, d, DROP_PARENT);
    ReleaseLog(st, st', d, f);
    ReleaseFamily(st, st', d, f);
  }

  /** The device without its parent, as set_parent leaves it. */
  function Alone(r: Dev, f: FrameId): Dev {
    r.(parent := None, phase := Current(f, DESTROY))
  }

  lemma AloneCounts(devs: map<DevId, Dev>, d: DevId, f: FrameId)
    requires Counts(devs) && d in devs && devs[d].phase == Current(f, DROP_PARENT)
    ensures var devs' := devs[d := Alone(devs[d], f)];
            if devs[d].parent.Some? then CountsBut(devs', devs[d].parent.value) else Counts(devs')
  {
    var devs', p := devs[d := Alone(devs[d], f)], devs[d].parent;
    assert CountAt(devs, d, 0);
    forall x | x in devs' ensures CountAt(devs', x, if p == Some(x) then 1 else 0) {
      assert CountAt(devs, x, 0);
      LoseHolder(devs, d, Alone(devs[d], f), x);
      hide Holders;
    }
  }

  lemma LoseHolder(devs: map<DevId, Dev>, d: DevId, r: Dev, x: DevId)
    requires d in devs && r.parent.None?
    ensures |Holders(devs, x)| == |Holders(devs[d := r], x)| + if devs[d].parent == Some(x) then 1 else 0
    ensures devs[d].parent == Some(x) ==> d in Holders(devs, x)
  {
    assert Holders(devs[d := r], x) == Holders(devs, x) - {d};
  }

  lemma AloneRest(st: State, f: FrameId, st': State)
    requires Rest(st) && At(st, f, DROP_PARENT)
    requires var d := st.frames[f].cur.value; st' == st.(devs := st.devs[d := Alone(st.devs[d], f)])
    ensures Rest(st')
  {
    hide Kids, Lists, Log, Family, Graves;
    var d := st.frames[f].cur.value;
    AloneKids(st.devs, d, f);
    MoveLists(st, st', f, d, DESTROY);
    LogFrame(st, st');
    AloneFamily(st, d, f, st');
    GravesFrame(st, st');
  }

  lemma AloneKids(devs: map<DevId, Dev>, d: DevId, f: FrameId)
    requires Kids(devs) && d in devs && devs[d].phase == Current(f, DROP_PARENT)
    ensures Kids(devs[d := Alone(devs[d], f)])
  {
  }

  lemma AloneFamily(st: State, d: DevId, f: FrameId, st': State)
    requires Family(st) && d in st.devs && st' == st.(devs := st.devs[d := Alone(st.devs[d], f)])
    ensures Family(st')
  {
  }

  lemma DropParentInv(st: State, f: FrameId)
    requires Inv(st) && At(st, f, DROP_PARENT)
    ensures Inv(DropParent(st, f))
  {
    hide Counts, CountsBut, Kids, Lists, Log, Family, Graves, Unref;
    var d := st.frames[f].cur.value;
    var p, st1 := st.devs[d].parent, st.(devs := st.devs[d := Alone(st.devs[d], f)]);
    AloneCounts(st.devs, d, f);
    AloneRest(st, f, st1);
    MoveAlone(st, f);
    if p.Some? { UnrefInv(st1, p.value); } else { Whole(st1); }
  }

  lemma MoveAlone(st: State, f: FrameId)
    requires At(st, f, DROP_PARENT)
    ensures var d := st.frames[f].cur.value;
            var p, st1 := st.devs[d].parent, st.(devs := st.devs[d := Alone(st.devs[d], f)]);
            DropParent(st, f) == if p.Some? && p.value in st1.devs
                                    && st1.devs[p.value].refs > 0 then Unref(st1, p.value) else st1
  {
    hide Unref;
    var d := st.frames[f].cur.value;
    assert st.devs[d := st.devs[d].(parent := None)][d := Alone(st.devs[d], f)] == st.devs[d := Alone(st.devs[d], f)];
  }

  // ----- destruction

  lemma BuryLists(st: State, st': State, f: FrameId, d: DevId)
    requires Lists(st) && f in st.frames && st.frames[f].cur == Some(d) && st'.devs.Keys == st.devs.Keys
    requires st'.defer == st.defer && st'.frames == st.frames[f := st.frames[f].(cur := None)]
    requires st'.nextFrame == st.nextFrame
    requires forall x :: x in st.devs ==> BuryPhase(st.devs[x].phase, st'.devs[x].phase, x == d)
    ensures Lists(st')
  {
    hide FrameAt;
    forall g | g in st'.frames ensures g < st'.nextFrame && FrameAt(st', g) {
      CurrentOnly(st, f, d);
      BuryFrame(st, st', f, d, g);
    }
    CurrentOnly(st, f, d);
  }

  /** Only the device itself changes its list; others may pass from destroyed
      to freed. */
  predicate BuryPhase(was: Phase, now: Phase, self: bool) {
    if self then now == Destroyed else now == was || (was == Destroyed && now == Freed)
  }

  lemma CurrentOnly(st: State, f: FrameId, d: DevId)
    requires Lists(st) && f in st.frames && st.frames[f].cur == Some(d)
    ensures d in st.devs && st.devs[d].phase.Current? && st.devs[d].phase.f == f
    ensures forall x :: x in st.devs && x != d && st.devs[x].phase.Current? ==> st.devs[x].phase.f != f
  {
  }

  lemma BuryFrame(st: State, st': State, f: FrameId, d: DevId, g: FrameId)
    requires g in st.frames && FrameAt(st, g) && f in st.frames
    requires st'.frames == st.frames[f := st.frames[f].(cur := None)]
    requires d in st.devs && st.devs[d].phase.Current? && st.devs[d].phase.f == f && st'.devs.Keys == st.devs.Keys
    requires forall x :: x in st.devs && x != d && st.devs[x].phase.Current? ==> st.devs[x].phase.f != f
    requires forall x :: x in st.devs ==> BuryPhase(st.devs[x].phase, st'.devs[x].phase, x == d)
    ensures FrameAt(st', g)
  {
  }

  /** The dead queue while it is filling up. */
  lemma EarlyGraves(st: State, d: DevId)
    requires Graves(st) && d in st.devs && !Buried(st.devs[d].phase) && |st.destroyed| < DEAD_DEVICE_MAX
    ensures Graves(Bury(st, d)) && Bury(st, d).devs == st.devs[d := st.devs[d].(phase := Destroyed)]
  {
    var s, s' := st.destroyed, st.destroyed + [d];
    assert s[0..] == s && s'[0..] == s' && s[..0] == [] && s'[..0] == [];
    assert d !in s;
    AppendNoDup(s, d);
    hide NoDup;
  }

  lemma LateSlices(s: seq<DevId>, d: DevId)
    requires |s| >= DEAD_DEVICE_MAX && NoDup(s + [d])
    ensures var cut, s' := Cut(|s|), s + [d];
            && Cut(|s'|) == cut + 1 && s'[cut + 1..] == (s[cut..] + [d])[1..] && s'[..cut + 1] == s[..cut] + [s[cut]]
            && (forall x :: x in s'[cut + 1..] <==> (x in s[cut..] && x != s[cut]) || x == d)
  {
    var cut, s' := Cut(|s|), s + [d];
    assert s[cut..] == [s[cut]] + s[cut + 1..] && s'[cut + 1..] == s[cut + 1..] + [d];
    var rest := s[cut + 1..];
    forall i | 0 <= i < |rest| ensures rest[i] != s[cut] { assert s'[cut + 1 + i] == rest[i] && s'[cut] == s[cut]; }
  }

  lemma LateMembers(st: State, d: DevId)
    requires Graves(st) && d in st.devs && !Buried(st.devs[d].phase) && |st.destroyed| >= DEAD_DEVICE_MAX
    ensures var s, cut := st.destroyed, Cut(|st.destroyed|);
            && d !in s && s[cut] in st.devs && s[cut] != d && st.devs[s[cut]].phase == Destroyed
            && (st.dead + [d])[0] == s[cut]
            && NoDup(s + [d])
  {
    var s, cut := st.destroyed, Cut(|st.destroyed|);
    assert s == s[..cut] + s[cut..];
    assert s[cut] == s[cut..][0] && s[cut] in s[cut..];
  }

  /** From the eighth destruction on, each one frees the device destroyed seven
      before it. */
  lemma LateGraves(st: State, d: DevId)
    requires Graves(st) && d in st.devs && !Buried(st.devs[d].phase) && |st.destroyed| >= DEAD_DEVICE_MAX
    ensures var old' := st.destroyed[Cut(|st.destroyed|)];
            && old' in st.devs && old' != d && st.devs[old'].phase == Destroyed && Graves(Bury(st, d))
            && Bury(st, d).devs == st.devs[d := st.devs[d].(phase := Destroyed)][old' := st.devs[old'].(phase := Freed)]
  {
    LateMembers(st, d);
    LateSlices(st.destroyed, d);
    hide NoDup;
  }

  lemma BuryDevs(st: State, d: DevId)
    requires Graves(st) && d in st.devs && !Buried(st.devs[d].phase)
    ensures var st' := Bury(st, d);
            && Graves(st') && st'.devs.Keys == st.devs.Keys
            && forall x :: x in st.devs ==>
                 st'.devs[x].(phase := st.devs[x].phase) == st.devs[x]
                 && BuryPhase(st.devs[x].phase, st'.devs[x].phase, x == d)
  {
    hide Graves, Bury, Buried, BuryPhase;
    if |st.destroyed| < DEAD_DEVICE_MAX {
      EarlyGraves(st, d);
      OnePhase(st.devs, d, Bury(st, d).devs);
    } else {
      LateGraves(st, d);
      TwoPhases(st.devs, d, st.destroyed[Cut(|st.destroyed|)], Bury(st, d).devs);
    }
  }

  lemma OnePhase(devs: map<DevId, Dev>, d: DevId, devs': map<DevId, Dev>)
    requires d in devs && devs' == devs[d := devs[d].(phase := Destroyed)]
    ensures devs'.Keys == devs.Keys
    ensures forall x :: x in devs ==>
              devs'[x].(phase := devs[x].phase) == devs[x] && BuryPhase(devs[x].phase, devs'[x].phase, x == d)
  {
  }

  lemma TwoPhases(devs: map<DevId, Dev>, d: DevId, old': DevId, devs': map<DevId, Dev>)
    requires d in devs && old' in devs && old' != d && devs[old'].phase == Destroyed
    requires devs' == devs[d := devs[d].(phase := Destroyed)][old' := devs[old'].(phase := Freed)]
    ensures devs'.Keys == devs.Keys
    ensures forall x :: x in devs ==>
              devs'[x].(phase := devs[x].phase) == devs[x] && BuryPhase(devs[x].phase, devs'[x].phase, x == d)
  {
  }

  lemma DestroyInv(st: State, f: FrameId)
    requires Inv(st) && At(st, f, DESTROY)
    ensures Inv(Bury(st.(frames := st.frames[f := st.frames[f].(cur := None)]), st.frames[f].cur.value))
  {
    hide Counts, Kids, Lists, Log, Family, Graves, Bury, BuryPhase;
    var d := st.frames[f].cur.value;
    var st1 := st.(frames := st.frames[f := st.frames[f].(cur := None)]);
    SameGraves(st, st1);
    BuryDevs(st1, d);
    BuryShape(st1, d);
    var st' := Bury(st1, d);
    BuryCounts(st.devs, d, f, st'.devs);
    BuryLists(st, st', f, d);
    BuryLog(st, d, f, st');
    BuryUnlinked(st.devs, d, st'.devs);
  }

  lemma BuryUnlinked(devs: map<DevId, Dev>, d: DevId, devs': map<DevId, Dev>)
    requires Unlinked(devs) && devs'.Keys == devs.Keys
    requires forall x :: x in devs ==>
               devs'[x].(phase := devs[x].phase) == devs[x] && BuryPhase(devs[x].phase, devs'[x].phase, x == d)
    ensures Unlinked(devs')
  {
  }

  lemma BuryCounts(devs: map<DevId, Dev>, d: DevId, f: FrameId, devs': map<DevId, Dev>)
    requires Counts(devs) && Kids(devs) && d in devs && devs[d].phase == Current(f, DESTROY) && devs'.Keys == devs.Keys
    requires forall x :: x in devs ==>
               devs'[x].(phase := devs[x].phase) == devs[x] && BuryPhase(devs[x].phase, devs'[x].phase, x == d)
    ensures Counts(devs') && Kids(devs')
  {
    hide Counts, Kids;
    CountsFrame(devs, devs');
    KidsFrame(devs, devs');
  }

  lemma BuryLog(st: State, d: DevId, f: FrameId, st': State)
    requires Log(st) && Family(st) && d in st.devs && st.devs[d].phase == Current(f, DESTROY)
    requires st'.devs.Keys == st.devs.Keys && st'.released == st.released
    requires forall x :: x in st.devs ==>
               && st'.devs[x].(phase := st.devs[x].phase) == st.devs[x]
               && BuryPhase(st.devs[x].phase, st'.devs[x].phase, x == d)
    ensures Log(st') && Family(st')
  {
    hide Log, Family;
    LogFrame(st, st');
    FamilyFrame(st, st');
  }

  lemma SameGraves(st: State, st1: State)
    requires Graves(st) && st1.devs == st.devs && st1.dead == st.dead && st1.deadCount == st.deadCount
    requires st1.destroyed == st.destroyed
    ensures Graves(st1)
  {
  }

  lemma BuryShape(st: State, d: DevId)
    requires d in st.devs
    ensures var st' := Bury(st, d);
            && st'.enumerators == st.enumerators && st'.defer == st.defer && st'.frames == st.frames
            && st'.nextFrame == st.nextFrame
            && st'.released == st.released && st'.destroyed == st.destroyed + [d]
  {
  }

  lemma ReturnInv(st: State, f: FrameId)
    requires Inv(st) && f in st.frames && st.frames[f] == Frame([], None)
    ensures Inv(st.(frames := st.frames - {f}))
  {
    var st' := st.(frames := st.frames - {f});
    ReturnLists(st, f, st');
    hide Counts, Kids, Lists, Log, Family, Graves;
    LogFrame(st, st');
    FamilyFrame(st, st');
    GravesFrame(st, st');
  }

  lemma ReturnLists(st: State, f: FrameId, st': State)
    requires Lists(st) && f in st.frames && st.frames[f] == Frame([], None) && st' == st.(frames := st.frames - {f})
    ensures Lists(st')
  {
    assert FrameAt(st, f);
    forall g | g in st'.frames ensures g < st'.nextFrame && FrameAt(st', g) { assert FrameAt(st, g); }
  }

  lemma EnumInv(st: State, step: Step)
    requires Inv(st) && Enabled(st, step) && (step.EnumAcquireStep? || step.EnumReleaseStep?)
    ensures Inv(Apply(st, step))
  {
    hide Counts, Kids, Lists, Log, Family, Graves, Begin;
    var n := if step.EnumAcquireStep? then st.enumerators + 1 else st.enumerators - 1;
    EnumRest(st, n);
    if n == 0 { BeginInv(st.(enumerators := n)); }
  }

  lemma EnumRest(st: State, n: nat)
    requires Rest(st)
    ensures Rest(st.(enumerators := n))
  {
    hide Kids, Lists, Log, Family, Graves;
    var st1 := st.(enumerators := n);
    ListsFrame(st, st1);
    LogFrame(st, st1);
    FamilyFrame(st, st1);
    GravesFrame(st, st1);
  }

  // ----- all steps

  lemma StepInv(st: State, step: Step)
    requires Inv(st) && Enabled(st, step)
    ensures Inv(Apply(st, step))
  {
    hide Inv, Unref, Begin, Add, Pop, DropParent, Bury;
    match step
    case CreateStep(d) => CreateInv(st, d);
    case RefStep(d) => RefInv(st, d);
    case DropStep(d) => DropInv(st, d);
    case AddStep(d, p, ok) => AddInv(st, d, p, ok);
    case AddProxyStep(_, _, _) => AddProxyInv(st, step);
    case MarkDeadStep(d) => MarkInv(st, d);
    case EnumAcquireStep => EnumInv(st, step);
    case EnumReleaseStep => EnumInv(st, step);
    case PopStep(f) => PopShape(st, f);
    case PreReleaseStep(f) => PreReleaseInv(st, f, Apply(st, step));
    case ReleaseStep(f) => ReleaseInv(st, f, Apply(st, step));
    case DropParentStep(f) => DropParentInv(st, f);
    case DestroyStep(f) => DestroyInv(st, f);
    case ReturnStep(f) => ReturnInv(st, f);
  }

  lemma PopShape(st: State, f: FrameId)
    requires Inv(st) && Enabled(st, PopStep(f))
    ensures Inv(Pop(st, f))
  {
    hide Inv;
    var d := st.frames[f].list[0];
    PopInv(st, f, Pop(st, f).devs[d].phase.pc, Pop(st, f));
  }

  /** A driver host that has no devices yet. */
  function Boot(): State {
    State(map[], 0, [], map[], 0, [], 0, [], [], [])
  }

  ghost predicate Run(st: State, steps: seq<Step>, st': State)
    decreases |steps|
  {
    if steps == [] then st' == st else Enabled(st, steps[0]) && Run(Apply(st, steps[0]), steps[1..], st')
  }

  lemma {:induction false} RunInv(st: State, steps: seq<Step>, st': State)
    requires Inv(st) && Run(st, steps, st')
    ensures Inv(st')
    decreases |steps|
  {
    hide Inv, Apply, Enabled;
    if steps == [] {
    } else {
      StepInv(st, steps[0]);
      RunInv(Apply(st, steps[0]), steps[1..], st');
    }
  }

  // ----- what this means

  lemma BootInv()
    ensures Inv(Boot())
  {
  }

  /** Over every run: a release hook runs at most once and exactly for the added
      devices whose finalization has got that far; a child is released before the
      parent it was added to; and a device without references has no children. */
  lemma PostOrder(steps: seq<Step>, st: State)
    requires Run(Boot(), steps, st)
    ensures NoDup(st.released)
    ensures forall d :: d in st.released <==> d in st.devs && st.devs[d].added && Past(st.devs[d].phase)
    ensures forall x :: x in st.devs && st.devs[x].mother.Some? && st.devs[x].mother.value in st.released ==>
              Before(st.released, x, st.devs[x].mother.value)
    ensures forall d :: d in st.devs && st.devs[d].phase != Live ==>
              st.devs[d].children == [] && Holders(st.devs, d) == {}
    ensures st.enumerators == 0 ==> st.defer == []
  {
    BootInv();
    RunInv(Boot(), steps, st);
    forall x | x in st.devs && st.devs[x].mother.Some? && st.devs[x].mother.value in st.released
      ensures Before(st.released, x, st.devs[x].mother.value)
    {
      assert FamilyAt(st, x);
    }
    forall d | d in st.devs && st.devs[d].phase != Live ensures st.devs[d].children == [] && Holders(st.devs, d) == {} {
      Childless(st, d);
    }
  }

  lemma Childless(st: State, d: DevId)
    requires Inv(st) && d in st.devs && st.devs[d].phase != Live
    ensures st.devs[d].children == [] && Holders(st.devs, d) == {}
  {
    assert CountAt(st.devs, d, 0);
    FirstKid(st.devs, d);
  }

  /** A child on the list holds a reference. */
  lemma FirstKid(devs: map<DevId, Dev>, d: DevId)
    requires Kids(devs) && d in devs
    ensures devs[d].children != [] ==> devs[d].children[0] in Holders(devs, d)
  {
  }

  /** The device destroyed at position i is freed exactly when the seventh
      device after it is destroyed. */
  lemma FreedLate(steps: seq<Step>, st: State, i: nat)
    requires Run(Boot(), steps, st) && i < |st.destroyed|
    ensures st.destroyed[i] in st.devs
    ensures st.devs[st.destroyed[i]].phase == if i + 7 < |st.destroyed| then Freed else Destroyed
  {
    hide Inv, Run, Boot;
    BootInv();
    RunInv(Boot(), steps, st);
    InGrave(st, i);
  }

  lemma InGrave(st: State, i: nat)
    requires Inv(st) && i < |st.destroyed|
    ensures var d := st.destroyed[i];
            d in st.devs && st.devs[d].phase == if i + DEAD_DEVICE_MAX < |st.destroyed| then Freed else Destroyed
  {
    assert Graves(st);
    hide Inv;
    var d, cut := st.destroyed[i], Cut(|st.destroyed|);
    if i < cut {
      assert d == st.destroyed[..cut][i];
    } else {
      assert d == st.destroyed[cut..][i - cut];
    }
  }

  /** While an enumeration goes on, lists of children only grow. */
  lemma EnumerationStable(st: State, step: Step, p: DevId)
    requires Enabled(st, step) && st.enumerators > 0 && Apply(st, step).enumerators > 0 && p in st.devs
    ensures p in Apply(st, step).devs && st.devs[p].children <= Apply(st, step).devs[p].children
  {
    hide Begin;
    if step.EnumReleaseStep? {
      BeginEnum(st.(enumerators := st.enumerators - 1));
    } else if step.DestroyStep? {
      BuryKeepsKids(st.(frames := st.frames[step.f := st.frames[step.f].(cur := None)]), st.frames[step.f].cur.value,
                    p);
      hide Bury;
    }
  }

  lemma BeginEnum(st: State)
    ensures Begin(st).enumerators == st.enumerators
  {
  }

  lemma BuryKeepsKids(st: State, d: DevId, p: DevId)
    requires d in st.devs && p in st.devs
    ensures p in Bury(st, d).devs && Bury(st, d).devs[p].children == st.devs[p].children
  {
  }

  // ----- devices nobody finalizes

  lemma {:induction false} DetachAllPhase(devs: map<DevId, Dev>, list: seq<DevId>, d: DevId)
    requires d in devs
    ensures d in DetachAll(devs, list) && DetachAll(devs, list)[d].phase == devs[d].phase
    decreases |list|
  {
    if list == [] {
    } else {
      DetachAllPhase(Detach(devs, list[0]), list[1..], d);
    }
  }

  lemma BeginPhase(st: State, d: DevId)
    requires d in st.devs && d !in st.defer
    ensures d in Begin(st).devs && Begin(st).devs[d].phase == st.devs[d].phase
  {
    DetachAllPhase(st.devs, st.defer, d);
    hide DetachAll;
  }

  /** A device that is not waiting to be finalized is not touched when another
      loses a reference. */
  lemma UnrefPhase(st: State, x: DevId, d: DevId)
    requires x in st.devs && st.devs[x].refs > 0 && d in st.devs && d != x && d !in st.defer
    ensures d in Unref(st, x).devs && Unref(st, x).devs[d].phase == st.devs[d].phase
  {
    hide Begin;
    var devs1 := st.devs[x := st.devs[x].(refs := st.devs[x].refs - 1)];
    BeginPhase(st.(defer := st.defer + [x], devs := devs1[x := devs1[x].(phase := Deferred)]), d);
  }

  lemma NotWaiting(st: State, d: DevId)
    requires Inv(st) && d in st.devs && st.devs[d].phase == Stranded
    ensures st.devs[d].refs == 0 && d !in st.defer && d !in st.released && st.devs[d].busy
    ensures forall f :: f in st.frames ==> d !in st.frames[f].list && st.frames[f].cur != Some(d)
  {
    assert CountAt(st.devs, d, 0);
    forall f | f in st.frames ensures d !in st.frames[f].list && st.frames[f].cur != Some(d) { assert FrameAt(st, f); }
  }

  /** No step takes a stranded device up again. */
  lemma StrandedStep(st: State, step: Step, d: DevId)
    requires Inv(st) && Enabled(st, step) && d in st.devs && st.devs[d].phase == Stranded
    ensures d in Apply(st, step).devs && Apply(st, step).devs[d].phase == Stranded
  {
    hide Inv, Apply, Bury;
    NotWaiting(st, d);
    if step.DropStep? {
      DropStranded(st, step.d, d);
    } else if step.EnumReleaseStep? {
      EnumStranded(st, d);
    } else if step.DropParentStep? {
      ParentStranded(st, step.f, d);
    } else if step.DestroyStep? {
      AtDestroy(st, step.f);
      BuryStranded(st, step.f, d);
    } else {
      OtherStranded(st, step, d);
    }
  }

  lemma AtDestroy(st: State, f: FrameId)
    requires Enabled(st, DestroyStep(f))
    ensures At(st, f, DESTROY)
    ensures Apply(st, DestroyStep(f)) ==
              Bury(st.(frames := st.frames[f := st.frames[f].(cur := None)]), st.frames[f].cur.value)
  {
  }

  lemma DropStranded(st: State, x: DevId, d: DevId)
    requires Enabled(st, DropStep(x)) && d in st.devs && st.devs[d].refs == 0 && d !in st.defer
    ensures d in Apply(st, DropStep(x)).devs && Apply(st, DropStep(x)).devs[d].phase == st.devs[d].phase
  {
    hide Unref;
    UnrefPhase(st.(devs := st.devs[x := st.devs[x].(ext := st.devs[x].ext - 1)]), x, d);
  }

  lemma EnumStranded(st: State, d: DevId)
    requires Enabled(st, EnumReleaseStep) && d in st.devs && d !in st.defer
    ensures d in Apply(st, EnumReleaseStep).devs && Apply(st, EnumReleaseStep).devs[d].phase == st.devs[d].phase
  {
    hide Begin;
    BeginPhase(st.(enumerators := st.enumerators - 1), d);
  }

  lemma ParentStranded(st: State, f: FrameId, d: DevId)
    requires Enabled(st, DropParentStep(f)) && d in st.devs && st.devs[d].refs == 0 && d !in st.defer
    requires st.frames[f].cur != Some(d)
    ensures d in Apply(st, DropParentStep(f)).devs && Apply(st, DropParentStep(f)).devs[d].phase == st.devs[d].phase
  {
    hide Unref, DropParent;
    var c := st.frames[f].cur.value;
    var p, st1 := st.devs[c].parent, st.(devs := st.devs[c := Alone(st.devs[c], f)]);
    MoveAlone(st, f);
    if p.Some? && p.value in st1.devs && st1.devs[p.value].refs > 0 { UnrefPhase(st1, p.value, d); }
  }

  lemma OtherStranded(st: State, step: Step, d: DevId)
    requires Enabled(st, step) && d in st.devs && st.devs[d].phase == Stranded
    requires !(step.DropStep? || step.EnumReleaseStep? || step.DropParentStep? || step.DestroyStep?)
    requires forall f :: f in st.frames ==> d !in st.frames[f].list && st.frames[f].cur != Some(d)
    ensures d in Apply(st, step).devs && Apply(st, step).devs[d].phase == Stranded
  {
    hide Unref, Begin, Bury, DropParent;
  }

  lemma BuryStranded(st: State, f: FrameId, d: DevId)
    requires Inv(st) && At(st, f, DESTROY) && d in st.devs && st.devs[d].phase == Stranded
    ensures var st' := Bury(st.(frames := st.frames[f := st.frames[f].(cur := None)]), st.frames[f].cur.value);
            d in st'.devs && st'.devs[d].phase == Stranded
  {
    assert Graves(st);
    hide Inv, Graves, Bury;
    var st1 := st.(frames := st.frames[f := st.frames[f].(cur := None)]);
    SameGraves(st, st1);
    BuryDevs(st1, st.frames[f].cur.value);
  }

  /** A device whose last reference goes while it is busy is stranded, and is
      never finalized, whatever happens after; every other one is finalized or
      waits for that. */
  lemma {:induction false} StrandedForever(st: State, steps: seq<Step>, st': State, d: DevId)
    requires Inv(st) && Run(st, steps, st') && d in st.devs && st.devs[d].phase == Stranded
    ensures d in st'.devs && st'.devs[d].phase == Stranded && d !in st'.released
    decreases |steps|
  {
    hide Inv, Apply, Enabled;
    if steps == [] {
      NotWaiting(st, d);
    } else {
      StepInv(st, steps[0]);
      StrandedStep(st, steps[0], d);
      StrandedForever(Apply(st, steps[0]), steps[1..], st', d);
    }
  }

  /** Giving up the last reference strands a device exactly if it is busy. */
  lemma StrandedIff(st: State, d: DevId)
    requires Enabled(st, DropStep(d)) && st.devs[d].refs == 1
    ensures d in Apply(st, DropStep(d)).devs
    ensures Apply(st, DropStep(d)).devs[d].phase == Stranded <==> st.devs[d].busy
  {
    hide Unref, Begin;
    var st1 := st.(devs := st.devs[d := st.devs[d].(ext := st.devs[d].ext - 1)]);
    if st.devs[d].busy {
      UnrefBusy(st1, d);
    } else {
      UnrefLast(st1, d);
      DroppedPhase(st1, d);
    }
  }

  lemma DroppedPhase(st: State, d: DevId)
    requires d in st.devs
    ensures var st1 := st.(devs := st.devs[d := st.devs[d].(refs := 0, phase := Deferred)], defer := st.defer + [d]);
            && d in st1.devs && st1.devs[d].phase == Deferred
            && d in Begin(st1).devs && Begin(st1).devs[d].phase.Listed?
  {
    var st1 := st.(devs := st.devs[d := st.devs[d].(refs := 0, phase := Deferred)], defer := st.defer + [d]);
    DetachAllPhase(st1.devs, st1.defer, d);
    hide DetachAll;
  }

  /** A run to a stranded device: an invisible one is added in create(). */
  lemma RefusalStrands() returns (steps: seq<Step>, st: State)
    ensures Run(Boot(), steps, st) && 1 in st.devs && st.devs[1].phase == Stranded
  {
    var s1, s2, s3 := Stage(1, Live, false), Stage(2, Live, false), Stage(2, Live, true);
    st := Stage(2, Stranded, true);
    var a, b, c, e := CreateStep(0), CreateStep(1), AddProxyStep(1, 0, Create(true, true)), DropStep(1);
    assert Apply(Boot(), a).devs == s1.devs && Apply(s1, b).devs == s2.devs;
    assert Apply(s2, c).devs == s3.devs;
    assert Apply(s3, e).devs == st.devs;
    steps := [a, b, c, e];
    assert steps[3..] == [e] && [e][1..] == [] && steps[2..][1..] == steps[3..] && steps[1..][1..] == steps[2..];
    assert Run(s3, [e], st);
    assert Run(s2, steps[2..], st);
    assert Run(s1, steps[1..], st);
  }

  /** The states of that run: `n` devices, the second of them refused or not. */
  ghost function Stage(n: nat, phase: Phase, refused: bool): State {
    var first := Dev(1, 1, None, [], false, false, Live, None, false);
    var second := first.(dead := refused, busy := refused, phase := phase);
    var devs := if n < 2 then map[0 := first] else map[0 := first, 1 := if phase == Live then second
                                                                       else second.(refs := 0, ext := 0)];
    Boot().(devs := devs)
  }
}
