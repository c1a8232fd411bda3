/** Removing devices: taking a composite apart and giving up a fragment device
    (DeviceManager::RemoveDevice of v1/device_manager.cc). */
module CompositeRemoval {
  import opened Common
  import opened Composites
  import opened CompositeRuns
  import opened CompositeOrder

  /** Nothing but device flags, composite marks and fragment lists changes. */
  ghost predicate Shrunk(st: State, st': State) {
    && st'.devs.Keys == st.devs.Keys && st'.nextDev == st.nextDev
    && forall d :: d in st.devs ==>
         && st'.devs[d] == st.devs[d].(comp := st'.devs[d].comp, fragments := st'.devs[d].fragments)
  }

  /** Of the listed fragments of `c`, those without a fragment device have
      been unbound; no other fragment and no other composite has changed. */
  ghost predicate Disbanded(st: State, st': State, c: CompId, list: seq<nat>) {
    && st'.frags.Keys == st.frags.Keys && st'.comps.Keys == st.comps.Keys && Shrunk(st, st')
    && (forall k :: k in st.comps && k != c ==> st'.comps[k] == st.comps[k])
    && (forall f :: f in st.frags ==>
          st'.frags[f] == if f.comp == c && f.index in list
                             && st.frags[f].fragDev.None? then st.frags[f].(bound := None) else st.frags[f])
  }

  /** The loop has come to `list`: what it went past and left on the bound list
      has fragment devices. */
  ghost predicate Remaining(st: State, c: CompId, list: seq<nat>) {
    && c in st.comps && AgreesOn(st, c)
    && |list| <= |st.comps[c].bound| && st.comps[c].bound[|st.comps[c].bound| - |list|..] == list
    && (forall i :: i in st.comps[c].bound[..|st.comps[c].bound| - |list|] ==>
          FragId(c, i) in st.frags && st.frags[FragId(c, i)].fragDev.Some?)
  }

  lemma DisbandedCons(st: State, st1: State, st2: State, c: CompId, list: seq<nat>)
    requires list != [] && Disbanded(st, st1, c, [list[0]]) && Disbanded(st1, st2, c, list[1..])
    ensures Disbanded(st, st2, c, list)
  {
  }

  lemma ListedBound(st: State, c: CompId, i: nat)
    requires Inv(st) && c in st.comps && i in st.comps[c].bound
    ensures FragId(c, i) in st.frags && st.frags[FragId(c, i)].bound.Some?
    ensures st.frags[FragId(c, i)].bound.value in st.devs
    ensures FragId(c, i) in st.devs[st.frags[FragId(c, i)].bound.value].fragments
  {
  }

  lemma {:induction false} FirstIsBefore(list: seq<FragId>, c: CompId, f: FragId)
    requires f in list && f.comp == c && FirstOfComp(list, c) != Some(f)
    ensures FirstOfComp(list, c).Some? && Before(list, FirstOfComp(list, c).value, f)
  {
    if list[0].comp == c {
      var b :| 0 <= b < |list| && list[b] == f;
      assert list[0] == FirstOfComp(list, c).value;
    } else {
      FirstIsBefore(list[1..], c, f);
      var g := FirstOfComp(list[1..], c).value;
      var a, b :| 0 <= a < b < |list[1..]| && list[1..][a] == g && list[1..][b] == f;
      assert list[a + 1] == g && list[b + 1] == f;
    }
  }

  lemma BeforeAt(s: seq<nat>, x: nat, y: nat, n: nat)
    requires NoDup(s) && Before(s, x, y) && n < |s| && s[n] == y
    ensures x in s[..n]
  {
    var a, b :| 0 <= a < b < |s| && s[a] == x && s[b] == y;
    assert b == n;
    assert s[..n][a] == x;
  }

  /** The fragment found on the bound device's list is the one the loop is at. */
  lemma RightFragment(st: State, c: CompId, list: seq<nat>)
    requires Inv(st) && Orderly(st) && list != [] && Remaining(st, c, list)
    requires FragId(c, list[0]) in st.frags && st.frags[FragId(c, list[0])].fragDev.None?
    ensures var f := FragId(c, list[0]);
            && st.frags[f].bound.Some? && st.frags[f].bound.value in st.devs
            && f in st.devs[st.frags[f].bound.value].fragments
            && FirstOfComp(st.devs[st.frags[f].bound.value].fragments, c) == Some(f)
  {
    hide Inv, Before, Served, Agrees;
    var f, bound := FragId(c, list[0]), st.comps[c].bound;
    var n := |bound| - |list|;
    assert bound[n] == bound[n..][0] == list[0];
    ListedBound(st, c, list[0]);
    var b := st.frags[f].bound.value;
    var fragments := st.devs[b].fragments;
    if FirstOfComp(fragments, c) != Some(f) {
      FirstIsBefore(fragments, c, f);
      var g := FirstOfComp(fragments, c).value;
      BoundNoDup(st, c);
      BeforeAt(bound, g.index, f.index, n);
      BoundHere(st, b, g);
    }
  }

  lemma BoundNoDup(st: State, c: CompId)
    requires Inv(st) && c in st.comps
    ensures NoDup(st.comps[c].bound)
  {
  }

  ghost predicate Released(st: State, b: DevId, f: FragId, st': State) {
    b in st.devs && f in st.devs[b].fragments && f in st.frags && f.comp in st.comps && Release(st, b, f) == Done(st')
  }

  /** One turn of the loop. */
  lemma DisbandOne(st: State, c: CompId, list: seq<nat>) returns (st1: State)
    requires Inv(st) && Orderly(st) && list != [] && Remaining(st, c, list)
    ensures Inv(st1) && Orderly(st1) && Disbanded(st, st1, c, [list[0]])
    ensures c in st1.comps && Remaining(st1, c, list[1..])
    ensures Disband(st, c, list) == Disband(st1, c, list[1..])
    ensures st1 == st || (exists b :: Released(st, b, FragId(c, list[0]), st1))
  {
    hide Inv, Orderly, AgreesOn, Release;
    var f := FragId(c, list[0]);
    var bound := st.comps[c].bound;
    assert bound[|bound| - |list|] == list[0];
    ListedBound(st, c, list[0]);
    st1 := st;
    if st.frags[f].fragDev.None? {
      var b := st.frags[f].bound.value;
      RightFragment(st, c, list);
      ReleaseInv(st, b, f);
      ReleaseOrderly(st, b, f);
      ReleaseShrinks(st, b, f);
      ReleaseComps(st, b, f);
      st1 := Release(st, b, f).st;
      assert Released(st, b, f, st1);
      ReleasedRemaining(st, st1, c, list, b);
    } else {
      SkippedRemaining(st, c, list);
    }
  }

  lemma SkippedRemaining(st: State, c: CompId, list: seq<nat>)
    requires list != [] && Remaining(st, c, list)
    requires FragId(c, list[0]) in st.frags && st.frags[FragId(c, list[0])].fragDev.Some?
    ensures Remaining(st, c, list[1..])
  {
    hide AgreesOn;
    var bound := st.comps[c].bound;
    var n := |bound| - |list|;
    assert bound[n] == list[0] && bound[..n + 1] == bound[..n] + [list[0]];
    assert bound[n + 1..] == bound[n..][1..];
  }

  lemma ReleasedRemaining(st: State, st1: State, c: CompId, list: seq<nat>, b: DevId)
    requires Inv(st) && list != [] && Remaining(st, c, list) && AgreesOn(st1, c)
    requires Released(st, b, FragId(c, list[0]), st1) && st.frags[FragId(c, list[0])].bound == Some(b)
    ensures Remaining(st1, c, list[1..])
  {
    hide Inv, AgreesOn, Release, NoDup, Erase, Shrunk;
    var bound := st.comps[c].bound;
    var n, f := |bound| - |list|, FragId(c, list[0]);
    BoundNoDup(st, c);
    ReleaseShrinks(st, b, f);
    ReleaseComps(st, b, f);
    FrontAndRest(bound, list);
    var bound1 := st1.comps[c].bound;
    forall i | i in bound1[..n] ensures FragId(c, i) in st1.frags && st1.frags[FragId(c, i)].fragDev.Some? {
      assert i in bound[..n] && i != list[0];
    }
  }

  /** Taking the first element of its end off a list leaves the front. */
  lemma FrontAndRest(bound: seq<nat>, list: seq<nat>)
    requires NoDup(bound) && list != [] && |list| <= |bound| && bound[|bound| - |list|..] == list
    ensures var n, bound1 := |bound| - |list|, Erase(bound, list[0]);
            && |bound1| == |bound| - 1 && bound1[..n] == bound[..n] && bound1[n..] == list[1..]
            && list[0] !in bound[..n]
  {
    var n := |bound| - |list|;
    assert bound[n] == list[0];
    EraseAt(bound, n);
    assert bound[n..][1..] == bound[n + 1..];
  }

  lemma {:induction false} EraseAt(s: seq<nat>, n: nat)
    requires NoDup(s) && n < |s|
    ensures Erase(s, s[n]) == s[..n] + s[n + 1..]
  {
    if n == 0 {
    } else {
      var t := s[1..];
      assert s[0] != s[n] && t[n - 1] == s[n];
      EraseAt(t, n - 1);
      var a, b := t[..n - 1], t[n..];
      assert s[..n] == [s[0]] + a && s[n + 1..] == b;
      assert [s[0]] + (a + b) == ([s[0]] + a) + b;
    }
  }

  lemma ReleaseComps(st: State, d: DevId, f: FragId)
    requires f in st.frags && f.comp in st.comps && d in st.devs && Release(st, d, f).Done?
    ensures var st' := Release(st, d, f).st;
            && st'.comps.Keys == st.comps.Keys
            && st'.comps[f.comp].device.None? && st'.comps[f.comp].bound == Erase(st.comps[f.comp].bound, f.index)
            && (forall c :: c in st.comps && c != f.comp ==> st'.comps[c] == st.comps[c])
  {
  }

  /** Disbanding an assembled composite, however many of its fragments share a
      device: no assertion fires, every fragment without a fragment device ends
      up unbound and the device forgotten. */
  lemma {:induction false} DisbandInv(st: State, c: CompId, list: seq<nat>)
    requires Inv(st) && Orderly(st) && c in st.comps && Remaining(st, c, list)
    ensures Disband(st, c, list).Done?
    ensures var st' := Disband(st, c, list).st;
            Inv(st') && Orderly(st') && Disbanded(st, st', c, list) && st'.comps[c].device.None?
    decreases |list|
  {
    hide Inv, Orderly, Shrunk, Remaining;
    if list == [] {
      ForgetInv(st, c);
      ForgetOrderly(st, c);
      ForgetDisbanded(st, c);
    } else {
      var st1 := DisbandOne(st, c, list);
      hide Disband, Disbanded;
      DisbandInv(st1, c, list[1..]);
      DisbandedCons(st, st1, Disband(st1, c, list[1..]).st, c, list);
    }
  }

  lemma ForgetDisbanded(st: State, c: CompId)
    requires c in st.comps
    ensures Disbanded(st, Forget(st, c), c, [])
  {
  }

  lemma ReleaseShrinks(st: State, b: DevId, f: FragId)
    requires Inv(st) && b in st.devs && f in st.devs[b].fragments && f in st.frags && f.comp in st.comps
    requires Release(st, b, f).Done? && st.frags[f].bound == Some(b)
    ensures var st' := Release(st, b, f).st;
            && Shrunk(st, st') && st'.comps.Keys == st.comps.Keys && st'.frags.Keys == st.frags.Keys
            && st'.frags[f] == st.frags[f].(bound := None, fragDev := None)
            && (forall g :: g in st.frags && g != f ==> st'.frags[g] == st.frags[g])
  {
    hide Inv, Erase, Release, Forget;
    ReleaseIs(st, b, f);
    ForgetFacts(st, f.comp);
  }

  /** Some fragment has `e` as its fragment device. */
  ghost predicate Serving(st: State, e: DevId) {
    exists f :: f in st.frags && st.frags[f].fragDev == Some(e)
  }

  /** Dropping a fragment-driver device: the assertion fires exactly when no
      fragment of its parent has it. */
  lemma DropInv(st: State, e: DevId)
    requires Inv(st) && Orderly(st) && e in st.devs
    ensures var r := DropFragmentDevice(st, e);
            && (r.Asserts? <==> st.devs[e].fragDriver && st.devs[e].parent.Some? && !Serving(st, e))
            && (r.Done? ==> Inv(r.st) && Orderly(r.st) && Shrunk(st, r.st) && !Serving(r.st, e))
  {
    hide Inv, Orderly, Release, Serving;
    ServingHere(st, e);
    if st.devs[e].fragDriver && st.devs[e].parent.Some? && st.devs[e].parent.value in st.devs {
      var p := st.devs[e].parent.value;
      var r := FirstOfDevice(st, st.devs[p].fragments, e);
      if r.Some? {
        var f := r.value;
        BoundHere(st, p, f);
        ReleaseInv(st, p, f);
        ReleaseOrderly(st, p, f);
        ReleaseShrinks(st, p, f);
        LastServed(st, Release(st, p, f).st, f, e);
      }
    }
  }

  lemma ServingHere(st: State, e: DevId)
    requires Inv(st) && e in st.devs
    ensures Serving(st, e) <==>
              && st.devs[e].fragDriver && st.devs[e].parent.Some? && st.devs[e].parent.value in st.devs
              && FirstOfDevice(st, st.devs[st.devs[e].parent.value].fragments, e).Some?
    ensures st.devs[e].parent.Some? ==> st.devs[e].parent.value in st.devs
  {
  }

  lemma LastServed(st: State, st': State, f: FragId, e: DevId)
    requires Inv(st) && f in st.frags && st.frags[f].fragDev == Some(e) && st'.frags.Keys == st.frags.Keys
    requires st'.frags[f].fragDev.None? && forall g :: g in st.frags && g != f ==> st'.frags[g] == st.frags[g]
    ensures !Serving(st', e)
  {
  }

  /** The composite part of removing a device. */
  ghost function Leave(st: State, d: DevId): Outcome
    requires d in st.devs
  {
    var c := st.devs[d].comp;
    if c.Some? && c.value in st.comps then Disband(st, c.value, st.comps[c.value].bound) else Done(st)
  }

  lemma LeaveComposite(st: State, d: DevId)
    requires Inv(st) && Orderly(st) && d in st.devs
    ensures var r := Leave(st, d);
            r.Done? && Inv(r.st) && Orderly(r.st) && Shrunk(st, r.st) && Serving(r.st, d) == Serving(st, d)
  {
    hide Inv, Orderly, Disband, Serving;
    var c := st.devs[d].comp;
    if c.Some? {
      MarkedDevice(st, d);
      DisbandInv(st, c.value, st.comps[c.value].bound);
      SameServing(st, Disband(st, c.value, st.comps[c.value].bound).st, d);
    }
  }

  /** Removing a device keeps the invariant; an assertion fires exactly when
      it is a live fragment-driver device that no fragment was given. */
  lemma RemoveDeviceInv(st: State, d: DevId)
    requires Inv(st) && Orderly(st) && d in st.devs
    ensures var r := RemoveDevice(st, d);
            && (r.Asserts? <==> st.devs[d].live && st.devs[d].fragDriver && st.devs[d].parent.Some? && !Serving(st, d))
            && (r.Done? ==> Inv(r.st) && Orderly(r.st) && r.st.devs.Keys == st.devs.Keys)
  {
    hide Inv, Orderly, Disband, DropFragmentDevice, Detach, Serving;
    if st.devs[d].live {
      var st1 := Die(st, d);
      DieKeeps(st, d);
      SameServing(st, st1, d);
      LeaveComposite(st1, d);
      var st2 := Leave(st1, d).st;
      assert Shrunk(st1, st2);
      DropInv(st2, d);
      if DropFragmentDevice(st2, d).Done? {
        var st3 := DropFragmentDevice(st2, d).st;
        DetachKeeps(st3, d);
      }
    }
  }

  lemma DieKeeps(st: State, d: DevId)
    requires Inv(st) && Orderly(st) && d in st.devs
    ensures Inv(Die(st, d)) && Orderly(Die(st, d))
  {
    hide Inv, Orderly;
    FlagsInv(st, Die(st, d));
    OrderlyFrame(st, Die(st, d));
  }

  lemma DetachKeeps(st: State, d: DevId)
    requires Inv(st) && Orderly(st) && d in st.devs && !Serving(st, d)
    ensures Inv(Detach(st, d)) && Orderly(Detach(st, d)) && Detach(st, d).devs.Keys == st.devs.Keys
  {
    hide Inv, Orderly, Detach;
    DetachInv(st, d);
    DetachFacts(st, d);
    OrderlyFrame(st, Detach(st, d));
  }

  lemma MarkedDevice(st: State, d: DevId)
    requires Inv(st) && Orderly(st) && d in st.devs && st.devs[d].comp.Some?
    ensures st.devs[d].comp.value in st.comps
    ensures Remaining(st, st.devs[d].comp.value, st.comps[st.devs[d].comp.value].bound)
  {
  }

  lemma SameServing(st: State, st': State, d: DevId)
    requires st'.frags.Keys == st.frags.Keys
    requires forall f :: f in st.frags ==> st'.frags[f].fragDev == st.frags[f].fragDev
    ensures Serving(st', d) == Serving(st, d)
  {
  }
}
