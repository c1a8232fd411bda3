/** Completing a bind or rebind request: BindReply of
    device_controller_connection.cc, DeviceInitReply and DeviceRemove of core.cc
    and the stored callbacks of zx_device.cc. Each handler is one step. */
module BindCompletion {
  import opened Common

  type DevId = nat
  type CallbackId = nat

  /** `hasInit` says that the device has an init hook; `afterInit` that a bind
      is to be completed by its children's init replies. */
  datatype Dev = Dev(
    parent: Option<DevId>, children: seq<DevId>, invisible: bool, hasInit: bool, initializing: bool,
    afterInit: bool, bindConn: Option<CallbackId>, rebindConn: Option<CallbackId>)

  /** A callback that was called: with what status, and whether some child of
      its device was invisible then. */
  datatype Call = Call(cb: CallbackId, ok: bool, hidden: bool)

  datatype State = State(devs: map<DevId, Dev>, next: CallbackId, calls: seq<Call>)

  predicate Invisible(devs: map<DevId, Dev>, d: DevId) {
    d in devs && devs[d].invisible
  }

  predicate AnyInvisible(devs: map<DevId, Dev>, list: seq<DevId>) {
    exists i :: 0 <= i < |list| && Invisible(devs, list[i])
  }

  /** Some child has, or ever had, initialization to do. */
  predicate AnyInit(devs: map<DevId, Dev>, list: seq<DevId>) {
    exists i :: 0 <= i < |list| && list[i] in devs && (devs[list[i]].invisible || devs[list[i]].hasInit)
  }

  function Answer(st: State, d: DevId, cb: Option<CallbackId>, ok: bool): seq<Call>
    requires d in st.devs
  {
    if cb.Some? then [Call(cb.value, ok, AnyInvisible(st.devs, st.devs[d].children))] else []
  }

  /** Both pending callbacks are taken and called. */
  function Complete(st: State, d: DevId, ok: bool): State
    requires d in st.devs
  {
    var r := st.devs[d];
    st.(devs := st.devs[d := r.(bindConn := None, rebindConn := None)],
        calls := st.calls + Answer(st, d, r.bindConn, ok) + Answer(st, d, r.rebindConn, ok))
  }

  function BindReply(st: State, d: DevId, ok: bool): State
    requires d in st.devs
  {
    if AnyInit(st.devs, st.devs[d].children) then st.(devs := st.devs[d := st.devs[d].(afterInit := true)])
    else Complete(st, d, ok)
  }

  function InitReply(st: State, d: DevId, ok: bool): State
    requires d in st.devs && st.devs[d].parent.Some? && st.devs[d].parent.value in st.devs
  {
    var st1 := st.(devs := st.devs[d := st.devs[d].(invisible := false)]);
    var p := st.devs[d].parent.value;
    if !AnyInvisible(st1.devs, st1.devs[p].children) && st1.devs[p].afterInit then Complete(st1, p, ok) else st1
  }

  /** DeviceRemove of a device that may be removed: a failed initialization
      fails the bind. */
  function Remove(st: State, d: DevId): State
    requires d in st.devs && st.devs[d].parent.Some? && st.devs[d].parent.value in st.devs
  {
    if st.devs[d].invisible then Complete(st, st.devs[d].parent.value, false) else st
  }

  /** A rebind that cannot be started, when the last child was finalized. */
  function RebindFails(st: State, d: DevId): State
    requires d in st.devs
  {
    st.(devs := st.devs[d := st.devs[d].(rebindConn := None)],
        calls := st.calls + Answer(st, d, st.devs[d].rebindConn, false))
  }

  datatype Step =
    | AddStep(d: DevId, p: DevId, hasInit: bool)
    | BindStep(d: DevId)
    | RebindStep(d: DevId)
    | BindReplyStep(d: DevId, ok: bool)
    | InitStep(d: DevId)
    | InitReplyStep(d: DevId, ok: bool)
    | RemoveStep(d: DevId)
    | DetachStep(d: DevId)
    | RebindFailsStep(d: DevId)

  predicate HasParent(st: State, d: DevId) {
    d in st.devs && st.devs[d].parent.Some? && st.devs[d].parent.value in st.devs
  }

  predicate Enabled(st: State, step: Step) {
    match step
    case AddStep(d, p, _) => d !in st.devs && p in st.devs
    case BindStep(d) => d in st.devs
    case RebindStep(d) => d in st.devs
    case BindReplyStep(d, _) => d in st.devs
    case InitStep(d) => d in st.devs && !st.devs[d].initializing
    case InitReplyStep(d, _) => HasParent(st, d) && st.devs[d].initializing
    case RemoveStep(d) => HasParent(st, d)
    case DetachStep(d) => HasParent(st, d)
    case RebindFailsStep(d) => d in st.devs
  }

  function Apply(st: State, step: Step): State
    requires Enabled(st, step)
  {
    match step
    case AddStep(d, p, hasInit) =>
      st.(devs := st.devs[p := st.devs[p].(children := st.devs[p].children + [d])]
                         [d := Dev(Some(p), [], hasInit, hasInit, false, false, None, None)])
    case BindStep(d) => st.(devs := st.devs[d := st.devs[d].(bindConn := Some(st.next))], next := st.next + 1)
    case RebindStep(d) => st.(devs := st.devs[d := st.devs[d].(rebindConn := Some(st.next))], next := st.next + 1)
    case BindReplyStep(d, ok) => BindReply(st, d, ok)
    case InitStep(d) => st.(devs := st.devs[d := st.devs[d].(initializing := st.devs[d].hasInit)])
    case InitReplyStep(d, ok) => InitReply(st, d, ok)
    case RemoveStep(d) => Remove(st, d)
    case DetachStep(d) =>
      var p := st.devs[d].parent.value;
      var devs1 := st.devs[p := st.devs[p].(children := Erase(st.devs[p].children, d))];
      st.(devs := devs1[d := devs1[d].(parent := None)])
    case RebindFailsStep(d) => RebindFails(st, d)
  }

  // ----- what every run keeps

  /** A callback is stored in one place. */
  datatype Place = Place(d: DevId, rebind: bool)

  function Stored(st: State, at: Place): Option<CallbackId> {
    if at.d !in st.devs then None else if at.rebind then st.devs[at.d].rebindConn else st.devs[at.d].bindConn
  }

  ghost predicate Called(calls: seq<Call>, cb: CallbackId) {
    exists i :: 0 <= i < |calls| && calls[i].cb == cb
  }

  /** Stored callbacks are distinct and have not been called; none has been
      called twice, or with success while a child was invisible. */
  ghost predicate Inv(st: State) {
    && (forall at :: Stored(st, at).Some? ==> Stored(st, at).value < st.next && !Called(st.calls, Stored(st, at).value))
    && (forall at, at' :: Stored(st, at).Some? && Stored(st, at) == Stored(st, at') ==> at == at')
    && CallsOk(st.calls, st.next)
  }

  ghost predicate CallsOk(calls: seq<Call>, next: CallbackId) {
    && (forall i :: 0 <= i < |calls| ==> calls[i].cb < next && (calls[i].ok ==> !calls[i].hidden))
    && (forall i, j :: 0 <= i < j < |calls| ==> calls[i].cb != calls[j].cb)
  }

  /** Nothing stored changes, but for callbacks that are forgotten. */
  lemma StoredFrame(st: State, st': State)
    requires Inv(st) && st'.calls == st.calls && st'.next == st.next
    requires forall at :: Stored(st', at) == Stored(st, at) || Stored(st', at).None?
    ensures Inv(st')
  {
  }

  lemma NewCallback(st: State, st': State, at: Place)
    requires Inv(st) && st'.calls == st.calls && st'.next == st.next + 1 && Stored(st', at) == Some(st.next)
    requires forall x :: x != at ==> Stored(st', x) == Stored(st, x)
    ensures Inv(st')
  {
  }

  /** A stored callback is taken and called. */
  lemma TakeOne(st: State, at: Place, ok: bool, st': State)
    requires Inv(st) && at.d in st.devs && Stored(st', at).None? && st'.next == st.next
    requires forall x :: x != at ==> Stored(st', x) == Stored(st, x)
    requires st'.calls == st.calls + Answer(st, at.d, Stored(st, at), ok)
    requires ok ==> !AnyInvisible(st.devs, st.devs[at.d].children)
    ensures Inv(st')
  {
  }

  lemma CompleteInv(st: State, d: DevId, ok: bool)
    requires Inv(st) && d in st.devs && (ok ==> !AnyInvisible(st.devs, st.devs[d].children))
    ensures Inv(Complete(st, d, ok))
  {
    hide Inv, AnyInvisible;
    var r := st.devs[d];
    var st1 := st.(devs := st.devs[d := r.(bindConn := None)], calls := st.calls + Answer(st, d, r.bindConn, ok));
    TakeOne(st, Place(d, false), ok, st1);
    SameChildren(st.devs, st1.devs, r.children);
    TakeOne(st1, Place(d, true), ok, Complete(st, d, ok));
  }

  lemma SameChildren(devs: map<DevId, Dev>, devs': map<DevId, Dev>, list: seq<DevId>)
    requires devs'.Keys == devs.Keys && forall x :: x in devs ==> devs'[x].invisible == devs[x].invisible
    ensures AnyInvisible(devs', list) == AnyInvisible(devs, list)
  {
  }

  lemma NoInitVisible(devs: map<DevId, Dev>, list: seq<DevId>)
    requires !AnyInit(devs, list)
    ensures !AnyInvisible(devs, list)
  {
  }

  lemma StepInv(st: State, step: Step)
    requires Inv(st) && Enabled(st, step)
    ensures Inv(Apply(st, step))
  {
    var st' := Apply(st, step);
    hide Inv, AnyInvisible, AnyInit, Complete;
    match step
    case AddStep(d, p, hasInit) => StoredFrame(st, st');
    case BindStep(d) => NewCallback(st, st', Place(d, false));
    case RebindStep(d) => NewCallback(st, st', Place(d, true));
    case BindReplyStep(d, ok) =>
      if AnyInit(st.devs, st.devs[d].children) {
        StoredFrame(st, st');
      } else {
        NoInitVisible(st.devs, st.devs[d].children);
        CompleteInv(st, d, ok);
      }
    case InitStep(d) => StoredFrame(st, st');
    case InitReplyStep(d, ok) =>
      var st1 := st.(devs := st.devs[d := st.devs[d].(invisible := false)]);
      StoredFrame(st, st1);
      var p := st.devs[d].parent.value;
      if !AnyInvisible(st1.devs, st1.devs[p].children) { CompleteInv(st1, p, ok); }
    case RemoveStep(d) =>
      if st.devs[d].invisible { CompleteInv(st, st.devs[d].parent.value, false); }
    case DetachStep(d) => StoredFrame(st, st');
    case RebindFailsStep(d) => TakeOne(st, Place(d, true), false, st');
  }

  ghost predicate Run(st: State, steps: seq<Step>, st': State)
    decreases |steps|
  {
    if steps == [] then st' == st else Enabled(st, steps[0]) && Run(Apply(st, steps[0]), steps[1..], st')
  }

  lemma {:induction false} RunInv(st: State, steps: seq<Step>, st': State)
    requires Inv(st) && Run(st, steps, st')
    ensures Inv(st')
    decreases |steps|
  {
    hide Inv, Apply, Enabled;
    if steps == [] {
    } else {
      StepInv(st, steps[0]);
      RunInv(Apply(st, steps[0]), steps[1..], st');
    }
  }

  /** A host with its root device. */
  function Boot(): State {
    State(map[0 := Dev(None, [], false, false, false, false, None, None)], 0, [])
  }

  /** Over every run, a bind or rebind callback is called at most once, and never
      with success while some child of its device is invisible. */
  lemma CompletionSafe(steps: seq<Step>, st: State)
    requires Run(Boot(), steps, st)
    ensures forall i, j :: 0 <= i < j < |st.calls| ==> st.calls[i].cb != st.calls[j].cb
    ensures forall i :: 0 <= i < |st.calls| && st.calls[i].ok ==> !st.calls[i].hidden
  {
    RunInv(Boot(), steps, st);
  }

  // ----- every request is answered

  /** Some child of `d` is invisible. */
  ghost predicate ChildHidden(st: State, d: DevId) {
    d in st.devs && exists i :: 0 <= i < |st.devs[d].children| && Hidden(st, st.devs[d].children[i])
  }

  ghost predicate Hidden(st: State, c: DevId) { c in st.devs && st.devs[c].invisible }

  /** Some child of `d` is invisible or has an init hook. */
  ghost predicate ChildStarts(st: State, d: DevId) {
    d in st.devs && exists i :: 0 <= i < |st.devs[d].children| && Starts(st, st.devs[d].children[i])
  }

  ghost predicate Starts(st: State, c: DevId) { c in st.devs && (st.devs[c].invisible || st.devs[c].hasInit) }

  lemma AnyInitIs(st: State, d: DevId)
    requires d in st.devs
    ensures AnyInit(st.devs, st.devs[d].children) <==> ChildStarts(st, d)
  {
    var list := st.devs[d].children;
    if AnyInit(st.devs, list) {
      var i :| 0 <= i < |list| && list[i] in st.devs && (st.devs[list[i]].invisible || st.devs[list[i]].hasInit);
      assert Starts(st, list[i]);
    }
  }

  /** The callbacks stored for `d`, in one place or both, are taken, and each
      is called with `ok`, that of the bind first; nothing else is called or
      taken. */
  ghost predicate Took(st: State, d: DevId, rebindOnly: bool, ok: bool, st': State) {
    && st'.next == st.next && st.calls <= st'.calls
    && (forall at :: Stored(st', at) == if at.d == d && (at.rebind || !rebindOnly) then None else Stored(st, at))
    && (forall at: Place :: at.d == d && (at.rebind || !rebindOnly) && Stored(st, at).Some? ==>
          exists i :: |st.calls| <= i < |st'.calls|
                      && st'.calls[i] == Call(Stored(st, at).value, ok, ChildHidden(st, d)))
    && (forall i :: |st.calls| <= i < |st'.calls| ==> TakenFrom(st, d, rebindOnly, st'.calls[i].cb))
    && (!rebindOnly && Stored(st, Place(d, false)).Some? && Stored(st, Place(d, true)).Some? ==>
          |st'.calls| == |st.calls| + 2 && st'.calls[|st.calls|].cb == Stored(st, Place(d, false)).value)
  }

  ghost predicate TakenFrom(st: State, d: DevId, rebindOnly: bool, cb: CallbackId) {
    Stored(st, Place(d, true)) == Some(cb) || (!rebindOnly && Stored(st, Place(d, false)) == Some(cb))
  }

  lemma AnswerIs(st: State, d: DevId, cb: Option<CallbackId>, ok: bool)
    requires d in st.devs
    ensures Answer(st, d, cb, ok) == if cb.Some? then [Call(cb.value, ok, ChildHidden(st, d))] else []
  {
    var list := st.devs[d].children;
    forall i | 0 <= i < |list| ensures Invisible(st.devs, list[i]) == Hidden(st, list[i]) { }
  }

  lemma CompleteTook(st: State, d: DevId, ok: bool)
    requires d in st.devs
    ensures Took(st, d, false, ok, Complete(st, d, ok))
  {
    hide ChildHidden, Answer;
    var r, st' := st.devs[d], Complete(st, d, ok);
    AnswerIs(st, d, r.bindConn, ok);
    AnswerIs(st, d, r.rebindConn, ok);
    var n := |st.calls|;
    if r.bindConn.Some? { assert st'.calls[n] == Call(r.bindConn.value, ok, ChildHidden(st, d)); }
    if r.rebindConn.Some? {
      assert st'.calls[|st'.calls| - 1] == Call(r.rebindConn.value, ok, ChildHidden(st, d));
    }
    forall at: Place | at.d == d && Stored(st, at).Some?
      ensures exists i :: n <= i < |st'.calls| && st'.calls[i] == Call(Stored(st, at).value, ok, ChildHidden(st, d))
    {
      var i := if at.rebind then |st'.calls| - 1 else n;
      assert st'.calls[i] == Call(Stored(st, at).value, ok, ChildHidden(st, d));
    }
    forall i | n <= i < |st'.calls| ensures TakenFrom(st, d, false, st'.calls[i].cb) { }
  }

  /** A completing bind reply, the completing init reply of a child, the removal
      of an invisible child and a rebind that cannot be started call what is
      stored for the device, with the status of the reply or a failure. */
  lemma CompletionCalls(st: State, step: Step, d: DevId)
    requires Enabled(st, step)
    ensures step.BindReplyStep? && step.d == d && !ChildStarts(st, d) ==> Took(st, d, false, step.ok, Apply(st, step))
    ensures step.InitReplyStep? && st.devs[step.d].parent == Some(d) && st.devs[d].afterInit
            && OnlyInvisible(st.devs, st.devs[d].children, step.d) ==>
              Took(Shown(st, step.d), d, false, step.ok, Apply(st, step)) && !ChildHidden(Shown(st, step.d), d)
    ensures step.RemoveStep? && st.devs[step.d].parent == Some(d) && st.devs[step.d].invisible ==>
              Took(st, d, false, false, Apply(st, step))
    ensures step.RebindFailsStep? && step.d == d ==> Took(st, d, true, false, Apply(st, step))
  {
    hide Took, AnyInit, OnlyInvisible, ChildHidden, ChildStarts, Complete, RebindFails;
    if step.BindReplyStep? {
      AnyInitIs(st, step.d);
      CompleteTook(st, step.d, step.ok);
    } else if step.InitReplyStep? {
      var p := st.devs[step.d].parent.value;
      VisibleAfter(st.devs, st.devs[p].children, step.d);
      CompleteTook(Shown(st, step.d), p, step.ok);
      NoneHidden(Shown(st, step.d), p);
    } else if step.RemoveStep? {
      CompleteTook(st, st.devs[step.d].parent.value, false);
    } else if step.RebindFailsStep? {
      RebindTook(st, step.d);
    }
  }

  /** The state once a child has become visible. */
  ghost function Shown(st: State, c: DevId): State
    requires c in st.devs
  {
    st.(devs := st.devs[c := st.devs[c].(invisible := false)])
  }

  lemma NoneHidden(st: State, d: DevId)
    requires d in st.devs
    ensures ChildHidden(st, d) <==> AnyInvisible(st.devs, st.devs[d].children)
  {
    var list := st.devs[d].children;
    forall i | 0 <= i < |list| ensures Invisible(st.devs, list[i]) == Hidden(st, list[i]) { }
  }

  lemma RebindTook(st: State, d: DevId)
    requires d in st.devs
    ensures Took(st, d, true, false, RebindFails(st, d))
  {
    hide ChildHidden, Answer;
    var r, st' := st.devs[d], RebindFails(st, d);
    AnswerIs(st, d, r.rebindConn, false);
    if r.rebindConn.Some? { assert st'.calls[|st.calls|] == Call(r.rebindConn.value, false, ChildHidden(st, d)); }
    forall at: Place | at.d == d && at.rebind && Stored(st, at).Some?
      ensures exists i :: |st.calls| <= i < |st'.calls|
                          && st'.calls[i] == Call(Stored(st, at).value, false, ChildHidden(st, d))
    {
      assert st'.calls[|st.calls|] == Call(Stored(st, at).value, false, ChildHidden(st, d));
    }
    forall i | |st.calls| <= i < |st'.calls| ensures TakenFrom(st, d, true, st'.calls[i].cb) { }
  }

  ghost predicate IsStored(st: State, cb: CallbackId) {
    exists at :: Stored(st, at) == Some(cb)
  }

  /** The callback that a bind or rebind step replaces, if any. */
  ghost predicate ReplacedNow(st: State, step: Step, cb: CallbackId) {
    || (step.BindStep? && Stored(st, Place(step.d, false)) == Some(cb))
    || (step.RebindStep? && Stored(st, Place(step.d, true)) == Some(cb))
  }

  /** Some step of the run replaced the callback. */
  ghost predicate Replaced(st: State, steps: seq<Step>, cb: CallbackId)
    decreases |steps|
  {
    steps != [] && Enabled(st, steps[0]) &&
    (ReplacedNow(st, steps[0], cb) || Replaced(Apply(st, steps[0]), steps[1..], cb))
  }

  /** A callback is in one of three states after a step. */
  ghost predicate Accounts(st: State, st': State, replaced: bool, cb: CallbackId) {
    && st.next <= st'.next && st.calls <= st'.calls
    && (IsStored(st, cb) ==> IsStored(st', cb) || Called(st'.calls, cb) || replaced)
    && (st.next <= cb < st'.next ==> IsStored(st', cb))
    && (replaced ==> cb < st.next && IsStored(st, cb) && !IsStored(st', cb) && st'.calls == st.calls)
    && (cb < st.next && !IsStored(st, cb) ==> !IsStored(st', cb) && (Called(st'.calls, cb) ==> Called(st.calls, cb)))
  }

  lemma FrameAccounts(st: State, st': State, cb: CallbackId)
    requires st'.calls == st.calls && st'.next == st.next && forall at :: Stored(st', at) == Stored(st, at)
    ensures Accounts(st, st', false, cb)
  {
    if at :| Stored(st, at) == Some(cb) { assert Stored(st', at) == Some(cb); }
  }

  lemma TookAccounts(st: State, d: DevId, rebindOnly: bool, ok: bool, st': State, cb: CallbackId)
    requires Took(st, d, rebindOnly, ok, st')
    ensures Accounts(st, st', false, cb)
  {
    if at :| Stored(st, at) == Some(cb) {
      if at.d == d && (at.rebind || !rebindOnly) {
        var i :| |st.calls| <= i < |st'.calls| && st'.calls[i] == Call(Stored(st, at).value, ok, ChildHidden(st, d));
      } else {
        assert Stored(st', at) == Some(cb);
      }
    }
    if Called(st'.calls, cb) && !Called(st.calls, cb) {
      var i :| 0 <= i < |st'.calls| && st'.calls[i].cb == cb;
      if i < |st.calls| { assert st.calls[i].cb == cb; }
      assert TakenFrom(st, d, rebindOnly, cb);
    }
  }

  lemma NewAccounts(st: State, st': State, at: Place, cb: CallbackId)
    requires Inv(st) && st'.calls == st.calls && st'.next == st.next + 1 && Stored(st', at) == Some(st.next)
    requires forall x :: x != at ==> Stored(st', x) == Stored(st, x)
    ensures Accounts(st, st', Stored(st, at) == Some(cb), cb)
  {
    if x :| Stored(st, x) == Some(cb) {
      if x != at { assert Stored(st', x) == Some(cb); }
    }
    if Stored(st, at) == Some(cb) {
      forall x ensures Stored(st', x) != Some(cb) { }
    }
  }

  lemma StepAccounts(st: State, step: Step, cb: CallbackId)
    requires Inv(st) && Enabled(st, step)
    ensures Accounts(st, Apply(st, step), ReplacedNow(st, step, cb), cb)
  {
    hide Inv, Accounts, AnyInvisible, AnyInit, Complete, RebindFails, Took;
    var st' := Apply(st, step);
    match step
    case BindStep(d) => NewAccounts(st, st', Place(d, false), cb);
    case RebindStep(d) => NewAccounts(st, st', Place(d, true), cb);
    case BindReplyStep(d, ok) =>
      CompleteTook(st, d, ok);
      if AnyInit(st.devs, st.devs[d].children) {
        FrameAccounts(st, st', cb);
      } else {
        TookAccounts(st, d, false, ok, st', cb);
      }
    case InitReplyStep(d, ok) =>
      var p, st1 := st.devs[d].parent.value, Shown(st, d);
      FrameAccounts(st, st1, cb);
      if st' != st1 {
        CompleteTook(st1, p, ok);
        TookAccounts(st1, p, false, ok, st', cb);
        AccountsAfter(st, st1, st', cb);
      }
    case RemoveStep(d) =>
      if st.devs[d].invisible {
        CompleteTook(st, st.devs[d].parent.value, false);
        TookAccounts(st, st.devs[d].parent.value, false, false, st', cb);
      } else {
        FrameAccounts(st, st', cb);
      }
    case RebindFailsStep(d) => RebindTook(st, d); TookAccounts(st, d, true, false, st', cb);
    case AddStep(_, _, _) => FrameAccounts(st, st', cb);
    case InitStep(_) => FrameAccounts(st, st', cb);
    case DetachStep(_) => FrameAccounts(st, st', cb);
  }

  lemma AccountsAfter(st: State, st1: State, st': State, cb: CallbackId)
    requires st1.calls == st.calls && st1.next == st.next && (forall at :: Stored(st1, at) == Stored(st, at))
    requires Accounts(st1, st', false, cb)
    ensures Accounts(st, st', false, cb)
  {
    assert IsStored(st1, cb) == IsStored(st, cb);
  }

  /** What becomes of a callback over a run from any state. */
  lemma {:induction false} RunAccounts(st: State, steps: seq<Step>, st': State, cb: CallbackId)
    requires Inv(st) && Run(st, steps, st')
    ensures st.next <= st'.next && st.calls <= st'.calls
    ensures IsStored(st, cb) || st.next <= cb < st'.next ==>
              IsStored(st', cb) || Called(st'.calls, cb) || Replaced(st, steps, cb)
    ensures Replaced(st, steps, cb) ==>
              !IsStored(st', cb) && (cb < st.next ==> IsStored(st, cb)) && !Called(st'.calls, cb) && cb < st'.next
    ensures cb < st.next && !IsStored(st, cb) ==>
              !IsStored(st', cb) && (Called(st'.calls, cb) ==> Called(st.calls, cb))
    decreases |steps|
  {
    hide Inv, Apply, Enabled, IsStored, Called, ReplacedNow;
    if steps == [] {
    } else {
      var st1 := Apply(st, steps[0]);
      StepInv(st, steps[0]);
      StepAccounts(st, steps[0], cb);
      RunAccounts(st1, steps[1..], st', cb);
      StoredUncalled(st, cb);
      StoredUncalled(st1, cb);
      CalledMore(st.calls, st1.calls, cb);
      CalledMore(st1.calls, st'.calls, cb);
    }
  }

  lemma CalledMore(calls: seq<Call>, calls': seq<Call>, cb: CallbackId)
    requires calls <= calls'
    ensures Called(calls, cb) ==> Called(calls', cb)
  {
    if i :| 0 <= i < |calls| && calls[i].cb == cb { assert calls'[i].cb == cb; }
  }

  lemma StoredUncalled(st: State, cb: CallbackId)
    requires Inv(st)
    ensures IsStored(st, cb) ==> !Called(st.calls, cb) && cb < st.next
    ensures Called(st.calls, cb) ==> cb < st.next
  {
  }

  /** Over every run, each callback ever issued is stored, was called once, or
      was replaced by a later bind or rebind of the same device; and only one of
      the three. */
  lemma Answered(steps: seq<Step>, st: State, cb: CallbackId)
    requires Run(Boot(), steps, st) && cb < st.next
    ensures IsStored(st, cb) || Called(st.calls, cb) || Replaced(Boot(), steps, cb)
    ensures !(IsStored(st, cb) && Called(st.calls, cb))
    ensures Replaced(Boot(), steps, cb) ==> !IsStored(st, cb) && !Called(st.calls, cb)
    ensures forall i, j :: 0 <= i < j < |st.calls| && st.calls[i].cb == cb ==> st.calls[j].cb != cb
  {
    RunInv(Boot(), steps, st);
    RunAccounts(Boot(), steps, st, cb);
    StoredUncalled(st, cb);
    hide Called, IsStored;
  }

  /** A bind reply calls a pending callback exactly if no child has an init
      hook or is invisible. */
  lemma BindReplyCalls(st: State, d: DevId, ok: bool)
    requires d in st.devs && st.devs[d].bindConn.Some?
    ensures BindReply(st, d, ok).devs[d].bindConn.None? <==> !ChildStarts(st, d)
    ensures ChildStarts(st, d) ==> BindReply(st, d, ok).calls == st.calls
  {
    AnyInitIs(st, d);
    hide AnyInit, ChildStarts;
  }

  lemma {:induction false} AfterInitStays(st: State, steps: seq<Step>, st': State, d: DevId)
    requires Run(st, steps, st') && d in st.devs && st.devs[d].afterInit
    ensures d in st'.devs && st'.devs[d].afterInit
    decreases |steps|
  {
    if steps == [] {
    } else {
      hide Apply, Enabled;
      AfterInitKept(st, steps[0], d);
      AfterInitStays(Apply(st, steps[0]), steps[1..], st', d);
    }
  }

  lemma AfterInitKept(st: State, step: Step, d: DevId)
    requires Enabled(st, step) && d in st.devs && st.devs[d].afterInit
    ensures d in Apply(st, step).devs && Apply(st, step).devs[d].afterInit
  {
    hide AnyInit, AnyInvisible, Answer, Erase;
  }

  /** A bind reply that finds a child with something to initialize puts the
      completion off, and does not lose it: whatever happens in between, the
      init reply of a child that leaves none invisible then calls what is
      stored for the device. */
  lemma DeferredCompletes(st: State, d: DevId, ok: bool, steps: seq<Step>, st': State, c: DevId, initOk: bool)
    requires d in st.devs && ChildStarts(st, d) && Run(BindReply(st, d, ok), steps, st')
    requires Enabled(st', InitReplyStep(c, initOk)) && st'.devs[c].parent == Some(d)
    requires d in st'.devs && OnlyInvisible(st'.devs, st'.devs[d].children, c)
    ensures var st1 := Apply(st', InitReplyStep(c, initOk));
            Took(Shown(st', c), d, false, initOk, st1) && !ChildHidden(Shown(st', c), d) && !Invisible(st1.devs, c)
  {
    hide Took, ChildHidden, ChildStarts, Run, OnlyInvisible, AnyInit;
    AnyInitIs(st, d);
    AfterInitStays(BindReply(st, d, ok), steps, st', d);
    CompletionCalls(st', InitReplyStep(c, initOk), d);
    Uncovered(st', c, initOk);
  }

  /** The init reply of a device makes it visible. */
  lemma Uncovered(st: State, c: DevId, ok: bool)
    requires Enabled(st, InitReplyStep(c, ok))
    ensures !Invisible(Apply(st, InitReplyStep(c, ok)).devs, c)
  {
    hide AnyInvisible, Answer;
  }

  ghost predicate InitReplied(steps: seq<Step>, d: DevId) {
    exists i :: 0 <= i < |steps| && steps[i].InitReplyStep? && steps[i].d == d
  }

  lemma {:induction false} InvisibleFrom(st: State, steps: seq<Step>, st': State, d: DevId, replied: bool)
    requires Run(st, steps, st') && (d !in st.devs ==> !replied)
    requires d in st.devs ==> (st.devs[d].invisible <==> st.devs[d].hasInit && !replied)
    ensures d in st'.devs ==>
              (st'.devs[d].invisible <==> st'.devs[d].hasInit && !replied && !InitReplied(steps, d))
    decreases |steps|
  {
    if steps == [] {
    } else {
      var now := steps[0].InitReplyStep? && steps[0].d == d;
      hide AnyInit, AnyInvisible, Answer;
      InvisibleFrom(Apply(st, steps[0]), steps[1..], st', d, replied || now);
      RepliedStep(steps, d);
    }
  }

  lemma RepliedStep(steps: seq<Step>, d: DevId)
    requires steps != []
    ensures InitReplied(steps, d) <==> (steps[0].InitReplyStep? && steps[0].d == d) || InitReplied(steps[1..], d)
  {
    if InitReplied(steps[1..], d) {
      var i :| 0 <= i < |steps[1..]| && steps[1..][i].InitReplyStep? && steps[1..][i].d == d;
      assert steps[i + 1] == steps[1..][i];
    }
    if InitReplied(steps, d) {
      var i :| 0 <= i < |steps| && steps[i].InitReplyStep? && steps[i].d == d;
      if i > 0 { assert steps[1..][i - 1] == steps[i]; }
    }
  }

  /** Over every run a device is invisible exactly from its arrival with an
      init hook to its init reply. */
  lemma InvisibleUntil(steps: seq<Step>, st: State, d: DevId)
    requires Run(Boot(), steps, st) && d in st.devs
    ensures st.devs[d].invisible <==> st.devs[d].hasInit && !InitReplied(steps, d)
  {
    InvisibleFrom(Boot(), steps, st, d, false);
  }

  /** The init hook runs exactly for devices that have one; only then is there a
      reply. */
  lemma InitStarts(st: State, d: DevId, ok: bool)
    requires Enabled(st, InitStep(d)) && HasParent(st, d)
    ensures Enabled(Apply(st, InitStep(d)), InitReplyStep(d, ok)) <==> st.devs[d].hasInit
  {
  }

  /** The step takes the pending bind of `d` away: another bind replaces it, or
      a bind reply, the last init reply of a child or the removal of an
      invisible one completes it. */
  ghost predicate EndsPending(st: State, step: Step, d: DevId)
    requires Enabled(st, step) && d in st.devs
  {
    match step
    case BindStep(x) => x == d
    case BindReplyStep(x, _) => x == d && !AnyInit(st.devs, st.devs[d].children)
    case InitReplyStep(x, _) =>
      st.devs[x].parent == Some(d) && st.devs[d].afterInit && OnlyInvisible(st.devs, st.devs[d].children, x)
    case RemoveStep(x) => st.devs[x].parent == Some(d) && st.devs[x].invisible
    case _ => false
  }

  /** No child but `x` is invisible. */
  predicate OnlyInvisible(devs: map<DevId, Dev>, list: seq<DevId>, x: DevId) {
    forall i :: 0 <= i < |list| && list[i] != x ==> !Invisible(devs, list[i])
  }

  lemma VisibleAfter(devs: map<DevId, Dev>, list: seq<DevId>, x: DevId)
    requires x in devs
    ensures AnyInvisible(devs[x := devs[x].(invisible := false)], list) <==> !OnlyInvisible(devs, list, x)
  {
    var devs' := devs[x := devs[x].(invisible := false)];
    forall i | 0 <= i < |list| ensures Invisible(devs', list[i]) <==> list[i] != x && Invisible(devs, list[i]) { }
  }

  lemma PendingStep(st: State, step: Step, d: DevId)
    requires Inv(st) && Enabled(st, step) && d in st.devs && st.devs[d].bindConn.Some?
    ensures d in Apply(st, step).devs
    ensures Apply(st, step).devs[d].bindConn == st.devs[d].bindConn <==> !EndsPending(st, step, d)
  {
    var at := Place(d, false);
    assert Stored(st, at) == st.devs[d].bindConn && Stored(st, at).value < st.next;
    hide Inv, AnyInvisible, AnyInit, OnlyInvisible;
    if step.InitReplyStep? && st.devs[step.d].parent == Some(d) {
      VisibleAfter(st.devs, st.devs[d].children, step.d);
    }
  }

  /** No step of the run takes the pending bind of `d` away. */
  ghost predicate LeavesPending(st: State, steps: seq<Step>, d: DevId)
    decreases |steps|
  {
    steps == [] ||
    (&& d in st.devs && Enabled(st, steps[0]) && !EndsPending(st, steps[0], d)
     && LeavesPending(Apply(st, steps[0]), steps[1..], d))
  }

  /** Over every run from a state with a pending bind, the bind is still
      pending and its callback was not called exactly if no step took it away. */
  lemma {:induction false} StaysPending(st: State, steps: seq<Step>, st': State, d: DevId, cb: CallbackId)
    requires Inv(st) && Run(st, steps, st') && d in st.devs && st.devs[d].bindConn == Some(cb)
    ensures LeavesPending(st, steps, d) ==> d in st'.devs && st'.devs[d].bindConn == Some(cb) && !Called(st'.calls, cb)
    ensures !LeavesPending(st, steps, d) ==> d in st'.devs && st'.devs[d].bindConn != Some(cb)
    decreases |steps|
  {
    hide Inv, Apply, Enabled, EndsPending;
    if steps == [] {
      NotCalled(st, d, cb);
    } else {
      StepInv(st, steps[0]);
      PendingStep(st, steps[0], d);
      var st1 := Apply(st, steps[0]);
      if EndsPending(st, steps[0], d) {
        NotCalled(st, d, cb);
        NextGrows(st, steps[0]);
        GoneForGood(st1, steps[1..], st', d, cb);
      } else {
        StaysPending(st1, steps[1..], st', d, cb);
      }
    }
  }

  lemma NextGrows(st: State, step: Step)
    requires Enabled(st, step)
    ensures st.next <= Apply(st, step).next
  {
    hide AnyInvisible, AnyInit;
  }

  lemma NotCalled(st: State, d: DevId, cb: CallbackId)
    requires Inv(st) && d in st.devs && st.devs[d].bindConn == Some(cb)
    ensures !Called(st.calls, cb) && cb < st.next
  {
    assert Stored(st, Place(d, false)) == Some(cb);
  }

  /** A callback that is no longer stored is not stored again. */
  lemma {:induction false} GoneForGood(st: State, steps: seq<Step>, st': State, d: DevId, cb: CallbackId)
    requires Run(st, steps, st') && d in st.devs && st.devs[d].bindConn != Some(cb) && cb < st.next
    ensures d in st'.devs && st'.devs[d].bindConn != Some(cb)
    decreases |steps|
  {
    if steps == [] {
    } else {
      GoneStep(st, steps[0], d, cb);
      hide Apply, Enabled;
      GoneForGood(Apply(st, steps[0]), steps[1..], st', d, cb);
    }
  }

  lemma GoneStep(st: State, step: Step, d: DevId, cb: CallbackId)
    requires Enabled(st, step) && d in st.devs && st.devs[d].bindConn != Some(cb) && cb < st.next
    ensures d in Apply(st, step).devs && Apply(st, step).devs[d].bindConn != Some(cb) && cb < Apply(st, step).next
  {
    hide AnyInvisible, AnyInit;
  }

  /** After a bind reply that found a child with an init hook, though it may be
      long done, the bind stays pending over every run without a bind or bind
      reply of the device and without an init reply or removal of a child. */
  lemma PendingForGood(st: State, d: DevId, ok: bool, steps: seq<Step>, st': State, cb: CallbackId)
    requires Inv(st) && d in st.devs && st.devs[d].bindConn == Some(cb)
    requires AnyInit(st.devs, st.devs[d].children)
    requires Run(BindReply(st, d, ok), steps, st') && Quiet(BindReply(st, d, ok), steps, d)
    ensures d in st'.devs && st'.devs[d].bindConn == Some(cb) && !Called(st'.calls, cb)
  {
    var st1 := BindReply(st, d, ok);
    StepInv(st, BindReplyStep(d, ok));
    hide Inv, AnyInvisible, AnyInit;
    QuietLeaves(st1, steps, st', d);
    StaysPending(st1, steps, st', d, cb);
  }

  /** Nobody binds `d` or replies for it, and no child of it replies to init or
      is removed. */
  ghost predicate Quiet(st: State, steps: seq<Step>, d: DevId)
    decreases |steps|
  {
    steps == [] ||
    (&& Enabled(st, steps[0]) && QuietStep(st, steps[0], d)
     && Quiet(Apply(st, steps[0]), steps[1..], d))
  }

  ghost predicate QuietStep(st: State, step: Step, d: DevId)
    requires Enabled(st, step)
  {
    && !(step.BindStep? && step.d == d) && !(step.BindReplyStep? && step.d == d)
    && (step.InitReplyStep? || step.RemoveStep? ==> st.devs[step.d].parent != Some(d))
  }

  lemma {:induction false} QuietLeaves(st: State, steps: seq<Step>, st': State, d: DevId)
    requires Run(st, steps, st') && Quiet(st, steps, d) && d in st.devs
    ensures LeavesPending(st, steps, d)
    decreases |steps|
  {
    if steps == [] {
    } else {
      KeepsDevices(st, steps[0], d);
      assert !EndsPending(st, steps[0], d);
      hide Apply, Enabled, EndsPending, QuietStep;
      QuietLeaves(Apply(st, steps[0]), steps[1..], st', d);
    }
  }

  lemma KeepsDevices(st: State, step: Step, d: DevId)
    requires Enabled(st, step) && d in st.devs
    ensures d in Apply(st, step).devs
  {
    hide AnyInvisible, AnyInit;
  }

  /** So a bind can stay pending with nothing left to wait for: its only child
      finished its initialization before the bind reply. */
  lemma BindStaysPending() returns (steps: seq<Step>, st: State)
    ensures Run(Boot(), steps, st)
    ensures 0 in st.devs && st.devs[0].bindConn == Some(0) && !AnyInvisible(st.devs, st.devs[0].children)
    ensures st.calls == []
    ensures steps[|steps| - 1] == BindReplyStep(0, true)
  {
    var s1 := Apply(Boot(), BindStep(0));
    var s2 := Apply(s1, AddStep(1, 0, true));
    var s3 := Apply(s2, InitStep(1));
    var s4 := Apply(s3, InitReplyStep(1, true));
    assert s4.devs[0].children == [1] && s4.devs[1].hasInit && !s4.devs[1].invisible;
    assert s4.devs[0].bindConn == Some(0) && s4.calls == [];
    assert [1][0] in s4.devs && s4.devs[[1][0]].hasInit && AnyInit(s4.devs, [1]);
    st := Apply(s4, BindReplyStep(0, true));
    steps := [BindStep(0), AddStep(1, 0, true), InitStep(1), InitReplyStep(1, true), BindReplyStep(0, true)];
    hide Apply, Enabled;
    RunOne(s4, steps[4], st);
    assert steps[4..] == [steps[4]] && steps[3..][1..] == steps[4..] && steps[2..][1..] == steps[3..]
           && steps[1..][1..] == steps[2..];
    assert Run(s4, steps[4..], st) && Run(s3, steps[3..], st) && Run(s2, steps[2..], st) && Run(s1, steps[1..], st);
  }

  lemma RunOne(st: State, step: Step, st': State)
    requires Enabled(st, step) && st' == Apply(st, step)
    ensures Run(st, [step], st')
  {
  }

  // ----- in place

  class Host {
    var devs: map<DevId, Dev>
    var next: CallbackId
    ghost var calls: seq<Call>

    ghost function View(): State reads this { State(devs, next, calls) }

    constructor ()
      ensures View() == Boot()
    {
      devs, next, calls := map[0 := Dev(None, [], false, false, false, false, None, None)], 0, [];
    }

    /** Callbacks are taken before they are called. */
    method TakeBoth(d: DevId, ok: bool)
      requires d in devs
      modifies this
      ensures View() == Complete(old(View()), d, ok)
    {
      ghost var st := View();
      var bind := devs[d].bindConn;
      devs := devs[d := devs[d].(bindConn := None)];
      calls := calls + Answer(st, d, bind, ok);
      var rebind := devs[d].rebindConn;
      devs := devs[d := devs[d].(rebindConn := None)];
      calls := calls + Answer(st, d, rebind, ok);
    }

    /** BindReply: a scan of the children decides. */
    method OnBindReply(d: DevId, ok: bool)
      requires d in devs
      modifies this
      ensures View() == BindReply(old(View()), d, ok)
    {
      hide Complete;
      var list, completeBind, i := devs[d].children, true, 0;
      while i < |list|
        invariant i <= |list| && View() == old(View()) && completeBind == !AnyInit(devs, list[..i])
      {
        var busy := list[i] in devs && (devs[list[i]].invisible || devs[list[i]].hasInit);
        AnyInitStep(devs, list, i);
        if busy {
          completeBind := false;
        }
        i := i + 1;
      }
      assert list[..i] == list;
      if !completeBind {
        devs := devs[d := devs[d].(afterInit := true)];
        return;
      }
      TakeBoth(d, ok);
    }

    /** DeviceInitReply: the device is visible, and maybe its parent is bound. */
    method OnInitReply(d: DevId, ok: bool)
      requires d in devs && devs[d].parent.Some? && devs[d].parent.value in devs
      modifies this
      ensures View() == InitReply(old(View()), d, ok)
    {
      hide Complete;
      devs := devs[d := devs[d].(invisible := false)];
      var p := devs[d].parent.value;
      var list, complete, i := devs[p].children, true, 0;
      ghost var st := View();
      while i < |list|
        invariant i <= |list| && View() == st && complete == !AnyInvisible(devs, list[..i])
      {
        AnyInvisibleStep(devs, list, i);
        if Invisible(devs, list[i]) {
          complete := false;
        }
        i := i + 1;
      }
      assert list[..i] == list;
      if complete && devs[p].afterInit {
        TakeBoth(p, ok);
      }
    }
  }

  lemma AnyInitStep(devs: map<DevId, Dev>, list: seq<DevId>, i: nat)
    requires i < |list|
    ensures AnyInit(devs, list[..i + 1]) ==
              (AnyInit(devs, list[..i]) || (list[i] in devs && (devs[list[i]].invisible || devs[list[i]].hasInit)))
  {
  }

  lemma AnyInvisibleStep(devs: map<DevId, Dev>, list: seq<DevId>, i: nat)
    requires i < |list|
    ensures AnyInvisible(devs, list[..i + 1]) == (AnyInvisible(devs, list[..i]) || Invisible(devs, list[i]))
  {
  }
}
