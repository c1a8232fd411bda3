/** Connections from proxy devices: proxy_iostate.cc and
    async_loop_owned_rpc_handler.h. A connection is owned in turn by the event
    loop, by its handler, and by a posted task that will delete it. Handlers and
    tasks run one at a time on the loop; connections are made and cancelled from
    anywhere, also while a handler calls into the driver. */
module ProxyIostate {
  import opened Common

  type ConnId = nat
  type DevId = nat

  /** `conns` are the connections that exist, with their devices; `current` is
      proxy_ios; `waiting` are the waits known to the loop; `tasks` the posted
      deletions; `handling` the connection whose handler runs. `deleted` records
      deletions. */
  datatype State = State(
    conns: map<ConnId, DevId>, current: map<DevId, ConnId>, waiting: set<ConnId>, tasks: seq<ConnId>,
    handling: Option<ConnId>, deleted: seq<ConnId>, next: ConnId)

  /** A failed ZX_ASSERT, the use of a connection that does not exist, or a
      thread that waits for a lock it holds itself. */
  datatype Outcome = Done(st: State) | AssertFails | UseAfterDelete | SelfDeadlock

  datatype Step =
    | CreateStep(d: DevId, waitOk: bool)
    | CancelStep(d: DevId)
    | EventStep(c: ConnId)
    | AgainStep(waitOk: bool)
    | CloseStep
    | TaskStep

  /** ~ProxyIostate, which also cancels the wait. It first takes the
      proxy_ios_lock of the connection's device; `held` is the device whose lock
      the caller has, if any. */
  function Delete(st: State, c: ConnId, held: Option<DevId>): Outcome {
    if c !in st.conns then UseAfterDelete
    else if held == Some(st.conns[c]) then SelfDeadlock
    else if st.conns[c] in st.current && st.current[st.conns[c]] == c then AssertFails
    else Done(st.(conns := st.conns - {c}, waiting := st.waiting - {c}, deleted := st.deleted + [c]))
  }

  /** CancelLocked on the connection a device points at, if any. */
  function Cancel(st: State, d: DevId): Outcome {
    if d !in st.current then Done(st)
    else
      var c := st.current[d];
      if c !in st.conns then UseAfterDelete
      else if st.conns[c] != d then AssertFails
      else Done(st.(current := st.current - {d}, tasks := st.tasks + [c]))
  }

  /** Create holds the device's lock throughout. */
  function Create(st: State, d: DevId, waitOk: bool): Outcome {
    match Cancel(st, d)
    case Done(st1) =>
      var c := st1.next;
      var st2 := st1.(conns := st1.conns[c := d], current := st1.current[d := c], next := c + 1);
      if waitOk then Done(st2.(waiting := st2.waiting + {c})) else Delete(st2, c, Some(d))
    case other => other
  }

  /** The end of a handler that goes on: the wait is begun again. */
  function Again(st: State, c: ConnId, waitOk: bool): Outcome {
    if c !in st.conns then UseAfterDelete
    else if waitOk then Done(st.(handling := None, waiting := st.waiting + {c}))
    else Delete(st.(handling := None), c, None)
  }

  /** handle_destroy: the connection is deleted unless a task will do it. */
  function Close(st: State, c: ConnId): Outcome {
    if c !in st.conns then UseAfterDelete
    else
      var d := st.conns[c];
      if d in st.current && st.current[d] == c then Delete(st.(handling := None, current := st.current - {d}), c, None)
      else Done(st.(handling := None))
  }

  predicate Enabled(st: State, step: Step) {
    match step
    case CreateStep(_, _) => true
    case CancelStep(_) => true
    case EventStep(c) => st.handling.None? && c in st.waiting
    case AgainStep(_) => st.handling.Some?
    case CloseStep => st.handling.Some?
    case TaskStep => st.handling.None? && st.tasks != []
  }

  function Apply(st: State, step: Step): Outcome
    requires Enabled(st, step)
  {
    match step
    case CreateStep(d, waitOk) => Create(st, d, waitOk)
    case CancelStep(d) => Cancel(st, d)
    case EventStep(c) =>
      if c in st.conns then Done(st.(waiting := st.waiting - {c}, handling := Some(c))) else UseAfterDelete
    case AgainStep(waitOk) => Again(st, st.handling.value, waitOk)
    case CloseStep => Close(st, st.handling.value)
    case TaskStep => Delete(st.(tasks := st.tasks[1..]), st.tasks[0], None)
  }

  predicate WaitFails(step: Step) {
    (step.CreateStep? || step.AgainStep?) && !step.waitOk
  }

  /** A device points at a live connection of its own that is not queued; every
      connection is pointed at or queued, once; and the loop, a handler or a
      queued deletion owns it. */
  ghost predicate Inv(st: State) {
    && (forall d :: d in st.current ==>
          st.current[d] in st.conns && st.conns[st.current[d]] == d && st.current[d] !in st.tasks)
    && NoDup(st.tasks) && (forall c :: c in st.tasks ==> c in st.conns)
    && (forall c :: c in st.conns ==>
          c < st.next && (c in st.tasks || (st.conns[c] in st.current && st.current[st.conns[c]] == c)))
    && (forall c :: c in st.waiting || st.handling == Some(c) ==> c in st.conns)
    && (forall c :: c in st.conns ==> c in st.waiting || st.handling == Some(c) || c in st.tasks)
    && (st.handling.Some? ==> st.handling.value !in st.waiting)
    && Logged(st)
  }

  /** Every connection ever made is live or was deleted, once. */
  ghost predicate Logged(st: State) {
    && NoDup(st.deleted) && (forall c :: c in st.deleted ==> c < st.next)
    && (forall c: ConnId :: c < st.next ==> (c in st.deleted <==> c !in st.conns))
  }

  lemma CancelInv(st: State, d: DevId)
    requires Inv(st)
    ensures Cancel(st, d).Done? && Inv(Cancel(st, d).st) && d !in Cancel(st, d).st.current
    ensures Cancel(st, d).st.next == st.next
  {
  }

  lemma CreateInv(st: State, d: DevId)
    requires Inv(st)
    ensures Create(st, d, true).Done? && Inv(Create(st, d, true).st)
  {
    hide Inv, Cancel;
    CancelInv(st, d);
    OneMore(Cancel(st, d).st, d);
  }

  lemma OneMore(st: State, d: DevId)
    requires Inv(st) && d !in st.current
    ensures Inv(st.(conns := st.conns[st.next := d], current := st.current[d := st.next], next := st.next + 1,
                    waiting := st.waiting + {st.next}))
  {
  }

  lemma TaskInv(st: State)
    requires Inv(st) && Enabled(st, TaskStep)
    ensures Apply(st, TaskStep).Done? && Inv(Apply(st, TaskStep).st)
  {
    var c, rest := st.tasks[0], st.tasks[1..];
    assert st.tasks == [c] + rest;
    assert c in st.tasks && c !in rest;
  }

  lemma CloseInv(st: State)
    requires Inv(st) && Enabled(st, CloseStep)
    ensures Apply(st, CloseStep).Done? && Inv(Apply(st, CloseStep).st)
  {
  }

  lemma StepInv(st: State, step: Step)
    requires Inv(st) && Enabled(st, step) && !WaitFails(step)
    ensures Apply(st, step).Done? && Inv(Apply(st, step).st)
  {
    match step
    case CreateStep(d, _) => CreateInv(st, d);
    case CancelStep(d) => CancelInv(st, d);
    case TaskStep => TaskInv(st);
    case CloseStep => CloseInv(st);
    case EventStep(_) =>
    case AgainStep(_) =>
  }

  function Boot(): State { State(map[], map[], {}, [], None, [], 0) }

  ghost predicate Run(st: State, steps: seq<Step>, o: Outcome)
    decreases |steps|
  {
    if steps == [] then o == Done(st)
    else Enabled(st, steps[0]) && !WaitFails(steps[0])
         && if Apply(st, steps[0]).Done? then Run(Apply(st, steps[0]).st, steps[1..], o) else o == Apply(st, steps[0])
  }

  lemma {:induction false} RunInv(st: State, steps: seq<Step>, o: Outcome)
    requires Inv(st) && Run(st, steps, o)
    ensures o.Done? && Inv(o.st)
    decreases |steps|
  {
    hide Inv, Apply, Enabled, WaitFails;
    if steps == [] {
    } else {
      StepInv(st, steps[0]);
      RunInv(Apply(st, steps[0]).st, steps[1..], o);
    }
  }

  /** Ownership of connections: however making, cancelling, events and posted
      deletions alternate, as long as waits can be begun no assertion fails, no
      connection is used after it was deleted or deleted twice, and a device
      points at nothing or at a live connection with no deletion queued. Every
      connection ever made is live or deleted, and one that is live is pointed
      at or has its deletion queued. */
  lemma Ownership(steps: seq<Step>, o: Outcome)
    requires Run(Boot(), steps, o)
    ensures o.Done? && NoDup(o.st.deleted)
    ensures forall c: ConnId :: c < o.st.next ==> (c in o.st.deleted <==> c !in o.st.conns)
    ensures forall c :: c in o.st.conns ==>
              c in o.st.tasks || (o.st.conns[c] in o.st.current && o.st.current[o.st.conns[c]] == c)
    ensures forall d :: d in o.st.current ==>
              o.st.current[d] in o.st.conns && o.st.current[d] !in o.st.tasks && o.st.current[d] !in o.st.deleted
  {
    RunInv(Boot(), steps, o);
  }

  /** Cancelling takes the device's connection away from it and queues its
      deletion behind the others. */
  lemma CancelEffect(st: State, d: DevId)
    requires Inv(st) && d in st.current
    ensures var c := st.current[d];
            Cancel(st, d) == Done(State(st.conns, st.current - {d}, st.waiting, st.tasks + [c], st.handling,
                                        st.deleted, st.next))
  {
  }

  /** A handler that ends is no longer running. At the end of a connection the
      one its device points at is deleted at once; one that was cancelled is
      left to its task. Otherwise the loop waits for the connection again. */
  lemma HandlerEnds(st: State, step: Step)
    requires Inv(st) && Enabled(st, step) && (step.CloseStep? || step == AgainStep(true))
    ensures var c, st' := st.handling.value, Apply(st, step).st;
            && Apply(st, step).Done? && st'.handling.None? && st'.tasks == st.tasks && st'.next == st.next
            && if step.CloseStep? && c !in st.tasks then
              && st'.deleted == st.deleted + [c] && st'.conns == st.conns - {c} && st'.waiting == st.waiting - {c}
              && st'.current == st.current - {st.conns[c]}
            else
              && st'.deleted == st.deleted && st'.conns == st.conns && st'.current == st.current
              && st'.waiting == st.waiting + if step.CloseStep? then {} else {c}
  {
    StepInv(st, step);
  }

  /** A connection whose deletion is queued is deleted by that task alone. */
  lemma DeletedByTask(st: State, step: Step, c: ConnId)
    requires Inv(st) && Enabled(st, step) && !WaitFails(step) && c in st.tasks
    requires Apply(st, step).Done? && c !in Apply(st, step).st.conns
    ensures step == TaskStep && st.tasks[0] == c
  {
  }

  /** When a wait cannot be begun, making a connection always ends in the
      thread waiting for itself: the connection is destroyed while Create holds
      the lock that its destructor takes. Were the lock free, the destructor's
      assertion would fail, for proxy_ios still points at the connection. */
  lemma CreateWithoutWait(st: State, d: DevId)
    requires Inv(st)
    ensures Create(st, d, false) == SelfDeadlock
    ensures var st1 := Create(st, d, true);
            st1.Done? && d in st1.st.current && Delete(st1.st, st1.st.current[d], None) == AssertFails
  {
  }

  /** And going on after a request fails it, or deletes a connection that a task
      will delete again. */
  lemma AgainWithoutWait(st: State)
    requires Inv(st) && st.handling.Some?
    ensures var c := st.handling.value;
            var o := Again(st, c, false);
            if c in st.tasks then o.Done? && c !in o.st.conns && c in o.st.tasks else o == AssertFails
  {
  }

  // ----- in place

  class Loop {
    var conns: map<ConnId, DevId>
    var current: map<DevId, ConnId>
    var waiting: set<ConnId>
    var tasks: seq<ConnId>
    var handling: Option<ConnId>
    ghost var deleted: seq<ConnId>
    var next: ConnId

    ghost function View(): State reads this { State(conns, current, waiting, tasks, handling, deleted, next) }

    constructor ()
      ensures View() == Boot()
    {
      conns, current, waiting, tasks, handling, deleted, next := map[], map[], {}, [], None, [], 0;
    }

    method Destroy(c: ConnId)
      requires Delete(View(), c, None).Done?
      modifies this
      ensures View() == Delete(old(View()), c, None).st
    {
      conns := conns - {c};
      waiting := waiting - {c};
      deleted := deleted + [c];
    }

    method CancelLocked(d: DevId)
      requires Inv(View())
      modifies this
      ensures Inv(View()) && Cancel(old(View()), d) == Done(View()) && d !in current
    {
      CancelInv(View(), d);
      if d in current {
        tasks := tasks + [current[d]];
        current := current - {d};
      }
    }

    /** ProxyIostate::Create with a wait that can be begun. */
    method Open(d: DevId) returns (c: ConnId)
      requires Inv(View())
      modifies this
      ensures Inv(View()) && Create(old(View()), d, true) == Done(View()) && d in current && current[d] == c
    {
      CreateInv(View(), d);
      CancelLocked(d);
      c := next;
      next := next + 1;
      conns := conns[c := d];
      current := current[d := c];
      waiting := waiting + {c};
    }

    /** handle_destroy. */
    method HandleDestroy()
      requires Inv(View()) && handling.Some?
      modifies this
      ensures Inv(View()) && Close(old(View()), old(handling).value) == Done(View())
    {
      CloseInv(View());
      var c := handling.value;
      var d := conns[c];
      handling := None;
      if d in current && current[d] == c {
        current := current - {d};
        Destroy(c);
      }
    }

    /** The loop runs the oldest posted deletion. */
    method RunTask()
      requires Inv(View()) && handling.None? && tasks != []
      modifies this
      ensures Inv(View()) && Apply(old(View()), TaskStep) == Done(View())
    {
      TaskInv(View());
      var c := tasks[0];
      tasks := tasks[1..];
      Destroy(c);
    }
  }
}
