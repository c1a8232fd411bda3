/** Watchers over whole runs of devfs. */
module DevfsWatchRuns {
  import opened Common
  import opened Devfs
  import opened DevfsForest
  import opened DevfsExport
  import opened DevfsSystem
  import opened DevfsNames
  import opened DevfsWatch

  datatype Watched = Watched(sys: Sys, watchers: map<nat, Watcher>)

  datatype Move =
    | StepMove(step: Step)
    | WatchMove(w: nat, dir: NodeId, mask: set<Op>)
    | HangUpMove(w: nat)

  function EventsOf(r: Reply): seq<Event> { if r.Broken? then [] else r.events }

  /** What the watchers are told in the course of a step. */
  function Events(sys: Sys, step: Step): seq<Event>
    requires Enabled(sys, step)
  {
    var fs := sys.fs;
    match step
    case PublishStep(p, d) => EventsOf(Publish(fs, p, d))
    case UnpublishStep(d) => EventsOf(Unpublish(fs, d))
    case VisibleStep(d, ready) => EventsOf(MakeVisible(fs, d, ready))
    case ModifiedStep(d) => EventsOf(AdvertiseModified(fs, d))
    case ExportStep(e, servicePath, path, proto, cloneOk, order) =>
      var x := Export(fs, sys.root, servicePath, path, proto, cloneOk);
      EventsOf(x.reply) + if x.reply.Refused? then EventsOf(RemoveAll(x.reply.fs, order)) else []
    case CloseStep(e, order) => EventsOf(RemoveAll(fs, order))
    case _ => []
  }

  /** The step stays out of the watched directory: nothing but device links is
      made there, and modifications are announced for visible devices. */
  ghost predicate Outside(sys: Sys, step: Step, pr: Proto)
    requires Enabled(sys, step)
  {
    && Elsewhere(sys.fs, step)
    && (step.ModifiedStep? ==> !sys.fs.devs[step.d].invisible)
    && (step.ExportStep? ==>
          && step.proto != pr
          && pr in sys.fs.protos && Resolve(sys.fs.nodes, sys.root, Parts(step.path)).0 != sys.fs.protos[pr])
  }

  ghost predicate Allowed(x: Watched, m: Move, pr: Proto) {
    match m
    case StepMove(step) => Enabled(x.sys, step) && Outside(x.sys, step, pr)
    case WatchMove(w, dir, _) => w !in x.watchers && dir in x.sys.fs.nodes
    case HangUpMove(_) => true
  }

  ghost function After(x: Watched, m: Move, pr: Proto): Option<Watched>
    requires Allowed(x, m, pr)
  {
    match m
    case StepMove(step) =>
      var r := Apply(x.sys, step);
      if r.Crash? then None else Some(Watched(r.sys, Deliver(x.watchers, Events(x.sys, step))))
    case WatchMove(w, dir, mask) => Some(x.(watchers := x.watchers[w := Watch(x.sys.fs, dir, mask)]))
    case HangUpMove(w) => Some(x.(watchers := x.watchers - {w}))
  }

  ghost predicate InStep(x: Watched, pr: Proto) {
    Good(x.sys) && Synced(Scene(x.sys.fs, x.watchers), pr)
  }

  // ----- steps the directory does not see

  /** The watched directory `q`, its links and all device nodes are as they were. */
  ghost predicate Quiet(fs: Fs, fs': Fs, pr: Proto) {
    && fs'.devs == fs.devs && pr in fs.protos && pr in fs'.protos && fs'.protos[pr] == fs.protos[pr]
    && (forall r :: r in fs'.protos && fs'.protos[r] == fs.protos[pr] ==> r == pr)
    && fs.protos[pr] in fs.nodes && fs.protos[pr] in fs'.nodes
    && (forall c :: c in fs'.nodes[fs.protos[pr]].children <==> c in fs.nodes[fs.protos[pr]].children)
    && (forall n :: n in fs.nodes && fs.nodes[n].dev.Some? ==>
          n in fs'.nodes && fs'.nodes[n].name == fs.nodes[n].name && fs'.nodes[n].dev == fs.nodes[n].dev
          && fs'.nodes[n].parent == fs.nodes[n].parent)
  }

  lemma QuietClassOk(fs: Fs, fs': Fs, pr: Proto)
    requires Inv(fs) && ClassOk(fs, pr) && Quiet(fs, fs', pr)
    requires forall d :: d in fs.devs && fs.devs[d].self.Some? ==> OwnedAt(fs, d)
    ensures ClassOk(fs', pr) && VisibleNames(fs', fs.protos[pr]) == VisibleNames(fs, fs.protos[pr])
  {
    hide Inv, IsSeqName;
    var list, list' := fs.nodes[fs.protos[pr]].children, fs'.nodes[fs.protos[pr]].children;
    forall c | c in list' ensures LinkChild(fs, c) && LinkChild(fs', c) { }
    assert forall c :: c in list ==> (Shows(fs', c) <==> Shows(fs, c)) && fs'.nodes[c].name == fs.nodes[c].name;
  }

  lemma OwnedBy(fs: Fs)
    requires Inv(fs)
    ensures forall d :: d in fs.devs ==> OwnedAt(fs, d)
  {
  }

  lemma QuietSynced(scene: Scene, pr: Proto, fs': Fs, events: seq<Event>)
    requires Synced(scene, pr) && Quiet(scene.fs, fs', pr) && Inv(fs') && ClassNames(fs')
    requires Notes(events, scene.fs.protos[pr], ALL) == []
    ensures Synced(Scene(fs', Deliver(scene.watchers, events)), pr)
  {
    hide Inv, ClassNames, ClassOk, Deliver, Knows, VisibleNames, Notes;
    OwnedBy(scene.fs);
    QuietClassOk(scene.fs, fs', pr);
    assert Tracks(scene.fs, events, fs', scene.fs.protos[pr]);
    DeliverKnows(scene, pr, events, fs');
  }

  // ----- silent events

  lemma {:induction false} GrowSilent(fs: Fs, p: NodeId, parts: seq<string>, q: NodeId)
    requires p in fs.nodes && p != q && q < fs.nextIno
    ensures Notes(Grow(fs, p, parts).events, q, ALL) == []
    decreases |parts|
  {
    if parts == [] {
    } else {
      var g := Grow(Mkdir(fs, p, parts[0]), fs.nextIno, parts[1..]);
      GrowSilent(Mkdir(fs, p, parts[0]), fs.nextIno, parts[1..], q);
      NameSilent(p, ADDED, parts[0], q);
      NotesAppend(NotifyName(p, ADDED, parts[0]), g.events, q, ALL);
    }
  }

  lemma NameSilent(dir: NodeId, op: Op, name: string, q: NodeId)
    requires dir != q
    ensures Notes(NotifyName(dir, op, name), q, ALL) == []
  {
    assert forall e: Event :: [e][1..] == [];
  }

  lemma ExportSilent(fs: Fs, root: NodeId, servicePath: string, path: string, proto: Proto, cloneOk: bool, q: NodeId)
    requires root in fs.nodes && q < fs.nextIno && Resolve(fs.nodes, root, Parts(path)).0 != q
    requires proto in fs.protos ==> fs.protos[proto] != q
    ensures Notes(EventsOf(Export(fs, root, servicePath, path, proto, cloneOk).reply), q, ALL) == []
  {
    var (at, rest) := Resolve(fs.nodes, root, Parts(path));
    GrowSilent(fs, at, rest, q);
    GrowClasses(fs, at, rest);
    var g := Grow(fs, at, rest);
    hide Grow, Scan, Resolve, Notes, Parts;
    assert Notes([], q, ALL) == [] by { NoNotes(q); }
    if rest != [] && g.out != [] && g.out[|g.out| - 1] in g.fs.nodes {
      ClassSilent(Serve(g.fs, g.out[|g.out| - 1], servicePath), g.out, g.events, servicePath, proto, cloneOk, q);
    }
  }

  lemma {:induction false} GrowClasses(fs: Fs, p: NodeId, parts: seq<string>)
    requires p in fs.nodes
    ensures Grow(fs, p, parts).fs.protos == fs.protos && |Grow(fs, p, parts).out| == |parts|
    decreases |parts|
  {
    if parts == [] {
    } else {
      GrowClasses(Mkdir(fs, p, parts[0]), fs.nextIno, parts[1..]);
    }
  }

  lemma ClassSilent(fs: Fs, out: seq<NodeId>, ev: seq<Event>, servicePath: string, proto: Proto, cloneOk: bool,
                    q: NodeId)
    requires Notes(ev, q, ALL) == [] && (proto in fs.protos ==> fs.protos[proto] != q)
    ensures Notes(EventsOf(ExportClass(fs, out, ev, servicePath, proto, cloneOk).reply), q, ALL) == []
  {
    hide Scan, Notes, NotifyName;
    NoNotes(q);
    if proto in fs.protos && fs.protos[proto] in fs.nodes {
      var dir := fs.protos[proto];
      var (name, c) := Scan(fs.nodes, dir, fs.nodes[dir].seqcount % WORD, SEQ_NAMES);
      if name.Some? {
        NameSilent(dir, ADDED, name.value, q);
        NotesAppend(ev, NotifyName(dir, ADDED, name.value), q, ALL);
      }
    }
  }

  lemma {:induction false} RemoveAllSilent(fs: Fs, list: seq<NodeId>, q: NodeId)
    requires NoDup(list) && q !in list && forall n :: n in list ==> n in fs.nodes && fs.nodes[n].dev.None?
    ensures Notes(EventsOf(RemoveAll(fs, list)), q, ALL) == []
    decreases |list|
  {
    if list == [] {
    } else {
      var n, rest := list[0], list[1..];
      assert n in list && n !in rest;
      var r := Remove(fs, n);
      if r.Ok? {
        var ev := [Told(n, DELETED, ""), Gone(n)];
        assert r.events == ev;
        DeletedSilent(n, q);
        forall m | m in rest
          ensures m in list && m in r.fs.nodes && r.fs.nodes[m].dev.None?
        {
          DeleteKeeps(fs.nodes, n, m);
        }
        RemoveAllSilent(r.fs, rest, q);
        NotesAppend(r.events, EventsOf(RemoveAll(r.fs, rest)), q, ALL);
      }
    }
  }

  lemma DeletedSilent(n: NodeId, q: NodeId)
    requires n != q
    ensures Notes([Told(n, DELETED, ""), Gone(n)], q, ALL) == []
  {
    var ev := [Told(n, DELETED, ""), Gone(n)];
    assert ev[1..] == [Gone(n)] && [Gone(n)][1..] == [];
    assert Notes([Gone(n)], q, ALL) == [];
  }

  lemma DeleteKeeps(nodes: map<NodeId, Node>, n: NodeId, m: NodeId)
    requires n in nodes && (InContainer(nodes, n) ==> nodes[n].parent.Some? && nodes[n].parent.value in nodes)
    requires m in nodes && m != n
    ensures m in Delete(nodes, n) && Delete(nodes, n)[m].dev == nodes[m].dev
  {
  }

  // ----- every step

  lemma MkdirQuiet(sys: Sys, step: Step, pr: Proto)
    requires Good(sys) && ClassOk(sys.fs, pr) && Enabled(sys, step) && step.MkdirStep? && Elsewhere(sys.fs, step)
    ensures Quiet(sys.fs, Apply(sys, step).sys.fs, pr)
  {
    hide Inv, Held, ClassOk, Shape;
    ClassKnown(sys.fs, pr);
    ClassIsNode(sys.fs, pr);
    Numbers(sys.fs);
  }

  lemma ExportQuiet(sys: Sys, step: Step, pr: Proto)
    requires Good(sys) && ClassOk(sys.fs, pr) && Enabled(sys, step) && step.ExportStep? && Outside(sys, step, pr)
    ensures var x := Export(sys.fs, sys.root, step.servicePath, step.path, step.proto, step.cloneOk);
            && !x.reply.Broken? && (x.reply.Refused? ==> RemoveAll(x.reply.fs, step.order).Ok?)
            && var fs' := if x.reply.Ok? then x.reply.fs else RemoveAll(x.reply.fs, step.order).fs;
               Quiet(sys.fs, fs', pr)
  {
    hide Inv, Held, Export, RemoveAll, Extended, Added, Parts, Resolve, LinkChild, DistinctAt;
    var fs, x := sys.fs, Export(sys.fs, sys.root, step.servicePath, step.path, step.proto, step.cloneOk);
    ExportInv(fs, sys.root, step.servicePath, step.path, step.proto, step.cloneOk);
    ClassIsNode(fs, pr);
    if x.reply.Ok? {
      var (at, rest) := Resolve(fs.nodes, sys.root, Parts(step.path));
      ExportAdds(fs, sys.root, step.servicePath, step.path, step.proto, step.cloneOk);
      AddedQuiet(fs, at, rest, ClassOf(fs, step.proto), step.servicePath, x.out, x.reply.fs, pr);
    } else {
      Rollback(fs, x.out, x.reply.fs, step.order);
    }
  }

  lemma AddedQuiet(fs: Fs, at: NodeId, rest: seq<string>, dir: Option<NodeId>, servicePath: string, out: seq<NodeId>,
                   fs': Fs, pr: Proto)
    requires Added(fs, at, rest, dir, servicePath, out, fs'.nodes) && Extended(fs, Set(out), fs') && ClassOk(fs, pr)
    requires fs.protos[pr] in fs.nodes && at != fs.protos[pr] && dir != Some(fs.protos[pr])
    ensures Quiet(fs, fs', pr)
  {
    hide LinkChild, DistinctAt, ChainAt, EntryAt;
  }

  lemma ExportEvents(sys: Sys, step: Step, pr: Proto)
    requires Good(sys) && ClassOk(sys.fs, pr) && Enabled(sys, step) && step.ExportStep? && Outside(sys, step, pr)
    ensures Notes(Events(sys, step), sys.fs.protos[pr], ALL) == []
  {
    hide Inv, Held, Export, RemoveAll, Extended, Parts, Resolve, LinkChild, DistinctAt, Notes;
    var fs, q := sys.fs, sys.fs.protos[pr];
    var x := Export(fs, sys.root, step.servicePath, step.path, step.proto, step.cloneOk);
    ClassIsNode(fs, pr);
    Numbers(fs);
    ExportSilent(fs, sys.root, step.servicePath, step.path, step.proto, step.cloneOk, q);
    ExportInv(fs, sys.root, step.servicePath, step.path, step.proto, step.cloneOk);
    NoNotes(q);
    if x.reply.Refused? {
      NewNodes(fs, x.out, x.reply.fs, step.order, q);
      RemoveAllSilent(x.reply.fs, step.order, q);
      NotesAppend(EventsOf(x.reply), EventsOf(RemoveAll(x.reply.fs, step.order)), q, ALL);
    } else {
      assert EventsOf(x.reply) + [] == EventsOf(x.reply);
    }
  }

  lemma NewNodes(fs: Fs, out: seq<NodeId>, fs': Fs, order: seq<NodeId>, q: NodeId)
    requires Inv(fs) && Extended(fs, Set(out), fs') && Set(order) == Set(out) && q in fs.nodes
    ensures q !in order && forall n :: n in order ==> n in fs'.nodes && fs'.nodes[n].dev.None?
  {
    Beyond(fs, Set(out), fs');
    hide Inv;
    assert forall n :: n in order <==> n in Set(order);
  }

  /** A connection's exports are not links, nor class directories. */
  lemma CloseQuiet(sys: Sys, e: nat, order: seq<NodeId>, pr: Proto)
    requires Good(sys) && ClassOk(sys.fs, pr) && Enabled(sys, CloseStep(e, order))
    ensures RemoveAll(sys.fs, order).Ok? && Quiet(sys.fs, RemoveAll(sys.fs, order).fs, pr)
    ensures Notes(EventsOf(RemoveAll(sys.fs, order)), sys.fs.protos[pr], ALL) == []
  {
    hide Inv, RemoveAll, Notes, DistinctAt;
    var fs, q := sys.fs, sys.fs.protos[pr];
    assert forall n :: n in order <==> n in Set(order);
    assert forall n :: n in Set(order) <==> n in sys.exports[e];
    ClassIsNode(fs, pr);
    RemoveAllInv(fs, order);
    RemoveAllSilent(fs, order, q);
    hide Held;
    WithoutQuiet(fs, Set(order), RemoveAll(fs, order).fs, pr);
  }

  lemma WithoutQuiet(fs: Fs, gone: set<NodeId>, fs': Fs, pr: Proto)
    requires ClassOk(fs, pr) && Without(fs, gone, fs') && fs'.devs == fs.devs && fs.protos[pr] in fs.nodes
    requires fs.protos[pr] !in gone && forall n :: n in gone ==> n in fs.nodes && fs.nodes[n].dev.None?
    ensures Quiet(fs, fs', pr)
  {
    hide DistinctAt;
  }

  lemma StepInStep(x: Watched, step: Step, pr: Proto)
    requires InStep(x, pr) && Enabled(x.sys, step) && Outside(x.sys, step, pr) && Apply(x.sys, step).Next?
    ensures InStep(Watched(Apply(x.sys, step).sys, Deliver(x.watchers, Events(x.sys, step))), pr)
  {
    hide Publish, Unpublish, MakeVisible, AdvertiseModified, Deliver, Export, RemoveAll, Synced, Good, Outside, Quiet;
    var sys, fs, scene := x.sys, x.sys.fs, Scene(x.sys.fs, x.watchers);
    StepGood(sys, step);
    match step
    case DeviceStep(d, dev) => DevicesQuiet(scene, pr, fs.devs[d := dev]);
    case DetachStep(d) => DevicesQuiet(scene, pr, fs.devs[d := fs.devs[d].(parent := None)]);
    case DissociateStep(d) => DevicesQuiet(scene, pr, fs.devs[d := fs.devs[d].(composite := false)]);
    case PublishStep(p, d) => PublishSynced(scene, p, d, pr);
    case UnpublishStep(d) => UnpublishSynced(scene, d, pr);
    case VisibleStep(d, ready) => VisibleOk(fs, d, ready); VisibleSynced(scene, d, ready, pr);
    case ModifiedStep(d) => VisibleOk(fs, d, true); IsVisible(sys, step, pr); ModifiedSynced(scene, d, pr);
    case MkdirStep(_, _, _) => QuietStep(x, step, pr);
    case ExportStep(_, _, _, _, _, _) => QuietStep(x, step, pr);
    case CloseStep(_, _) => QuietStep(x, step, pr);
  }

  lemma IsVisible(sys: Sys, step: Step, pr: Proto)
    requires Enabled(sys, step) && Outside(sys, step, pr) && step.ModifiedStep?
    ensures !sys.fs.devs[step.d].invisible
  {
  }

  lemma DevicesQuiet(scene: Scene, pr: Proto, devs': map<DevId, Dev>)
    requires Synced(scene, pr) && SameReferences(scene.fs.devs, devs')
    requires forall d :: d in scene.fs.devs ==> devs'[d].invisible == scene.fs.devs[d].invisible
    ensures Synced(Scene(scene.fs.(devs := devs'), Deliver(scene.watchers, [])), pr)
  {
    hide Synced;
    DevicesSynced(scene, pr, devs');
    NothingSaid(scene.watchers);
  }

  lemma NothingSaid(watchers: map<nat, Watcher>)
    ensures Deliver(watchers, []) == watchers
  {
    forall w | w in watchers ensures Deliver(watchers, [])[w] == watchers[w] {
      assert Notes([], watchers[w].dir, watchers[w].mask) == [];
    }
  }

  lemma ClassKnown(fs: Fs, pr: Proto)
    requires ClassOk(fs, pr)
    ensures pr in fs.protos && forall r :: r in fs.protos && fs.protos[r] == fs.protos[pr] ==> r == pr
  {
  }

  lemma QuietStep(x: Watched, step: Step, pr: Proto)
    requires InStep(x, pr) && Enabled(x.sys, step) && Outside(x.sys, step, pr) && Apply(x.sys, step).Next?
    requires Good(Apply(x.sys, step).sys)
    requires step.MkdirStep? || step.ExportStep? || step.CloseStep?
    ensures Synced(Scene(Apply(x.sys, step).sys.fs, Deliver(x.watchers, Events(x.sys, step))), pr)
  {
    hide Deliver, Export, RemoveAll, Quiet, Inv, Held, ClassNames, ClassOk, Knows, Notes;
    var sys, fs' := x.sys, Apply(x.sys, step).sys.fs;
    StepNames(sys, step);
    if step.MkdirStep? {
      MkdirQuiet(sys, step, pr);
      ClassKnown(sys.fs, pr);
      NoNotes(sys.fs.protos[pr]);
    } else if step.ExportStep? {
      ExportQuiet(sys, step, pr);
      ExportEvents(sys, step, pr);
    } else {
      CloseQuiet(sys, step.e, step.order, pr);
    }
    QuietSynced(Scene(sys.fs, x.watchers), pr, fs', Events(sys, step));
  }

  lemma MoveInStep(x: Watched, m: Move, pr: Proto)
    requires InStep(x, pr) && Allowed(x, m, pr) && After(x, m, pr).Some?
    ensures InStep(After(x, m, pr).value, pr)
  {
    hide Synced, Good, Apply, Events, Enabled, Outside, Watch, Deliver;
    match m
    case StepMove(step) => StepInStep(x, step, pr);
    case WatchMove(w, dir, mask) => WatchSynced(Scene(x.sys.fs, x.watchers), w, dir, mask, pr);
    case HangUpMove(w) => HangUpSynced(Scene(x.sys.fs, x.watchers), w, pr);
  }

  ghost predicate WatchedRun(x: Watched, moves: seq<Move>, x': Watched, pr: Proto)
    decreases |moves|
  {
    if moves == [] then x' == x
    else
      && Allowed(x, moves[0], pr) && After(x, moves[0], pr).Some?
      && WatchedRun(After(x, moves[0], pr).value, moves[1..], x', pr)
  }

  /** Watcher replay: after every run of devfs, in which directories and
      exported services may come and go anywhere else, replaying what a live
      all-events watcher of a class directory has heard gives exactly the
      visible link names. */
  lemma {:induction false} RunReplay(x: Watched, moves: seq<Move>, x': Watched, pr: Proto)
    requires InStep(x, pr) && WatchedRun(x, moves, x', pr)
    ensures InStep(x', pr)
    ensures forall w :: w in x'.watchers && pr in x'.sys.fs.protos && x'.watchers[w].dir == x'.sys.fs.protos[pr]
                        && x'.watchers[w].mask == ALL && x'.sys.fs.protos[pr] in x'.sys.fs.nodes ==>
              Replay({}, x'.watchers[w].heard) == VisibleNames(x'.sys.fs, x'.sys.fs.protos[pr])
    decreases |moves|
  {
    hide InStep, After, Allowed;
    if moves == [] {
      KnowsNow(x, pr);
    } else {
      MoveInStep(x, moves[0], pr);
      RunReplay(After(x, moves[0], pr).value, moves[1..], x', pr);
    }
  }

  lemma KnowsNow(x: Watched, pr: Proto)
    requires InStep(x, pr)
    ensures forall w :: w in x.watchers && pr in x.sys.fs.protos && x.watchers[w].dir == x.sys.fs.protos[pr]
                        && x.watchers[w].mask == ALL && x.sys.fs.protos[pr] in x.sys.fs.nodes ==>
              Replay({}, x.watchers[w].heard) == VisibleNames(x.sys.fs, x.sys.fs.protos[pr])
  {
    hide Replay, VisibleNames, Good, ClassOk, ClassNames, Inv;
    var scene := Scene(x.sys.fs, x.watchers);
    ClassKnown(x.sys.fs, pr);
    assert forall w :: w in scene.watchers && scene.watchers[w].dir == scene.fs.protos[pr]
                       && scene.watchers[w].mask == ALL ==>
             Knows(scene, w, pr);
  }
}
