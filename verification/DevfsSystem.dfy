/** Every run of devfs: directories are made, devices come, are published and
    unpublished, services are exported and their exports closed, in any order. */
module DevfsSystem {
  import opened Common
  import opened Devfs
  import opened DevfsForest
  import opened DevfsExport

  /** Who frees which node: `fixed` nodes are static, an export frees its own,
      and all others belong to a device. */
  datatype Sys = Sys(fs: Fs, root: NodeId, fixed: set<NodeId>, exports: map<nat, seq<NodeId>>)

  datatype Step =
    | MkdirStep(p: NodeId, name: string, kind: Option<Proto>)
    | DeviceStep(d: DevId, dev: Dev)
    | DetachStep(d: DevId)
    | DissociateStep(d: DevId)
    | PublishStep(p: DevId, d: DevId)
    | UnpublishStep(d: DevId)
    | VisibleStep(d: DevId, ready: bool)
    | ModifiedStep(d: DevId)
    | ExportStep(e: nat, servicePath: string, path: string, proto: Proto, cloneOk: bool, order: seq<NodeId>)
    | CloseStep(e: nat, order: seq<NodeId>)

  datatype Result = Next(sys: Sys) | Crash

  function After(sys: Sys, r: Reply): Result {
    if r.Broken? then Crash else Next(sys.(fs := r.fs))
  }

  /** A failed export drops its nodes; a successful one keeps them. */
  function AfterExport(sys: Sys, e: nat, x: Exported, order: seq<NodeId>): Result {
    match x.reply
    case Broken => Crash
    case Ok(fs, _) => Next(sys.(fs := fs, exports := sys.exports[e := x.out]))
    case Refused(fs, _, _) => After(sys, RemoveAll(fs, order))
  }

  function Apply(sys: Sys, step: Step): Result
    requires Enabled(sys, step)
  {
    var fs := sys.fs;
    match step
    case MkdirStep(p, name, kind) =>
      var fs1 := Mkdir(fs, p, name);
      Next(sys.(fs := if kind.Some? then fs1.(protos := fs1.protos[kind.value := fs.nextIno])
                      else fs1, fixed := sys.fixed + {fs.nextIno}))
    case DeviceStep(d, dev) => Next(sys.(fs := fs.(devs := fs.devs[d := dev])))
    case DetachStep(d) => Next(sys.(fs := fs.(devs := fs.devs[d := fs.devs[d].(parent := None)])))
    case DissociateStep(d) => Next(sys.(fs := fs.(devs := fs.devs[d := fs.devs[d].(composite := false)])))
    case PublishStep(p, d) => After(sys, Publish(fs, p, d))
    case UnpublishStep(d) => After(sys, Unpublish(fs, d))
    case VisibleStep(d, ready) => After(sys, MakeVisible(fs, d, ready))
    case ModifiedStep(d) => After(sys, AdvertiseModified(fs, d))
    case ExportStep(e, servicePath, path, proto, cloneOk, order) =>
      AfterExport(sys, e, Export(fs, sys.root, servicePath, path, proto, cloneOk), order)
    case CloseStep(e, order) => After(sys.(exports := sys.exports - {e}), RemoveAll(fs, order))
  }

  /** Steps name things that exist. The root device is immortal, an export
      identifier and a class are new, and owned nodes are freed once each, in
      some order. */
  ghost predicate Enabled(sys: Sys, step: Step) {
    var fs := sys.fs;
    match step
    case MkdirStep(p, _, kind) => p in fs.nodes && (kind.Some? ==> kind.value !in fs.protos)
    case DeviceStep(d, dev) => d !in fs.devs && dev.self.None? && dev.link.None?
    case DetachStep(d) => d in fs.devs
    case DissociateStep(d) => d in fs.devs
    case PublishStep(p, d) => p in fs.devs && d in fs.devs
    case UnpublishStep(d) => d in fs.devs && fs.devs[d].self != Some(sys.root)
    case VisibleStep(d, _) => d in fs.devs
    case ModifiedStep(d) => d in fs.devs
    case ExportStep(e, servicePath, path, proto, cloneOk, order) =>
      && e !in sys.exports && sys.root in fs.nodes
      && NoDup(order) && Set(order) == Set(Export(fs, sys.root, servicePath, path, proto, cloneOk).out)
    case CloseStep(e, order) => e in sys.exports && NoDup(order) && Set(order) == Set(sys.exports[e])
  }

  /** Nobody else frees the nodes of an owner. */
  ghost predicate Held(sys: Sys) {
    && sys.root in sys.fs.nodes && sys.fs.nodes[sys.root].dev.Some?
    && sys.fs.nodes[sys.root].dev.value in sys.fs.devs
    && sys.fs.devs[sys.fs.nodes[sys.root].dev.value].self == Some(sys.root)
    && (forall pr :: pr in sys.fs.protos ==> sys.fs.protos[pr] in sys.fixed)
    && (forall n :: n in sys.fixed ==> n in sys.fs.nodes && sys.fs.nodes[n].dev.None?)
    && (forall e, n :: e in sys.exports && n in sys.exports[e] ==>
          n in sys.fs.nodes && sys.fs.nodes[n].dev.None? && n !in sys.fixed)
    && (forall e, e', n :: e in sys.exports && e' in sys.exports && n in sys.exports[e] && n in sys.exports[e'] ==>
          e == e')
  }

  ghost predicate Good(sys: Sys) {
    Inv(sys.fs) && Held(sys)
  }

  /** Nodes without a device stay, and so does the root. */
  lemma HeldFrame(sys: Sys, fs': Fs)
    requires Held(sys) && fs'.protos == sys.fs.protos
    requires forall n :: n in sys.fs.nodes && (sys.fs.nodes[n].dev.None? || n == sys.root) ==>
               n in fs'.nodes && fs'.nodes[n].dev == sys.fs.nodes[n].dev
    requires sys.fs.devs.Keys <= fs'.devs.Keys
    requires forall d :: d in sys.fs.devs && sys.fs.devs[d].self == Some(sys.root) ==>
               fs'.devs[d].self == Some(sys.root)
    ensures Held(sys.(fs := fs'))
  {
  }

  lemma DevicesGood(sys: Sys, devs': map<DevId, Dev>)
    requires Good(sys) && SameReferences(sys.fs.devs, devs')
    ensures Good(sys.(fs := sys.fs.(devs := devs')))
  {
  }

  lemma MkdirGood(sys: Sys, p: NodeId, name: string, kind: Option<Proto>)
    requires Good(sys) && Enabled(sys, MkdirStep(p, name, kind))
    ensures Good(Apply(sys, MkdirStep(p, name, kind)).sys)
  {
    var fs, fs1 := sys.fs, Mkdir(sys.fs, p, name);
    MkdirInv(fs, p, name);
    NewNumber(fs.nodes, fs.nextIno, p);
    hide Inv, Held;
    if kind.Some? { ClassAdded(fs1, kind.value, fs.nextIno); }
    HeldFixed(sys, p, name, kind);
  }

  lemma ClassAdded(fs: Fs, pr: Proto, n: NodeId)
    requires Inv(fs) && pr !in fs.protos && n in fs.nodes && fs.nodes[n].dev.None?
    ensures Inv(fs.(protos := fs.protos[pr := n]))
  {
    var fs' := fs.(protos := fs.protos[pr := n]);
    forall d | d in fs'.devs ensures OwnedAt(fs', d) { assert OwnedAt(fs, d); }
  }

  lemma HeldFixed(sys: Sys, p: NodeId, name: string, kind: Option<Proto>)
    requires Held(sys) && sys.fs.nextIno !in sys.fs.nodes && Enabled(sys, MkdirStep(p, name, kind))
    ensures Held(Apply(sys, MkdirStep(p, name, kind)).sys)
  {
  }

  lemma PublishGood(sys: Sys, p: DevId, d: DevId)
    requires Good(sys) && Enabled(sys, PublishStep(p, d))
    ensures Apply(sys, PublishStep(p, d)).Next? && Good(Apply(sys, PublishStep(p, d)).sys)
  {
    PublishInv(sys.fs, p, d);
    PublishGrows(sys.fs, p, d);
    var fs' := Publish(sys.fs, p, d).fs;
    PublishTwice(sys.fs, p, d);
    hide Inv, Publish;
    HeldFrame(sys, fs');
  }

  lemma PublishTwice(fs: Fs, p: DevId, d: DevId)
    requires p in fs.devs && d in fs.devs
    ensures fs.devs[d].self.Some? ==> Publish(fs, p, d) == Refused(fs, INTERNAL, [])
  {
  }

  lemma UnpublishGood(sys: Sys, d: DevId)
    requires Good(sys) && Enabled(sys, UnpublishStep(d))
    ensures Apply(sys, UnpublishStep(d)).Next? && Good(Apply(sys, UnpublishStep(d)).sys)
  {
    UnpublishInv(sys.fs, d);
    hide Inv, Unpublish;
    HeldFrame(sys, Unpublish(sys.fs, d).fs);
  }

  /** Telling watchers about a device fails exactly when the device is not
      published or its node has lost its parent. */
  lemma AdvertGood(sys: Sys, step: Step)
    requires Good(sys) && Enabled(sys, step) && (step.VisibleStep? || step.ModifiedStep?)
    ensures Apply(sys, step).Crash? <==> Dangles(sys, step)
    ensures Apply(sys, step).Next? ==> Good(Apply(sys, step).sys)
  {
    var fs, d := sys.fs, step.d;
    if step.VisibleStep? && step.ready && fs.devs[d].invisible {
      var devs1 := fs.devs[d := fs.devs[d].(invisible := false)];
      DevicesGood(sys, devs1);
      hide Inv, Held;
      AdvertiseSafe(fs.(devs := devs1), d, [ADDED]);
    } else if step.ModifiedStep? {
      AdvertiseSafe(fs, d, [REMOVED, ADDED]);
    }
  }

  /** The step would announce a device that is not published, which has no node,
      or tell the watchers of a parent that was freed. */
  predicate Dangles(sys: Sys, step: Step)
    requires (step.VisibleStep? || step.ModifiedStep?) && step.d in sys.fs.devs
  {
    var r := sys.fs.devs[step.d];
    && (step.VisibleStep? ==> step.ready && r.invisible)
    && !(r.self.Some? && Attached(sys.fs, r.self.value))
  }

  lemma ExportGood(sys: Sys, step: Step)
    requires Good(sys) && Enabled(sys, step) && step.ExportStep?
    ensures Apply(sys, step).Next? && Good(Apply(sys, step).sys)
  {
    hide Inv, Export, RemoveAll, Extended;
    var x := Export(sys.fs, sys.root, step.servicePath, step.path, step.proto, step.cloneOk);
    ExportInv(sys.fs, sys.root, step.servicePath, step.path, step.proto, step.cloneOk);
    var fs1 := x.reply.fs;
    if x.reply.Ok? {
      HeldMore(sys, step.e, x.out, fs1);
    } else {
      Rollback(sys.fs, x.out, fs1, step.order);
      HeldFrame(sys, RemoveAll(fs1, step.order).fs);
    }
  }

  lemma HeldMore(sys: Sys, e: nat, out: seq<NodeId>, fs1: Fs)
    requires Good(sys) && Inv(fs1) && e !in sys.exports && Extended(sys.fs, Set(out), fs1)
    ensures Held(sys.(fs := fs1, exports := sys.exports[e := out]))
  {
    hide Inv, Held;
    Beyond(sys.fs, Set(out), fs1);
    forall n | n in out ensures n in fs1.nodes && fs1.nodes[n].dev.None? && n !in sys.fs.nodes { assert n in Set(out); }
    HeldFrame(sys, fs1);
    hide Extended;
    HeldExport(sys, e, out, fs1);
  }

  lemma HeldExport(sys: Sys, e: nat, out: seq<NodeId>, fs1: Fs)
    requires Held(sys) && Held(sys.(fs := fs1)) && e !in sys.exports
    requires forall n :: n in out ==> n in fs1.nodes && fs1.nodes[n].dev.None? && n !in sys.fs.nodes
    ensures Held(sys.(fs := fs1, exports := sys.exports[e := out]))
  {
  }

  lemma CloseGood(sys: Sys, e: nat, order: seq<NodeId>)
    requires Good(sys) && Enabled(sys, CloseStep(e, order))
    ensures Apply(sys, CloseStep(e, order)).Next? && Good(Apply(sys, CloseStep(e, order)).sys)
  {
    hide Inv, RemoveAll;
    assert forall n :: n in order <==> n in Set(order);
    assert forall n :: n in Set(order) <==> n in sys.exports[e];
    RemoveAllInv(sys.fs, order);
    HeldLess(sys, e, Set(order), RemoveAll(sys.fs, order).fs);
  }

  lemma HeldLess(sys: Sys, e: nat, gone: set<NodeId>, fs1: Fs)
    requires Held(sys) && e in sys.exports && (forall n :: n in gone <==> n in sys.exports[e])
    requires Without(sys.fs, gone, fs1) && fs1.devs == sys.fs.devs
    ensures Held(sys.(fs := fs1, exports := sys.exports - {e}))
  {
  }

  /** Whatever the step, devfs never uses a freed or null node, unless it is made
      to announce a device that is not published or whose node has no live
      parent; and it stays a forest. */
  lemma StepGood(sys: Sys, step: Step)
    requires Good(sys) && Enabled(sys, step)
    ensures Apply(sys, step).Crash? <==> (step.VisibleStep? || step.ModifiedStep?) && Dangles(sys, step)
    ensures Apply(sys, step).Next? ==> Good(Apply(sys, step).sys)
  {
    hide Good, Dangles;
    match step
    case MkdirStep(p, name, kind) => MkdirGood(sys, p, name, kind);
    case DeviceStep(d, dev) => DevicesGood(sys, sys.fs.devs[d := dev]);
    case DetachStep(d) => DevicesGood(sys, sys.fs.devs[d := sys.fs.devs[d].(parent := None)]);
    case DissociateStep(d) => DevicesGood(sys, sys.fs.devs[d := sys.fs.devs[d].(composite := false)]);
    case PublishStep(p, d) => PublishGood(sys, p, d);
    case UnpublishStep(d) => UnpublishGood(sys, d);
    case VisibleStep(_, _) => AdvertGood(sys, step);
    case ModifiedStep(_) => AdvertGood(sys, step);
    case ExportStep(_, _, _, _, _, _) => ExportGood(sys, step);
    case CloseStep(e, order) => CloseGood(sys, e, order);
  }

  /** devfs with a root node for root device 0 and nothing else. */
  function Boot(name: string): Sys {
    var nodes := map[1 := Node("", Some(0), None, [], None, 0)];
    var devs := map[0 := Dev(name, None, MISC, false, false, false, Some(1), None)];
    Sys(Fs(nodes, devs, map[], 2), 1, {}, map[])
  }

  ghost predicate Run(sys: Sys, steps: seq<Step>, sys': Sys)
    decreases |steps|
  {
    if steps == [] then sys' == sys
    else Enabled(sys, steps[0]) && Apply(sys, steps[0]).Next? && Run(Apply(sys, steps[0]).sys, steps[1..], sys')
  }

  /** The forest over whole runs: every node is on at most one list, every
      listed child is live and names its lister, lists ascend strictly, and the
      parent a node would be taken from is live. */
  lemma {:induction false} RunForest(sys: Sys, steps: seq<Step>, sys': Sys)
    requires Good(sys) && Run(sys, steps, sys')
    ensures Good(sys')
    decreases |steps|
  {
    hide Good, Apply, Enabled;
    if steps == [] {
    } else {
      StepGood(sys, steps[0]);
      RunForest(Apply(sys, steps[0]).sys, steps[1..], sys');
    }
  }

  lemma Reachable(name: string, steps: seq<Step>, sys: Sys)
    requires Run(Boot(name), steps, sys)
    ensures Good(sys)
    ensures forall n, p :: n in sys.fs.nodes && p in sys.fs.nodes && n in sys.fs.nodes[p].children ==>
              sys.fs.nodes[n].parent == Some(p)
    ensures forall n :: n in sys.fs.nodes && InContainer(sys.fs.nodes, n) ==>
              sys.fs.nodes[n].parent.Some? && sys.fs.nodes[n].parent.value in sys.fs.nodes
    ensures forall p :: p in sys.fs.nodes ==> Ascending(sys.fs.nodes[p].children)
  {
    BootGood(name);
    RunForest(Boot(name), steps, sys);
    forall n | n in sys.fs.nodes
      ensures InContainer(sys.fs.nodes, n) ==>
                sys.fs.nodes[n].parent.Some? && sys.fs.nodes[n].parent.value in sys.fs.nodes
      ensures Ascending(sys.fs.nodes[n].children)
      ensures forall p :: p in sys.fs.nodes && n in sys.fs.nodes[p].children ==> sys.fs.nodes[n].parent == Some(p)
    {
      assert ListAt(sys.fs.nodes, n);
      ContainerIsParent(sys.fs.nodes, sys.fs.nextIno, n);
      forall p | p in sys.fs.nodes && n in sys.fs.nodes[p].children
        ensures sys.fs.nodes[n].parent == Some(p)
      {
        assert ListAt(sys.fs.nodes, p);
      }
    }
  }

  // ----- the announcement that goes wrong

  lemma PublishMisc(sys: Sys, p: DevId, d: DevId)
    requires Good(sys) && p in sys.fs.devs && d in sys.fs.devs && sys.fs.devs[p].self.Some?
    requires sys.fs.devs[d].proto == MISC
    requires sys.fs.devs[d].self.None? && sys.fs.devs[d].link.None?
    ensures var r := Publish(sys.fs, p, d);
            && r.Ok? && Good(sys.(fs := r.fs)) && PlacedAt(r.fs, d, sys.fs.nextIno, sys.fs.devs[p].self)
            && r.fs.devs.Keys == sys.fs.devs.Keys && (forall x :: x in sys.fs.devs && x != d ==>
                                                        r.fs.devs[x] == sys.fs.devs[x])
            && r.fs.devs[d] == sys.fs.devs[d].(self := Some(sys.fs.nextIno))
  {
    hide Inv, Held, Publish;
    PublishGood(sys, p, d);
    PublishGrows(sys.fs, p, d);
    MiscPublished(sys.fs, p, d);
  }

  lemma MiscPublished(fs: Fs, p: DevId, d: DevId)
    requires p in fs.devs && d in fs.devs && fs.devs[p].self.Some? && fs.devs[d].proto == MISC
    requires fs.devs[d].self.None? && fs.devs[d].link.None?
    ensures !Publish(fs, p, d).Refused?
    ensures Publish(fs, p, d).Ok? ==> Publish(fs, p, d).fs.devs == fs.devs[d := fs.devs[d].(self := Some(fs.nextIno))]
  {
  }

  ghost predicate RunTo(sys: Sys, step: Step, sys': Sys) {
    Enabled(sys, step) && Apply(sys, step) == Next(sys')
  }

  lemma {:induction false} RunOnce(sys: Sys, steps: seq<Step>, mid: Sys, step: Step, sys': Sys)
    requires Run(sys, steps, mid) && RunTo(mid, step, sys')
    ensures Run(sys, steps + [step], sys')
    decreases |steps|
  {
    hide Enabled, Apply;
    if steps == [] {
      assert (steps + [step])[1..] == [];
    } else {
      assert (steps + [step])[0] == steps[0] && (steps + [step])[1..] == steps[1..] + [step];
      RunOnce(Apply(sys, steps[0]).sys, steps[1..], mid, step, sys');
    }
  }

  /** Devices 1 and 2, one below the other and both unpublished. */
  lemma TwoDevices() returns (steps: seq<Step>, sys: Sys)
    ensures Run(Boot("root"), steps, sys) && Good(sys) && sys.root == 1 && sys.fs.nextIno == 2
    ensures sys.fs.devs.Keys == {0, 1, 2} && sys.fs.devs[0].self == Some(1)
    ensures sys.fs.devs[1] == Dev("one", Some(0), MISC, false, false, false, None, None)
    ensures sys.fs.devs[2] == Dev("two", Some(1), MISC, false, false, true, None, None)
  {
    var s0 := Boot("root");
    BootGood("root");
    var one, two := Dev("one", Some(0), MISC, false, false, false, None, None),
    Dev("two", Some(1), MISC, false, false, true, None, None);
    var s1 := s0.(fs := s0.fs.(devs := s0.fs.devs[1 := one]));
    sys := s1.(fs := s1.fs.(devs := s1.fs.devs[2 := two]));
    steps := [] + [DeviceStep(1, one)] + [DeviceStep(2, two)];
    RunOnce(s0, [], s0, DeviceStep(1, one), s1);
    RunOnce(s0, [] + [DeviceStep(1, one)], s1, DeviceStep(2, two), sys);
    RunForest(s0, steps, sys);
    hide Good;
  }

  lemma BootGood(name: string)
    ensures Good(Boot(name))
  {
  }

  /** Announcing a device can use a freed node: device 2 is invisible below
      device 1, device 1 is unpublished, and then device 2 becomes visible. */
  lemma AnnouncementCanDangle() returns (steps: seq<Step>, sys: Sys)
    ensures Run(Boot("root"), steps, sys) && Enabled(sys, VisibleStep(2, true))
    ensures Apply(sys, VisibleStep(2, true)).Crash?
  {
    hide Good, Run, Publish, Unpublish, Attached;
    var s0, s2 := TwoDevices();
    PublishMisc(s2, 0, 1);
    var s3 := s2.(fs := Publish(s2.fs, 0, 1).fs);
    PublishMisc(s3, 1, 2);
    var s4 := s3.(fs := Publish(s3.fs, 1, 2).fs);
    UnpublishParent(s4, 1, 2);
    sys := s4.(fs := Unpublish(s4.fs, 1).fs);
    steps := s0 + [PublishStep(0, 1)] + [PublishStep(1, 2)] + [UnpublishStep(1)];
    RunOnce(Boot("root"), s0, s2, PublishStep(0, 1), s3);
    RunOnce(Boot("root"), s0 + [PublishStep(0, 1)], s3, PublishStep(1, 2), s4);
    RunOnce(Boot("root"), s0 + [PublishStep(0, 1)] + [PublishStep(1, 2)], s4, UnpublishStep(1), sys);
    StepGood(sys, VisibleStep(2, true));
  }

  /** Unpublishing a device leaves the nodes below its own without a parent. */
  lemma UnpublishParent(sys: Sys, p: DevId, d: DevId)
    requires Good(sys) && p in sys.fs.devs && d in sys.fs.devs && p != d && sys.fs.devs[p].self.Some?
    requires sys.fs.devs[p].self != Some(sys.root)
    requires sys.fs.devs[d].self.Some? && PlacedAt(sys.fs, d, sys.fs.devs[d].self.value, sys.fs.devs[p].self)
    ensures Unpublish(sys.fs, p).Ok? && Good(sys.(fs := Unpublish(sys.fs, p).fs))
    ensures var fs' := Unpublish(sys.fs, p).fs;
            d in fs'.devs && fs'.devs[d] == sys.fs.devs[d] && !Attached(fs', fs'.devs[d].self.value)
  {
    hide Unpublish, Inv, Held, InContainer;
    UnpublishGood(sys, p);
    UnpublishInv(sys.fs, p);
    OnlyOwn(sys.fs, p);
    var fs' := Unpublish(sys.fs, p).fs;
    Unattached(fs', sys.fs.devs[d].self.value);
  }

  lemma Unattached(fs: Fs, n: NodeId)
    requires Inv(fs)
    ensures n in fs.nodes && fs.nodes[n].parent.Some? && fs.nodes[n].parent.value !in fs.nodes ==> !Attached(fs, n)
  {
  }
}
