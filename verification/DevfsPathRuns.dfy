/** Over every run in which devices are published as device.cc does it, a
    published device whose ancestors are still there is found by its path. */
module DevfsPathRuns {
  import opened Common
  import opened Devfs
  import opened DevfsForest
  import opened DevfsExport
  import opened DevfsSystem
  import opened DevfsPath

  /** The node of a device hangs below that of its topological parent, or below
      a node that has been freed. */
  ghost predicate NestAt(fs: Fs, rd: DevId, d: DevId)
    requires d in fs.devs && fs.devs[d].self.Some? && fs.devs[d].self.value in fs.nodes
  {
    var at, p := fs.nodes[fs.devs[d].self.value].parent, TopoParent(fs, rd, d);
    && !fs.devs[d].proxy && at.Some? && p.Some? && p.value in fs.devs
    && (fs.devs[d].composite ==> fs.devs[d].parent.None?)
    && (at.value in fs.nodes ==> fs.devs[p.value].self == at)
  }

  ghost predicate Nest(fs: Fs, rd: DevId) {
    && Ranked(fs.devs) && RootAt(fs, rd)
    && (forall d :: d in fs.devs && d != rd && fs.devs[d].self.Some? ==>
          fs.devs[d].self.value in fs.nodes && NestAt(fs, rd, d))
  }

  /** How Device::Create, CreateComposite and RemoveDevice use devfs: a device
      is published under its topological parent and detached once unpublished;
      a composite device may be dissociated from its composite at any time. */
  ghost predicate Proper(fs: Fs, rd: DevId, step: Step)
    requires rd in fs.devs
  {
    match step
    case DeviceStep(d, dev) =>
      && (dev.parent.Some? ==> dev.parent.value in fs.devs && dev.parent.value < d)
      && (dev.composite ==> dev.parent.None?)
    case DetachStep(d) => d != rd && d in fs.devs && fs.devs[d].self.None?
    case PublishStep(p, d) =>
      && d != rd && d in fs.devs && !fs.devs[d].proxy && TopoParent(fs, rd, d) == Some(p)
      && (fs.devs[d].composite <==> fs.devs[d].parent.None?)
    case UnpublishStep(d) => d != rd
    case _ => true
  }

  lemma ParentsAreOld(fs: Fs, n: NodeId)
    requires Inv(fs) && n in fs.nodes && fs.nodes[n].parent.Some?
    ensures fs.nodes[n].parent.value < fs.nextIno
  {
  }

  /** Steps that change no device and revive no node. */
  lemma NestFrame(fs: Fs, fs': Fs, rd: DevId)
    requires Inv(fs) && Nest(fs, rd) && NoRevival(fs, fs') && fs'.devs.Keys == fs.devs.Keys
    requires forall d :: d in fs.devs ==>
               fs'.devs[d].(invisible := fs.devs[d].invisible, link := fs.devs[d].link) == fs.devs[d]
    requires forall n :: n in fs.nodes && fs.nodes[n].dev.Some? ==>
               n in fs'.nodes && fs'.nodes[n].parent == fs.nodes[n].parent
    ensures Nest(fs', rd)
  {
    forall d | d in fs'.devs && d != rd && fs'.devs[d].self.Some?
      ensures fs'.devs[d].self.value in fs'.nodes && NestAt(fs', rd, d)
    {
      assert OwnedAt(fs, d);
      ParentsAreOld(fs, fs.devs[d].self.value);
    }
  }

  /** A device keeps its place while its node does and its parent is not given
      another. */
  lemma NestKept(fs: Fs, fs': Fs, rd: DevId, x: DevId)
    requires x in fs.devs && x in fs'.devs && fs.devs[x].self.Some? && fs'.devs[x].self == fs.devs[x].self
    requires var n := fs.devs[x].self.value;
             n in fs.nodes && n in fs'.nodes && fs'.nodes[n].parent == fs.nodes[n].parent
    requires fs'.devs[x].(link := fs.devs[x].link) == fs.devs[x] && NestAt(fs, rd, x) && fs.devs.Keys <= fs'.devs.Keys
    requires var at, p := fs.nodes[fs.devs[x].self.value].parent.value, TopoParent(fs, rd, x).value;
             at in fs'.nodes ==> at in fs.nodes && fs'.devs[p].self == fs.devs[p].self
    ensures NestAt(fs', rd, x)
  {
  }

  ghost predicate Settled(fs: Fs, rd: DevId, x: DevId)
    requires x in fs.devs && fs.devs[x].self.Some?
  {
    fs.devs[x].self.value in fs.nodes && NestAt(fs, rd, x)
  }

  lemma NestFrom(fs: Fs, rd: DevId)
    requires Ranked(fs.devs) && RootAt(fs, rd)
    requires forall d :: d in fs.devs && d != rd && fs.devs[d].self.Some? ==> Settled(fs, rd, d)
    ensures Nest(fs, rd)
  {
  }

  lemma RootKept(fs: Fs, fs': Fs, rd: DevId)
    requires Nest(fs, rd) && fs'.devs.Keys == fs.devs.Keys && (rd in fs.devs ==> fs'.devs[rd].self == fs.devs[rd].self)
    requires forall d :: d in fs.devs ==> fs'.devs[d].(self := fs.devs[d].self, link := fs.devs[d].link) == fs.devs[d]
    ensures Ranked(fs'.devs) && RootAt(fs', rd)
  {
  }

  lemma NestHere(fs: Fs, rd: DevId, x: DevId)
    requires Nest(fs, rd) && x in fs.devs && x != rd && fs.devs[x].self.Some?
    ensures fs.devs[x].self.value in fs.nodes && NestAt(fs, rd, x)
  {
  }

  /** One device's place after another was published, or it itself. */
  lemma PublishNestAt(fs: Fs, p: DevId, d: DevId, rd: DevId, fs': Fs, ok: bool, x: DevId)
    requires Inv(fs) && Nest(fs, rd) && p in fs.devs && d in fs.devs && Proper(fs, rd, PublishStep(p, d))
    requires Grown(fs, fs')
    requires fs'.devs.Keys == fs.devs.Keys && (forall y :: y in fs.devs && y != d ==> fs'.devs[y] == fs.devs[y])
    requires fs'.devs[d].(self := fs.devs[d].self, link := fs.devs[d].link) == fs.devs[d]
    requires if ok then fs.devs[d].self.None? && PlacedAt(fs', d, fs.nextIno, fs.devs[p].self) && fs.devs[p].self.Some?
             else fs'.devs == fs.devs
    requires x in fs'.devs && x != rd && fs'.devs[x].self.Some?
    ensures fs'.devs[x].self.value in fs'.nodes && NestAt(fs', rd, x)
  {
    if x != d || !ok {
      NestHere(fs, rd, x);
      ParentsAreOld(fs, fs.devs[x].self.value);
      hide Inv, Nest;
      NestKept(fs, fs', rd, x);
    } else {
      hide Inv;
      assert TopoParent(fs', rd, d) == Some(p) && p != d;
    }
  }

  lemma PublishUnder(fs: Fs, p: DevId, d: DevId)
    requires p in fs.devs && d in fs.devs
    ensures Publish(fs, p, d).Ok? ==> fs.devs[p].self.Some?
  {
  }

  lemma PublishNest(fs: Fs, p: DevId, d: DevId, rd: DevId)
    requires Inv(fs) && Nest(fs, rd) && p in fs.devs && d in fs.devs && Proper(fs, rd, PublishStep(p, d))
    ensures !Publish(fs, p, d).Broken? && Nest(Publish(fs, p, d).fs, rd)
  {
    hide Publish, Inv, Grown, NestAt, PlacedAt, Nest, Ranked, RootAt;
    PublishGrows(fs, p, d);
    PublishUnder(fs, p, d);
    var r := Publish(fs, p, d);
    RootKept(fs, r.fs, rd);
    forall x | x in r.fs.devs && x != rd && r.fs.devs[x].self.Some? ensures Settled(r.fs, rd, x) {
      PublishNestAt(fs, p, d, rd, r.fs, r.Ok?, x);
    }
    NestFrom(r.fs, rd);
  }

  lemma UnpublishNestAt(fs: Fs, d: DevId, rd: DevId, fs': Fs, x: DevId)
    requires Inv(fs) && Nest(fs, rd) && d in fs.devs && x in fs.devs && x != d && x != rd && fs.devs[x].self.Some?
    requires fs'.devs == fs.devs[d := fs.devs[d].(self := None, link := None)] && Without(fs, NodesOf(fs, d), fs')
    ensures fs'.devs[x].self.value in fs'.nodes && NestAt(fs', rd, x)
  {
  }

  lemma UnpublishNest(fs: Fs, d: DevId, rd: DevId)
    requires Inv(fs) && Nest(fs, rd) && d in fs.devs && d != rd
    ensures Unpublish(fs, d).Ok? && Nest(Unpublish(fs, d).fs, rd)
  {
    hide Unpublish, Inv, NestAt, Without, Nest, Ranked, RootAt;
    UnpublishInv(fs, d);
    var fs' := Unpublish(fs, d).fs;
    RootKept(fs, fs', rd);
    forall x | x in fs'.devs && x != rd && fs'.devs[x].self.Some? ensures Settled(fs', rd, x) {
      UnpublishNestAt(fs, d, rd, fs', x);
    }
    NestFrom(fs', rd);
  }

  lemma StepNest(sys: Sys, rd: DevId, step: Step)
    requires Good(sys) && Nest(sys.fs, rd) && Enabled(sys, step) && Proper(sys.fs, rd, step) && Apply(sys, step).Next?
    ensures Nest(Apply(sys, step).sys.fs, rd)
  {
    var fs := sys.fs;
    if step.PublishStep? {
      PublishNest(fs, step.p, step.d, rd);
    } else if step.UnpublishStep? {
      UnpublishNest(fs, step.d, rd);
    } else if step.DeviceStep? || step.DetachStep? || step.DissociateStep? {
      DeviceNest(fs, rd, step, Apply(sys, step).sys.fs);
    } else {
      StepFrame(sys, step);
      hide Apply, Inv, Held, Nest;
      NestFrame(fs, Apply(sys, step).sys.fs, rd);
    }
  }

  lemma DeviceRanked(fs: Fs, rd: DevId, step: Step, fs': Fs)
    requires Nest(fs, rd) && Proper(fs, rd, step)
    requires step.DeviceStep? || step.DetachStep? || step.DissociateStep?
    requires step.DeviceStep? ==>
               step.d !in fs.devs && step.dev.self.None? && fs' == fs.(devs := fs.devs[step.d := step.dev])
    requires step.DetachStep? ==>
               step.d in fs.devs && fs' == fs.(devs := fs.devs[step.d := fs.devs[step.d].(parent := None)])
    requires step.DissociateStep? ==>
               step.d in fs.devs && fs' == fs.(devs := fs.devs[step.d := fs.devs[step.d].(composite := false)])
    ensures Ranked(fs'.devs) && RootAt(fs', rd)
  {
    hide NestAt;
  }

  lemma DeviceNestAt(fs: Fs, rd: DevId, step: Step, fs': Fs, x: DevId)
    requires Nest(fs, rd) && Proper(fs, rd, step) && x in fs'.devs && x != rd && fs'.devs[x].self.Some?
    requires step.DeviceStep? || step.DetachStep? || step.DissociateStep?
    requires step.DeviceStep? ==>
               step.d !in fs.devs && step.dev.self.None? && fs' == fs.(devs := fs.devs[step.d := step.dev])
    requires step.DetachStep? ==>
               step.d in fs.devs && fs' == fs.(devs := fs.devs[step.d := fs.devs[step.d].(parent := None)])
    requires step.DissociateStep? ==>
               step.d in fs.devs && fs' == fs.(devs := fs.devs[step.d := fs.devs[step.d].(composite := false)])
    ensures fs'.devs[x].self.value in fs'.nodes && NestAt(fs', rd, x)
  {
    NestHere(fs, rd, x);
    hide Nest;
  }

  lemma DeviceNest(fs: Fs, rd: DevId, step: Step, fs': Fs)
    requires Inv(fs) && Nest(fs, rd) && Proper(fs, rd, step)
    requires step.DeviceStep? || step.DetachStep? || step.DissociateStep?
    requires step.DeviceStep? ==>
               step.d !in fs.devs && step.dev.self.None? && fs' == fs.(devs := fs.devs[step.d := step.dev])
    requires step.DetachStep? ==>
               step.d in fs.devs && fs' == fs.(devs := fs.devs[step.d := fs.devs[step.d].(parent := None)])
    requires step.DissociateStep? ==>
               step.d in fs.devs && fs' == fs.(devs := fs.devs[step.d := fs.devs[step.d].(composite := false)])
    ensures Nest(fs', rd)
  {
    hide Inv, Proper;
    assert Ranked(fs'.devs) && RootAt(fs', rd) by { DeviceRanked(fs, rd, step, fs'); }
    forall x | x in fs'.devs && x != rd && fs'.devs[x].self.Some?
      ensures fs'.devs[x].self.value in fs'.nodes && NestAt(fs', rd, x)
    {
      DeviceNestAt(fs, rd, step, fs', x);
    }
  }

  /** Directories, announcements and exports leave device nodes where they are. */
  lemma StepFrame(sys: Sys, step: Step)
    requires Good(sys) && Enabled(sys, step) && Apply(sys, step).Next?
    requires !(step.PublishStep? || step.UnpublishStep? || step.DeviceStep? || step.DetachStep? || step.DissociateStep?)
    ensures var fs, fs' := sys.fs, Apply(sys, step).sys.fs;
            && NoRevival(fs, fs') && fs'.devs.Keys == fs.devs.Keys
            && (forall d :: d in fs.devs ==>
                  fs'.devs[d].(invisible := fs.devs[d].invisible, link := fs.devs[d].link) == fs.devs[d])
            && (forall n :: n in fs.nodes && fs.nodes[n].dev.Some? ==>
                  n in fs'.nodes && fs'.nodes[n].parent == fs.nodes[n].parent)
  {
    var fs := sys.fs;
    hide Inv, Export, RemoveAll, MakeVisible, AdvertiseModified, NoRevival;
    match step
    case MkdirStep(p, name, kind) =>
      MkdirFrame(sys, step);
    case ExportStep(e, servicePath, path, proto, cloneOk, order) =>
      ExportFrame(sys, step);
    case CloseStep(e, order) =>
      CloseFrame(sys, e, order);
    case _ =>
      AdvertFrame(fs, step);
  }

  lemma MkdirFrame(sys: Sys, step: Step)
    requires Good(sys) && Enabled(sys, step) && step.MkdirStep?
    ensures var fs, fs' := sys.fs, Apply(sys, step).sys.fs;
            && NoRevival(fs, fs') && fs'.devs == fs.devs
            && (forall n :: n in fs.nodes ==> n in fs'.nodes && fs'.nodes[n].parent == fs.nodes[n].parent)
  {
    hide Inv, Held;
    Numbers(sys.fs);
  }

  lemma ExportFrame(sys: Sys, step: Step)
    requires Good(sys) && Enabled(sys, step) && step.ExportStep?
    ensures var fs := sys.fs;
            var x := Export(fs, sys.root, step.servicePath, step.path, step.proto, step.cloneOk);
            && !x.reply.Broken? && (!x.reply.Ok? ==> RemoveAll(x.reply.fs, step.order).Ok?)
            && var fs' := if x.reply.Ok? then x.reply.fs else RemoveAll(x.reply.fs, step.order).fs;
            && NoRevival(fs, fs') && fs'.devs == fs.devs
            && (forall n :: n in fs.nodes ==> n in fs'.nodes && fs'.nodes[n].parent == fs.nodes[n].parent)
  {
    hide Inv, Export, RemoveAll, Extended;
    var fs := sys.fs;
    var x := Export(fs, sys.root, step.servicePath, step.path, step.proto, step.cloneOk);
    ExportInv(fs, sys.root, step.servicePath, step.path, step.proto, step.cloneOk);
    ExtendedFrame(fs, Set(x.out), x.reply.fs);
    if !x.reply.Ok? { Rollback(fs, x.out, x.reply.fs, step.order); }
  }

  lemma ExtendedFrame(fs: Fs, out: set<NodeId>, fs': Fs)
    requires Extended(fs, out, fs')
    ensures NoRevival(fs, fs') && fs'.devs == fs.devs
    ensures forall n :: n in fs.nodes ==> n in fs'.nodes && fs'.nodes[n].parent == fs.nodes[n].parent
  {
  }

  lemma CloseFrame(sys: Sys, e: nat, order: seq<NodeId>)
    requires Good(sys) && Enabled(sys, CloseStep(e, order))
    ensures RemoveAll(sys.fs, order).Ok?
    ensures var fs, fs' := sys.fs, RemoveAll(sys.fs, order).fs;
            && NoRevival(fs, fs') && fs'.devs == fs.devs
            && (forall n :: n in fs.nodes && fs.nodes[n].dev.Some? ==>
                  n in fs'.nodes && fs'.nodes[n].parent == fs.nodes[n].parent)
  {
    hide Inv, RemoveAll;
    assert forall n :: n in order <==> n in Set(order);
    assert forall n :: n in Set(order) <==> n in sys.exports[e];
    RemoveAllInv(sys.fs, order);
  }

  lemma AdvertFrame(fs: Fs, step: Step)
    requires (step.VisibleStep? || step.ModifiedStep?) && step.d in fs.devs
    ensures var r := if step.VisibleStep? then MakeVisible(fs, step.d, step.ready) else AdvertiseModified(fs, step.d);
            r.Broken? || (r.Ok? && NoRevival(fs, r.fs) && r.fs.nodes == fs.nodes && r.fs.devs.Keys == fs.devs.Keys
                          && forall d :: d in fs.devs ==>
                               r.fs.devs[d].(invisible := fs.devs[d].invisible) == fs.devs[d])
  {
  }

  // ----- whole runs

  ghost predicate ProperRun(sys: Sys, rd: DevId, steps: seq<Step>, sys': Sys)
    decreases |steps|
  {
    if steps == [] then sys' == sys
    else rd in sys.fs.devs && Enabled(sys, steps[0]) && Proper(sys.fs, rd, steps[0]) && Apply(sys, steps[0]).Next?
         && ProperRun(Apply(sys, steps[0]).sys, rd, steps[1..], sys')
  }

  lemma {:induction false} RunNest(sys: Sys, rd: DevId, steps: seq<Step>, sys': Sys)
    requires Good(sys) && Nest(sys.fs, rd) && ProperRun(sys, rd, steps, sys')
    ensures Good(sys') && Nest(sys'.fs, rd)
    decreases |steps|
  {
    hide Good, Nest, Apply, Enabled, Proper;
    if steps == [] {
    } else {
      StepGood(sys, steps[0]);
      StepNest(sys, rd, steps[0]);
      RunNest(Apply(sys, steps[0]).sys, rd, steps[1..], sys');
    }
  }

  /** The device and its topological ancestors are published and none of their
      nodes has lost its parent; their names can stand in a path. */
  ghost predicate Standing(fs: Fs, rd: DevId, d: DevId)
    requires Ranked(fs.devs)
    decreases d
  {
    && d in fs.devs && fs.devs[d].self.Some?
    && (d != rd ==>
          && Attached(fs, fs.devs[d].self.value) && Plain(fs.devs[d].name)
          && (fs.devs[d].parent.Some? ==> Standing(fs, rd, fs.devs[d].parent.value)))
  }

  lemma {:induction false} StandingHung(fs: Fs, rd: DevId, d: DevId)
    requires Inv(fs) && Nest(fs, rd) && Standing(fs, rd, d)
    ensures Hung(fs, rd, d)
    decreases d
  {
    if d == rd {
    } else {
      assert NestAt(fs, rd, d);
      ContainerIsParent(fs.nodes, fs.nextIno, fs.devs[d].self.value);
      hide Inv;
      if fs.devs[d].parent.Some? { StandingHung(fs, rd, fs.devs[d].parent.value); }
    }
  }

  /** Print and parse over runs from start-up, with devices and composites
      published, dissociated, unpublished and detached in any order: a device
      that stands is found by its path exactly if the composite it descends
      from, if any, is printed as what it is and every component resolves,
      which is so if each is the only visible one of its name. */
  lemma RunRoundTrip(steps: seq<Step>, sys: Sys, d: DevId)
    requires ProperRun(Boot("root"), 0, steps, sys)
    ensures Good(sys) && Nest(sys.fs, 0)
    ensures Standing(sys.fs, 0, d) ==> Hung(sys.fs, 0, d)
    ensures d != 0 && Standing(sys.fs, 0, d) ==>
              (FoundByPath(sys.fs, 0, d) <==>
                 Printable(sys.fs, 0, d) && Housed(sys.fs, 0, d) && Resolves(sys.fs, 0, d))
    ensures d != 0 && Standing(sys.fs, 0, d) && Printable(sys.fs, 0, d) && Housed(sys.fs, 0, d)
            && AllClear(sys.fs, 0, d) ==>
              FoundByPath(sys.fs, 0, d)
  {
    var fs := Boot("root").fs;
    assert OwnedAt(fs, 0);
    RunNest(Boot("root"), 0, steps, sys);
    hide Nest, Hung, FoundByPath, Inv, Printable, Housed, Resolves, AllClear, Ranked, RootAt;
    NestRoot(sys.fs, 0);
    if d != 0 && Standing(sys.fs, 0, d) {
      StandingHung(sys.fs, 0, d);
      FoundIff(sys.fs, 0, d);
      if Housed(sys.fs, 0, d) && AllClear(sys.fs, 0, d) { ClearResolves(sys.fs, 0, d); }
    } else if Standing(sys.fs, 0, d) {
      StandingHung(sys.fs, 0, d);
    }
  }

  lemma NestRoot(fs: Fs, rd: DevId)
    requires Nest(fs, rd)
    ensures Ranked(fs.devs) && RootAt(fs, rd)
  {
  }

  // ----- names that are not found

  ghost predicate StepsTo(sys: Sys, step: Step, sys': Sys) {
    0 in sys.fs.devs && Enabled(sys, step) && Proper(sys.fs, 0, step) && Apply(sys, step) == Next(sys')
  }

  /** Start-up, and a composite of some name comes and is published. */
  lemma PublishedComposite(name: string) returns (steps: seq<Step>, sys: Sys)
    ensures ProperRun(Boot("root"), 0, steps, sys)
    ensures 1 in sys.fs.devs && sys.fs.devs[1] == Dev(name, None, MISC, false, true, false, Some(2), None)
    ensures sys.fs.devs.Keys == {0, 1} && sys.fs.devs[0].parent.None? && Good(sys)
  {
    hide Good, Publish, ProperRun;
    var dev := Dev(name, None, MISC, false, true, false, None, None);
    var s0 := Boot("root");
    BootGood("root");
    var s1 := s0.(fs := s0.fs.(devs := s0.fs.devs[1 := dev]));
    DevicesGood(s0, s1.fs.devs);
    PublishMisc(s1, 0, 1);
    sys := s1.(fs := Publish(s1.fs, 0, 1).fs);
    steps := [DeviceStep(1, dev), PublishStep(0, 1)];
    TwoSteps(s0, DeviceStep(1, dev), s1, PublishStep(0, 1), sys);
  }

  lemma TwoSteps(s0: Sys, a: Step, s1: Sys, b: Step, s2: Sys)
    requires StepsTo(s0, a, s1) && StepsTo(s1, b, s2)
    ensures ProperRun(s0, 0, [a, b], s2)
  {
    hide Apply, Enabled, Proper;
    assert [a, b][1..] == [b] && [b][1..] == [];
    assert ProperRun(s2, 0, [], s2);
    assert ProperRun(s1, 0, [b], s2);
  }

  /** A composite called "root" is printed as the root itself. */
  lemma CompositeCalledRoot() returns (steps: seq<Step>, sys: Sys)
    ensures ProperRun(Boot("root"), 0, steps, sys) && Ranked(sys.fs.devs)
    ensures 1 in sys.fs.devs && sys.fs.devs[1].composite && sys.fs.devs[1].self.Some?
    ensures PathOf(sys.fs.devs, Some(1)) == Some("/dev")
  {
    hide ProperRun, PathOf;
    steps, sys := PublishedComposite("root");
    PathStep(sys.fs.devs, 1);
    assert "" + "/" + "dev" == "/dev";
  }

  /** A dissociated composite is printed beside "/dev", not below it. */
  lemma DissociatedComposite() returns (steps: seq<Step>, sys: Sys)
    ensures ProperRun(Boot("root"), 0, steps, sys) && Ranked(sys.fs.devs)
    ensures 1 in sys.fs.devs && sys.fs.devs[1].name == "c" && sys.fs.devs[1].self.Some?
    ensures PathOf(sys.fs.devs, Some(1)) == Some("/c")
  {
    hide ProperRun, PathOf, Good;
    var before;
    steps, before := PublishedComposite("c");
    var step := DissociateStep(1);
    sys := before.(fs := before.fs.(devs := before.fs.devs[1 := before.fs.devs[1].(composite := false)]));
    RunMore(Boot("root"), steps, before, step, sys);
    steps := steps + [step];
    DissociatedPath(sys.fs.devs, 1);
    assert "/" + "c" == "/c";
  }

  lemma {:induction false} RunMore(sys: Sys, steps: seq<Step>, mid: Sys, step: Step, sys': Sys)
    requires ProperRun(sys, 0, steps, mid) && StepsTo(mid, step, sys')
    ensures ProperRun(sys, 0, steps + [step], sys')
    decreases |steps|
  {
    hide Apply, Enabled, Proper;
    var all := steps + [step];
    if steps == [] {
      assert all[0] == step && all[1..] == [];
    } else {
      assert all[0] == steps[0] && all[1..] == steps[1..] + [step];
      RunMore(Apply(sys, steps[0]).sys, steps[1..], mid, step, sys');
    }
  }
}
