/** Every node of devfs has one owner that frees it, over every run: nothing
    leaks and nothing is freed twice. */
module DevfsOwners {
  import opened Common
  import opened Devfs
  import opened DevfsForest
  import opened DevfsExport
  import opened DevfsSystem
  import opened DevfsEffects

  /** Node `n` is static, or in the hands of an export. */
  ghost predicate Claimed(sys: Sys, n: NodeId) {
    n in sys.fixed || exists e :: e in sys.exports && n in sys.exports[e]
  }

  /** A node without a device is claimed. */
  ghost predicate NoLeak(sys: Sys) {
    forall n :: n in sys.fs.nodes && sys.fs.nodes[n].dev.None? ==> Claimed(sys, n)
  }

  /** Claims grow and only nodes with devices come. */
  lemma LeakFrame(sys: Sys, sys': Sys)
    requires NoLeak(sys) && sys.fixed <= sys'.fixed
    requires forall e :: e in sys.exports ==> e in sys'.exports && sys'.exports[e] == sys.exports[e]
    requires forall n :: n in sys'.fs.nodes && sys'.fs.nodes[n].dev.None? ==>
               (n in sys.fs.nodes && sys.fs.nodes[n].dev.None?) || Claimed(sys', n)
    ensures NoLeak(sys')
  {
    forall n | n in sys.fs.nodes && sys.fs.nodes[n].dev.None? ensures Claimed(sys', n) {
      assert Claimed(sys, n);
    }
  }

  lemma PublishBrings(fs: Fs, p: DevId, d: DevId)
    requires Inv(fs) && p in fs.devs && d in fs.devs
    ensures !Publish(fs, p, d).Broken?
    ensures var fs' := Publish(fs, p, d).fs;
            forall n :: n in fs'.nodes && fs'.nodes[n].dev.None? ==> n in fs.nodes && fs.nodes[n].dev.None?
  {
    hide Inv, Publish, LinkName, NoName, Said;
    PublishEffect(fs, p, d);
  }

  lemma ExportLeaks(sys: Sys, step: Step)
    requires Good(sys) && NoLeak(sys) && Enabled(sys, step) && step.ExportStep?
    ensures Apply(sys, step).Next? && NoLeak(Apply(sys, step).sys)
  {
    hide Inv, Export, RemoveAll;
    ExportGood(sys, step);
    var x := Export(sys.fs, sys.root, step.servicePath, step.path, step.proto, step.cloneOk);
    ExportInv(sys.fs, sys.root, step.servicePath, step.path, step.proto, step.cloneOk);
    var fs1 := x.reply.fs;
    if x.reply.Ok? {
      var sys' := sys.(fs := fs1, exports := sys.exports[step.e := x.out]);
      forall n | n in Set(x.out) ensures Claimed(sys', n) { assert n in sys'.exports[step.e]; }
      LeakFrame(sys, sys');
    } else {
      Dropped(sys, x.out, fs1, step.order);
    }
  }

  lemma Dropped(sys: Sys, out: seq<NodeId>, fs1: Fs, order: seq<NodeId>)
    requires Good(sys) && NoLeak(sys) && Inv(fs1) && Extended(sys.fs, Set(out), fs1)
    requires NoDup(order) && Set(order) == Set(out)
    ensures RemoveAll(fs1, order).Ok? && NoLeak(sys.(fs := RemoveAll(fs1, order).fs))
  {
    Rollback(sys.fs, out, fs1, order);
    hide Inv, RemoveAll;
    LeakFrame(sys, sys.(fs := RemoveAll(fs1, order).fs));
  }

  lemma CloseLeaks(sys: Sys, e: nat, order: seq<NodeId>)
    requires Good(sys) && NoLeak(sys) && Enabled(sys, CloseStep(e, order))
    ensures Apply(sys, CloseStep(e, order)).Next? && NoLeak(Apply(sys, CloseStep(e, order)).sys)
  {
    hide Inv, RemoveAll;
    assert forall n :: n in order <==> n in Set(order);
    assert forall n :: n in Set(order) <==> n in sys.exports[e];
    RemoveAllInv(sys.fs, order);
    var sys' := Apply(sys, CloseStep(e, order)).sys;
    forall n | n in sys'.fs.nodes && sys'.fs.nodes[n].dev.None? ensures Claimed(sys', n) {
      assert Claimed(sys, n) && n !in sys.exports[e];
      if n !in sys.fixed {
        var e' :| e' in sys.exports && n in sys.exports[e'];
        assert e' in sys'.exports && sys'.exports[e'] == sys.exports[e'];
      }
    }
  }

  lemma PublishLeaks(sys: Sys, p: DevId, d: DevId)
    requires Good(sys) && NoLeak(sys) && Enabled(sys, PublishStep(p, d))
    ensures Apply(sys, PublishStep(p, d)).Next? && NoLeak(Apply(sys, PublishStep(p, d)).sys)
  {
    hide Publish, Inv, NoLeak;
    PublishBrings(sys.fs, p, d);
    LeakFrame(sys, Apply(sys, PublishStep(p, d)).sys);
  }

  lemma UnpublishLeaks(sys: Sys, d: DevId)
    requires Good(sys) && NoLeak(sys) && Enabled(sys, UnpublishStep(d))
    ensures Apply(sys, UnpublishStep(d)).Next? && NoLeak(Apply(sys, UnpublishStep(d)).sys)
  {
    hide Unpublish, Inv, NoLeak;
    UnpublishInv(sys.fs, d);
    LeakFrame(sys, Apply(sys, UnpublishStep(d)).sys);
  }

  /** Steps that only add static nodes or only change devices. */
  lemma OtherLeaks(sys: Sys, step: Step)
    requires NoLeak(sys) && Enabled(sys, step) && Apply(sys, step).Next?
    requires !step.PublishStep? && !step.UnpublishStep? && !step.ExportStep? && !step.CloseStep?
    ensures NoLeak(Apply(sys, step).sys)
  {
    hide NoLeak, Tell;
    LeakFrame(sys, Apply(sys, step).sys);
  }

  lemma StepLeaks(sys: Sys, step: Step)
    requires Good(sys) && NoLeak(sys) && Enabled(sys, step) && Apply(sys, step).Next?
    ensures NoLeak(Apply(sys, step).sys)
  {
    hide Good, NoLeak, Apply;
    if step.PublishStep? {
      PublishLeaks(sys, step.p, step.d);
    } else if step.UnpublishStep? {
      UnpublishLeaks(sys, step.d);
    } else if step.ExportStep? {
      ExportLeaks(sys, step);
    } else if step.CloseStep? {
      CloseLeaks(sys, step.e, step.order);
    } else {
      OtherLeaks(sys, step);
    }
  }

  lemma {:induction false} RunLeaks(sys: Sys, steps: seq<Step>, sys': Sys)
    requires Good(sys) && NoLeak(sys) && Run(sys, steps, sys')
    ensures Good(sys') && NoLeak(sys')
    decreases |steps|
  {
    hide Good, NoLeak, Apply, Enabled;
    if steps == [] {
    } else {
      StepGood(sys, steps[0]);
      StepLeaks(sys, steps[0]);
      RunLeaks(Apply(sys, steps[0]).sys, steps[1..], sys');
    }
  }

  /** Over every run: a node without a device is static or belongs to exactly
      one export, and a node with one is that device's own or its link, and
      nobody else's. */
  lemma OneOwner(name: string, steps: seq<Step>, sys: Sys, n: NodeId)
    requires Run(Boot(name), steps, sys) && n in sys.fs.nodes
    ensures sys.fs.nodes[n].dev.None? ==>
              (n in sys.fixed || exists e :: e in sys.exports && n in sys.exports[e])
    ensures sys.fs.nodes[n].dev.Some? ==>
              && sys.fs.nodes[n].dev.value in sys.fs.devs
              && var dev := sys.fs.devs[sys.fs.nodes[n].dev.value];
              && (dev.self == Some(n) || dev.link == Some(n)) && dev.self != dev.link
    ensures n in sys.fixed ==> sys.fs.nodes[n].dev.None? && forall e :: e in sys.exports ==> n !in sys.exports[e]
    ensures forall e, e' :: e in sys.exports && e' in sys.exports && n in sys.exports[e] && n in sys.exports[e'] ==>
              e == e'
    ensures (exists e :: e in sys.exports && n in sys.exports[e]) ==> sys.fs.nodes[n].dev.None?
  {
    BootGood(name);
    assert NoLeak(Boot(name));
    RunLeaks(Boot(name), steps, sys);
    assert Claimed(sys, n) || sys.fs.nodes[n].dev.Some?;
    if sys.fs.nodes[n].dev.Some? { OwnerOf(sys.fs, n); }
    hide Inv, Run;
  }
}
