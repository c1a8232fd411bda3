/** Sequence names of class directories: what devfs_seq_name can and cannot
    find, and that the names it gives out stay distinct. */
module DevfsNames {
  import opened Common
  import opened Devfs
  import opened DevfsForest
  import opened DevfsExport
  import opened DevfsSystem

  lemma DigitInjective(a: nat, b: nat)
    requires a < 10 && b < 10 && Digit(a) == Digit(b)
    ensures a == b
  {
  }

  lemma Decimal(k: nat)
    ensures k == 100 * (k / 100) + 10 * (k / 10 % 10) + k % 10
  {
  }

  lemma SeqNameInjective(j: nat, k: nat)
    requires j < SEQ_NAMES && k < SEQ_NAMES && SeqName(j) == SeqName(k)
    ensures j == k
  {
    var s, t := SeqName(j), SeqName(k);
    assert s[0] == t[0] && s[1] == t[1] && s[2] == t[2];
    DigitInjective(j / 100, k / 100);
    DigitInjective(j / 10 % 10, k / 10 % 10);
    DigitInjective(j % 10, k % 10);
    hide SeqName;
    Decimal(j);
    Decimal(k);
  }

  /** A sequence name is its number in three decimal digits, the highest first. */
  lemma SeqNameReads(k: nat)
    requires k < 1000
    ensures var name := SeqName(k);
            && |name| == 3 && (forall i :: 0 <= i < 3 ==> '0' <= name[i] <= '9')
            && k == 100 * (name[0] as int - 48) + 10 * (name[1] as int - 48) + (name[2] as int - 48)
  {
    Decimal(k);
  }

  predicate Taken(nodes: map<NodeId, Node>, dir: NodeId, k: nat)
    requires dir in nodes && k < SEQ_NAMES
  {
    Lookup(nodes, dir, SeqName(k)).Some?
  }

  /** The name tried after `n` failures, as the counter wraps around. */
  function Tried(c: nat, n: nat): (k: nat)
    requires c < WORD && n <= WORD
    ensures k < SEQ_NAMES
  {
    (if c + n < WORD then c + n else c + n - WORD) % SEQ_NAMES
  }

  ghost predicate AllTriedTaken(nodes: map<NodeId, Node>, dir: NodeId, c: nat, left: nat)
    requires dir in nodes && c < WORD && left <= WORD
  {
    forall n :: 0 <= n < left ==> Taken(nodes, dir, Tried(c, n))
  }

  /** A scan fails exactly when every name it tries is taken. */
  lemma {:induction false} ScanTries(nodes: map<NodeId, Node>, dir: NodeId, c: nat, left: nat)
    requires dir in nodes && c < WORD && left < WORD
    ensures Scan(nodes, dir, c, left).0.None? <==> AllTriedTaken(nodes, dir, c, left)
    decreases left
  {
    if left == 0 {
    } else {
      var c' := if c + 1 == WORD then 0 else c + 1;
      ScanTries(nodes, dir, c', left - 1);
      TriedStep(nodes, dir, c, left);
      hide AllTriedTaken;
    }
  }

  lemma TriedStep(nodes: map<NodeId, Node>, dir: NodeId, c: nat, left: nat)
    requires dir in nodes && c < WORD && 0 < left < WORD
    ensures var c' := if c + 1 == WORD then 0 else c + 1;
            AllTriedTaken(nodes, dir, c, left) <==>
              Taken(nodes, dir, c % SEQ_NAMES) && AllTriedTaken(nodes, dir, c', left - 1)
  {
    hide Taken;
    var c' := if c + 1 == WORD then 0 else c + 1;
    assert Tried(c, 0) == c % SEQ_NAMES;
    if AllTriedTaken(nodes, dir, c, left) {
      forall n: nat | n < left - 1 ensures Taken(nodes, dir, Tried(c', n)) { assert Tried(c', n) == Tried(c, n + 1); }
    }
    if Taken(nodes, dir, c % SEQ_NAMES) && AllTriedTaken(nodes, dir, c', left - 1) {
      forall n: nat | n < left ensures Taken(nodes, dir, Tried(c, n)) {
        if n > 0 { assert Tried(c, n) == Tried(c', n - 1); }
      }
    }
  }

  /** The name is the first free one in the order tried, after `n` failures. */
  ghost predicate FirstFreeName(nodes: map<NodeId, Node>, dir: NodeId, c: nat, n: nat, name: string) {
    && dir in nodes && c < WORD && n < WORD && name == SeqName(Tried(c, n))
    && !Taken(nodes, dir, Tried(c, n)) && AllTriedTaken(nodes, dir, c, n)
  }

  /** A scan that succeeds gives the first free name in the order tried, and
      leaves the counter behind it. */
  lemma {:induction false} ScanFirst(nodes: map<NodeId, Node>, dir: NodeId, c: nat, left: nat) returns (n: nat)
    requires dir in nodes && c < WORD && left < WORD && Scan(nodes, dir, c, left).0.Some?
    ensures n < left && FirstFreeName(nodes, dir, c, n, Scan(nodes, dir, c, left).0.value)
    ensures Scan(nodes, dir, c, left).1 == if c + n + 1 < WORD then c + n + 1 else c + n + 1 - WORD
    decreases left
  {
    var c' := if c + 1 == WORD then 0 else c + 1;
    if Lookup(nodes, dir, SeqName(c % SEQ_NAMES)).None? {
      n := 0;
    } else {
      var m := ScanFirst(nodes, dir, c', left - 1);
      n := m + 1;
      TriedStep(nodes, dir, c, n);
      assert Tried(c, n) == Tried(c', m);
      hide AllTriedTaken;
    }
  }

  lemma WhenTried(c: nat, k: nat) returns (n: nat)
    requires c + SEQ_NAMES <= WORD && k < SEQ_NAMES
    ensures n < SEQ_NAMES && Tried(c, n) == k
  {
    var q, r := c / SEQ_NAMES, c % SEQ_NAMES;
    n := if r <= k then k - r else k + SEQ_NAMES - r;
    assert c + n == SEQ_NAMES * (if r <= k then q else q + 1) + k;
  }

  /** While the counter does not cross 2^32, a scan of 1000 tries finds a name
      whenever one is free. */
  lemma ScanComplete(nodes: map<NodeId, Node>, dir: NodeId, c: nat)
    requires dir in nodes && c + SEQ_NAMES <= WORD
    ensures Scan(nodes, dir, c, SEQ_NAMES).0.None? <==> AllTaken(nodes, dir)
  {
    hide Taken, Scan, Tried;
    ScanTries(nodes, dir, c, SEQ_NAMES);
    if AllTriedTaken(nodes, dir, c, SEQ_NAMES) {
      forall k: nat | k < SEQ_NAMES ensures Taken(nodes, dir, k) {
        var n := WhenTried(c, k);
        assert Taken(nodes, dir, Tried(c, n));
      }
    }
  }

  /** A counter that crosses 2^32 during the scan starts over at 0, and as 2^32
      is not a multiple of 1000 some name is never tried. */
  lemma Skipped(c: nat) returns (k: nat)
    requires c < WORD < c + SEQ_NAMES
    ensures k < SEQ_NAMES && forall n :: 0 <= n < SEQ_NAMES ==> Tried(c, n) != k
  {
    var before := WORD - c;
    k := if before <= 704 then SEQ_NAMES - before else 296;
    forall n: nat | n < SEQ_NAMES ensures Tried(c, n) != k {
      if n < before {
        var t := before - n;
        assert c + n == SEQ_NAMES * (if t <= 296 then 4294967 else 4294966) + (if t <= 296 then 296 - t else 1296 - t);
      }
    }
  }

  predicate Number(n: nat) { n <= SEQ_NAMES }

  /** A directory with every sequence name but one. */
  function AllBut(k: nat): map<NodeId, Node>
    requires k < SEQ_NAMES
  {
    map n | 0 <= n <= SEQ_NAMES && Number(n) ::
      if n == 0 then Node("", None, None, seq(SEQ_NAMES - 1, i => if i < k then i + 1 else i + 2), None, 0)
      else Node(SeqName(n - 1), None, Some(0), [], None, 0)
  }

  lemma AllButTaken(k: nat, j: nat)
    requires k < SEQ_NAMES && j < SEQ_NAMES
    ensures 0 in AllBut(k) && (Taken(AllBut(k), 0, j) <==> j != k)
  {
    var nodes := AllBut(k);
    assert forall n: nat :: n <= SEQ_NAMES ==> Number(n);
    var list := nodes[0].children;
    if j != k {
      var at := if j < k then j else j - 1;
      assert list[at] == j + 1 && j + 1 in list && nodes[j + 1].name == SeqName(j);
    } else {
      forall n | n in list && n in nodes ensures nodes[n].name != SeqName(k) {
        var i :| 0 <= i < |list| && list[i] == n;
        if nodes[n].name == SeqName(k) { SeqNameInjective(n - 1, k); }
      }
    }
  }

  /** Scanning is complete for exactly those counter values from which 1000
      steps do not cross 2^32. */
  lemma CompleteIff(c: nat)
    requires c < WORD
    ensures c + SEQ_NAMES <= WORD <==>
            forall nodes: map<NodeId, Node>, dir :: dir in nodes && Scan(nodes, dir, c, SEQ_NAMES).0.None? ==>
              AllTaken(nodes, dir)
  {
    if c + SEQ_NAMES <= WORD {
      forall nodes: map<NodeId, Node>, dir | dir in nodes && Scan(nodes, dir, c, SEQ_NAMES).0.None?
        ensures AllTaken(nodes, dir)
      {
        ScanComplete(nodes, dir, c);
      }
    } else {
      var k := Skipped(c);
      var nodes := AllBut(k);
      AllButTaken(k, k);
      forall n: nat | n < SEQ_NAMES ensures Taken(nodes, 0, Tried(c, n)) { AllButTaken(k, Tried(c, n)); }
      ScanTries(nodes, 0, c, SEQ_NAMES);
    }
  }

  predicate AllTaken(nodes: map<NodeId, Node>, dir: NodeId)
    requires dir in nodes
  {
    forall k :: 0 <= k < SEQ_NAMES ==> Taken(nodes, dir, k)
  }

  // ----- names over runs

  ghost predicate DistinctAt(nodes: map<NodeId, Node>, p: NodeId) {
    && p in nodes
    && forall a, b :: a in nodes[p].children && b in nodes[p].children && a in nodes && b in nodes ==>
         nodes[a].name == nodes[b].name ==> a == b
  }

  /** Classes have directories of their own, and names in a class directory
      are distinct. Console links are named after their device, and excepted. */
  ghost predicate ClassNames(fs: Fs) {
    && (forall q, r :: q in fs.protos && r in fs.protos && fs.protos[q] == fs.protos[r] ==> q == r)
    && (forall pr :: pr in fs.protos && pr != CONSOLE ==> DistinctAt(fs.nodes, fs.protos[pr]))
  }

  lemma InsertDistinct(nodes: map<NodeId, Node>, n: NodeId, p: NodeId, name: string, dev: Option<DevId>, q: NodeId)
    requires DistinctAt(nodes, q) && p in nodes && n !in nodes
    requires forall c :: c in nodes[q].children ==> c in nodes
    requires q == p ==> Lookup(nodes, p, name).None?
    ensures DistinctAt(Insert(nodes, n, p, name, dev), q)
  {
  }

  lemma {:induction false} SameLookup(nodes: map<NodeId, Node>, nodes': map<NodeId, Node>, list: seq<NodeId>,
                                      name: string)
    requires forall n :: n in list ==> n in nodes && n in nodes' && nodes'[n].name == nodes[n].name
    ensures LookupIn(nodes', list, name) == LookupIn(nodes, list, name)
  {
    if list == [] {
    } else {
      SameLookup(nodes, nodes', list[1..], name);
    }
  }

  /** Publishing adds to a class directory at most one link, under a free name. */
  lemma PublishNames(fs: Fs, p: DevId, d: DevId, pr: Proto)
    requires Inv(fs) && ClassNames(fs) && p in fs.devs && d in fs.devs && pr in fs.protos && pr != CONSOLE
    ensures !Publish(fs, p, d).Broken? && DistinctAt(Publish(fs, p, d).fs.nodes, fs.protos[pr])
  {
    hide Inv, Scan, ClassNames, PublishSelf, AddLink, SetCount, DistinctAt;
    PublishInv(fs, p, d);
    var q := fs.protos[pr];
    ClassReady(fs, pr);
    if fs.devs[p].self.Some? && fs.devs[d].self.None? && fs.devs[d].link.None? {
      var k, at, dir := fs.nextIno, fs.devs[p].self.value, ClassDir(fs, d);
      PublishReady(fs, p, d);
      NotAtClass(fs, p, pr);
      if dir.None? {
        SelfNames(fs.(nextIno := k + 1), k, at, d, q);
      } else if fs.devs[d].proto == CONSOLE {
        ConsoleApart(fs, pr);
        LinkNames(fs, k, dir.value, fs.devs[d].name, at, d, q);
      } else {
        var (name, c) := Scan(fs.nodes, dir.value, fs.nodes[dir.value].seqcount % WORD, SEQ_NAMES);
        CountNames(fs, dir.value, c, q);
        if name.Some? {
          LinkNames(fs.(nodes := SetCount(fs.nodes, dir.value, c)), k, dir.value, name.value, at, d, q);
        }
      }
    }
  }

  lemma ClassReady(fs: Fs, pr: Proto)
    requires Inv(fs) && ClassNames(fs) && pr in fs.protos
    ensures fs.protos[pr] in fs.nodes && (pr != CONSOLE ==> DistinctAt(fs.nodes, fs.protos[pr]))
    ensures forall c :: c in fs.nodes[fs.protos[pr]].children ==> c in fs.nodes
  {
  }

  /** A device's own node is never a class directory. */
  lemma NotAtClass(fs: Fs, p: DevId, pr: Proto)
    requires Inv(fs) && p in fs.devs && fs.devs[p].self.Some? && pr in fs.protos
    ensures fs.devs[p].self.value != fs.protos[pr]
  {
  }

  lemma CountNames(fs: Fs, dir: NodeId, c: nat, q: NodeId)
    requires dir in fs.nodes && DistinctAt(fs.nodes, q) && forall n :: n in fs.nodes[q].children ==> n in fs.nodes
    ensures var nodes' := SetCount(fs.nodes, dir, c);
            && DistinctAt(nodes', q) && nodes'.Keys == fs.nodes.Keys && nodes'[q].children == fs.nodes[q].children
            && forall name :: Lookup(nodes', q, name) == Lookup(fs.nodes, q, name)
  {
    forall name ensures Lookup(SetCount(fs.nodes, dir, c), q, name) == Lookup(fs.nodes, q, name) {
      SameLookup(fs.nodes, SetCount(fs.nodes, dir, c), fs.nodes[q].children, name);
    }
  }

  lemma ConsoleApart(fs: Fs, pr: Proto)
    requires ClassNames(fs) && pr in fs.protos && CONSOLE in fs.protos && pr != CONSOLE
    ensures fs.protos[pr] != fs.protos[CONSOLE]
  {
  }

  lemma SelfNames(fs: Fs, k: NodeId, at: NodeId, d: DevId, q: NodeId)
    requires DistinctAt(fs.nodes, q) && at in fs.nodes && at != q && k !in fs.nodes && d in fs.devs
    requires forall c :: c in fs.nodes[q].children ==> c in fs.nodes
    ensures PublishSelf(fs, k, at, d).Ok? ==> DistinctAt(PublishSelf(fs, k, at, d).fs.nodes, q)
    ensures !PublishSelf(fs, k, at, d).Refused?
  {
    InsertDistinct(fs.nodes, k, at, fs.devs[d].name, Some(d), q);
  }

  lemma LinkNames(fs: Fs, k: NodeId, dir: NodeId, name: string, at: NodeId, d: DevId, q: NodeId)
    requires DistinctAt(fs.nodes, q) && dir in fs.nodes && at in fs.nodes && at != q && d in fs.devs
    requires (forall n :: n in fs.nodes ==> n < k)
    requires forall c :: c in fs.nodes[q].children ==> c in fs.nodes
    requires q == dir ==> Lookup(fs.nodes, dir, name).None?
    ensures var fs1 := AddLink(fs, k + 1, dir, name, d).(nextIno := k + 2);
            && at in fs1.nodes && d in fs1.devs && !PublishSelf(fs1, k, at, d).Refused?
            && (PublishSelf(fs1, k, at, d).Ok? ==> DistinctAt(PublishSelf(fs1, k, at, d).fs.nodes, q))
  {
    InsertDistinct(fs.nodes, k + 1, dir, name, Some(d), q);
    SelfNames(AddLink(fs, k + 1, dir, name, d).(nextIno := k + 2), k, at, d, q);
  }

  // ----- runs

  /** Nodes are made by hand only outside the class directories. */
  ghost predicate Elsewhere(fs: Fs, step: Step) {
    step.MkdirStep? ==> forall pr :: pr in fs.protos ==> fs.protos[pr] != step.p
  }

  lemma ExportNames(fs: Fs, root: NodeId, servicePath: string, path: string, proto: Proto, cloneOk: bool)
    requires Inv(fs) && ClassNames(fs) && root in fs.nodes
    requires Export(fs, root, servicePath, path, proto, cloneOk).reply.Ok?
    ensures ClassNames(Export(fs, root, servicePath, path, proto, cloneOk).reply.fs)
  {
    hide Export, Extended, Added, Parts, Resolve, Inv, ClassNames, DistinctAt;
    var x := Export(fs, root, servicePath, path, proto, cloneOk);
    var (at, rest) := Resolve(fs.nodes, root, Parts(path));
    ExportStructure(fs, root, servicePath, path, proto, cloneOk);
    ExportInv(fs, root, servicePath, path, proto, cloneOk);
    forall pr | pr in fs.protos && pr != CONSOLE ensures DistinctAt(x.reply.fs.nodes, fs.protos[pr]) {
      ClassReady(fs, pr);
      AddedNames(fs, at, rest, ClassOf(fs, proto), servicePath, x.out, x.reply.fs, fs.protos[pr]);
    }
    SameClasses(fs, Set(x.out), x.reply.fs);
  }

  lemma SameClasses(fs: Fs, out: set<NodeId>, fs': Fs)
    requires ClassNames(fs) && Extended(fs, out, fs')
    requires forall pr :: pr in fs.protos && pr != CONSOLE ==> DistinctAt(fs'.nodes, fs.protos[pr])
    ensures ClassNames(fs')
  {
  }

  lemma AddedNames(fs: Fs, at: NodeId, rest: seq<string>, dir: Option<NodeId>, servicePath: string, out: seq<NodeId>,
                   fs': Fs, q: NodeId)
    requires Added(fs, at, rest, dir, servicePath, out, fs'.nodes) && Extended(fs, Set(out), fs') && rest != []
    requires |rest| <= |out|
    requires at in fs.nodes && Lookup(fs.nodes, at, rest[0]).None?
    requires DistinctAt(fs.nodes, q) && forall c :: c in fs.nodes[q].children ==> c in fs.nodes
    ensures DistinctAt(fs'.nodes, q)
  {
    assert ChainAt(fs'.nodes, at, out, rest, 0);
    var old', new' := fs.nodes[q].children, fs'.nodes[q].children;
    forall a, b | a in new' && b in new' && a in fs'.nodes && b in fs'.nodes && fs'.nodes[a].name == fs'.nodes[b].name
      ensures a == b
    {
    }
  }

  lemma EmptyDistinct(nodes: map<NodeId, Node>, n: NodeId)
    requires n in nodes && nodes[n].children == []
    ensures DistinctAt(nodes, n)
  {
  }

  lemma MkdirNames(sys: Sys, p: NodeId, name: string, kind: Option<Proto>)
    requires Good(sys) && ClassNames(sys.fs) && Enabled(sys, MkdirStep(p, name, kind))
    requires Elsewhere(sys.fs, MkdirStep(p, name, kind))
    ensures ClassNames(Apply(sys, MkdirStep(p, name, kind)).sys.fs)
  {
    var fs, fs' := sys.fs, Apply(sys, MkdirStep(p, name, kind)).sys.fs;
    hide Inv, Held, DistinctAt;
    NewNumber(fs.nodes, fs.nextIno, p);
    forall pr | pr in fs.protos ensures fs.protos[pr] in fs.nodes { ClassIsNode(fs, pr); }
    forall pr | pr in fs'.protos && pr != CONSOLE ensures DistinctAt(fs'.nodes, fs'.protos[pr]) {
      if pr in fs.protos {
        ClassReady(fs, pr);
        InsertDistinct(fs.nodes, fs.nextIno, p, name, None, fs.protos[pr]);
      } else {
        EmptyDistinct(fs'.nodes, fs.nextIno);
      }
    }
  }

  lemma FreedNames(fs: Fs, gone: set<NodeId>, fs': Fs)
    requires Inv(fs) && Inv(fs') && ClassNames(fs) && Without(fs, gone, fs')
    ensures ClassNames(fs')
  {
  }

  lemma CloseNames(sys: Sys, e: nat, order: seq<NodeId>)
    requires Good(sys) && ClassNames(sys.fs) && Enabled(sys, CloseStep(e, order))
    ensures RemoveAll(sys.fs, order).Ok? && ClassNames(RemoveAll(sys.fs, order).fs)
  {
    hide Inv, RemoveAll, ClassNames, Without;
    assert forall n :: n in order <==> n in Set(order);
    assert forall n :: n in Set(order) <==> n in sys.exports[e];
    RemoveAllInv(sys.fs, order);
    FreedNames(sys.fs, Set(order), RemoveAll(sys.fs, order).fs);
  }

  /** A refused export leaves the names as they were once it is rolled back. */
  lemma ExportStepNames(sys: Sys, step: Step)
    requires Good(sys) && ClassNames(sys.fs) && Enabled(sys, step) && step.ExportStep?
    ensures var x := Export(sys.fs, sys.root, step.servicePath, step.path, step.proto, step.cloneOk);
            && !x.reply.Broken?
            && if x.reply.Ok? then ClassNames(x.reply.fs)
               else RemoveAll(x.reply.fs, step.order).Ok? && ClassNames(RemoveAll(x.reply.fs, step.order).fs)
  {
    hide Inv, Export, RemoveAll, ClassNames, Extended;
    var fs, x := sys.fs, Export(sys.fs, sys.root, step.servicePath, step.path, step.proto, step.cloneOk);
    ExportInv(fs, sys.root, step.servicePath, step.path, step.proto, step.cloneOk);
    if x.reply.Ok? {
      ExportNames(fs, sys.root, step.servicePath, step.path, step.proto, step.cloneOk);
    } else {
      Rollback(fs, x.out, x.reply.fs, step.order);
      RestoredNames(fs, RemoveAll(x.reply.fs, step.order).fs);
    }
  }

  lemma RestoredNames(fs: Fs, fs': Fs)
    requires Inv(fs) && Inv(fs') && ClassNames(fs) && fs'.protos == fs.protos && fs'.nodes.Keys == fs.nodes.Keys
    requires forall m :: m in fs.nodes ==> fs'.nodes[m].(seqcount := fs.nodes[m].seqcount) == fs.nodes[m]
    ensures ClassNames(fs')
  {
  }

  lemma StepNames(sys: Sys, step: Step)
    requires Good(sys) && ClassNames(sys.fs) && Enabled(sys, step) && Elsewhere(sys.fs, step) && Apply(sys, step).Next?
    ensures ClassNames(Apply(sys, step).sys.fs)
  {
    var fs, fs' := sys.fs, Apply(sys, step).sys.fs;
    hide Inv, Held, Publish, Unpublish, Export, RemoveAll, ClassNames, DistinctAt, Without, MakeVisible,
         AdvertiseModified;
    if step.MkdirStep? {
      MkdirNames(sys, step.p, step.name, step.kind);
    } else if step.PublishStep? {
      PublishStepNames(fs, step.p, step.d);
    } else if step.UnpublishStep? {
      UnpublishInv(fs, step.d);
      FreedNames(fs, NodesOf(fs, step.d), Unpublish(fs, step.d).fs);
    } else if step.CloseStep? {
      CloseNames(sys, step.e, step.order);
    } else if step.ExportStep? {
      ExportStepNames(sys, step);
    } else {
      AdvertSame(fs, step);
      SameNames(fs, fs');
    }
  }

  lemma AdvertSame(fs: Fs, step: Step)
    requires step.VisibleStep? || step.ModifiedStep? ==> step.d in fs.devs
    ensures step.VisibleStep? && MakeVisible(fs, step.d, step.ready).Ok? ==>
              MakeVisible(fs, step.d, step.ready).fs.nodes == fs.nodes
              && MakeVisible(fs, step.d, step.ready).fs.protos == fs.protos
    ensures step.ModifiedStep? && AdvertiseModified(fs, step.d).Ok? ==> AdvertiseModified(fs, step.d).fs == fs
    ensures step.VisibleStep? ==> !MakeVisible(fs, step.d, step.ready).Refused?
    ensures step.ModifiedStep? ==> !AdvertiseModified(fs, step.d).Refused?
  {
  }

  lemma SameNames(fs: Fs, fs': Fs)
    requires ClassNames(fs) && fs'.nodes == fs.nodes && fs'.protos == fs.protos
    ensures ClassNames(fs')
  {
  }

  lemma PublishStepNames(fs: Fs, p: DevId, d: DevId)
    requires Inv(fs) && ClassNames(fs) && p in fs.devs && d in fs.devs
    ensures !Publish(fs, p, d).Broken? && ClassNames(Publish(fs, p, d).fs)
  {
    PublishGrows(fs, p, d);
    forall pr | pr in fs.protos && pr != CONSOLE
      ensures DistinctAt(Publish(fs, p, d).fs.nodes, fs.protos[pr])
    {
      PublishNames(fs, p, d, pr);
    }
    hide Inv, Publish;
  }

  ghost predicate RunElsewhere(sys: Sys, steps: seq<Step>, sys': Sys)
    decreases |steps|
  {
    if steps == [] then sys' == sys
    else Enabled(sys, steps[0]) && Elsewhere(sys.fs, steps[0]) && Apply(sys, steps[0]).Next?
         && RunElsewhere(Apply(sys, steps[0]).sys, steps[1..], sys')
  }

  /** Names in the class directories stay pairwise distinct over every run of
      publishing, unpublishing, exporting and closing. */
  lemma {:induction false} RunNames(sys: Sys, steps: seq<Step>, sys': Sys)
    requires Good(sys) && ClassNames(sys.fs) && RunElsewhere(sys, steps, sys')
    ensures Good(sys') && ClassNames(sys'.fs)
    decreases |steps|
  {
    hide Good, ClassNames, Apply, Enabled, Elsewhere;
    if steps == [] {
    } else {
      StepGood(sys, steps[0]);
      StepNames(sys, steps[0]);
      RunNames(Apply(sys, steps[0]).sys, steps[1..], sys');
    }
  }
}
