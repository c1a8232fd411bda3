/** What an export answers and tells the watchers, from the state before it
    (devfs_export of devfs.cc). */
module DevfsExportEffects {
  import opened Common
  import opened Devfs
  import opened DevfsForest
  import opened DevfsExport
  import opened DevfsNames
  import opened DevfsEffects

  // ----- following a path

  /** Place `i` of the list has the first node of that name. */
  ghost predicate FirstNamed(nodes: map<NodeId, Node>, list: seq<NodeId>, i: int, name: string) {
    && 0 <= i < |list| && list[i] in nodes && nodes[list[i]].name == name
    && forall j :: 0 <= j < i && list[j] in nodes ==> nodes[list[j]].name != name
  }

  ghost predicate NoneNamed(nodes: map<NodeId, Node>, n: NodeId, name: string) {
    n in nodes && forall c :: c in nodes[n].children && c in nodes ==> nodes[c].name != name
  }

  lemma {:induction false} LookupFirst(nodes: map<NodeId, Node>, list: seq<NodeId>, name: string)
    ensures LookupIn(nodes, list, name).Some? ==>
              exists i :: FirstNamed(nodes, list, i, name) && list[i] == LookupIn(nodes, list, name).value
  {
    if list == [] {
    } else if list[0] in nodes && nodes[list[0]].name == name {
      assert FirstNamed(nodes, list, 0, name);
    } else {
      LookupFirst(nodes, list[1..], name);
      if LookupIn(nodes, list, name).Some? {
        var i :| FirstNamed(nodes, list[1..], i, name) && list[1..][i] == LookupIn(nodes, list, name).value;
        assert forall j :: 0 < j < i + 1 ==> list[j] == list[1..][j - 1];
        assert FirstNamed(nodes, list, i + 1, name);
      }
    }
  }

  /** Going down from `n` by the first child of each name leads to `m`. */
  ghost predicate Leads(nodes: map<NodeId, Node>, n: NodeId, parts: seq<string>, m: NodeId)
    decreases |parts|
  {
    n in nodes && if parts == [] then n == m
                  else exists i :: FirstNamed(nodes, nodes[n].children, i, parts[0])
                                   && Leads(nodes, nodes[n].children[i], parts[1..], m)
  }

  /** The path leads as far as `at` and no further: `rest` is missing. */
  ghost predicate LeadsAsFar(nodes: map<NodeId, Node>, n: NodeId, parts: seq<string>, at: NodeId, rest: seq<string>) {
    && |rest| <= |parts| && rest == parts[|parts| - |rest|..]
    && Leads(nodes, n, parts[..|parts| - |rest|], at) && (rest != [] ==> NoneNamed(nodes, at, rest[0]))
  }

  lemma {:induction false} ResolveLeads(nodes: map<NodeId, Node>, n: NodeId, parts: seq<string>)
    requires n in nodes
    ensures LeadsAsFar(nodes, n, parts, Resolve(nodes, n, parts).0, Resolve(nodes, n, parts).1)
    decreases |parts|
  {
    var (at, rest) := Resolve(nodes, n, parts);
    var k := |parts| - |rest|;
    if parts == [] {
    } else {
      var c := Lookup(nodes, n, parts[0]);
      LookupFirst(nodes, nodes[n].children, parts[0]);
      if c.Some? {
        ResolveLeads(nodes, c.value, parts[1..]);
        assert parts[..k][1..] == parts[1..][..k - 1] && parts[k..] == parts[1..][k - 1..];
      } else {
        assert parts[..0] == [] && parts[0..] == parts;
      }
    }
  }

  // ----- the reply

  /** Not empty, and neither starting nor ending with a separator. */
  ghost predicate Proper(path: string) {
    |path| > 0 && path[0] != '/' && path[|path| - 1] != '/'
  }

  /** Each new component is announced in the one above it. */
  function ChainSaid(p: NodeId, first: NodeId, parts: seq<string>): seq<Event>
    decreases |parts|
  {
    if parts == [] then [] else Said(p, ADDED, parts[0]) + ChainSaid(first, first + 1, parts[1..])
  }

  lemma {:induction false} GrowSays(fs: Fs, p: NodeId, parts: seq<string>)
    requires p in fs.nodes
    ensures Grow(fs, p, parts).events == ChainSaid(p, fs.nextIno, parts)
    ensures |Grow(fs, p, parts).out| == |parts|
    decreases |parts|
  {
    if parts == [] {
    } else {
      GrowSays(Mkdir(fs, p, parts[0]), fs.nextIno, parts[1..]);
    }
  }

  /** Every sequence name that is tried is in the class directory, or becomes
      the name of the first new component there. */
  ghost predicate NoClassName(fs: Fs, dir: NodeId, at: NodeId, first: string) {
    && dir in fs.nodes
    && forall n :: 0 <= n < SEQ_NAMES ==> TakenThen(fs, dir, at, first, Tried(fs.nodes[dir].seqcount % WORD, n))
  }

  ghost predicate TakenThen(fs: Fs, dir: NodeId, at: NodeId, first: string, k: nat)
    requires dir in fs.nodes && k < SEQ_NAMES
  {
    Taken(fs.nodes, dir, k) || (dir == at && first == SeqName(k))
  }

  /** How an export goes whose components `rest` are missing below `at`. */
  ghost predicate Answers(fs: Fs, at: NodeId, rest: seq<string>, proto: Proto, cloneOk: bool, x: Exported) {
    && rest != []
    && var said, k := ChainSaid(at, fs.nextIno, rest), |rest|;
    if proto !in fs.protos then x.reply.Ok? && x.reply.events == said && |x.out| == k
    else if NoClassName(fs, fs.protos[proto], at, rest[0])
    then x.reply.Refused? && x.reply.status == ALREADY_EXISTS && x.reply.events == said && |x.out| == k
    else
      && |x.out| == k + 1 && !x.reply.Broken? && x.out[k] in x.reply.fs.nodes
      && x.reply.events == said + Said(fs.protos[proto], ADDED, x.reply.fs.nodes[x.out[k]].name)
      && if cloneOk then x.reply.Ok? else x.reply.Refused? && x.reply.status == PEER_CLOSED
  }

  /** An export is refused for an improper path and for one that leads to a node
      already; otherwise what is missing is made and announced from the top down,
      and then, for a protocol with a class, an entry in the class directory. */
  lemma ExportReplies(fs: Fs, root: NodeId, servicePath: string, path: string, proto: Proto, cloneOk: bool)
    requires Inv(fs) && root in fs.nodes
    ensures var x := Export(fs, root, servicePath, path, proto, cloneOk);
            if !Proper(servicePath) || !Proper(path) then x == Exported(Refused(fs, INVALID_ARGS, []), [])
            else exists at, rest ::
                LeadsAsFar(fs.nodes, root, Parts(path), at, rest) &&
                if rest == [] then x == Exported(Refused(fs, ALREADY_EXISTS, []), [])
                else Answers(fs, at, rest, proto, cloneOk, x)
  {
    hide Inv, Resolve, Grow, Serve, ExportClass, LeadsAsFar, Answers, Parts;
    if Proper(servicePath) && Proper(path) {
      ResolveLeads(fs.nodes, root, Parts(path));
      var (at, rest) := Resolve(fs.nodes, root, Parts(path));
      if rest != [] {
        GrowSays(fs, at, rest);
        ChainAdded(fs, at, rest, servicePath);
        hide Added;
        Replies(fs, at, rest, servicePath, proto, cloneOk);
      }
    }
  }

  lemma Replies(fs: Fs, at: NodeId, rest: seq<string>, servicePath: string, proto: Proto, cloneOk: bool)
    requires Inv(fs) && at in fs.nodes && rest != [] && Grow(fs, at, rest).out != []
    requires var g := Grow(fs, at, rest); g.out[|g.out| - 1] in g.fs.nodes
    ensures var g := Grow(fs, at, rest);
            Answers(fs, at, rest, proto, cloneOk, ExportClass(Serve(g.fs, g.out[|g.out| - 1], servicePath), g.out,
                                                              g.events, servicePath, proto, cloneOk))
  {
    hide Inv, Grow, Serve, ChainSaid, NoClassName, ExportClass, Added, Extended;
    var g := Grow(fs, at, rest);
    var fs1 := Serve(g.fs, g.out[|g.out| - 1], servicePath);
    GrowSays(fs, at, rest);
    GrowExtends(fs, at, rest);
    ServeKeeps(fs, g.fs, Set(g.out), g.out[|g.out| - 1], servicePath);
    if proto in fs.protos {
      ClassIsNode(fs, proto);
      SameNames(fs, at, rest, servicePath, fs.protos[proto]);
      ClassReplies(fs1, g.out, g.events, servicePath, proto, cloneOk);
    } else {
      NoClassEntry(fs1, g.out, g.events, servicePath, proto, cloneOk);
    }
  }

  /** The new components add at most one name to the class directory. */
  lemma SameNames(fs: Fs, at: NodeId, rest: seq<string>, servicePath: string, dir: NodeId)
    requires Inv(fs) && at in fs.nodes && rest != [] && Grow(fs, at, rest).out != [] && dir in fs.nodes
    requires var g := Grow(fs, at, rest); g.out[|g.out| - 1] in g.fs.nodes
    ensures var g := Grow(fs, at, rest);
            var fs1 := Serve(g.fs, g.out[|g.out| - 1], servicePath);
            && dir in fs1.nodes
            && (AllTriedTaken(fs1.nodes, dir, fs1.nodes[dir].seqcount % WORD, SEQ_NAMES) <==>
                  NoClassName(fs, dir, at, rest[0]))
  {
    hide Inv, Grow, Serve, Added, Extended, Taken;
    var g := Grow(fs, at, rest);
    var leaf := g.out[|g.out| - 1];
    var fs1 := Serve(g.fs, leaf, servicePath);
    ChainAdded(fs, at, rest, servicePath);
    GrowExtends(fs, at, rest);
    Numbers(fs);
    GrowCounts(fs, at, rest);
    ServeFacts(g.fs, leaf, servicePath);
    DirectoryThen(fs, at, rest, servicePath, g.out, g.fs, fs1, dir);
    forall k: nat | k < SEQ_NAMES ensures Taken(fs1.nodes, dir, k) <==> TakenThen(fs, dir, at, rest[0], k) {
      TakenIff(fs, at, rest[0], g.out[0], fs1, dir, k);
    }
  }

  lemma {:induction false} GrowCounts(fs: Fs, p: NodeId, parts: seq<string>)
    requires p in fs.nodes && forall n :: n in fs.nodes ==> n < fs.nextIno
    ensures forall n :: n in fs.nodes ==>
              n in Grow(fs, p, parts).fs.nodes && Grow(fs, p, parts).fs.nodes[n].seqcount == fs.nodes[n].seqcount
    decreases |parts|
  {
    if parts == [] {
    } else {
      GrowCounts(Mkdir(fs, p, parts[0]), fs.nextIno, parts[1..]);
    }
  }

  lemma ServeFacts(fs: Fs, n: NodeId, path: string)
    requires n in fs.nodes
    ensures var fs1 := Serve(fs, n, path);
            && fs1.nodes.Keys == fs.nodes.Keys && fs1.nextIno == fs.nextIno
            && forall m :: m in fs.nodes ==> fs1.nodes[m] == fs.nodes[m].(service := fs1.nodes[m].service)
  {
  }

  lemma DirectoryThen(fs: Fs, at: NodeId, rest: seq<string>, servicePath: string, out: seq<NodeId>, g: Fs, fs1: Fs,
                      dir: NodeId)
    requires Added(fs, at, rest, None, servicePath, out, fs1.nodes) && Extended(fs, Set(out), g) && dir in fs.nodes
    requires fs1.nodes.Keys == g.nodes.Keys
    requires forall m :: m in g.nodes ==> fs1.nodes[m].name == g.nodes[m].name
    ensures rest != [] && out != [] && dir in fs1.nodes && out[0] in fs1.nodes && fs1.nodes[out[0]].name == rest[0]
    ensures fs1.nodes[dir].children == fs.nodes[dir].children + if dir == at then [out[0]] else []
    ensures forall m :: m in fs.nodes ==> m in fs1.nodes && fs1.nodes[m].name == fs.nodes[m].name
  {
    assert ChainAt(fs1.nodes, at, out, rest, 0);
  }

  lemma TakenIff(fs: Fs, at: NodeId, first: string, n: NodeId, fs1: Fs, dir: NodeId, k: nat)
    requires Inv(fs) && dir in fs.nodes && dir in fs1.nodes && k < SEQ_NAMES
    requires n in fs1.nodes && fs1.nodes[n].name == first
    requires fs1.nodes[dir].children == fs.nodes[dir].children + if dir == at then [n] else []
    requires forall m :: m in fs.nodes ==> m in fs1.nodes && fs1.nodes[m].name == fs.nodes[m].name
    ensures Taken(fs1.nodes, dir, k) <==> TakenThen(fs, dir, at, first, k)
  {
    assert ListAt(fs.nodes, dir);
    hide Inv, SeqName, LookupIn;
    var name, list := SeqName(k), fs.nodes[dir].children;
    assert forall c :: c in list ==> c in fs1.nodes[dir].children;
    assert dir == at ==> n in fs1.nodes[dir].children;
  }

  lemma ClassReplies(fs: Fs, out: seq<NodeId>, ev: seq<Event>, servicePath: string, proto: Proto, cloneOk: bool)
    requires Inv(fs) && proto in fs.protos && fs.protos[proto] in fs.nodes
    ensures var x, dir := ExportClass(fs, out, ev, servicePath, proto, cloneOk), fs.protos[proto];
            if AllTriedTaken(fs.nodes, dir, fs.nodes[dir].seqcount % WORD, SEQ_NAMES)
            then x.reply.Refused? && x.reply.status == ALREADY_EXISTS && x.reply.events == ev && x.out == out
            else
              && x.out == out + [fs.nextIno] && !x.reply.Broken? && fs.nextIno in x.reply.fs.nodes
              && x.reply.events == ev + Said(dir, ADDED, x.reply.fs.nodes[fs.nextIno].name)
              && if cloneOk then x.reply.Ok? else x.reply.Refused? && x.reply.status == PEER_CLOSED
  {
    hide Inv, Scan, AllTriedTaken;
    var dir := fs.protos[proto];
    ScanTries(fs.nodes, dir, fs.nodes[dir].seqcount % WORD, SEQ_NAMES);
  }
}
