/** Exporting a service to a devfs path: devfs_export of devfs.cc and the
    ownership of the created nodes in devfs_exporter.cc. */
module DevfsExport {
  import opened Common
  import opened Devfs
  import opened DevfsForest

  // ----- paths

  predicate ValidPath(path: string) {
    path != "" && path[0] != '/' && path[|path| - 1] != '/'
  }

  function IndexOf(s: string, c: char): (r: nat)
    ensures r <= |s| && (r < |s| ==> s[r] == c) && forall i :: 0 <= i < r ==> s[i] != c
  {
    if s == "" || s[0] == c then 0 else
      var r := IndexOf(s[1..], c);
      assert forall i :: 0 < i < r + 1 ==> s[i] == s[1..][i - 1];
      1 + r
  }

  predicate Plain(s: string) {
    s != "" && forall i :: 0 <= i < |s| ==> s[i] != '/'
  }

  /** The components of a path, excess separators skipped. */
  function Parts(path: string): (r: seq<string>)
    ensures forall i :: 0 <= i < |r| ==> Plain(r[i])
    decreases |path|
  {
    if path == "" then []
    else if path[0] == '/' then Parts(path[1..])
    else
      var e := IndexOf(path, '/');
      [path[..e]] + Parts(path[e..])
  }

  lemma PartsHead(s: string, t: string)
    requires Plain(s) && (t == "" || t[0] == '/')
    ensures Parts(s + t) == [s] + Parts(t)
  {
    var e := IndexOf(s + t, '/');
    assert forall i :: 0 <= i < |s| ==> (s + t)[i] == s[i];
    assert t != "" ==> (s + t)[|s|] == '/';
    assert e == |s|;
    assert (s + t)[..e] == s && (s + t)[e..] == t;
  }

  /** A separator splits a path, wherever it stands and however many follow. */
  lemma {:induction false} PartsSplit(a: string, b: string)
    ensures Parts(a + "/" + b) == Parts(a) + Parts(b)
    decreases |a|
  {
    var path := a + "/" + b;
    if a == "" {
      assert path[1..] == b;
    } else if a[0] == '/' {
      assert path[1..] == a[1..] + "/" + b;
      PartsSplit(a[1..], b);
    } else {
      var e := IndexOf(a, '/');
      PartsSplit(a[e..], b);
      hide Parts;
      PartsHead(a[..e], a[e..]);
      PartsHead(a[..e], a[e..] + "/" + b);
      assert a == a[..e] + a[e..] && path == a[..e] + (a[e..] + "/" + b);
    }
  }

  function Join(parts: seq<string>): string {
    if parts == [] then "" else if |parts| == 1 then parts[0] else parts[0] + "/" + Join(parts[1..])
  }

  /** Splitting undoes joining. */
  lemma {:induction false} PartsOfJoin(parts: seq<string>)
    requires forall i :: 0 <= i < |parts| ==> Plain(parts[i])
    ensures Parts(Join(parts)) == parts
  {
    if parts == [] {
    } else {
      PartsHead(parts[0], "");
      assert parts[0] + "" == parts[0];
      if |parts| > 1 {
        PartsOfJoin(parts[1..]);
        PartsSplit(parts[0], Join(parts[1..]));
      }
    }
  }

  // ----- the two passes

  /** The first pass: follow existing nodes as far as they go. */
  function Resolve(nodes: map<NodeId, Node>, n: NodeId, parts: seq<string>): (r: (NodeId, seq<string>))
    requires n in nodes
    ensures r.0 in nodes && (r.1 != [] ==> Lookup(nodes, r.0, r.1[0]).None?)
    decreases |parts|
  {
    if parts == [] then (n, [])
    else match Lookup(nodes, n, parts[0])
      case None => (n, parts)
      case Some(c) => Resolve(nodes, c, parts[1..])
  }

  datatype Growth = Growth(fs: Fs, out: seq<NodeId>, events: seq<Event>)

  /** The second pass: a chain of new nodes below `p`. */
  function Grow(fs: Fs, p: NodeId, parts: seq<string>): Growth
    requires p in fs.nodes
    decreases |parts|
  {
    if parts == [] then Growth(fs, [], [])
    else
      var g := Grow(Mkdir(fs, p, parts[0]), fs.nextIno, parts[1..]);
      Growth(g.fs, [fs.nextIno] + g.out, NotifyName(p, ADDED, parts[0]) + g.events)
  }

  function Serve(fs: Fs, n: NodeId, path: string): Fs
    requires n in fs.nodes
  {
    fs.(nodes := fs.nodes[n := fs.nodes[n].(service := Some(path))])
  }

  datatype Exported = Exported(reply: Reply, out: seq<NodeId>)

  /** devfs_export. `cloneOk` is the answer of the remote service. */
  function Export(fs: Fs, root: NodeId, servicePath: string, path: string, proto: Proto, cloneOk: bool): Exported
    requires root in fs.nodes
  {
    if !ValidPath(servicePath) || !ValidPath(path) then Exported(Refused(fs, INVALID_ARGS, []), [])
    else
      var (at, rest) := Resolve(fs.nodes, root, Parts(path));
      if rest == [] then Exported(Refused(fs, ALREADY_EXISTS, []), [])
      else
        var g := Grow(fs, at, rest);
        var leaf := g.out[|g.out| - 1];
        if leaf !in g.fs.nodes then Exported(Broken, [])
        else ExportClass(Serve(g.fs, leaf, servicePath), g.out, g.events, servicePath, proto, cloneOk)
  }

  /** The entry in the class directory, if the protocol has one. */
  function ExportClass(fs: Fs, out: seq<NodeId>, ev: seq<Event>, servicePath: string, proto: Proto,
                       cloneOk: bool): Exported {
    if proto !in fs.protos then Exported(Ok(fs, ev), out)
    else
      var dir := fs.protos[proto];
      if dir !in fs.nodes then Exported(Broken, [])
      else
        var (name, c) := Scan(fs.nodes, dir, fs.nodes[dir].seqcount % WORD, SEQ_NAMES);
        var fs1 := fs.(nodes := SetCount(fs.nodes, dir, c));
        if name.None? then Exported(Refused(fs1, ALREADY_EXISTS, ev), out)
        else
          var n, fs2 := fs.nextIno, Mkdir(fs1, dir, name.value);
          var ev2 := ev + NotifyName(dir, ADDED, name.value);
          if cloneOk then Exported(Ok(Serve(fs2, n, servicePath), ev2), out + [n])
          else Exported(Refused(fs2, PEER_CLOSED, ev2), out + [n])
  }

  /** Freeing a list of nodes one after the other. */
  function RemoveAll(fs: Fs, list: seq<NodeId>): Reply
    decreases |list|
  {
    if list == [] then Ok(fs, [])
    else if list[0] !in fs.nodes then Broken
    else
      var r1 := Remove(fs, list[0]);
      if !r1.Ok? then Broken
      else
        var r2 := RemoveAll(r1.fs, list[1..]);
        if r2.Ok? then Ok(r2.fs, r1.events + r2.events) else Broken
  }

  // ----- what an export adds

  /** `fs'` has the nodes `out` in addition; everything else but counters and
      list ends is as in `fs`. */
  ghost predicate Extended(fs: Fs, out: set<NodeId>, fs': Fs) {
    && fs'.nodes.Keys == fs.nodes.Keys + out && fs'.devs == fs.devs && fs'.protos == fs.protos
    && fs.nextIno <= fs'.nextIno
    && (forall n :: n in out ==> fs.nextIno <= n < fs'.nextIno && fs'.nodes[n].dev.None?)
    && (forall m :: m in fs.nodes ==>
          && fs'.nodes[m].(children := fs.nodes[m].children, seqcount := fs.nodes[m].seqcount) == fs.nodes[m]
          && fs.nodes[m].children <= fs'.nodes[m].children
          && (forall c :: c in fs'.nodes[m].children ==> c in fs.nodes[m].children || c in out))
  }

  lemma ExtendedMore(fs: Fs, out: set<NodeId>, fs1: Fs, more: set<NodeId>, fs': Fs)
    requires Extended(fs, out, fs1) && Extended(fs1, more, fs') && forall n :: n in fs.nodes ==> n < fs.nextIno
    ensures Extended(fs, out + more, fs')
  {
  }

  lemma MkdirExtends(fs: Fs, p: NodeId, name: string)
    requires Inv(fs) && p in fs.nodes
    ensures Extended(fs, {fs.nextIno}, Mkdir(fs, p, name)) && Inv(Mkdir(fs, p, name))
  {
    NewNumber(fs.nodes, fs.nextIno, p);
    MkdirInv(fs, p, name);
    hide Inv;
  }

  lemma CountExtends(fs: Fs, dir: NodeId, c: nat)
    requires Inv(fs) && dir in fs.nodes
    ensures Extended(fs, {}, fs.(nodes := SetCount(fs.nodes, dir, c))) && Inv(fs.(nodes := SetCount(fs.nodes, dir, c)))
  {
    CountInv(fs, dir, c);
    hide Inv;
  }

  lemma ServeInv(fs: Fs, n: NodeId, path: string)
    requires Inv(fs) && n in fs.nodes
    ensures Inv(Serve(fs, n, path))
  {
    var nodes' := Serve(fs, n, path).nodes;
    forall m | m in nodes' ensures m < fs.nextIno && ListAt(nodes', m) && ParentAt(nodes', m) {
      assert ListAt(fs.nodes, m) && ParentAt(fs.nodes, m);
    }
    OwnedFrame(fs, Serve(fs, n, path));
  }

  ghost function Set(s: seq<NodeId>): set<NodeId> {
    set n | n in s
  }

  lemma Numbers(fs: Fs)
    requires Inv(fs)
    ensures forall n :: n in fs.nodes ==> n < fs.nextIno
  {
  }

  lemma {:induction false} GrowExtends(fs: Fs, p: NodeId, parts: seq<string>)
    requires Inv(fs) && p in fs.nodes
    ensures var g := Grow(fs, p, parts); Inv(g.fs) && Extended(fs, Set(g.out), g.fs)
    ensures var g := Grow(fs, p, parts);
            |g.out| == |parts| && forall i :: 0 <= i < |g.out| ==> g.out[i] == fs.nextIno + i
    decreases |parts|
  {
    hide Inv, Extended;
    Numbers(fs);
    if parts == [] {
      Unextended(fs);
    } else {
      var fs1, g := Mkdir(fs, p, parts[0]), Grow(fs, p, parts);
      MkdirExtends(fs, p, parts[0]);
      GrowExtends(fs1, fs.nextIno, parts[1..]);
      var g1 := Grow(fs1, fs.nextIno, parts[1..]);
      ExtendedMore(fs, {fs.nextIno}, fs1, Set(g1.out), g1.fs);
      assert Set(g.out) == {fs.nextIno} + Set(g1.out);
    }
  }

  lemma Unextended(fs: Fs)
    ensures Extended(fs, Set([]), fs)
  {
  }

  /** Serving a new node changes nothing else. */
  lemma ServeExtends(fs: Fs, out: set<NodeId>, fs1: Fs, n: NodeId, path: string)
    requires Extended(fs, out, fs1) && n in out && n !in fs.nodes
    ensures n in fs1.nodes && Extended(fs, out, Serve(fs1, n, path))
  {
  }

  lemma {:induction false} ExportClassExtends(fs0: Fs, fs: Fs, out: seq<NodeId>, ev: seq<Event>, servicePath: string,
                                              proto: Proto, cloneOk: bool)
    requires Inv(fs0) && Inv(fs) && Extended(fs0, Set(out), fs)
    ensures var x := ExportClass(fs, out, ev, servicePath, proto, cloneOk);
            !x.reply.Broken? && Inv(x.reply.fs) && Extended(fs0, Set(x.out), x.reply.fs)
  {
    hide Inv, Extended, Scan, SetCount, Mkdir, Serve, Set;
    if proto in fs.protos {
      var dir := fs.protos[proto];
      ClassIsNode(fs, proto);
      var (name, c) := Scan(fs.nodes, dir, fs.nodes[dir].seqcount % WORD, SEQ_NAMES);
      CountKeeps(fs, dir, c);
      CountAdded(fs0, fs, out, dir, c);
      if name.Some? {
        EntryAdded(fs0, fs.(nodes := SetCount(fs.nodes, dir, c)), out, dir, name.value, servicePath);
      }
    }
  }

  lemma ClassIsNode(fs: Fs, proto: Proto)
    requires Inv(fs) && proto in fs.protos
    ensures fs.protos[proto] in fs.nodes
  {
  }

  lemma CountAdded(fs0: Fs, fs: Fs, out: seq<NodeId>, dir: NodeId, c: nat)
    requires Inv(fs0) && Inv(fs) && Extended(fs0, Set(out), fs) && dir in fs.nodes
    ensures var fs1 := fs.(nodes := SetCount(fs.nodes, dir, c)); Inv(fs1) && Extended(fs0, Set(out), fs1)
  {
    Numbers(fs0);
    hide Inv, Extended, SetCount;
    CountExtends(fs, dir, c);
    ExtendedMore(fs0, Set(out), fs, {}, fs.(nodes := SetCount(fs.nodes, dir, c)));
    assert Set(out) + {} == Set(out);
  }

  lemma EntryAdded(fs0: Fs, fs: Fs, out: seq<NodeId>, dir: NodeId, name: string, path: string)
    requires Inv(fs0) && Inv(fs) && Extended(fs0, Set(out), fs) && dir in fs.nodes
    ensures var fs1, n := Mkdir(fs, dir, name), fs.nextIno;
            && Inv(fs1) && Extended(fs0, Set(out + [n]), fs1)
            && n in fs1.nodes && Inv(Serve(fs1, n, path)) && Extended(fs0, Set(out + [n]), Serve(fs1, n, path))
  {
    Numbers(fs0);
    Beyond(fs0, Set(out), fs);
    hide Inv, Extended;
    var fs1, n := Mkdir(fs, dir, name), fs.nextIno;
    MkdirExtends(fs, dir, name);
    ExtendedMore(fs0, Set(out), fs, {n}, fs1);
    assert Set(out) + {n} == Set(out + [n]);
    ServeExtends(fs0, Set(out + [n]), fs1, n, path);
    ServeInv(fs1, n, path);
  }

  lemma Beyond(fs0: Fs, out: set<NodeId>, fs: Fs)
    requires Inv(fs0) && Extended(fs0, out, fs)
    ensures fs.nextIno !in fs0.nodes && forall n :: n in out ==> n !in fs0.nodes
  {
  }

  /** An export keeps the forest and never uses a freed node; what it adds are
      the nodes it hands to its owner. */
  lemma ExportInv(fs: Fs, root: NodeId, servicePath: string, path: string, proto: Proto, cloneOk: bool)
    requires Inv(fs) && root in fs.nodes
    ensures var x := Export(fs, root, servicePath, path, proto, cloneOk);
            !x.reply.Broken? && Inv(x.reply.fs) && Extended(fs, Set(x.out), x.reply.fs)
  {
    hide Inv, Extended, Grow, ExportClass, Serve;
    Unextended(fs);
    if ValidPath(servicePath) && ValidPath(path) {
      var (at, rest) := Resolve(fs.nodes, root, Parts(path));
      if rest != [] {
        GrowExtends(fs, at, rest);
        var g := Grow(fs, at, rest);
        var leaf := g.out[|g.out| - 1];
        Beyond(fs, Set(g.out), g.fs);
        ServeExtends(fs, Set(g.out), g.fs, leaf, servicePath);
        ServeInv(g.fs, leaf, servicePath);
        ExportClassExtends(fs, Serve(g.fs, leaf, servicePath), g.out, g.events, servicePath, proto, cloneOk);
      }
    }
  }

  // ----- rollback

  /** Freeing owned nodes without a device, in any order. */
  lemma {:induction false} RemoveAllInv(fs: Fs, list: seq<NodeId>)
    requires Inv(fs) && NoDup(list) && forall n :: n in list ==> n in fs.nodes && fs.nodes[n].dev.None?
    requires forall pr :: pr in fs.protos ==> fs.protos[pr] !in list
    ensures var r := RemoveAll(fs, list); r.Ok? && Inv(r.fs) && Without(fs, Set(list), r.fs) && r.fs.devs == fs.devs
    decreases |list|
  {
    hide Inv, Remove, Without;
    if list == [] {
      NothingGone(fs);
    } else {
      assert list[0] in list && list[0] !in list[1..];
      RemoveBare(fs, list[0]);
      var fs1 := Remove(fs, list[0]).fs;
      RemoveAllInv(fs1, list[1..]);
      WithoutMore(fs, {list[0]}, fs1, Set(list[1..]), RemoveAll(fs1, list[1..]).fs);
      assert Set(list) == {list[0]} + Set(list[1..]);
    }
  }

  lemma NothingGone(fs: Fs)
    ensures Without(fs, Set([]), fs)
  {
  }

  lemma RemoveBare(fs: Fs, n: NodeId)
    requires Inv(fs) && n in fs.nodes && fs.nodes[n].dev.None? && forall pr :: pr in fs.protos ==> fs.protos[pr] != n
    ensures var r := Remove(fs, n);
            && r.Ok? && Inv(r.fs) && Without(fs, {n}, r.fs) && r.fs.devs == fs.devs && r.fs.protos == fs.protos
            && r.fs.nodes.Keys == fs.nodes.Keys - {n} && (forall m :: m in r.fs.nodes ==>
                                                            r.fs.nodes[m].dev == fs.nodes[m].dev)
  {
    RemoveInv(fs, n);
  }

  lemma {:induction false} SameAscending(s: seq<nat>, t: seq<nat>)
    requires Ascending(s) && Ascending(t) && forall x :: x in s <==> x in t
    ensures s == t
  {
    if s == [] {
      assert forall i :: 0 <= i < |t| ==> t[i] in s;
    } else {
      assert s[0] in t && t != [] && t[0] in s;
      assert s == [s[0]] + s[1..] && t == [t[0]] + t[1..];
      assert s[0] == t[0] by {
        var i :| 0 <= i < |s| && s[i] == t[0];
        var j :| 0 <= j < |t| && t[j] == s[0];
      }
      forall x ensures x in s[1..] <==> x in t[1..] {
        assert x in s[1..] ==> x in s && x != s[0];
        assert x in t[1..] ==> x in t && x != t[0];
      }
      SameAscending(s[1..], t[1..]);
    }
  }

  /** An export whose nodes are dropped, in whatever order, leaves every child
      list, name, parent and service as it was. */
  lemma Rollback(fs: Fs, out: seq<NodeId>, fs1: Fs, order: seq<NodeId>)
    requires Inv(fs) && Inv(fs1) && Extended(fs, Set(out), fs1)
    requires NoDup(order) && Set(order) == Set(out)
    ensures var r := RemoveAll(fs1, order);
            && r.Ok? && Inv(r.fs) && r.fs.nodes.Keys == fs.nodes.Keys && r.fs.devs == fs.devs
            && r.fs.protos == fs.protos
            && (forall m :: m in fs.nodes ==> r.fs.nodes[m].(seqcount := fs.nodes[m].seqcount) == fs.nodes[m])
  {
    Beyond(fs, Set(out), fs1);
    assert forall n :: n in order ==> n in Set(order);
    assert forall pr :: pr in fs.protos ==> fs.protos[pr] in fs.nodes;
    RemoveAllInv(fs1, order);
    var fs2 := RemoveAll(fs1, order).fs;
    hide RemoveAll;
    forall m | m in fs.nodes ensures m in fs2.nodes && fs2.nodes[m].children == fs.nodes[m].children {
      assert ListAt(fs.nodes, m) && ListAt(fs2.nodes, m);
      SameAscending(fs2.nodes[m].children, fs.nodes[m].children);
    }
  }

  // ----- a successful export

  /** The i-th node of the chain: named by the i-th component, below the node
      before it, with the node after it as its only child. */
  ghost predicate ChainAt(nodes: map<NodeId, Node>, at: NodeId, out: seq<NodeId>, rest: seq<string>, i: nat)
    requires i < |rest| <= |out|
  {
    out[i] in nodes && nodes[out[i]].(service := None) ==
      Node(rest[i], None, Some(if i == 0 then at else out[i - 1]), if i + 1 < |rest| then [out[i + 1]] else [], None, 0)
  }

  lemma {:induction false} GrowChain(fs: Fs, p: NodeId, parts: seq<string>)
    requires Inv(fs) && p in fs.nodes
    ensures var g := Grow(fs, p, parts);
            && |g.out| == |parts| && (forall i :: 0 <= i < |parts| ==>
                                        g.out[i] == fs.nextIno + i && ChainAt(g.fs.nodes, p, g.out, parts, i))
            && p in g.fs.nodes && (parts != [] ==>
                                     g.fs.nodes[p] == fs.nodes[p].(children := fs.nodes[p].children + [fs.nextIno]))
            && (forall m :: m in fs.nodes && (m != p || parts == []) ==>
                  m in g.fs.nodes && g.fs.nodes[m] == fs.nodes[m])
    decreases |parts|
  {
    hide Inv, Mkdir;
    if parts == [] {
    } else {
      var k, fs1 := fs.nextIno, Mkdir(fs, p, parts[0]);
      MkdirNodes(fs, p, parts[0]);
      GrowChain(fs1, k, parts[1..]);
      var g1 := Grow(fs1, k, parts[1..]);
      forall i | 0 <= i < |parts| ensures ChainAt(g1.fs.nodes, p, [k] + g1.out, parts, i) {
        ChainShift(g1.fs.nodes, p, k, g1.out, parts, i);
      }
    }
  }

  lemma MkdirNodes(fs: Fs, p: NodeId, name: string)
    requires Inv(fs) && p in fs.nodes
    ensures var fs1 := Mkdir(fs, p, name);
            && Inv(fs1) && fs1.nextIno == fs.nextIno + 1 && fs.nextIno !in fs.nodes
            && fs1.nodes == fs.nodes[p := fs.nodes[p].(children := fs.nodes[p].children + [fs.nextIno])]
                                    [fs.nextIno := Node(name, None, Some(p), [], None, 0)]
  {
    NewNumber(fs.nodes, fs.nextIno, p);
    MkdirInv(fs, p, name);
  }

  lemma ChainShift(nodes: map<NodeId, Node>, p: NodeId, k: NodeId, out: seq<NodeId>, parts: seq<string>, i: nat)
    requires i < |parts| == |out| + 1 && (i > 0 ==> ChainAt(nodes, k, out, parts[1..], i - 1))
    requires k in nodes && nodes[k] == Node(parts[0], None, Some(p), if out != [] then [out[0]] else [], None, 0)
    ensures ChainAt(nodes, p, [k] + out, parts, i)
  {
  }

  lemma {:induction false} LookupPrefix(nodes: map<NodeId, Node>, nodes': map<NodeId, Node>, list: seq<NodeId>,
                                        list': seq<NodeId>, name: string)
    requires list <= list' && LookupIn(nodes, list, name).Some?
    requires forall n :: n in list ==> n in nodes && n in nodes' && nodes'[n].name == nodes[n].name
    ensures LookupIn(nodes', list', name) == LookupIn(nodes, list, name)
  {
    assert list'[0] == list[0];
    if nodes[list[0]].name != name {
      assert list[1..] <= list'[1..];
      LookupPrefix(nodes, nodes', list[1..], list'[1..], name);
    }
  }

  /** Nodes that were found before are found again. */
  lemma {:induction false} ResolveAgain(fs: Fs, out: set<NodeId>, fs': Fs, n: NodeId, parts: seq<string>)
    requires Inv(fs) && Extended(fs, out, fs') && n in fs.nodes
    ensures var (at, rest) := Resolve(fs.nodes, n, parts);
            at in fs'.nodes && n in fs'.nodes && Resolve(fs'.nodes, n, parts) == Resolve(fs'.nodes, at, rest)
    decreases |parts|
  {
    if parts == [] {
    } else {
      var c := Lookup(fs.nodes, n, parts[0]);
      if c.Some? {
        assert ListAt(fs.nodes, n);
        LookupPrefix(fs.nodes, fs'.nodes, fs.nodes[n].children, fs'.nodes[n].children, parts[0]);
        hide Inv, Extended;
        ResolveAgain(fs, out, fs', c.value, parts[1..]);
      }
    }
  }

  /** Looking up a chain of nodes reaches its end. */
  lemma {:induction false} ResolveChain(nodes: map<NodeId, Node>, at: NodeId, out: seq<NodeId>, rest: seq<string>,
                                        i: nat)
    requires i < |rest| <= |out| && forall j :: 0 <= j < |rest| ==> ChainAt(nodes, at, out, rest, j)
    ensures out[i] in nodes && Resolve(nodes, out[i], rest[i + 1..]) == (out[|rest| - 1], [])
    decreases |rest| - i
  {
    assert ChainAt(nodes, at, out, rest, i);
    if i + 1 < |rest| {
      assert ChainAt(nodes, at, out, rest, i + 1);
      assert nodes[out[i]].children == [out[i + 1]] && rest[i + 1..][0] == rest[i + 1];
      assert Lookup(nodes, out[i], rest[i + 1]) == Some(out[i + 1]);
      assert rest[i + 1..][1..] == rest[i + 2..];
      ResolveChain(nodes, at, out, rest, i + 1);
    }
  }

  /** A name that was not in a list is found where it is appended. */
  lemma {:induction false} LookupAppended(nodes: map<NodeId, Node>, list: seq<NodeId>, n: NodeId, more: seq<NodeId>,
                                          name: string)
    requires n in nodes && nodes[n].name == name && forall m :: m in list ==> m in nodes && nodes[m].name != name
    ensures LookupIn(nodes, list + [n] + more, name) == Some(n)
  {
    if list == [] {
      assert (list + [n] + more)[0] == n;
    } else {
      assert (list + [n] + more)[0] == list[0] && (list + [n] + more)[1..] == list[1..] + [n] + more;
      LookupAppended(nodes, list[1..], n, more, name);
    }
  }

  /** The class entry: one new node with a free sequence name. */
  lemma ClassEntry(fs: Fs, out: seq<NodeId>, ev: seq<Event>, servicePath: string, proto: Proto, cloneOk: bool)
    requires Inv(fs) && proto in fs.protos && ExportClass(fs, out, ev, servicePath, proto, cloneOk).reply.Ok?
    ensures var x := ExportClass(fs, out, ev, servicePath, proto, cloneOk);
            var nodes, dir, n := x.reply.fs.nodes, fs.protos[proto], fs.nextIno;
            && x.out == out + [n] && dir in fs.nodes && n in nodes && dir in nodes
            && EntryAt(nodes, n, dir, servicePath)
            && nodes[dir].children == fs.nodes[dir].children + [n]
            && (forall m :: m in fs.nodes && m != dir ==> m in nodes && nodes[m] == fs.nodes[m])
  {
    var dir := fs.protos[proto];
    ClassIsNode(fs, proto);
    var (name, c) := Scan(fs.nodes, dir, fs.nodes[dir].seqcount % WORD, SEQ_NAMES);
    hide Inv, Scan, EntryAt, LookupIn;
    EntryNodes(fs, dir, c, name.value, servicePath);
  }

  lemma EntryNodes(fs: Fs, dir: NodeId, c: nat, name: string, servicePath: string)
    requires Inv(fs) && dir in fs.nodes && IsSeqName(name) && Lookup(fs.nodes, dir, name).None?
    ensures var n, fs1 := fs.nextIno, fs.(nodes := SetCount(fs.nodes, dir, c));
            && dir in fs1.nodes && n in Mkdir(fs1, dir, name).nodes
            && var nodes := Serve(Mkdir(fs1, dir, name), n, servicePath).nodes;
            && EntryAt(nodes, n, dir, servicePath) && nodes[dir].children == fs.nodes[dir].children + [n]
            && (forall m :: m in fs.nodes && m != dir ==> m in nodes && nodes[m] == fs.nodes[m])
  {
    NewNumber(fs.nodes, fs.nextIno, dir);
    assert ListAt(fs.nodes, dir);
    hide Inv;
  }

  /** The missing components `rest` are one chain of new nodes below `at` with
      the service at its end, directory `dir` has one entry more, and no other
      list has changed. */
  ghost predicate Added(fs: Fs, at: NodeId, rest: seq<string>, dir: Option<NodeId>, servicePath: string,
                        out: seq<NodeId>, nodes: map<NodeId, Node>) {
    && rest != [] && |out| == |rest| + (if dir.Some? then 1 else 0)
    && (forall i :: 0 <= i < |rest| ==> ChainAt(nodes, at, out, rest, i))
    && out[|rest| - 1] in nodes && nodes[out[|rest| - 1]].service == Some(servicePath)
    && (dir.Some? ==> EntryAt(nodes, out[|rest|], dir.value, servicePath))
    && (forall m :: m in fs.nodes ==>
          m in nodes && nodes[m].children == fs.nodes[m].children + (if m == at then [out[0]] else [])
                                             + (if dir == Some(m) then [out[|rest|]] else []))
  }

  ghost predicate EntryAt(nodes: map<NodeId, Node>, n: NodeId, dir: NodeId, servicePath: string) {
    && n in nodes && IsSeqName(nodes[n].name)
    && nodes[n] == Node(nodes[n].name, None, Some(dir), [], Some(servicePath), 0)
    && dir in nodes && forall c :: c in nodes[dir].children && c in nodes && c != n ==> nodes[c].name != nodes[n].name
  }

  lemma ChainAdded(fs: Fs, at: NodeId, rest: seq<string>, servicePath: string)
    requires Inv(fs) && at in fs.nodes && rest != []
    ensures var g := Grow(fs, at, rest);
            var leaf := g.out[|g.out| - 1];
            leaf in g.fs.nodes && Added(fs, at, rest, None, servicePath, g.out, Serve(g.fs, leaf, servicePath).nodes)
  {
    hide Inv, Grow, Serve, ChainAt;
    GrowChain(fs, at, rest);
    Numbers(fs);
    var g := Grow(fs, at, rest);
    var leaf := g.out[|g.out| - 1];
    ServedChain(g.fs, at, g.out, rest, servicePath);
    assert g.out[0] == fs.nextIno;
  }

  /** Setting the service of the last node leaves the chain a chain. */
  lemma ServedChain(fs: Fs, at: NodeId, out: seq<NodeId>, rest: seq<string>, servicePath: string)
    requires 0 < |rest| == |out| && forall i :: 0 <= i < |rest| ==> ChainAt(fs.nodes, at, out, rest, i)
    ensures var leaf := out[|out| - 1];
            && leaf in fs.nodes
            && var nodes := Serve(fs, leaf, servicePath).nodes;
            && nodes.Keys == fs.nodes.Keys && nodes[leaf].service == Some(servicePath)
            && (forall m :: m in nodes && m != leaf ==> nodes[m] == fs.nodes[m])
            && (forall i :: 0 <= i < |rest| ==> ChainAt(nodes, at, out, rest, i))
  {
    assert ChainAt(fs.nodes, at, out, rest, |rest| - 1);
    var nodes := Serve(fs, out[|out| - 1], servicePath).nodes;
    forall i | 0 <= i < |rest| ensures ChainAt(nodes, at, out, rest, i) {
      assert ChainAt(fs.nodes, at, out, rest, i);
    }
  }

  lemma EntryKeepsChain(fs: Fs, at: NodeId, rest: seq<string>, servicePath: string, out: seq<NodeId>, nodes: map<NodeId,
                        Node>,
                        dir: NodeId, n: NodeId, nodes': map<NodeId, Node>)
    requires Added(fs, at, rest, None, servicePath, out, nodes) && dir in fs.nodes
    requires (forall x :: x in out ==> x !in fs.nodes)
    requires EntryAt(nodes', n, dir, servicePath) && dir in nodes' && nodes'[dir].children == nodes[dir].children + [n]
    requires forall m :: m in nodes && m != dir ==> m in nodes' && nodes'[m] == nodes[m]
    ensures Added(fs, at, rest, Some(dir), servicePath, out + [n], nodes')
  {
    var out' := out + [n];
    forall i | 0 <= i < |rest| ensures ChainAt(nodes', at, out', rest, i) {
      assert ChainAt(nodes, at, out, rest, i) && out[i] in out;
    }
    assert out[|rest| - 1] in out;
  }

  function ClassOf(fs: Fs, proto: Proto): Option<NodeId> {
    if proto in fs.protos then Some(fs.protos[proto]) else None
  }

  lemma ExportStructure(fs: Fs, root: NodeId, servicePath: string, path: string, proto: Proto, cloneOk: bool)
    requires Inv(fs) && root in fs.nodes && Export(fs, root, servicePath, path, proto, cloneOk).reply.Ok?
    ensures var x := Export(fs, root, servicePath, path, proto, cloneOk);
            var (at, rest) := Resolve(fs.nodes, root, Parts(path));
            rest != [] && |rest| <= |x.out|
            && Added(fs, at, rest, ClassOf(fs, proto), servicePath, x.out, x.reply.fs.nodes)
  {
    hide Inv, Grow, Parts, Extended, Added, Serve, Resolve, ExportClass, Export, ClassOf;
    ExportIs(fs, root, servicePath, path, proto, cloneOk);
    var (at, rest) := Resolve(fs.nodes, root, Parts(path));
    ClassPassAdds(fs, at, rest, servicePath, proto, cloneOk);
  }

  /** The call in terms of its two passes and the class entry. */
  lemma ExportIs(fs: Fs, root: NodeId, servicePath: string, path: string, proto: Proto, cloneOk: bool)
    requires root in fs.nodes && Export(fs, root, servicePath, path, proto, cloneOk).reply.Ok?
    ensures var (at, rest) := Resolve(fs.nodes, root, Parts(path));
            && rest != [] && at in fs.nodes
            && var g := Grow(fs, at, rest);
               && g.out != [] && g.out[|g.out| - 1] in g.fs.nodes
               && Export(fs, root, servicePath, path, proto, cloneOk) ==
                  ExportClass(Serve(g.fs, g.out[|g.out| - 1], servicePath), g.out, g.events, servicePath, proto,
                              cloneOk)
  {
    var (at, rest) := Resolve(fs.nodes, root, Parts(path));
    assert rest != [] ==> Grow(fs, at, rest).out != [];
    hide Parts, Grow, Resolve, ExportClass, Serve;
  }

  lemma ClassPassAdds(fs: Fs, at: NodeId, rest: seq<string>, servicePath: string, proto: Proto, cloneOk: bool)
    requires Inv(fs) && at in fs.nodes && rest != []
    requires var g := Grow(fs, at, rest);
             && g.out != [] && g.out[|g.out| - 1] in g.fs.nodes
             && ExportClass(Serve(g.fs, g.out[|g.out| - 1], servicePath), g.out, g.events, servicePath, proto,
                            cloneOk).reply.Ok?
    ensures var g := Grow(fs, at, rest);
            var x := ExportClass(Serve(g.fs, g.out[|g.out| - 1], servicePath), g.out, g.events, servicePath, proto,
                                 cloneOk);
            |rest| <= |x.out| && Added(fs, at, rest, ClassOf(fs, proto), servicePath, x.out, x.reply.fs.nodes)
  {
    hide Inv, Grow, Extended, Added, Serve, ExportClass;
    ChainAdded(fs, at, rest, servicePath);
    GrowExtends(fs, at, rest);
    var g := Grow(fs, at, rest);
    var leaf := g.out[|g.out| - 1];
    ServeKeeps(fs, g.fs, Set(g.out), leaf, servicePath);
    var fs1 := Serve(g.fs, leaf, servicePath);
    if proto in fs.protos {
      StructureOfClass(fs, at, rest, fs1, g.out, g.events, servicePath, proto, cloneOk);
    } else {
      NoClassEntry(fs1, g.out, g.events, servicePath, proto, cloneOk);
    }
    var x := ExportClass(fs1, g.out, g.events, servicePath, proto, cloneOk);
    LeafAdded(fs, at, rest, ClassOf(fs, proto), servicePath, x.out, x.reply.fs.nodes);
  }

  lemma NoClassEntry(fs: Fs, out: seq<NodeId>, ev: seq<Event>, servicePath: string, proto: Proto, cloneOk: bool)
    requires proto !in fs.protos
    ensures ExportClass(fs, out, ev, servicePath, proto, cloneOk) == Exported(Ok(fs, ev), out)
  {
  }

  lemma LeafAdded(fs: Fs, at: NodeId, rest: seq<string>, dir: Option<NodeId>, servicePath: string, out: seq<NodeId>,
                  nodes: map<NodeId, Node>)
    requires Added(fs, at, rest, dir, servicePath, out, nodes)
    ensures rest != [] && |rest| <= |out|
  {
  }

  lemma ServeKeeps(fs: Fs, fs1: Fs, out: set<NodeId>, n: NodeId, path: string)
    requires Inv(fs) && Inv(fs1) && Extended(fs, out, fs1) && n in fs1.nodes
    ensures Inv(Serve(fs1, n, path)) && Serve(fs1, n, path).protos == fs.protos
    ensures forall x :: x in out ==> x !in fs.nodes
  {
    ServeInv(fs1, n, path);
    Beyond(fs, out, fs1);
  }

  lemma StructureOfClass(fs: Fs, at: NodeId, rest: seq<string>, fs1: Fs, out: seq<NodeId>, ev: seq<Event>,
                         servicePath: string, proto: Proto, cloneOk: bool)
    requires Inv(fs) && Inv(fs1) && fs1.protos == fs.protos && proto in fs.protos
    requires (forall n :: n in out ==> n !in fs.nodes)
    requires Added(fs, at, rest, None, servicePath, out, fs1.nodes)
    requires ExportClass(fs1, out, ev, servicePath, proto, cloneOk).reply.Ok?
    ensures var x := ExportClass(fs1, out, ev, servicePath, proto, cloneOk);
            Added(fs, at, rest, ClassOf(fs, proto), servicePath, x.out, x.reply.fs.nodes)
  {
    hide Inv, Added, ExportClass;
    ClassIsNode(fs, proto);
    ClassEntry(fs1, out, ev, servicePath, proto, cloneOk);
    var x := ExportClass(fs1, out, ev, servicePath, proto, cloneOk);
    EntryKeepsChain(fs, at, rest, servicePath, out, fs1.nodes, fs.protos[proto], fs1.nextIno, x.reply.fs.nodes);
  }

  lemma LeafReached(fs: Fs, at: NodeId, rest: seq<string>, dir: Option<NodeId>, servicePath: string, out: seq<NodeId>,
                    fs': Fs)
    requires Inv(fs) && at in fs.nodes && Added(fs, at, rest, dir, servicePath, out, fs'.nodes)
    requires Extended(fs, Set(out), fs')
    requires rest != [] && |rest| <= |out| && Lookup(fs.nodes, at, rest[0]).None?
    ensures at in fs'.nodes && Resolve(fs'.nodes, at, rest) == (out[|rest| - 1], [])
  {
    var more := if dir == Some(at) then [out[|rest|]] else [];
    assert ChainAt(fs'.nodes, at, out, rest, 0);
    assert fs'.nodes[at].children == fs.nodes[at].children + [out[0]] + more;
    ResolveChain(fs'.nodes, at, out, rest, 0);
    OldNames(fs, Set(out), fs', at, rest[0]);
    hide Inv, Added, Extended, LookupIn;
    LookupAppended(fs'.nodes, fs.nodes[at].children, out[0], more, rest[0]);
    assert [rest[0]] + rest[1..] == rest;
  }

  lemma OldNames(fs: Fs, out: set<NodeId>, fs': Fs, at: NodeId, name: string)
    requires Inv(fs) && Extended(fs, out, fs') && at in fs.nodes && Lookup(fs.nodes, at, name).None?
    ensures forall m :: m in fs.nodes[at].children ==> m in fs'.nodes && fs'.nodes[m].name != name
  {
  }

  /** What a successful export does: the missing components become one chain
      of new nodes below the last existing one, with the service at its end; the
      class directory, if there is one, gets one entry; no other list changes;
      and looking up the path now reaches the end of the chain. */
  lemma ExportAdds(fs: Fs, root: NodeId, servicePath: string, path: string, proto: Proto, cloneOk: bool)
    requires Inv(fs) && root in fs.nodes && Export(fs, root, servicePath, path, proto, cloneOk).reply.Ok?
    ensures var x := Export(fs, root, servicePath, path, proto, cloneOk);
            var (at, rest) := Resolve(fs.nodes, root, Parts(path));
            && Added(fs, at, rest, ClassOf(fs, proto), servicePath, x.out, x.reply.fs.nodes)
            && root in x.reply.fs.nodes && Resolve(x.reply.fs.nodes, root, Parts(path)) == (x.out[|rest| - 1], [])
  {
    hide Inv, Export, Parts, Extended, Added, Resolve, Lookup, LookupIn;
    var x := Export(fs, root, servicePath, path, proto, cloneOk);
    var (at, rest) := Resolve(fs.nodes, root, Parts(path));
    ExportStructure(fs, root, servicePath, path, proto, cloneOk);
    ExportInv(fs, root, servicePath, path, proto, cloneOk);
    LeafReached(fs, at, rest, ClassOf(fs, proto), servicePath, x.out, x.reply.fs);
    ResolveAgain(fs, Set(x.out), x.reply.fs, root, Parts(path));
  }
}
