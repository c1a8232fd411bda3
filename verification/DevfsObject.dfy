/** devfs in place: the operations of devfs.cc as they change nodes, devices
    and counters step by step, each proved to do what module `Devfs` or
    `DevfsExport` says, events included. */
module DevfsObject {
  import opened Common
  import D = Devfs
  import E = DevfsExport
  import N = DevfsNames

  type NodeId = D.NodeId
  type DevId = D.DevId

  datatype Outcome = Success | Failure(status: D.Status) | Crashed

  class Filesystem {
    var nodes: map<NodeId, D.Node>
    var devs: map<DevId, D.Dev>
    var protos: map<D.Proto, NodeId>
    var nextIno: nat
    var log: seq<D.Event>

    function View(): D.Fs reads this { D.Fs(nodes, devs, protos, nextIno) }

    /** The object is as a reply says, and the reply's events have been sent. */
    ghost predicate Is(o: Outcome, r: D.Reply, sent: seq<D.Event>) reads this {
      match r
      case Ok(fs, ev) => o == Success && View() == fs && log == sent + ev
      case Refused(fs, st, ev) => o == Failure(st) && View() == fs && log == sent + ev
      case Broken => o == Crashed
    }

    constructor (name: string)
      ensures nodes == map[1 := D.Node("", Some(0), None, [], None, 0)] && nextIno == 2 && protos == map[] && log == []
      ensures devs == map[0 := D.Dev(name, None, D.MISC, false, false, false, Some(1), None)]
    {
      nodes := map[1 := D.Node("", Some(0), None, [], None, 0)];
      devs := map[0 := D.Dev(name, None, D.MISC, false, false, false, Some(1), None)];
      protos, nextIno, log := map[], 2, [];
    }

    method Lookup(p: NodeId, name: string) returns (r: Option<NodeId>)
      requires p in nodes
      ensures r == D.Lookup(nodes, p, name)
    {
      var list, i := nodes[p].children, 0;
      assert list[0..] == list;
      while i < |list|
        invariant i <= |list| && D.LookupIn(nodes, list[i..], name) == D.LookupIn(nodes, list, name)
      {
        assert list[i..][0] == list[i] && list[i..][1..] == list[i + 1..];
        if list[i] in nodes && nodes[list[i]].name == name {
          return Some(list[i]);
        }
        i := i + 1;
      }
      return None;
    }

    method Notify(dir: NodeId, op: D.Op, name: string)
      modifies this`log
      ensures log == old(log) + D.NotifyName(dir, op, name)
    {
      if |name| <= D.MAX_FILENAME {
        log := log + [D.Told(dir, op, name)];
      }
    }

    /** A node is appended to the list of `p`. */
    method Insert(n: NodeId, p: NodeId, name: string, dev: Option<DevId>)
      requires p in nodes
      modifies this`nodes
      ensures nodes == D.Insert(old(nodes), n, p, name, dev)
    {
      nodes := nodes[p := nodes[p].(children := nodes[p].children + [n])];
      nodes := nodes[n := D.Node(name, dev, Some(p), [], None, 0)];
    }

    method Mkdir(p: NodeId, name: string) returns (n: NodeId)
      requires p in nodes
      modifies this`nodes, this`nextIno
      ensures n == old(nextIno) && View() == D.Mkdir(old(View()), p, name)
    {
      n := nextIno;
      nextIno := nextIno + 1;
      Insert(n, p, name, None);
    }

    /** devfs_seq_name: the directory's counter moves with every try. */
    method SeqName(dir: NodeId) returns (name: Option<string>)
      requires dir in nodes && forall c :: c in nodes[dir].children ==> c in nodes
      modifies this`nodes
      ensures var r := D.Scan(old(nodes), dir, old(nodes[dir].seqcount) % D.WORD, D.SEQ_NAMES);
              name == r.0 && nodes == D.SetCount(old(nodes), dir, r.1)
    {
      hide D.Scan, D.Lookup, D.SeqName, D.SetCount, D.IsSeqName;
      var c: nat, n := nodes[dir].seqcount % D.WORD, 0;
      ghost var all := D.Scan(nodes, dir, c, D.SEQ_NAMES);
      CountTwice(nodes, dir, c, c);
      nodes := D.SetCount(nodes, dir, c);
      while n < D.SEQ_NAMES
        invariant n <= D.SEQ_NAMES && c < D.WORD && dir in nodes && nodes == D.SetCount(old(nodes), dir, c)
        invariant D.Scan(old(nodes), dir, c, D.SEQ_NAMES - n) == all
      {
        ScanStep(old(nodes), dir, c, D.SEQ_NAMES - n);
        var tried, c' := D.SeqName(c % D.SEQ_NAMES), if c + 1 == D.WORD then 0 else c + 1;
        CountTwice(old(nodes), dir, c, c');
        nodes := D.SetCount(nodes, dir, c');
        c := c';
        CountLookup(old(nodes), dir, c, tried);
        var found := Lookup(dir, tried);
        if found.None? {
          return Some(tried);
        }
        n := n + 1;
      }
      ScanStep(old(nodes), dir, c, 0);
      return None;
    }

    method Advertise(d: DevId, ops: seq<D.Op>) returns (o: Outcome)
      requires d in devs
      modifies this`log
      ensures Is(o, D.Advertise(old(View()), d, ops), old(log))
    {
      var r := devs[d];
      if r.self.None? || r.self.value !in nodes {
        return Crashed;
      }
      var own := nodes[r.self.value];
      if || (r.link.Some? && (r.link.value !in nodes || r.proto !in protos))
         || (own.parent.Some? && own.parent.value !in nodes) {
        return Crashed;
      }
      if r.link.Some? { NotifyAll(protos[r.proto], ops, nodes[r.link.value].name); }
      if own.parent.Some? { NotifyAll(own.parent.value, ops, own.name); }
      return Success;
    }

    method NotifyAll(dir: NodeId, ops: seq<D.Op>, name: string)
      modifies this`log
      ensures log == old(log) + D.Tell(dir, ops, name)
    {
      var i := 0;
      assert ops[0..] == ops;
      while i < |ops|
        invariant i <= |ops| && log + D.Tell(dir, ops[i..], name) == old(log) + D.Tell(dir, ops, name)
      {
        assert ops[i..][0] == ops[i] && ops[i..][1..] == ops[i + 1..];
        ghost var sent := log;
        Notify(dir, ops[i], name);
        assert log + D.Tell(dir, ops[i + 1..], name) ==
                 sent + (D.NotifyName(dir, ops[i], name) + D.Tell(dir, ops[i + 1..], name));
        i := i + 1;
      }
    }

    /** The link in a class directory: its number is the one after next. */
    method AddLink(n: NodeId, dir: NodeId, name: string, d: DevId)
      requires d in devs && dir in nodes
      modifies this`nodes, this`devs
      ensures View() == D.AddLink(old(View()), n, dir, name, d)
    {
      Insert(n, dir, name, Some(d));
      devs := devs[d := devs[d].(link := Some(n))];
    }

    method PublishSelf(n: NodeId, p: NodeId, d: DevId) returns (o: Outcome)
      requires d in devs && p in nodes
      modifies this
      ensures Is(o, D.PublishSelf(old(View()), n, p, d), old(log))
    {
      hide D.Advertise;
      Insert(n, p, devs[d].name, Some(d));
      devs := devs[d := devs[d].(self := Some(n))];
      assert View() == D.AddSelf(old(View()), n, p, d);
      if devs[d].invisible {
        return Success;
      }
      o := Advertise(d, [D.ADDED]);
    }

    /** devfs_publish. */
    method Publish(p: DevId, d: DevId) returns (o: Outcome)
      requires p in devs && d in devs && ChildrenLive(nodes)
      modifies this
      ensures Is(o, D.Publish(old(View()), p, d), old(log))
    {
      hide D.Scan, D.PublishSelf, D.Insert, D.SetCount, D.IsSeqName, D.Lookup;
      if devs[p].self.None? || devs[d].self.Some? || devs[d].link.Some? {
        return Failure(D.INTERNAL);
      }
      var at, dir := devs[p].self.value, D.ClassDir(View(), d);
      if at !in nodes || (dir.Some? && dir.value !in nodes) {
        return Crashed;
      }
      var k := nextIno;
      nextIno := nextIno + 1;
      if dir.Some? {
        var name := devs[d].name;
        if devs[d].proto != D.CONSOLE {
          CountKeys(nodes, dir.value);
          var found := SeqName(dir.value);
          if found.None? {
            return Failure(D.ALREADY_EXISTS);
          }
          name := found.value;
        }
        InsertKeys(nodes, k + 1, dir.value, name, Some(d));
        AddLink(k + 1, dir.value, name, d);
        nextIno := nextIno + 1;
      }
      o := PublishSelf(k, at, d);
    }

    /** The node leaves its list and is freed. */
    method Delete(n: NodeId) returns (o: Outcome)
      requires n in nodes
      modifies this`nodes
      ensures var up := old(nodes)[n].parent;
              if D.InContainer(old(nodes), n) && (up.None? || up.value !in old(nodes)) then o == Crashed
              else o == Success && nodes == D.Delete(old(nodes), n)
    {
      if D.InContainer(nodes, n) {
        var up := nodes[n].parent;
        if up.None? || up.value !in nodes {
          return Crashed;
        }
        nodes := nodes[up.value := nodes[up.value].(children := Erase(nodes[up.value].children, n))];
      }
      nodes := nodes - {n};
      return Success;
    }

    /** devfs_remove and the freeing of the node. */
    method Remove(n: NodeId) returns (o: Outcome)
      requires n in nodes
      modifies this
      ensures Is(o, D.Remove(old(View()), n), old(log))
    {
      hide D.InContainer, D.Delete, D.NotifyName;
      var r := nodes[n];
      o := Delete(n);
      if o == Crashed {
        return;
      }
      if r.dev.None? {
        log := log + [D.Told(n, D.DELETED, ""), D.Gone(n)];
        return;
      }
      if r.dev.value !in devs {
        return Crashed;
      }
      var dev := devs[r.dev.value];
      devs := devs[r.dev.value := D.Released(dev, n)];
      if dev.invisible {
        log := log + [D.Gone(n)];
        return;
      }
      var up := D.ParentSelf(View(), dev);
      if (dev.link == Some(n) && dev.proto !in protos) || (dev.self == Some(n) && up.Some? && up.value !in nodes) {
        return Crashed;
      }
      log := log + [D.Told(n, D.DELETED, "")];
      if dev.self == Some(n) && up.Some? { Notify(up.value, D.REMOVED, r.name); }
      if dev.link == Some(n) { Notify(protos[dev.proto], D.REMOVED, r.name); }
      log := log + [D.Gone(n)];
    }

    method RemoveIf(n: Option<NodeId>) returns (o: Outcome)
      modifies this
      ensures Is(o, D.RemoveIf(old(View()), n), old(log))
    {
      hide D.Remove;
      if n.None? { return Success; }
      if n.value !in nodes { return Crashed; }
      o := Remove(n.value);
    }

    /** devfs_unpublish. */
    method Unpublish(d: DevId) returns (o: Outcome)
      requires d in devs
      modifies this
      ensures Is(o, D.Unpublish(old(View()), d), old(log))
    {
      hide D.RemoveIf;
      o := RemoveIf(devs[d].self);
      if o != Success || d !in devs { return Crashed; }
      o := RemoveIf(devs[d].link);
      if o != Success { return Crashed; }
    }

    method MakeVisible(d: DevId, ready: bool) returns (o: Outcome)
      requires d in devs
      modifies this
      ensures Is(o, D.MakeVisible(old(View()), d, ready), old(log))
    {
      if !ready || !devs[d].invisible { return Success; }
      devs := devs[d := devs[d].(invisible := false)];
      o := Advertise(d, [D.ADDED]);
    }

    method AdvertiseModified(d: DevId) returns (o: Outcome)
      requires d in devs
      modifies this`log
      ensures Is(o, D.AdvertiseModified(old(View()), d), old(log))
    {
      o := Advertise(d, [D.REMOVED, D.ADDED]);
    }

    /** The next component of a path: excess separators are skipped first. */
    static method NextPart(path: string, begin: nat) returns (b: nat, e: nat)
      requires begin < |path| && path[|path| - 1] != '/'
      ensures begin <= b < e <= |path| && (e < |path| ==> path[e] == '/' && e + 1 < |path|)
      ensures E.Parts(path[begin..]) == E.Parts(path[b..])
      ensures E.Parts(path[b..]) == [path[b..e]] + if e < |path| then E.Parts(path[e + 1..]) else []
    {
      hide E.Parts;
      b := begin;
      while path[b] == '/'
        invariant begin <= b < |path| && E.Parts(path[begin..]) == E.Parts(path[b..])
        decreases |path| - b
      {
        PartsSkip(path, b);
        b := b + 1;
      }
      e := b + 1;
      while e < |path| && path[e] != '/'
        invariant b < e <= |path| && forall i :: b <= i < e ==> path[i] != '/'
      {
        e := e + 1;
      }
      PartsTake(path, b, e);
    }

    /** The first pass of devfs_export: how far the path exists, and where its
        missing part begins. */
    method FindMissing(root: NodeId, path: string) returns (at: NodeId, begin: nat, exists': bool)
      requires root in nodes && E.ValidPath(path)
      ensures var (n, rest) := E.Resolve(nodes, root, E.Parts(path));
              if exists' then rest == []
                else at in nodes && at == n && begin < |path| && rest == E.Parts(path[begin..]) && rest != []
    {
      hide E.Parts, D.LookupIn;
      ghost var all := E.Resolve(nodes, root, E.Parts(path));
      assert path[0..] == path;
      at, begin := root, 0;
      while true
        invariant begin < |path| && at in nodes && E.Resolve(nodes, at, E.Parts(path[begin..])) == all
        decreases |path| - begin
      {
        var b, e := NextPart(path, begin);
        ResolveStep(nodes, at, path[b..e], if e < |path| then E.Parts(path[e + 1..]) else []);
        begin := b;
        var c := Lookup(at, path[b..e]);
        if c.None? {
          return at, begin, false;
        }
        at := c.value;
        if e == |path| {
          ResolveNothing(nodes, at);
          return at, begin, true;
        }
        begin := e + 1;
      }
    }

    /** One node of the second pass: it is named by the next component and
        announced to its parent's watchers. */
    method GrowOne(p: NodeId, path: string, begin: nat) returns (n: NodeId, e: nat, ghost name: string)
      requires p in nodes && begin < |path| && path[|path| - 1] != '/'
      modifies this`nodes, this`nextIno, this`log
      ensures begin < e <= |path| && (e < |path| ==> e + 1 < |path|)
      ensures E.Parts(path[begin..]) == [name] + LeftFrom(path, e)
      ensures n == old(nextIno) && n in nodes && View() == D.Mkdir(old(View()), p, name)
      ensures log == old(log) + D.NotifyName(p, D.ADDED, name)
    {
      hide E.Parts, E.Plain;
      var b;
      b, e := NextPart(path, begin);
      name := path[b..e];
      n := Mkdir(p, path[b..e]);
      Notify(p, D.ADDED, path[b..e]);
    }

    /** The second pass: a node for each missing component. */
    method CreateMissing(start: NodeId, path: string, from: nat) returns (out: seq<NodeId>)
      requires start in nodes && from < |path| && path[|path| - 1] != '/'
      modifies this`nodes, this`nextIno, this`log
      ensures var g := E.Grow(old(View()), start, E.Parts(path[from..]));
              View() == g.fs && out == g.out && log == old(log) + g.events && out != [] && out[|out| - 1] in nodes
    {
      hide E.Parts, E.Plain, E.Grow, D.Mkdir, D.NotifyName, ToGrow, LeftFrom;
      ghost var left := E.Parts(path[from..]);
      ghost var all := E.Grow(View(), start, left);
      ghost var ev: seq<D.Event> := [];
      var dn, begin := start, from;
      out := [];
      GrowStart(all);
      while true
        invariant begin < |path| && dn in nodes && log == old(log) + ev
        invariant left == E.Parts(path[begin..]) && ToGrow(all, out, ev, E.Grow(View(), dn, left))
        decreases |path| - begin
      {
        ghost var fs, at := View(), dn;
        var e;
        ghost var name;
        dn, e, name := GrowOne(dn, path, begin);
        GrowStep(all, out, ev, fs, at, name, LeftFrom(path, e));
        Assoc(old(log), ev, D.NotifyName(at, D.ADDED, name));
        out, ev, left := out + [dn], ev + D.NotifyName(at, D.ADDED, name), LeftFrom(path, e);
        NothingLeft(path, e);
        if e == |path| {
          GrowEnd(all, out, ev, View(), dn);
          return;
        }
        begin := e + 1;
      }
    }

    method Serve(n: NodeId, servicePath: string)
      requires n in nodes
      modifies this`nodes
      ensures View() == E.Serve(old(View()), n, servicePath)
    {
      nodes := nodes[n := nodes[n].(service := Some(servicePath))];
    }

    /** The class entry of an export. `ev` has been sent since `sent`. */
    method ExportClass(made: seq<NodeId>, servicePath: string, proto: D.Proto, cloneOk: bool, ghost ev: seq<D.Event>,
                       ghost sent: seq<D.Event>)
      returns (o: Outcome, out: seq<NodeId>)
      requires ChildrenLive(nodes) && log == sent + ev
      modifies this`nodes, this`nextIno, this`log
      ensures var x := E.ExportClass(old(View()), made, ev, servicePath, proto, cloneOk);
              Is(o, x.reply, sent) && out == x.out
    {
      hide D.Scan, D.SetCount, D.NotifyName, D.IsSeqName, D.Lookup;
      if proto !in protos {
        return Success, made;
      }
      var dir := protos[proto];
      if dir !in nodes {
        return Crashed, [];
      }
      CountKeys(nodes, dir);
      var name := SeqName(dir);
      if name.None? {
        return Failure(D.ALREADY_EXISTS), made;
      }
      var n := Mkdir(dir, name.value);
      Notify(dir, D.ADDED, name.value);
      assert log == sent + (ev + D.NotifyName(dir, D.ADDED, name.value));
      if !cloneOk {
        return Failure(D.PEER_CLOSED), made + [n];
      }
      Serve(n, servicePath);
      return Success, made + [n];
    }

    /** devfs_export. */
    method Export(root: NodeId, servicePath: string, path: string, proto: D.Proto,
                  cloneOk: bool) returns (o: Outcome, out: seq<NodeId>)
      requires root in nodes && ChildrenLive(nodes)
      modifies this
      ensures var x := E.Export(old(View()), root, servicePath, path, proto, cloneOk);
              Is(o, x.reply, old(log)) && out == x.out
    {
      hide E.Parts, E.Grow, E.Resolve, E.ExportClass, ChildrenLive;
      if !E.ValidPath(servicePath) || !E.ValidPath(path) {
        return Failure(D.INVALID_ARGS), [];
      }
      var at, begin, found := FindMissing(root, path);
      if found {
        return Failure(D.ALREADY_EXISTS), [];
      }
      GrowKeeps(View(), at, E.Parts(path[begin..]));
      ghost var ev := E.Grow(View(), at, E.Parts(path[begin..])).events;
      out := CreateMissing(at, path, begin);
      var leaf := out[|out| - 1];
      ServeKeeps(View(), leaf, servicePath);
      Serve(leaf, servicePath);
      o, out := ExportClass(out, servicePath, proto, cloneOk, ev, old(log));
    }

    /** Closing an export: its nodes are freed one by one. */
    method RemoveAll(list: seq<NodeId>) returns (o: Outcome)
      modifies this
      ensures Is(o, E.RemoveAll(old(View()), list), old(log))
    {
      hide D.Remove, E.RemoveAll;
      var i := 0;
      ghost var all := E.RemoveAll(View(), list);
      ghost var ev: seq<D.Event> := [];
      RemoveStart(View(), list);
      while i < |list|
        invariant i <= |list| && log == old(log) + ev && Rest(all, ev, E.RemoveAll(View(), list[i..]))
      {
        RemoveStep(View(), list, i, all, ev);
        if list[i] !in nodes { return Crashed; }
        ghost var r1 := D.Remove(View(), list[i]);
        o := Remove(list[i]);
        if o != Success { return Crashed; }
        ev := ev + r1.events;
        i := i + 1;
      }
      RemoveEnd(View(), list[i..], all, ev);
      return Success;
    }
  }

  // ----- steps of the loops

  predicate ChildrenLive(nodes: map<NodeId, D.Node>) {
    forall n, c :: n in nodes && c in nodes[n].children ==> c in nodes
  }

  lemma ScanStep(nodes: map<NodeId, D.Node>, dir: NodeId, c: nat, left: nat)
    requires dir in nodes && c < D.WORD
    ensures left == 0 ==> D.Scan(nodes, dir, c, left) == (None, c)
    ensures left > 0 ==>
              var name, c' := D.SeqName(c % D.SEQ_NAMES), if c + 1 == D.WORD then 0 else c + 1;
              D.Scan(nodes, dir, c, left) == if D.Lookup(nodes, dir, name).None? then (Some(name), c')
                                             else D.Scan(nodes, dir, c', left - 1)
  {
  }

  lemma CountTwice(nodes: map<NodeId, D.Node>, dir: NodeId, c: nat, c': nat)
    requires dir in nodes
    ensures dir in D.SetCount(nodes, dir, c)
    ensures D.SetCount(D.SetCount(nodes, dir, c), dir, c') == D.SetCount(nodes, dir, c')
  {
  }

  lemma CountLookup(nodes: map<NodeId, D.Node>, dir: NodeId, c: nat, name: string)
    requires dir in nodes && forall n :: n in nodes[dir].children ==> n in nodes
    ensures dir in D.SetCount(nodes, dir, c)
    ensures D.Lookup(D.SetCount(nodes, dir, c), dir, name) == D.Lookup(nodes, dir, name)
  {
    N.SameLookup(nodes, D.SetCount(nodes, dir, c), nodes[dir].children, name);
  }

  lemma CountKeys(nodes: map<NodeId, D.Node>, dir: NodeId)
    requires dir in nodes
    ensures forall c: nat :: D.SetCount(nodes, dir, c).Keys == nodes.Keys
  {
  }

  lemma InsertKeys(nodes: map<NodeId, D.Node>, n: NodeId, p: NodeId, name: string, dev: Option<DevId>)
    requires p in nodes
    ensures D.Insert(nodes, n, p, name, dev).Keys == nodes.Keys + {n}
  {
  }

  /** `ev` has been sent and `rest` is to come. */
  ghost predicate Rest(all: D.Reply, ev: seq<D.Event>, rest: D.Reply) {
    if rest.Ok? then all == D.Ok(rest.fs, ev + rest.events) else all.Broken?
  }

  lemma RemoveStart(fs: D.Fs, list: seq<NodeId>)
    ensures Rest(E.RemoveAll(fs, list), [], E.RemoveAll(fs, list[0..]))
  {
  }

  lemma RemoveStep(fs: D.Fs, list: seq<NodeId>, i: nat, all: D.Reply, ev: seq<D.Event>)
    requires i < |list| && Rest(all, ev, E.RemoveAll(fs, list[i..]))
    ensures if list[i] !in fs.nodes || !D.Remove(fs, list[i]).Ok? then all.Broken?
            else var r := D.Remove(fs, list[i]); Rest(all, ev + r.events, E.RemoveAll(r.fs, list[i + 1..]))
  {
  }

  lemma RemoveEnd(fs: D.Fs, list: seq<NodeId>, all: D.Reply, ev: seq<D.Event>)
    requires list == [] && Rest(all, ev, E.RemoveAll(fs, list))
    ensures all == D.Ok(fs, ev)
  {
  }

  lemma PartsSkip(path: string, b: nat)
    requires b < |path| && path[b] == '/'
    ensures E.Parts(path[b..]) == E.Parts(path[b + 1..])
  {
  }

  lemma PartsTake(path: string, b: nat, e: nat)
    requires b < e <= |path| && (e < |path| ==> path[e] == '/') && forall i :: b <= i < e ==> path[i] != '/'
    ensures E.Parts(path[b..]) == [path[b..e]] + if e < |path| then E.Parts(path[e + 1..]) else []
  {
    assert path[b..] == path[b..e] + path[e..];
    E.PartsHead(path[b..e], path[e..]);
    if e < |path| {
      PartsSkip(path, e);
    } else {
      assert path[e..] == "";
    }
  }

  lemma ResolveStep(nodes: map<NodeId, D.Node>, n: NodeId, name: string, more: seq<string>)
    requires n in nodes
    ensures var c, r := D.Lookup(nodes, n, name), E.Resolve(nodes, n, [name] + more);
            if c.None? then r == (n, [name] + more) else r == E.Resolve(nodes, c.value, more)
  {
  }

  lemma ResolveNothing(nodes: map<NodeId, D.Node>, n: NodeId)
    requires n in nodes
    ensures E.Resolve(nodes, n, []) == (n, [])
  {
  }

  /** The components after position `e`, which is a separator or the end. */
  function LeftFrom(path: string, e: nat): seq<string>
    requires e <= |path|
  {
    if e < |path| then E.Parts(path[e + 1..]) else []
  }

  lemma Assoc(a: seq<D.Event>, b: seq<D.Event>, c: seq<D.Event>)
    ensures a + b + c == a + (b + c)
  {
  }

  lemma NothingLeft(path: string, e: nat)
    requires e <= |path|
    ensures LeftFrom(path, e) == if e < |path| then E.Parts(path[e + 1..]) else []
  {
  }

  /** `out` and `ev` are there and `rest` is to come. */
  ghost predicate ToGrow(all: E.Growth, out: seq<NodeId>, ev: seq<D.Event>, rest: E.Growth) {
    all == E.Growth(rest.fs, out + rest.out, ev + rest.events)
  }

  lemma GrowStart(all: E.Growth)
    ensures ToGrow(all, [], [], all)
  {
  }

  lemma GrowUnfold(fs: D.Fs, p: NodeId, name: string, more: seq<string>)
    requires p in fs.nodes
    ensures var n, fs1 := fs.nextIno, D.Mkdir(fs, p, name);
            && n in fs1.nodes
            && var rest := E.Grow(fs1, n, more);
            E.Grow(fs, p, [name] + more) ==
              E.Growth(rest.fs, [n] + rest.out, D.NotifyName(p, D.ADDED, name) + rest.events)
  {
  }

  lemma GrowStep(all: E.Growth, out: seq<NodeId>, ev: seq<D.Event>, fs: D.Fs, p: NodeId, name: string,
                 more: seq<string>)
    requires p in fs.nodes && ToGrow(all, out, ev, E.Grow(fs, p, [name] + more))
    ensures fs.nextIno in D.Mkdir(fs, p, name).nodes
    ensures ToGrow(all, out + [fs.nextIno], ev + D.NotifyName(p, D.ADDED, name),
                   E.Grow(D.Mkdir(fs, p, name), fs.nextIno, more))
  {
    hide E.Grow, D.Mkdir, D.NotifyName;
    GrowUnfold(fs, p, name, more);
    var rest := E.Grow(D.Mkdir(fs, p, name), fs.nextIno, more);
    assert out + ([fs.nextIno] + rest.out) == (out + [fs.nextIno]) + rest.out;
    var one := D.NotifyName(p, D.ADDED, name);
    assert ev + (one + rest.events) == (ev + one) + rest.events;
  }

  lemma GrowEnd(all: E.Growth, out: seq<NodeId>, ev: seq<D.Event>, fs: D.Fs, p: NodeId)
    requires p in fs.nodes && ToGrow(all, out, ev, E.Grow(fs, p, []))
    ensures all == E.Growth(fs, out, ev)
  {
  }

  lemma {:induction false} GrowKeeps(fs: D.Fs, p: NodeId, parts: seq<string>)
    requires p in fs.nodes && ChildrenLive(fs.nodes)
    ensures ChildrenLive(E.Grow(fs, p, parts).fs.nodes)
    decreases |parts|
  {
    if parts == [] {
    } else {
      GrowKeeps(D.Mkdir(fs, p, parts[0]), fs.nextIno, parts[1..]);
    }
  }

  lemma ServeKeeps(fs: D.Fs, n: NodeId, path: string)
    requires n in fs.nodes && ChildrenLive(fs.nodes)
    ensures ChildrenLive(E.Serve(fs, n, path).nodes)
  {
  }
}
