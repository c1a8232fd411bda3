/** The nodes of devfs form a forest that agrees with the devices, after any
    run of its operations. */
module DevfsForest {
  import opened Common
  import opened Devfs

  predicate Ascending(s: seq<nat>) {
    forall i, j :: 0 <= i < j < |s| ==> s[i] < s[j]
  }

  /** A child list ascends strictly in inode number, and every child on it is
      live and names the lister as its parent. */
  ghost predicate ListAt(nodes: map<NodeId, Node>, p: NodeId)
    requires p in nodes
  {
    && Ascending(nodes[p].children)
    && (forall c :: c in nodes[p].children ==> c in nodes && nodes[c].parent == Some(p))
  }

  /** Parents are older than their children, and a live parent lists its child. */
  ghost predicate ParentAt(nodes: map<NodeId, Node>, n: NodeId)
    requires n in nodes
  {
    nodes[n].parent.Some? ==>
      && nodes[n].parent.value < n
      && (nodes[n].parent.value in nodes ==> n in nodes[nodes[n].parent.value].children)
  }

  ghost predicate Shape(nodes: map<NodeId, Node>, limit: nat) {
    forall n :: n in nodes ==> n < limit && ListAt(nodes, n) && ParentAt(nodes, n)
  }

  /** Devices and their nodes point at each other; class directories are
      nobody's node, and a link hangs in the directory of its protocol. */
  ghost predicate Owned(fs: Fs) {
    && (forall d :: d in fs.devs ==> OwnedAt(fs, d))
    && (forall n :: n in fs.nodes && fs.nodes[n].dev.Some? ==>
          fs.nodes[n].dev.value in fs.devs
          && Some(n) in {fs.devs[fs.nodes[n].dev.value].self, fs.devs[fs.nodes[n].dev.value].link})
    && (forall pr :: pr in fs.protos ==> fs.protos[pr] in fs.nodes && fs.nodes[fs.protos[pr]].dev.None?)
  }

  ghost predicate OwnedAt(fs: Fs, d: DevId)
    requires d in fs.devs
  {
    var r := fs.devs[d];
    && (r.self.Some? ==> r.self.value in fs.nodes && fs.nodes[r.self.value].dev == Some(d))
    && (r.self.Some? && fs.nodes[r.self.value].parent.Some? ==> fs.nodes[r.self.value].name == r.name)
    && (r.link.Some? ==> r.link.value in fs.nodes && fs.nodes[r.link.value].dev == Some(d) && r.self != r.link)
    && (r.link.Some? ==> r.proto in fs.protos && fs.nodes[r.link.value].parent == Some(fs.protos[r.proto]))
  }

  ghost predicate Inv(fs: Fs) {
    Shape(fs.nodes, fs.nextIno) && Owned(fs)
  }

  // ----- nodes

  lemma AppendAscending(nodes: map<NodeId, Node>, p: NodeId, n: NodeId)
    requires p in nodes && ListAt(nodes, p) && forall c :: c in nodes[p].children ==> c < n
    ensures Ascending(nodes[p].children + [n])
  {
    var s := nodes[p].children;
    forall i | 0 <= i < |s| ensures s[i] < n { assert s[i] in s; }
  }

  lemma InsertShape(nodes: map<NodeId, Node>, limit: nat, n: NodeId, p: NodeId, name: string, dev: Option<DevId>,
                    limit': nat)
    requires Shape(nodes, limit) && p in nodes && n !in nodes && p < n && limit <= limit' && n < limit'
    requires forall c :: c in nodes[p].children ==> c < n
    requires forall m :: m in nodes ==> nodes[m].parent != Some(n)
    ensures Shape(Insert(nodes, n, p, name, dev), limit')
  {
    var nodes' := Insert(nodes, n, p, name, dev);
    AppendAscending(nodes, p, n);
    forall m | m in nodes' ensures m < limit' && ListAt(nodes', m) && ParentAt(nodes', m) {
      if m in nodes { assert ListAt(nodes, m) && ParentAt(nodes, m); }
    }
  }

  lemma {:induction false} EraseAscending(s: seq<nat>, x: nat)
    requires Ascending(s)
    ensures Ascending(Erase(s, x)) && forall y :: y in Erase(s, x) <==> y in s && y != x
  {
    if s == [] {
    } else {
      assert s == [s[0]] + s[1..];
      if s[0] != x {
        EraseAscending(s[1..], x);
        var r := Erase(s[1..], x);
        forall j | 0 <= j < |r| ensures s[0] < r[j] { assert r[j] in s[1..]; }
      }
    }
  }

  /** The list a freed node leaves is its parent's, and the parent is live. */
  lemma ContainerIsParent(nodes: map<NodeId, Node>, limit: nat, n: NodeId)
    requires Shape(nodes, limit) && n in nodes
    ensures InContainer(nodes, n) <==> nodes[n].parent.Some? && nodes[n].parent.value in nodes
    ensures forall p, q :: p in nodes && q in nodes && n in nodes[p].children && n in nodes[q].children ==> p == q
  {
  }

  lemma DeleteShape(nodes: map<NodeId, Node>, limit: nat, n: NodeId)
    requires Shape(nodes, limit) && n in nodes
    ensures InContainer(nodes, n) ==> nodes[n].parent.Some? && nodes[n].parent.value in nodes
    ensures Shape(Delete(nodes, n), limit) && Delete(nodes, n).Keys == nodes.Keys - {n}
    ensures forall m :: m in Delete(nodes, n) ==>
              && Delete(nodes, n)[m].(children := nodes[m].children) == nodes[m]
              && (forall c :: c in Delete(nodes, n)[m].children <==> c in nodes[m].children && c != n)
  {
    hide InContainer;
    ContainerIsParent(nodes, limit, n);
    var nodes' := Delete(nodes, n);
    assert ListAt(nodes, n) && ParentAt(nodes, n);
    if InContainer(nodes, n) {
      assert ListAt(nodes, nodes[n].parent.value);
      EraseAscending(nodes[nodes[n].parent.value].children, n);
    } else {
      NotListed(nodes, n);
    }
    forall m | m in nodes'
      ensures m < limit && ListAt(nodes', m) && ParentAt(nodes', m)
      ensures forall c :: c in nodes'[m].children <==> c in nodes[m].children && c != n
    {
      assert ListAt(nodes, m) && ParentAt(nodes, m);
    }
  }

  lemma NotListed(nodes: map<NodeId, Node>, n: NodeId)
    requires !InContainer(nodes, n)
    ensures forall p :: p in nodes ==> n !in nodes[p].children
  {
  }

  // ----- devices

  /** New nodes without a device, and new lists, do not touch ownership. */
  lemma OwnedFrame(fs: Fs, fs': Fs)
    requires Owned(fs) && fs'.devs == fs.devs && fs'.protos == fs.protos && fs.nodes.Keys <= fs'.nodes.Keys
    requires forall n :: n in fs.nodes ==>
               && fs'.nodes[n].dev == fs.nodes[n].dev && fs'.nodes[n].parent == fs.nodes[n].parent
               && fs'.nodes[n].name == fs.nodes[n].name
    requires forall n :: n in fs'.nodes && n !in fs.nodes ==> fs'.nodes[n].dev.None?
    ensures Owned(fs')
  {
  }

  /** Devices may come and change, but not their references to nodes. */
  ghost predicate SameReferences(devs: map<DevId, Dev>, devs': map<DevId, Dev>) {
    && devs.Keys <= devs'.Keys
    && forall d :: d in devs' ==>
         if d in devs then devs'[d].(parent := devs[d].parent, invisible := devs[d].invisible,
                                     composite := devs[d].composite) == devs[d]
         else devs'[d].self.None? && devs'[d].link.None?
  }

  lemma DevicesInv(fs: Fs, devs': map<DevId, Dev>)
    requires Inv(fs) && SameReferences(fs.devs, devs')
    ensures Inv(fs.(devs := devs'))
  {
  }

  /** The state after node `n` was freed. */
  ghost predicate Freed(fs: Fs, n: NodeId, fs': Fs) {
    && fs'.nodes.Keys == fs.nodes.Keys - {n} && fs'.devs.Keys == fs.devs.Keys
    && fs'.protos == fs.protos && fs'.nextIno == fs.nextIno
    && (forall m :: m in fs'.nodes ==>
          && fs'.nodes[m].(children := fs.nodes[m].children) == fs.nodes[m]
          && (forall c :: c in fs'.nodes[m].children <==> c in fs.nodes[m].children && c != n))
    && (forall d :: d in fs.devs ==> fs'.devs[d] == Released(fs.devs[d], n))
  }

  lemma OwnedFreed(fs: Fs, n: NodeId, fs': Fs)
    requires Owned(fs) && Freed(fs, n, fs') && forall pr :: pr in fs.protos ==> fs.protos[pr] != n
    ensures Owned(fs')
  {
    forall d | d in fs'.devs ensures OwnedAt(fs', d) { assert OwnedAt(fs, d); }
  }

  // ----- operations

  lemma MkdirInv(fs: Fs, p: NodeId, name: string)
    requires Inv(fs) && p in fs.nodes
    ensures Inv(Mkdir(fs, p, name))
  {
    hide Owned, OwnedAt;
    NewNumber(fs.nodes, fs.nextIno, p);
    InsertShape(fs.nodes, fs.nextIno, fs.nextIno, p, name, None, fs.nextIno + 1);
    OwnedFrame(fs, Mkdir(fs, p, name));
  }

  lemma NewNumber(nodes: map<NodeId, Node>, n: NodeId, p: NodeId)
    requires Shape(nodes, n) && p in nodes
    ensures n !in nodes && p < n
    ensures forall c :: c in nodes[p].children ==> c < n
    ensures forall m :: m in nodes ==> nodes[m].parent != Some(n)
  {
  }

  /** Freeing a node never dereferences a freed one. */
  lemma RemoveInv(fs: Fs, n: NodeId)
    requires Inv(fs) && n in fs.nodes && forall pr :: pr in fs.protos ==> fs.protos[pr] != n
    ensures Remove(fs, n).Ok? && Inv(Remove(fs, n).fs) && Freed(fs, n, Remove(fs, n).fs)
  {
    RemoveOk(fs, n);
    hide Shape, Owned, Remove;
    OwnedFreed(fs, n, Remove(fs, n).fs);
  }

  lemma RemoveOk(fs: Fs, n: NodeId)
    requires Inv(fs) && n in fs.nodes
    ensures Remove(fs, n).Ok? && Freed(fs, n, Remove(fs, n).fs) && Shape(Remove(fs, n).fs.nodes, fs.nextIno)
  {
    DeleteShape(fs.nodes, fs.nextIno, n);
    hide Inv, Shape, InContainer, Delete, Owned, Remove, Freed, Released;
    RemoveRuns(fs, n);
    OthersKeep(fs, n);
    FreedFrom(fs, n, Remove(fs, n).fs);
  }

  lemma FreedFrom(fs: Fs, n: NodeId, fs': Fs)
    requires n in fs.nodes && fs'.nodes.Keys == fs.nodes.Keys - {n} && fs'.protos == fs.protos
    requires fs'.nextIno == fs.nextIno
    requires forall m :: m in fs'.nodes ==>
               && fs'.nodes[m].(children := fs.nodes[m].children) == fs.nodes[m]
               && (forall c :: c in fs'.nodes[m].children <==> c in fs.nodes[m].children && c != n)
    requires forall d :: d in fs.devs && fs.nodes[n].dev != Some(d) ==> Released(fs.devs[d], n) == fs.devs[d]
    requires var dev := fs.nodes[n].dev;
             && (dev.Some? ==> dev.value in fs.devs)
             && fs'.devs == if dev.None? then fs.devs else fs.devs[dev.value := Released(fs.devs[dev.value], n)]
    ensures Freed(fs, n, fs')
  {
    hide Released;
  }

  /** Freeing a node finds everything it looks for. */
  lemma RemoveRuns(fs: Fs, n: NodeId)
    requires Inv(fs) && n in fs.nodes
    ensures InContainer(fs.nodes, n) ==> fs.nodes[n].parent.Some? && fs.nodes[n].parent.value in fs.nodes
    ensures Remove(fs, n).Ok?
    ensures var dev := fs.nodes[n].dev;
            && (dev.Some? ==> dev.value in fs.devs)
            && Remove(fs, n).fs ==
                 if dev.None? then fs.(nodes := Delete(fs.nodes, n))
                 else fs.(nodes := Delete(fs.nodes, n), devs := fs.devs[dev.value := Released(fs.devs[dev.value], n)])
  {
    DeleteShape(fs.nodes, fs.nextIno, n);
    hide Inv, Shape, InContainer, Delete, Owned, Released, ParentSelf;
    if fs.nodes[n].dev.Some? {
      DeviceKnown(fs, n);
      ParentThere(fs, n);
    }
  }

  lemma DeleteKeys(nodes: map<NodeId, Node>, n: NodeId)
    requires n in nodes && (InContainer(nodes, n) ==> nodes[n].parent.Some? && nodes[n].parent.value in nodes)
    ensures Delete(nodes, n).Keys == nodes.Keys - {n}
  {
  }

  /** The parent's node, if it has one, is not the one being freed. */
  lemma ParentThere(fs: Fs, n: NodeId)
    requires Inv(fs) && n in fs.nodes && fs.nodes[n].dev.Some? && fs.nodes[n].dev.value in fs.devs
    requires InContainer(fs.nodes, n) ==> fs.nodes[n].parent.Some? && fs.nodes[n].parent.value in fs.nodes
    ensures var d := fs.nodes[n].dev.value;
            var fs1 := fs.(nodes := Delete(fs.nodes, n), devs := fs.devs[d := Released(fs.devs[d], n)]);
            var up := ParentSelf(fs1, fs.devs[d]);
            up.Some? ==> up.value in fs1.nodes
  {
    hide Inv, InContainer, Delete;
    var d := fs.nodes[n].dev.value;
    var p := fs.devs[d].parent;
    DeleteKeys(fs.nodes, n);
    DeviceKnown(fs, n);
    if p.Some? && p.value in fs.devs { OwnedHere(fs, p.value); }
  }

  lemma OwnedHere(fs: Fs, d: DevId)
    requires Inv(fs) && d in fs.devs
    ensures OwnedAt(fs, d)
  {
  }

  lemma DeviceKnown(fs: Fs, n: NodeId)
    requires Inv(fs) && n in fs.nodes && fs.nodes[n].dev.Some?
    ensures fs.nodes[n].dev.value in fs.devs && OwnedAt(fs, fs.nodes[n].dev.value)
  {
  }

  /** Only the device of a node can refer to it. */
  lemma OthersKeep(fs: Fs, n: NodeId)
    requires Inv(fs) && n in fs.nodes
    ensures forall d :: d in fs.devs && fs.nodes[n].dev != Some(d) ==> Released(fs.devs[d], n) == fs.devs[d]
  {
  }

  /** The state without the nodes in `gone`, which devices have forgotten. */
  ghost predicate Without(fs: Fs, gone: set<NodeId>, fs': Fs) {
    && fs'.nodes.Keys == fs.nodes.Keys - gone && fs'.devs.Keys == fs.devs.Keys
    && fs'.protos == fs.protos && fs'.nextIno == fs.nextIno
    && (forall m :: m in fs'.nodes ==>
          && fs'.nodes[m].(children := fs.nodes[m].children) == fs.nodes[m]
          && (forall c :: c in fs'.nodes[m].children <==> c in fs.nodes[m].children && c !in gone))
  }

  lemma WithoutMore(fs: Fs, gone: set<NodeId>, fs1: Fs, more: set<NodeId>, fs': Fs)
    requires Without(fs, gone, fs1) && Without(fs1, more, fs')
    ensures Without(fs, gone + more, fs')
  {
  }

  lemma NotAClass(fs: Fs, n: NodeId)
    requires Inv(fs) && n in fs.nodes && fs.nodes[n].dev.Some?
    ensures forall pr :: pr in fs.protos ==> fs.protos[pr] != n
  {
  }

  lemma RemoveIfInv(fs: Fs, d: DevId, n: Option<NodeId>)
    requires Inv(fs) && d in fs.devs && (n.Some? ==> n.value in fs.nodes && fs.nodes[n.value].dev == Some(d))
    ensures var r := RemoveIf(fs, n);
            && r.Ok? && Inv(r.fs) && Without(fs, Members(n), r.fs)
            && r.fs.devs == if n.Some? then fs.devs[d := Released(fs.devs[d], n.value)] else fs.devs
  {
    hide Inv, Remove, Released;
    if n.Some? {
      NotAClass(fs, n.value);
      RemoveInv(fs, n.value);
      OthersKeep(fs, n.value);
      var r := Remove(fs, n.value);
      assert r.fs.devs == fs.devs[d := Released(fs.devs[d], n.value)];
    }
  }

  /** Unpublishing frees exactly the nodes of the device, and never uses one
      that was freed before. */
  lemma UnpublishInv(fs: Fs, d: DevId)
    requires Inv(fs) && d in fs.devs
    ensures var r := Unpublish(fs, d);
            && r.Ok? && Inv(r.fs) && r.fs.devs == fs.devs[d := fs.devs[d].(self := None, link := None)]
            && Without(fs, NodesOf(fs, d), r.fs)
  {
    hide Inv, RemoveIf, Without;
    var self := fs.devs[d].self;
    OnlyOwn(fs, d);
    RemoveIfInv(fs, d, self);
    var fs1 := RemoveIf(fs, self).fs;
    OnlyOwn(fs1, d);
    var link := fs1.devs[d].link;
    RemoveIfInv(fs1, d, link);
    WithoutMore(fs, Members(self), fs1, Members(link), RemoveIf(fs1, link).fs);
    assert NodesOf(fs, d) == Members(self) + Members(link);
  }

  function Members(n: Option<NodeId>): set<NodeId> {
    if n.Some? then {n.value} else {}
  }

  ghost function NodesOf(fs: Fs, d: DevId): set<NodeId> {
    set n | n in fs.nodes && fs.nodes[n].dev == Some(d)
  }

  lemma OnlyOwn(fs: Fs, d: DevId)
    requires Inv(fs) && d in fs.devs
    ensures forall n :: n in fs.nodes ==>
              (fs.nodes[n].dev == Some(d) <==> Some(n) == fs.devs[d].self || Some(n) == fs.devs[d].link)
    ensures fs.devs[d].self.Some? ==>
              fs.devs[d].self.value in fs.nodes && fs.nodes[fs.devs[d].self.value].dev == Some(d)
    ensures fs.devs[d].link.Some? ==>
              fs.devs[d].link.value in fs.nodes && fs.nodes[fs.devs[d].link.value].dev == Some(d)
              && fs.devs[d].link != fs.devs[d].self
  {
  }

  /** Telling watchers goes wrong only for a device that is not published or
      whose node has lost its parent. */
  lemma AdvertiseSafe(fs: Fs, d: DevId, ops: seq<Op>)
    requires Inv(fs) && d in fs.devs
    ensures Advertise(fs, d, ops).Ok? <==> fs.devs[d].self.Some? && Attached(fs, fs.devs[d].self.value)
    ensures Advertise(fs, d, ops).Ok? ==> Advertise(fs, d, ops).fs == fs
  {
  }

  /** A node that is a root or is listed by its parent. */
  predicate Attached(fs: Fs, n: NodeId) {
    n in fs.nodes && (fs.nodes[n].parent.None? || InContainer(fs.nodes, n))
  }

  // ----- publishing

  lemma AddSelfOwned(fs: Fs, n: NodeId, p: NodeId, d: DevId)
    requires Owned(fs) && d in fs.devs && p in fs.nodes && n !in fs.nodes && fs.devs[d].self.None?
    ensures Owned(AddSelf(fs, n, p, d))
  {
    var fs' := AddSelf(fs, n, p, d);
    forall x | x in fs'.devs ensures OwnedAt(fs', x) { assert OwnedAt(fs, x); }
  }

  lemma AddLinkOwned(fs: Fs, n: NodeId, dir: NodeId, name: string, d: DevId)
    requires Owned(fs) && d in fs.devs && dir in fs.nodes && n !in fs.nodes && fs.devs[d].link.None?
    requires fs.devs[d].proto in fs.protos && fs.protos[fs.devs[d].proto] == dir
    ensures Owned(AddLink(fs, n, dir, name, d))
  {
    var fs' := AddLink(fs, n, dir, name, d);
    forall x | x in fs'.devs ensures OwnedAt(fs', x) { assert OwnedAt(fs, x); }
  }

  lemma CountInv(fs: Fs, dir: NodeId, c: nat)
    requires Inv(fs) && dir in fs.nodes
    ensures Inv(fs.(nodes := SetCount(fs.nodes, dir, c)))
  {
    var nodes' := SetCount(fs.nodes, dir, c);
    forall m | m in nodes' ensures m < fs.nextIno && ListAt(nodes', m) && ParentAt(nodes', m) {
      assert ListAt(fs.nodes, m) && ParentAt(fs.nodes, m);
    }
    OwnedFrame(fs, fs.(nodes := nodes'));
  }

  /** The number after next goes to the link, so that the device's own node can
      still be appended to a different list. */
  lemma LinkInv(fs: Fs, dir: NodeId, name: string, d: DevId)
    requires Inv(fs) && d in fs.devs && dir in fs.nodes && fs.devs[d].link.None?
    requires fs.devs[d].proto in fs.protos && fs.protos[fs.devs[d].proto] == dir
    ensures var fs' := AddLink(fs, fs.nextIno + 1, dir, name, d).(nextIno := fs.nextIno + 2);
            && Inv(fs') && fs.nextIno !in fs'.nodes
            && (forall m :: m in fs'.nodes ==> fs'.nodes[m].parent != Some(fs.nextIno))
            && (forall p :: p in fs.nodes && p != dir ==> forall c :: c in fs'.nodes[p].children ==> c < fs.nextIno)
  {
    hide Owned, OwnedAt, Shape, ListAt, ParentAt;
    var k := fs.nextIno;
    LinkNumbers(fs.nodes, k, dir, name, d);
    AddLinkOwned(fs, k + 1, dir, name, d);
    OwnedFrame(AddLink(fs, k + 1, dir, name, d), AddLink(fs, k + 1, dir, name, d).(nextIno := k + 2));
  }

  lemma LinkNumbers(nodes: map<NodeId, Node>, k: nat, dir: NodeId, name: string, d: DevId)
    requires Shape(nodes, k) && dir in nodes
    ensures var nodes' := Insert(nodes, k + 1, dir, name, Some(d));
            && Shape(nodes', k + 2) && k !in nodes' && k + 1 !in nodes
            && (forall m :: m in nodes' ==> nodes'[m].parent != Some(k))
            && (forall p :: p in nodes && p != dir ==> forall c :: c in nodes'[p].children ==> c < k)
  {
    NewNumber(nodes, k, dir);
    assert forall p :: p in nodes ==> ListAt(nodes, p) && ParentAt(nodes, p);
    InsertShape(nodes, k, k + 1, dir, name, Some(d), k + 2);
    hide Shape;
  }

  lemma SelfInv(fs: Fs, n: NodeId, p: NodeId, d: DevId)
    requires Inv(fs) && d in fs.devs && p in fs.nodes && n !in fs.nodes && p < n < fs.nextIno && fs.devs[d].self.None?
    requires forall m :: m in fs.nodes ==> fs.nodes[m].parent != Some(n)
    requires forall c :: c in fs.nodes[p].children ==> c < n
    ensures PublishSelf(fs, n, p, d).Ok? && Inv(PublishSelf(fs, n, p, d).fs)
    ensures PublishSelf(fs, n, p, d).fs == AddSelf(fs, n, p, d)
  {
    hide Owned, OwnedAt, InContainer;
    InsertShape(fs.nodes, fs.nextIno, n, p, fs.devs[d].name, Some(d), fs.nextIno);
    AddSelfOwned(fs, n, p, d);
    var fs' := AddSelf(fs, n, p, d);
    AdvertiseSafe(fs', d, [ADDED]);
    ContainerIsParent(fs'.nodes, fs'.nextIno, n);
  }

  /** Publishing never uses a freed node and keeps the forest, whether it
      succeeds or is refused. */
  lemma PublishInv(fs: Fs, p: DevId, d: DevId)
    requires Inv(fs) && p in fs.devs && d in fs.devs
    ensures !Publish(fs, p, d).Broken? && Inv(Publish(fs, p, d).fs)
  {
    hide Inv, Scan, PublishSelf, AddLink, SetCount, Insert, IsSeqName, Lookup;
    if fs.devs[p].self.Some? && fs.devs[d].self.None? && fs.devs[d].link.None? {
      var k, at, dir := fs.nextIno, fs.devs[p].self.value, ClassDir(fs, d);
      PublishReady(fs, p, d);
      PublishPlace(fs, p, d);
      if dir.None? {
        MoreNumbers(fs);
        SelfInv(fs.(nextIno := k + 1), k, at, d);
      } else if fs.devs[d].proto == CONSOLE {
        PublishLinked(fs, dir.value, fs.devs[d].name, at, d);
      } else {
        var (name, c) := Scan(fs.nodes, dir.value, fs.nodes[dir.value].seqcount % WORD, SEQ_NAMES);
        var fs1 := fs.(nodes := SetCount(fs.nodes, dir.value, c));
        CountInv(fs, dir.value, c);
        CountKeeps(fs, dir.value, c);
        if name.None? {
          MoreNumbers(fs1);
        } else {
          PublishLinked(fs1, dir.value, name.value, at, d);
        }
      }
    }
  }

  /** Where the new nodes go: the next number fits at the end of the parent's
      list, and a class directory is nobody's own node. */
  lemma PublishPlace(fs: Fs, p: DevId, d: DevId)
    requires Inv(fs) && p in fs.devs && d in fs.devs && fs.devs[p].self.Some? && fs.devs[p].self.value in fs.nodes
    ensures var at := fs.devs[p].self.value;
            && fs.nodes[at].dev.Some? && (forall c :: c in fs.nodes[at].children ==> c < fs.nextIno)
            && (forall m :: m in fs.nodes ==> fs.nodes[m].parent != Some(fs.nextIno))
    ensures var dir := ClassDir(fs, d);
            dir.Some? ==>
              && dir.value in fs.nodes && fs.nodes[dir.value].dev.None?
              && fs.devs[d].proto in fs.protos && fs.protos[fs.devs[d].proto] == dir.value
  {
  }

  lemma CountKeeps(fs: Fs, dir: NodeId, c: nat)
    requires dir in fs.nodes
    ensures var nodes' := SetCount(fs.nodes, dir, c);
            nodes'.Keys == fs.nodes.Keys && forall n :: n in nodes' ==>
              nodes'[n].(seqcount := fs.nodes[n].seqcount) == fs.nodes[n]
  {
  }

  lemma MoreNumbers(fs: Fs)
    requires Inv(fs)
    ensures Inv(fs.(nextIno := fs.nextIno + 1))
  {
  }

  lemma PublishLinked(fs: Fs, dir: NodeId, name: string, at: NodeId, d: DevId)
    requires Inv(fs) && d in fs.devs && fs.devs[d].self.None? && fs.devs[d].link.None?
    requires dir in fs.nodes && fs.nodes[dir].dev.None? && at in fs.nodes && fs.nodes[at].dev.Some?
    requires fs.devs[d].proto in fs.protos && fs.protos[fs.devs[d].proto] == dir
    ensures var fs1 := AddLink(fs, fs.nextIno + 1, dir, name, d).(nextIno := fs.nextIno + 2);
            var r := PublishSelf(fs1, fs.nextIno, at, d);
            r.Ok? && Inv(r.fs) && r.fs == AddSelf(fs1, fs.nextIno, at, d)
  {
    hide Owned, OwnedAt, PublishSelf;
    NewNumber(fs.nodes, fs.nextIno, at);
    LinkInv(fs, dir, name, d);
    SelfInv(AddLink(fs, fs.nextIno + 1, dir, name, d).(nextIno := fs.nextIno + 2), fs.nextIno, at, d);
  }

  /** No number is used twice, so a freed node stays freed. */
  ghost predicate NoRevival(fs: Fs, fs': Fs) {
    forall n :: n in fs'.nodes && n < fs.nextIno ==> n in fs.nodes
  }

  /** Nodes are added at the ends of lists, and counters may have moved. */
  ghost predicate Grown(fs: Fs, fs': Fs) {
    && fs.nodes.Keys <= fs'.nodes.Keys && fs'.protos == fs.protos && fs.nextIno <= fs'.nextIno && NoRevival(fs, fs')
    && (forall n :: n in fs.nodes ==>
          && fs'.nodes[n].(children := fs.nodes[n].children, seqcount := fs.nodes[n].seqcount) == fs.nodes[n]
          && fs.nodes[n].children <= fs'.nodes[n].children)
  }

  lemma InsertGrows(fs: Fs, fs1: Fs, n: NodeId, p: NodeId, name: string, d: DevId, fs': Fs)
    requires Grown(fs, fs1) && p in fs1.nodes && n !in fs1.nodes && fs.nextIno <= n
    requires fs1.nextIno <= fs'.nextIno && fs'.protos == fs.protos
    requires fs'.nodes == Insert(fs1.nodes, n, p, name, Some(d))
    ensures Grown(fs, fs')
  {
  }

  /** Publishing only adds, and changes no device but the published one. */
  lemma PublishGrows(fs: Fs, p: DevId, d: DevId)
    requires Inv(fs) && p in fs.devs && d in fs.devs
    ensures !Publish(fs, p, d).Broken?
    ensures var fs' := Publish(fs, p, d).fs;
            && Grown(fs, fs') && fs'.devs.Keys == fs.devs.Keys
            && fs'.devs[d].(self := fs.devs[d].self, link := fs.devs[d].link) == fs.devs[d]
            && (forall x :: x in fs.devs && x != d ==> fs'.devs[x] == fs.devs[x])
    ensures var r := Publish(fs, p, d);
            if r.Ok? then fs.devs[d].self.None? && PlacedAt(r.fs, d, fs.nextIno, fs.devs[p].self)
              else r.fs.devs == fs.devs
  {
    hide Inv, PlacedAt, Scan, PublishSelf, AddLink, AddSelf, Grown, SetCount;
    PublishInv(fs, p, d);
    NoChange(fs);
    if fs.devs[p].self.Some? && fs.devs[d].self.None? && fs.devs[d].link.None? {
      var k, at, dir := fs.nextIno, fs.devs[p].self.value, ClassDir(fs, d);
      PublishReady(fs, p, d);
      if dir.None? {
        SelfGrows(fs, fs.(nextIno := k + 1), k, at, d);
      } else if fs.devs[d].proto == CONSOLE {
        LinkGrows(fs, fs, k, dir.value, fs.devs[d].name, at, d);
      } else {
        hide Publish;
        SeqGrows(fs, p, d, dir.value);
      }
    }
  }

  /** The case of a device that gets a sequence name. */
  lemma SeqGrows(fs: Fs, p: DevId, d: DevId, dir: NodeId)
    requires Inv(fs) && p in fs.devs && d in fs.devs && fs.devs[p].self.Some? && fs.devs[d].self.None?
    requires fs.devs[d].link.None?
    requires ClassDir(fs, d) == Some(dir) && fs.devs[d].proto != CONSOLE && !Publish(fs, p, d).Broken?
    ensures var r := Publish(fs, p, d);
            && Grown(fs, r.fs)
            && if r.Ok? then PlacedAt(r.fs, d, fs.nextIno, fs.devs[p].self)
                             && r.fs.devs == fs.devs[d := fs.devs[d].(self := Some(fs.nextIno),
                                                                      link := Some(fs.nextIno + 1))]
               else r.fs.devs == fs.devs
  {
    hide Inv, PlacedAt, Scan, PublishSelf, AddLink, AddSelf, Grown, SetCount;
    PublishReady(fs, p, d);
    var at := fs.devs[p].self.value;
    var (name, c) := Scan(fs.nodes, dir, fs.nodes[dir].seqcount % WORD, SEQ_NAMES);
    CountGrows(fs, dir, c);
    if name.Some? {
      LinkGrows(fs, fs.(nodes := SetCount(fs.nodes, dir, c)), fs.nextIno, dir, name.value, at, d);
    }
  }

  /** A device's own node is `n`, below the node `at`. */
  ghost predicate PlacedAt(fs: Fs, d: DevId, n: NodeId, at: Option<NodeId>) {
    d in fs.devs && fs.devs[d].self == Some(n) && n in fs.nodes && fs.nodes[n].parent == at
  }

  lemma PublishReady(fs: Fs, p: DevId, d: DevId)
    requires Inv(fs) && p in fs.devs && d in fs.devs && fs.devs[p].self.Some?
    ensures fs.devs[p].self.value in fs.nodes && forall n :: n in fs.nodes ==> n < fs.nextIno
    ensures ClassDir(fs, d).Some? ==> ClassDir(fs, d).value in fs.nodes
  {
  }

  lemma NoChange(fs: Fs)
    ensures Grown(fs, fs) && Grown(fs, fs.(nextIno := fs.nextIno + 1))
  {
  }

  lemma CountGrows(fs: Fs, dir: NodeId, c: nat)
    requires dir in fs.nodes
    ensures var fs1 := fs.(nodes := SetCount(fs.nodes, dir, c));
            Grown(fs, fs1) && Grown(fs, fs1.(nextIno := fs.nextIno + 1)) && fs1.nodes.Keys == fs.nodes.Keys
  {
  }

  lemma SelfGrows(fs: Fs, fs1: Fs, k: NodeId, at: NodeId, d: DevId)
    requires Grown(fs, fs1) && at in fs1.nodes && k !in fs1.nodes && fs.nextIno <= k && d in fs1.devs
    ensures !PublishSelf(fs1, k, at, d).Refused?
    ensures PublishSelf(fs1, k, at, d).Ok? ==>
              var fs' := PublishSelf(fs1, k, at, d).fs;
              PlacedAt(fs', d, k, Some(at)) && Grown(fs, fs')
              && fs'.devs == fs1.devs[d := fs1.devs[d].(self := Some(k))]
  {
    InsertGrows(fs, fs1, k, at, fs1.devs[d].name, d, AddSelf(fs1, k, at, d));
  }

  lemma LinkGrows(fs: Fs, fs1: Fs, k: NodeId, dir: NodeId, name: string, at: NodeId, d: DevId)
    requires Grown(fs, fs1) && dir in fs1.nodes && at in fs1.nodes && d in fs1.devs
    requires forall n :: n in fs1.nodes ==> n < k
    requires fs.nextIno == fs1.nextIno == k
    ensures var fs2 := AddLink(fs1, k + 1, dir, name, d).(nextIno := k + 2);
            && at in fs2.nodes && d in fs2.devs
            && var r := PublishSelf(fs2, k, at, d);
            && !r.Refused?
            && (r.Ok? ==>
                  && PlacedAt(r.fs, d, k, Some(at)) && Grown(fs, r.fs)
                  && r.fs.devs == fs1.devs[d := fs1.devs[d].(self := Some(k), link := Some(k + 1))])
  {
    hide Grown, PlacedAt, PublishSelf, NoRevival;
    var fs2 := AddLink(fs1, k + 1, dir, name, d).(nextIno := k + 2);
    assert fs2.protos == fs.protos by { SameProtos(fs, fs1); }
    InsertGrows(fs, fs1, k + 1, dir, name, d, fs2);
    SelfGrows(fs, fs2, k, at, d);
  }

  lemma SameProtos(fs: Fs, fs': Fs)
    requires Grown(fs, fs')
    ensures fs'.protos == fs.protos
  {
  }
}
