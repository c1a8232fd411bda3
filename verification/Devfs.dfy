/** devfs, the namespace over the device tree (devfs.cc, devfs.h). A node is
    known by its inode number, which is never given out twice. The state is a
    value here; module `DevfsObject` has the operations in place. */
module Devfs {
  import opened Common

  type NodeId = nat
  type DevId = nat

  /** A node refers to its device, its parent and its children by number. The
      parent field is not reset when the parent is freed. */
  datatype Node = Node(
    name: string, dev: Option<DevId>, parent: Option<NodeId>, children: seq<NodeId>,
    service: Option<string>, seqcount: nat)

  /** The protocols devfs treats apart; the others are known by number. */
  datatype Proto = MISC | TEST_PARENT | CONSOLE | Class(id: nat)

  /** `self` is the node under the parent's, `link` the one in a class
      directory. Proxies are never published. */
  datatype Dev = Dev(
    name: string, parent: Option<DevId>, proto: Proto, proxy: bool, composite: bool, invisible: bool,
    self: Option<NodeId>, link: Option<NodeId>)

  /** `protos` are the class directories. */
  datatype Fs = Fs(nodes: map<NodeId, Node>, devs: map<DevId, Dev>, protos: map<Proto, NodeId>, nextIno: nat)

  datatype Op = ADDED | REMOVED | DELETED | EXISTING | IDLE

  /** What watchers get to know: a call of devfs_notify, or that a node and the
      watchers on it are gone. */
  datatype Event = Told(dir: NodeId, op: Op, name: string) | Gone(dir: NodeId)

  datatype Status = INTERNAL | ALREADY_EXISTS | INVALID_ARGS | PEER_CLOSED

  /** `Broken` stands for using a node after it was freed, or a null one. */
  datatype Reply = Ok(fs: Fs, events: seq<Event>) | Refused(fs: Fs, status: Status, events: seq<Event>) | Broken

  // ----- nodes

  /** A new node at the end of the list of `p`. */
  function Insert(nodes: map<NodeId, Node>, n: NodeId, p: NodeId, name: string, dev: Option<DevId>): map<NodeId, Node>
    requires p in nodes
  {
    nodes[p := nodes[p].(children := nodes[p].children + [n])][n := Node(name, dev, Some(p), [], None, 0)]
  }

  predicate InContainer(nodes: map<NodeId, Node>, n: NodeId) {
    exists p :: p in nodes && n in nodes[p].children
  }

  /** Freeing a node: it leaves its parent's list, and its children are left
      without a list. Their parent fields still name it. */
  function Delete(nodes: map<NodeId, Node>, n: NodeId): map<NodeId, Node>
    requires n in nodes && (InContainer(nodes, n) ==> nodes[n].parent.Some? && nodes[n].parent.value in nodes)
  {
    if InContainer(nodes, n) then
      var p := nodes[n].parent.value;
      nodes[p := nodes[p].(children := Erase(nodes[p].children, n))] - {n}
    else nodes - {n}
  }

  function LookupIn(nodes: map<NodeId, Node>, list: seq<NodeId>, name: string): (r: Option<NodeId>)
    ensures r.Some? ==> r.value in list && r.value in nodes && nodes[r.value].name == name
    ensures r.None? <==> forall n :: n in list && n in nodes ==> nodes[n].name != name
  {
    if list == [] then None
    else if list[0] in nodes && nodes[list[0]].name == name then Some(list[0])
    else
      var r := LookupIn(nodes, list[1..], name);
      assert r.None? ==> forall n :: n in list ==> n == list[0] || n in list[1..];
      r
  }

  function Lookup(nodes: map<NodeId, Node>, p: NodeId, name: string): Option<NodeId>
    requires p in nodes
  {
    LookupIn(nodes, nodes[p].children, name)
  }

  /** devfs_mkdir. */
  function Mkdir(fs: Fs, p: NodeId, name: string): Fs
    requires p in fs.nodes
  {
    fs.(nodes := Insert(fs.nodes, fs.nextIno, p, name, None), nextIno := fs.nextIno + 1)
  }

  // ----- sequence names

  const WORD: nat := 0x1_0000_0000
  const SEQ_NAMES: nat := 1000

  function Digit(k: nat): char
    requires k < 10
  {
    '0' + k as char
  }

  /** "%03u" */
  function SeqName(k: nat): string
    requires k < SEQ_NAMES
  {
    [Digit(k / 100), Digit(k / 10 % 10), Digit(k % 10)]
  }

  predicate IsSeqName(name: string) {
    exists k :: 0 <= k < SEQ_NAMES && name == SeqName(k)
  }

  /** Up to `left` tries from counter value `c`: the first free name, if any,
      and the counter afterwards. */
  function Scan(nodes: map<NodeId, Node>, dir: NodeId, c: nat, left: nat): (r: (Option<string>, nat))
    requires dir in nodes && c < WORD
    ensures r.1 < WORD && (r.0.Some? ==> IsSeqName(r.0.value) && Lookup(nodes, dir, r.0.value).None?)
    decreases left
  {
    if left == 0 then (None, c)
    else
      var c' := if c + 1 == WORD then 0 else c + 1;
      if Lookup(nodes, dir, SeqName(c % SEQ_NAMES)).None? then (Some(SeqName(c % SEQ_NAMES)), c')
      else Scan(nodes, dir, c', left - 1)
  }

  function SetCount(nodes: map<NodeId, Node>, dir: NodeId, c: nat): map<NodeId, Node>
    requires dir in nodes
  {
    nodes[dir := nodes[dir].(seqcount := c)]
  }

  // ----- publishing

  /** The class directory a device gets a link in. */
  function ClassDir(fs: Fs, d: DevId): Option<NodeId>
    requires d in fs.devs
  {
    var pr := fs.devs[d].proto;
    if pr == TEST_PARENT || pr == MISC || pr !in fs.protos then None else Some(fs.protos[pr])
  }

  function NotifyName(dir: NodeId, op: Op, name: string): seq<Event> {
    if |name| > MAX_FILENAME then [] else [Told(dir, op, name)]
  }

  /** fuchsia.io's kMaxFilename. */
  const MAX_FILENAME: nat := 255

  /** devfs_advertise: tell the class directory, then the parent of the
      device's own node. */
  function Advertise(fs: Fs, d: DevId, ops: seq<Op>): Reply
    requires d in fs.devs
  {
    var r := fs.devs[d];
    if r.self.None? || r.self.value !in fs.nodes then Broken
    else if r.link.Some? && (r.link.value !in fs.nodes || r.proto !in fs.protos) then Broken
    else
      var own := fs.nodes[r.self.value];
      if own.parent.Some? && own.parent.value !in fs.nodes then Broken
      else Ok(fs, (if r.link.Some? then Tell(fs.protos[r.proto], ops, fs.nodes[r.link.value].name) else [])
                  + if own.parent.Some? then Tell(own.parent.value, ops, own.name) else [])
  }

  function Tell(dir: NodeId, ops: seq<Op>, name: string): seq<Event> {
    if ops == [] then [] else NotifyName(dir, ops[0], name) + Tell(dir, ops[1..], name)
  }

  function AddLink(fs: Fs, n: NodeId, dir: NodeId, name: string, d: DevId): Fs
    requires d in fs.devs && dir in fs.nodes
  {
    fs.(nodes := Insert(fs.nodes, n, dir, name, Some(d)), devs := fs.devs[d := fs.devs[d].(link := Some(n))])
  }

  function AddSelf(fs: Fs, n: NodeId, p: NodeId, d: DevId): Fs
    requires d in fs.devs && p in fs.nodes
  {
    fs.(nodes := Insert(fs.nodes, n, p, fs.devs[d].name, Some(d)), devs := fs.devs[d := fs.devs[d].(self := Some(n))])
  }

  /** The last part of devfs_publish. */
  function PublishSelf(fs: Fs, n: NodeId, p: NodeId, d: DevId): Reply
    requires d in fs.devs && p in fs.nodes
  {
    var fs1 := AddSelf(fs, n, p, d);
    if fs1.devs[d].invisible then Ok(fs1, []) else Advertise(fs1, d, [ADDED])
  }

  function Publish(fs: Fs, p: DevId, d: DevId): Reply
    requires p in fs.devs && d in fs.devs
  {
    if fs.devs[p].self.None? || fs.devs[d].self.Some? || fs.devs[d].link.Some? then Refused(fs, INTERNAL, [])
    else
      var k, at, dir := fs.nextIno, fs.devs[p].self.value, ClassDir(fs, d);
      if at !in fs.nodes || (dir.Some? && dir.value !in fs.nodes) then Broken
      else if dir.None? then PublishSelf(fs.(nextIno := k + 1), k, at, d)
      else if fs.devs[d].proto == CONSOLE then
        PublishSelf(AddLink(fs, k + 1, dir.value, fs.devs[d].name, d).(nextIno := k + 2), k, at, d)
      else
        var (name, c) := Scan(fs.nodes, dir.value, fs.nodes[dir.value].seqcount % WORD, SEQ_NAMES);
        var fs1 := fs.(nodes := SetCount(fs.nodes, dir.value, c));
        if name.None? then Refused(fs1.(nextIno := k + 1), ALREADY_EXISTS, [])
        else PublishSelf(AddLink(fs1, k + 1, dir.value, name.value, d).(nextIno := k + 2), k, at, d)
  }

  /** A device forgets a node that is being freed. */
  function Released(dev: Dev, n: NodeId): Dev {
    dev.(self := if dev.self == Some(n) then None else dev.self, link := if dev.link == Some(n) then None else dev.link)
  }

  /** devfs_remove, run when a node is freed. */
  function Remove(fs: Fs, n: NodeId): Reply
    requires n in fs.nodes
  {
    var r := fs.nodes[n];
    if InContainer(fs.nodes, n) && (r.parent.None? || r.parent.value !in fs.nodes) then Broken
    else if r.dev.None? then Ok(fs.(nodes := Delete(fs.nodes, n)), [Told(n, DELETED, ""), Gone(n)])
    else if r.dev.value !in fs.devs then Broken
    else
      var dev := fs.devs[r.dev.value];
      var fs1 := fs.(nodes := Delete(fs.nodes, n), devs := fs.devs[r.dev.value := Released(dev, n)]);
      if dev.invisible then Ok(fs1, [Gone(n)])
      else if dev.link == Some(n) && dev.proto !in fs.protos then Broken
      else if dev.self == Some(n) && ParentSelf(fs1, dev).Some? && ParentSelf(fs1, dev).value !in fs1.nodes then Broken
      else Ok(fs1, [Told(n, DELETED, "")]
                   + (if dev.self == Some(n)
                      && ParentSelf(fs1, dev).Some? then NotifyName(ParentSelf(fs1, dev).value, REMOVED, r.name)
                           else [])
                   + (if dev.link == Some(n) then NotifyName(fs.protos[dev.proto], REMOVED, r.name) else [])
                   + [Gone(n)])
  }

  /** The node of a device's parent, if both are there. */
  function ParentSelf(fs: Fs, dev: Dev): Option<NodeId> {
    if dev.parent.Some? && dev.parent.value in fs.devs then fs.devs[dev.parent.value].self else None
  }

  function RemoveIf(fs: Fs, n: Option<NodeId>): Reply {
    if n.None? then Ok(fs, []) else if n.value in fs.nodes then Remove(fs, n.value) else Broken
  }

  /** devfs_unpublish: the device's own node goes first, then its link. */
  function Unpublish(fs: Fs, d: DevId): Reply
    requires d in fs.devs
  {
    var r1 := RemoveIf(fs, fs.devs[d].self);
    if !r1.Ok? || d !in r1.fs.devs then Broken
    else
      var r2 := RemoveIf(r1.fs, r1.fs.devs[d].link);
      if r2.Ok? then Ok(r2.fs, r1.events + r2.events) else Broken
  }

  /** Coordinator::MakeVisible; `ready` is false for a device that is dead or
      still initializing. */
  function MakeVisible(fs: Fs, d: DevId, ready: bool): Reply
    requires d in fs.devs
  {
    if !ready || !fs.devs[d].invisible then Ok(fs, [])
    else Advertise(fs.(devs := fs.devs[d := fs.devs[d].(invisible := false)]), d, [ADDED])
  }

  /** devfs_advertise_modified. */
  function AdvertiseModified(fs: Fs, d: DevId): Reply
    requires d in fs.devs
  {
    Advertise(fs, d, [REMOVED, ADDED])
  }
}
