/** What publishing, unpublishing and announcing a device do, and what they tell
    the watchers, from the state before them (devfs.cc, coordinator.cc). */
module DevfsEffects {
  import opened Common
  import opened Devfs
  import opened DevfsForest
  import opened DevfsNames

  /** A call of devfs_notify; names over 255 characters are not told. */
  function Said(dir: NodeId, op: Op, name: string): seq<Event> {
    if |name| <= 255 then [Told(dir, op, name)] else []
  }

  /** The device gets a link: its protocol has a class directory, and is neither
      that of test parents nor the one of everything else. */
  ghost predicate HasClass(fs: Fs, d: DevId) {
    && d in fs.devs && fs.devs[d].proto in fs.protos
    && fs.devs[d].proto != MISC && fs.devs[d].proto != TEST_PARENT
  }

  // ----- publishing

  /** Device `d` has a new node at the end of the list of `at` and, if it gets a
      link, one at the end of the class directory; nothing else is different. */
  ghost predicate NewNodes(fs: Fs, at: NodeId, d: DevId, dir: Option<NodeId>, name: string, count: nat, fs': Fs) {
    && d in fs.devs
    && var k, r := fs.nextIno, fs.devs[d];
    && fs'.protos == fs.protos && fs'.nextIno == (if dir.Some? then k + 2 else k + 1)
    && fs'.devs == fs.devs[d := r.(self := Some(k), link := if dir.Some? then Some(k + 1) else None)]
    && fs'.nodes.Keys == fs.nodes.Keys + {k} + (if dir.Some? then {k + 1} else {})
    && fs'.nodes[k] == Node(r.name, Some(d), Some(at), [], None, 0)
    && (dir.Some? ==> fs'.nodes[k + 1] == Node(name, Some(d), dir, [], None, 0))
    && forall n :: n in fs.nodes ==>
         NodeAfter(fs.nodes[n], if n == at then [k] else if dir == Some(n) then [k + 1] else [],
                   if dir == Some(n) then count else fs.nodes[n].seqcount, fs'.nodes[n])
  }

  ghost predicate NodeAfter(was: Node, more: seq<NodeId>, count: nat, now: Node) {
    now == was.(children := was.children + more, seqcount := count)
  }

  /** The name of the link, and the counter of the class directory afterwards:
      consoles go by their own names, the others by the first free number. */
  ghost predicate LinkName(fs: Fs, d: DevId, dir: NodeId, name: string, count: nat) {
    && d in fs.devs && dir in fs.nodes
    && var c := fs.nodes[dir].seqcount % WORD;
    if fs.devs[d].proto == CONSOLE then name == fs.devs[d].name && count == fs.nodes[dir].seqcount
    else exists n: nat :: n < SEQ_NAMES && FirstFreeName(fs.nodes, dir, c, n, name)
                          && count == if c + n + 1 < WORD then c + n + 1 else c + n + 1 - WORD
  }

  ghost predicate NoName(fs: Fs, d: DevId, dir: NodeId) {
    && d in fs.devs && dir in fs.nodes && fs.devs[d].proto != CONSOLE
    && AllTriedTaken(fs.nodes, dir, fs.nodes[dir].seqcount % WORD, SEQ_NAMES)
  }

  /** Nothing but the number of a node and a counter was used up. */
  ghost predicate NothingNew(fs: Fs, dir: NodeId, fs': Fs) {
    && fs'.devs == fs.devs && fs'.protos == fs.protos && fs'.nextIno == fs.nextIno + 1
    && fs'.nodes.Keys == fs.nodes.Keys
    && forall n :: n in fs.nodes ==>
         fs'.nodes[n] == if n == dir then fs.nodes[n].(seqcount := fs'.nodes[n].seqcount) else fs.nodes[n]
  }

  /** The published device is announced in the class directory and then in the
      directory of its parent, unless it is invisible. */
  ghost predicate PublishedWith(fs: Fs, at: NodeId, d: DevId, dir: NodeId, r: Reply) {
    && r.Ok? && d in fs.devs
    && exists name, count ::
         && LinkName(fs, d, dir, name, count) && NewNodes(fs, at, d, Some(dir), name, count, r.fs)
         && r.events == if fs.devs[d].invisible then []
              else Said(dir, ADDED, name) + Said(at, ADDED, fs.devs[d].name)
  }

  ghost predicate PublishedPlain(fs: Fs, at: NodeId, d: DevId, r: Reply) {
    && r.Ok? && NewNodes(fs, at, d, None, "", 0, r.fs)
    && r.events == if fs.devs[d].invisible then [] else Said(at, ADDED, fs.devs[d].name)
  }

  /** Publishing a device is refused if it has a node already or its parent has
      none, and if it needs a sequence name and those tried are all taken. */
  lemma PublishEffect(fs: Fs, p: DevId, d: DevId)
    requires Inv(fs) && p in fs.devs && d in fs.devs
    ensures var r := Publish(fs, p, d);
            if fs.devs[p].self.None? || fs.devs[d].self.Some? || fs.devs[d].link.Some?
            then r == Refused(fs, INTERNAL, [])
            else if !HasClass(fs, d) then PublishedPlain(fs, fs.devs[p].self.value, d, r)
            else
              var dir := fs.protos[fs.devs[d].proto];
              if NoName(fs, d, dir)
              then r.Refused? && r.status == ALREADY_EXISTS && r.events == [] && NothingNew(fs, dir, r.fs)
              else PublishedWith(fs, fs.devs[p].self.value, d, dir, r)
  {
    hide Inv, PublishSelf, Scan, AddLink, NoName, PublishedWith, PublishedPlain, FirstFreeName, AllTriedTaken, LinkName;
    if fs.devs[p].self.Some? && fs.devs[d].self.None? && fs.devs[d].link.None? {
      var k, at := fs.nextIno, fs.devs[p].self.value;
      PublishReady(fs, p, d);
      if !HasClass(fs, d) {
        PlainEffect(fs, at, d);
      } else {
        var dir := fs.protos[fs.devs[d].proto];
        NotOwnNode(fs, p, fs.devs[d].proto);
        if fs.devs[d].proto == CONSOLE {
          ConsoleEffect(fs, at, d, dir);
        } else {
          hide Publish;
          NumberEffect(fs, p, d, dir);
        }
      }
    }
  }

  lemma NotOwnNode(fs: Fs, p: DevId, pr: Proto)
    requires Inv(fs) && p in fs.devs && pr in fs.protos
    ensures fs.devs[p].self != Some(fs.protos[pr]) && fs.protos[pr] in fs.nodes
  {
  }

  lemma ConsoleEffect(fs: Fs, at: NodeId, d: DevId, dir: NodeId)
    requires LinkReady(fs, at, d, dir) && fs.devs[d].proto == CONSOLE
    ensures var fs2 := AddLink(fs, fs.nextIno + 1, dir, fs.devs[d].name, d).(nextIno := fs.nextIno + 2);
            && d in fs2.devs && at in fs2.nodes
            && PublishedWith(fs, at, d, dir, PublishSelf(fs2, fs.nextIno, at, d)) && !NoName(fs, d, dir)
  {
    assert LinkName(fs, d, dir, fs.devs[d].name, fs.nodes[dir].seqcount);
    assert fs.nodes[dir := fs.nodes[dir].(seqcount := fs.nodes[dir].seqcount)] == fs.nodes;
    hide LinkName, PublishedWith, PublishSelf, AddLink;
    WithEffect(fs, fs, at, d, dir, fs.devs[d].name, fs.nodes[dir].seqcount);
  }

  /** The case of a device that needs a sequence name. */
  lemma NumberEffect(fs: Fs, p: DevId, d: DevId, dir: NodeId)
    requires p in fs.devs && d in fs.devs && fs.devs[p].self.Some? && fs.devs[d].self.None? && HasClass(fs, d)
    requires LinkReady(fs, fs.devs[p].self.value, d, dir) && fs.devs[d].proto != CONSOLE
    ensures var r := Publish(fs, p, d);
            if NoName(fs, d, dir)
            then r.Refused? && r.status == ALREADY_EXISTS && r.events == [] && NothingNew(fs, dir, r.fs)
            else PublishedWith(fs, fs.devs[p].self.value, d, dir, r)
  {
    hide Scan, PublishSelf, AddLink, PublishedWith, LinkName, AllTriedTaken, FirstFreeName;
    var c, at := fs.nodes[dir].seqcount % WORD, fs.devs[p].self.value;
    ScanTries(fs.nodes, dir, c, SEQ_NAMES);
    var (name, c') := Scan(fs.nodes, dir, c, SEQ_NAMES);
    if name.Some? {
      var n := ScanFirst(fs.nodes, dir, c, SEQ_NAMES);
      NumberName(fs, d, dir, name.value, n, c');
      WithEffect(fs, fs.(nodes := SetCount(fs.nodes, dir, c')), at, d, dir, name.value, c');
    }
  }

  lemma NumberName(fs: Fs, d: DevId, dir: NodeId, name: string, n: nat, count: nat)
    requires d in fs.devs && dir in fs.nodes && fs.devs[d].proto != CONSOLE && n < SEQ_NAMES
    requires var c := fs.nodes[dir].seqcount % WORD;
             && FirstFreeName(fs.nodes, dir, c, n, name)
             && count == if c + n + 1 < WORD then c + n + 1 else c + n + 1 - WORD
    ensures LinkName(fs, d, dir, name, count)
  {
    hide FirstFreeName;
  }

  /** A device without nodes, its class directory and another node to publish under. */
  ghost predicate LinkReady(fs: Fs, at: NodeId, d: DevId, dir: NodeId) {
    && d in fs.devs && at in fs.nodes && dir in fs.nodes && at != dir && fs.devs[d].link.None?
    && fs.devs[d].proto in fs.protos && fs.protos[fs.devs[d].proto] == dir
    && forall n :: n in fs.nodes ==> n < fs.nextIno
  }

  lemma WithEffect(fs: Fs, fs1: Fs, at: NodeId, d: DevId, dir: NodeId, name: string, count: nat)
    requires LinkReady(fs, at, d, dir) && LinkName(fs, d, dir, name, count)
    requires fs1 == fs.(nodes := fs.nodes[dir := fs.nodes[dir].(seqcount := count)])
    ensures var fs2 := AddLink(fs1, fs.nextIno + 1, dir, name, d).(nextIno := fs.nextIno + 2);
            && d in fs2.devs && at in fs2.nodes
            && PublishedWith(fs, at, d, dir, PublishSelf(fs2, fs.nextIno, at, d))
  {
    hide LinkName, PublishSelf, NewNodes;
    var fs2 := AddLink(fs1, fs.nextIno + 1, dir, name, d).(nextIno := fs.nextIno + 2);
    SelfEffect(fs2, fs.nextIno, at, d);
    LinkNodesAre(fs, fs1, at, d, dir, name, count);
  }

  lemma LinkNodesAre(fs: Fs, fs1: Fs, at: NodeId, d: DevId, dir: NodeId, name: string, count: nat)
    requires LinkReady(fs, at, d, dir)
    requires fs1 == fs.(nodes := fs.nodes[dir := fs.nodes[dir].(seqcount := count)])
    ensures var fs2 := AddLink(fs1, fs.nextIno + 1, dir, name, d).(nextIno := fs.nextIno + 2);
            && d in fs2.devs && at in fs2.nodes
            && NewNodes(fs, at, d, Some(dir), name, count, AddSelf(fs2, fs.nextIno, at, d))
  {
    hide Insert, AddLink, AddSelf;
    var k := fs.nextIno;
    LinkDevsAre(fs1, k, at, d, dir, name);
    var nodes2 := Insert(fs1.nodes, k + 1, dir, name, Some(d));
    InsertIs(fs1.nodes, k + 1, dir, name, Some(d));
    InsertIs(nodes2, k, at, fs.devs[d].name, Some(d));
    assert forall n :: n in fs.nodes ==> fs.nodes[n].children + [] == fs.nodes[n].children;
  }

  lemma LinkDevsAre(fs: Fs, k: NodeId, at: NodeId, d: DevId, dir: NodeId, name: string)
    requires d in fs.devs && dir in fs.nodes && at in fs.nodes
    ensures var fs2 := AddLink(fs, k + 1, dir, name, d).(nextIno := k + 2);
            && fs2.nodes == Insert(fs.nodes, k + 1, dir, name, Some(d))
            && d in fs2.devs && at in fs2.nodes
            && var fs' := AddSelf(fs2, k, at, d);
            && fs'.nodes == Insert(fs2.nodes, k, at, fs.devs[d].name, Some(d))
            && fs'.devs == fs.devs[d := fs.devs[d].(self := Some(k), link := Some(k + 1))]
            && fs'.protos == fs.protos && fs'.nextIno == k + 2
  {
  }

  lemma InsertIs(nodes: map<NodeId, Node>, n: NodeId, p: NodeId, name: string, dev: Option<DevId>)
    requires p in nodes && n !in nodes
    ensures var nodes' := Insert(nodes, n, p, name, dev);
            && nodes'.Keys == nodes.Keys + {n} && nodes'[n] == Node(name, dev, Some(p), [], None, 0)
            && nodes'[p] == nodes[p].(children := nodes[p].children + [n])
            && forall m :: m in nodes && m != p ==> nodes'[m] == nodes[m]
  {
  }

  /** The last part of devfs_publish, for a device that may have its link. */
  lemma SelfEffect(fs: Fs, n: NodeId, at: NodeId, d: DevId)
    requires d in fs.devs && at in fs.nodes && n !in fs.nodes
    requires fs.devs[d].link.Some? ==> fs.devs[d].link.value in fs.nodes && fs.devs[d].proto in fs.protos
    ensures var r, dev := PublishSelf(fs, n, at, d), fs.devs[d];
            && r.Ok? && r.fs == AddSelf(fs, n, at, d)
            && r.events == if dev.invisible then []
                 else (if dev.link.Some? then Said(fs.protos[dev.proto], ADDED, fs.nodes[dev.link.value].name) else [])
                      + Said(at, ADDED, dev.name)
  {
    AdvertiseEffect(AddSelf(fs, n, at, d), d, [ADDED]);
    hide Advertise;
    OneSaid(at, ADDED, fs.devs[d].name);
    if fs.devs[d].link.Some? { OneSaid(fs.protos[fs.devs[d].proto], ADDED, fs.nodes[fs.devs[d].link.value].name); }
  }

  lemma PlainEffect(fs: Fs, at: NodeId, d: DevId)
    requires d in fs.devs && at in fs.nodes && fs.devs[d].link.None? && forall n :: n in fs.nodes ==> n < fs.nextIno
    ensures PublishedPlain(fs, at, d, PublishSelf(fs.(nextIno := fs.nextIno + 1), fs.nextIno, at, d))
  {
    var fs1 := fs.(nextIno := fs.nextIno + 1);
    SelfEffect(fs1, fs.nextIno, at, d);
    hide PublishSelf;
    assert forall n :: n in fs.nodes ==> fs.nodes[n].children + [] == fs.nodes[n].children;
    assert [] + Said(at, ADDED, fs.devs[d].name) == Said(at, ADDED, fs.devs[d].name);
  }

  // ----- announcing

  /** Each operation is told in turn. */
  function AllSaid(dir: NodeId, ops: seq<Op>, name: string): seq<Event> {
    if ops == [] then [] else Said(dir, ops[0], name) + AllSaid(dir, ops[1..], name)
  }

  lemma {:induction false} TellSays(dir: NodeId, ops: seq<Op>, name: string)
    ensures Tell(dir, ops, name) == AllSaid(dir, ops, name)
  {
    if ops == [] {
    } else {
      TellSays(dir, ops[1..], name);
    }
  }

  lemma OneSaid(dir: NodeId, op: Op, name: string)
    ensures AllSaid(dir, [op], name) == Said(dir, op, name)
  {
    assert AllSaid(dir, [op][1..], name) == [];
  }

  /** A published device whose link and parent are there is announced in its
      class directory, by the name of the link, and then in the directory of
      its node, by its own name. */
  lemma AdvertiseEffect(fs: Fs, d: DevId, ops: seq<Op>)
    requires d in fs.devs && fs.devs[d].self.Some? && fs.devs[d].self.value in fs.nodes
    requires fs.devs[d].link.Some? ==> fs.devs[d].link.value in fs.nodes && fs.devs[d].proto in fs.protos
    requires fs.nodes[fs.devs[d].self.value].parent.Some? ==> fs.nodes[fs.devs[d].self.value].parent.value in fs.nodes
    ensures var dev, own := fs.devs[d], fs.nodes[fs.devs[d].self.value];
            Advertise(fs, d, ops) == Ok(fs,
              (if dev.link.Some? then AllSaid(fs.protos[dev.proto], ops, fs.nodes[dev.link.value].name) else [])
              + if own.parent.Some? then AllSaid(own.parent.value, ops, own.name) else [])
  {
    var dev, own := fs.devs[d], fs.nodes[fs.devs[d].self.value];
    if dev.link.Some? { TellSays(fs.protos[dev.proto], ops, fs.nodes[dev.link.value].name); }
    if own.parent.Some? { TellSays(own.parent.value, ops, own.name); }
    hide Tell, AllSaid;
  }

  /** What is said of a published device with its link and its parent. */
  ghost function Spoken(fs: Fs, d: DevId, ops: seq<Op>): seq<Event>
    requires Inv(fs) && d in fs.devs && fs.devs[d].self.Some?
  {
    var dev := fs.devs[d];
    assert OwnedAt(fs, d);
    var own := fs.nodes[dev.self.value];
    (if dev.link.Some? then AllSaid(fs.protos[dev.proto], ops, fs.nodes[dev.link.value].name) else [])
    + if own.parent.Some? then AllSaid(own.parent.value, ops, own.name) else []
  }

  /** A device that is there: it has a node, and the node's parent, if any, is
      live. */
  ghost predicate Speakable(fs: Fs, d: DevId) {
    && d in fs.devs && fs.devs[d].self.Some? && fs.devs[d].self.value in fs.nodes
    && var p := fs.nodes[fs.devs[d].self.value].parent;
    p.Some? ==> p.value in fs.nodes
  }

  /** Making a device visible changes nothing else and tells it once; nothing
      happens if it is not ready or visible already. */
  lemma VisibleEffect(fs: Fs, d: DevId, ready: bool)
    requires Inv(fs) && d in fs.devs
    ensures var r := MakeVisible(fs, d, ready);
            if !ready || !fs.devs[d].invisible then r == Ok(fs, [])
            else if !Speakable(fs, d) then r == Broken
            else r == Ok(fs.(devs := fs.devs[d := fs.devs[d].(invisible := false)]), Spoken(fs, d, [ADDED]))
  {
    assert OwnedAt(fs, d);
    hide Inv, AllSaid, Tell;
    if ready && fs.devs[d].invisible && Speakable(fs, d) {
      AdvertiseEffect(fs.(devs := fs.devs[d := fs.devs[d].(invisible := false)]), d, [ADDED]);
    }
  }

  /** A modification is told as a removal and an addition. */
  lemma ModifiedEffect(fs: Fs, d: DevId)
    requires Inv(fs) && d in fs.devs
    ensures AdvertiseModified(fs, d) ==
              if Speakable(fs, d) then Ok(fs, Spoken(fs, d, [REMOVED, ADDED])) else Broken
  {
    assert OwnedAt(fs, d);
    hide Inv, AllSaid, Tell;
    if Speakable(fs, d) { AdvertiseEffect(fs, d, [REMOVED, ADDED]); }
  }

  // ----- unpublishing

  /** What is said of the device's own node: its watchers learn that it is
      deleted, and those of the parent device's directory of the name that went;
      nothing if the device is invisible. */
  ghost function SelfGone(fs: Fs, d: DevId, n: NodeId): seq<Event>
    requires d in fs.devs && n in fs.nodes
  {
    var dev := fs.devs[d];
    if dev.invisible then [Gone(n)]
    else [Told(n, DELETED, "")]
         + (if dev.parent.Some? && dev.parent.value in fs.devs && dev.parent.value != d
               && fs.devs[dev.parent.value].self.Some?
            then Said(fs.devs[dev.parent.value].self.value, REMOVED, fs.nodes[n].name) else [])
         + [Gone(n)]
  }

  ghost function LinkGone(fs: Fs, d: DevId, n: NodeId): seq<Event>
    requires d in fs.devs && n in fs.nodes && fs.devs[d].proto in fs.protos
  {
    if fs.devs[d].invisible then [Gone(n)]
    else [Told(n, DELETED, "")] + Said(fs.protos[fs.devs[d].proto], REMOVED, fs.nodes[n].name) + [Gone(n)]
  }

  /** Freeing a node without a device, a device's own node or its link. */
  lemma RemoveEffect(fs: Fs, n: NodeId)
    requires Inv(fs) && n in fs.nodes && forall pr :: pr in fs.protos ==> fs.protos[pr] != n
    ensures Remove(fs, n).Ok?
    ensures var r, dev := Remove(fs, n), fs.nodes[n].dev;
            if dev.None? then r.events == [Told(n, DELETED, ""), Gone(n)]
            else
              && dev.value in fs.devs && fs.devs[dev.value].(self := None, link := None) ==
                                         r.fs.devs[dev.value].(self := None, link := None)
              && (fs.devs[dev.value].self == Some(n) ==> r.events == SelfGone(fs, dev.value, n))
              && (fs.devs[dev.value].link == Some(n) ==>
                    fs.devs[dev.value].proto in fs.protos && r.events == LinkGone(fs, dev.value, n))
  {
    hide Inv, InContainer, Delete, Freed, ParentSelf;
    RemoveInv(fs, n);
    var dev := fs.nodes[n].dev;
    if dev.Some? {
      OwnerOf(fs, n);
      if fs.devs[dev.value].self == Some(n) { ParentBefore(fs, n, fs.devs[dev.value]); }
    }
  }

  lemma OwnerOf(fs: Fs, n: NodeId)
    requires Inv(fs) && n in fs.nodes && fs.nodes[n].dev.Some?
    ensures fs.nodes[n].dev.value in fs.devs
    ensures var dev := fs.devs[fs.nodes[n].dev.value];
            && (dev.self == Some(n) ==> dev.link != Some(n)) && (dev.self == Some(n) || dev.link == Some(n))
            && (dev.link == Some(n) ==> dev.proto in fs.protos)
  {
    assert OwnedAt(fs, fs.nodes[n].dev.value);
  }

  /** The parent's node is looked up after the device has forgotten its own. */
  lemma ParentBefore(fs: Fs, n: NodeId, dev: Dev)
    requires n in fs.nodes && fs.nodes[n].dev.Some? && fs.nodes[n].dev.value in fs.devs
    requires dev == fs.devs[fs.nodes[n].dev.value] && dev.self == Some(n)
    ensures var d := fs.nodes[n].dev.value;
            forall fs1: Fs :: fs1.devs == fs.devs[d := Released(dev, n)] ==>
              ParentSelf(fs1, dev) == if dev.parent.Some? && dev.parent.value in fs.devs && dev.parent.value != d
                                      then fs.devs[dev.parent.value].self else None
  {
  }

  /** Unpublishing a device tells of its own node first and then of its link. */
  lemma UnpublishEffect(fs: Fs, d: DevId)
    requires Inv(fs) && d in fs.devs
    ensures Unpublish(fs, d).Ok?
    ensures fs.devs[d].self.Some? ==> fs.devs[d].self.value in fs.nodes
    ensures fs.devs[d].link.Some? ==> fs.devs[d].link.value in fs.nodes && fs.devs[d].proto in fs.protos
    ensures Unpublish(fs, d).events ==
              (if fs.devs[d].self.Some? then SelfGone(fs, d, fs.devs[d].self.value) else [])
              + if fs.devs[d].link.Some? then LinkGone(fs, d, fs.devs[d].link.value) else []
  {
    assert OwnedAt(fs, d);
    OnlyOwn(fs, d);
    UnpublishInv(fs, d);
    var self, link := fs.devs[d].self, fs.devs[d].link;
    hide Inv, Remove, SelfGone, LinkGone;
    if self.Some? { RemoveEffect(fs, self.value); }
    RemoveIfInv(fs, d, self);
    var fs1 := RemoveIf(fs, self).fs;
    OnlyOwn(fs1, d);
    if link.Some? { RemoveEffect(fs1, link.value); }
  }
}
