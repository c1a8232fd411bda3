/** Directory watchers: devfs_notify, devfs_watch and what a client can make of
    the events. For a class directory that holds device links only, replaying
    the events gives the visible links. */
module DevfsWatch {
  import opened Common
  import opened Devfs
  import opened DevfsForest
  import opened DevfsExport
  import opened DevfsNames

  datatype Note = Note(op: Op, name: string)

  datatype Watcher = Watcher(dir: NodeId, mask: set<Op>, heard: seq<Note>)

  const ALL: set<Op> := {ADDED, REMOVED, DELETED, EXISTING, IDLE}

  /** The part of some events that a watcher of `dir` receives. */
  function Notes(events: seq<Event>, dir: NodeId, mask: set<Op>): seq<Note> {
    if events == [] then []
    else (if events[0].Told? && events[0].dir == dir && events[0].op in mask then [Note(events[0].op, events[0].name)]
          else [])
         + Notes(events[1..], dir, mask)
  }

  function Learn(known: set<string>, n: Note): set<string> {
    match n.op
    case ADDED => known + {n.name}
    case EXISTING => known + {n.name}
    case REMOVED => known - {n.name}
    case DELETED => known
    case IDLE => known
  }

  /** What a client knows after some more notes. */
  function Replay(known: set<string>, notes: seq<Note>): set<string>
    decreases |notes|
  {
    if notes == [] then known else Replay(Learn(known, notes[0]), notes[1..])
  }

  predicate Shows(fs: Fs, c: NodeId) {
    c in fs.nodes && (fs.nodes[c].dev.Some? ==>
                        fs.nodes[c].dev.value in fs.devs && !fs.devs[fs.nodes[c].dev.value].invisible)
  }

  ghost function VisibleNames(fs: Fs, dir: NodeId): set<string>
    requires dir in fs.nodes
  {
    Shown(fs, fs.nodes[dir].children)
  }

  // ----- sequences of notes

  lemma {:induction false} NotesAppend(a: seq<Event>, b: seq<Event>, dir: NodeId, mask: set<Op>)
    ensures Notes(a + b, dir, mask) == Notes(a, dir, mask) + Notes(b, dir, mask)
  {
    if a == [] {
      assert a + b == b;
    } else {
      assert (a + b)[0] == a[0] && (a + b)[1..] == a[1..] + b;
      NotesAppend(a[1..], b, dir, mask);
    }
  }

  lemma {:induction false} ReplayAppend(known: set<string>, a: seq<Note>, b: seq<Note>)
    ensures Replay(known, a + b) == Replay(Replay(known, a), b)
    decreases |a|
  {
    if a == [] {
      assert a + b == b;
    } else {
      assert (a + b)[0] == a[0] && (a + b)[1..] == a[1..] + b;
      ReplayAppend(Learn(known, a[0]), a[1..], b);
    }
  }

  // ----- registering

  /** devfs_watch: the visible children are announced as existing. */
  function Announce(fs: Fs, list: seq<NodeId>): seq<Note> {
    if list == [] then []
    else (if Shows(fs, list[0])
          && |fs.nodes[list[0]].name| <= MAX_FILENAME then [Note(EXISTING, fs.nodes[list[0]].name)] else [])
         + Announce(fs, list[1..])
  }

  function Watch(fs: Fs, dir: NodeId, mask: set<Op>): Watcher
    requires dir in fs.nodes
  {
    Watcher(dir, mask,
            if EXISTING !in mask then []
            else Announce(fs, fs.nodes[dir].children) + if IDLE in mask then [Note(IDLE, "")] else [])
  }

  ghost function Shown(fs: Fs, list: seq<NodeId>): set<string> {
    set c | c in list && Shows(fs, c) :: fs.nodes[c].name
  }

  lemma ShownFirst(fs: Fs, list: seq<NodeId>)
    requires list != []
    ensures Shown(fs, list) == (if Shows(fs, list[0]) then {fs.nodes[list[0]].name} else {}) + Shown(fs, list[1..])
  {
  }

  lemma AnnounceStep(fs: Fs, list: seq<NodeId>, i: nat, heard: seq<Note>)
    requires i < |list|
    ensures var c, rest := list[i], Announce(fs, list[i + 1..]);
            heard + Announce(fs, list[i..]) ==
              (if Shows(fs, c) && |fs.nodes[c].name| <= MAX_FILENAME then heard + [Note(EXISTING, fs.nodes[c].name)]
               else heard) + rest
  {
  }

  lemma AnnounceNone(fs: Fs, list: seq<NodeId>)
    requires list == []
    ensures Announce(fs, list) == []
  {
  }

  /** devfs_watch: the loop over the children, then the end-of-existing mark. */
  method StartWatching(fs: Fs, dir: NodeId, mask: set<Op>) returns (w: Watcher)
    requires dir in fs.nodes
    ensures w == Watch(fs, dir, mask)
  {
    var heard: seq<Note> := [];
    if EXISTING in mask {
      hide Announce;
      var list, i := fs.nodes[dir].children, 0;
      assert list[0..] == list;
      while i < |list|
        invariant i <= |list| && heard + Announce(fs, list[i..]) == Announce(fs, list)
      {
        AnnounceStep(fs, list, i, heard);
        if Shows(fs, list[i]) && |fs.nodes[list[i]].name| <= MAX_FILENAME {
          heard := heard + [Note(EXISTING, fs.nodes[list[i]].name)];
        }
        i := i + 1;
      }
      AnnounceNone(fs, list[i..]);
      if IDLE in mask {
        heard := heard + [Note(IDLE, "")];
      }
    }
    return Watcher(dir, mask, heard);
  }

  lemma {:induction false} AnnounceAll(fs: Fs, list: seq<NodeId>, known: set<string>)
    requires forall c :: c in list && c in fs.nodes ==> |fs.nodes[c].name| <= MAX_FILENAME
    ensures Replay(known, Announce(fs, list)) == known + Shown(fs, list)
    decreases |list|
  {
    if list == [] {
      assert Shown(fs, list) == {};
    } else {
      ShownFirst(fs, list);
      var c := list[0];
      hide Shown;
      if Shows(fs, c) {
        AnnounceAll(fs, list[1..], known + {fs.nodes[c].name});
        assert Announce(fs, list)[0] == Note(EXISTING, fs.nodes[c].name)
               && Announce(fs, list)[1..] == Announce(fs, list[1..]);
      } else {
        AnnounceAll(fs, list[1..], known);
        assert Announce(fs, list) == Announce(fs, list[1..]);
      }
    }
  }

  /** A new all-events watcher knows exactly the visible names. */
  lemma WatchKnows(fs: Fs, dir: NodeId)
    requires dir in fs.nodes
    requires forall c :: c in fs.nodes[dir].children && c in fs.nodes ==> |fs.nodes[c].name| <= MAX_FILENAME
    ensures Replay({}, Watch(fs, dir, ALL).heard) == VisibleNames(fs, dir)
  {
    var list := fs.nodes[dir].children;
    AnnounceAll(fs, list, {});
    ReplayAppend({}, Announce(fs, list), [Note(IDLE, "")]);
  }

  // ----- masks

  /** What a watcher of `dir` hears of the events: each that was told of this
      directory and that it asked for, in order. */
  ghost predicate Hears(events: seq<Event>, dir: NodeId, mask: set<Op>, notes: seq<Note>)
    decreases |events|
  {
    if events == [] then notes == []
    else match events[0]
      case Gone(_) => Hears(events[1..], dir, mask, notes)
      case Told(at, op, name) =>
        if at != dir || op !in mask then Hears(events[1..], dir, mask, notes)
        else notes != [] && notes[0] == Note(op, name) && Hears(events[1..], dir, mask, notes[1..])
  }

  lemma {:induction false} NotesHeard(events: seq<Event>, dir: NodeId, mask: set<Op>)
    ensures Hears(events, dir, mask, Notes(events, dir, mask))
  {
    if events == [] {
    } else {
      NotesHeard(events[1..], dir, mask);
      var rest := Notes(events[1..], dir, mask);
      assert [] + rest == rest;
      if events[0].Told? { assert ([Note(events[0].op, events[0].name)] + rest)[1..] == rest; }
    }
  }

  /** A watcher is gone exactly with its directory; the others hear what they
      asked for, after what they have heard. */
  lemma DeliverEffect(watchers: map<nat, Watcher>, events: seq<Event>, w: nat)
    ensures var after := Deliver(watchers, events);
            && (w in after <==> w in watchers && Gone(watchers[w].dir) !in events)
            && (w in after ==>
                  exists notes :: && Hears(events, watchers[w].dir, watchers[w].mask, notes)
                                  && after[w] == Watcher(watchers[w].dir, watchers[w].mask, watchers[w].heard + notes))
  {
    if w in watchers { NotesHeard(events, watchers[w].dir, watchers[w].mask); }
  }

  /** One note for each node that has no device or a visible one, if its name
      is short enough. */
  ghost predicate Existing(fs: Fs, list: seq<NodeId>, notes: seq<Note>)
    decreases |list|
  {
    if list == [] then notes == []
    else if Tellable(fs, list[0]) then
      notes != [] && notes[0] == Note(EXISTING, fs.nodes[list[0]].name) && Existing(fs, list[1..], notes[1..])
    else Existing(fs, list[1..], notes)
  }

  ghost predicate Tellable(fs: Fs, c: NodeId) {
    && c in fs.nodes && |fs.nodes[c].name| <= 255
    && (fs.nodes[c].dev.None? || (fs.nodes[c].dev.value in fs.devs && !fs.devs[fs.nodes[c].dev.value].invisible))
  }

  lemma {:induction false} AnnounceIs(fs: Fs, list: seq<NodeId>)
    ensures Existing(fs, list, Announce(fs, list))
  {
    if list == [] {
    } else {
      AnnounceIs(fs, list[1..]);
      var rest := Announce(fs, list[1..]);
      assert [] + rest == rest;
      if Tellable(fs, list[0]) { assert ([Note(EXISTING, fs.nodes[list[0]].name)] + rest)[1..] == rest; }
    }
  }

  /** A new watcher hears of what exists, and then that this was all, if and
      only if it asked for each. */
  lemma WatchEffect(fs: Fs, dir: NodeId, mask: set<Op>)
    requires dir in fs.nodes
    ensures var w := Watch(fs, dir, mask);
            && w.dir == dir && w.mask == mask
            && if EXISTING !in mask then w.heard == []
            else exists notes :: && Existing(fs, fs.nodes[dir].children, notes)
                                 && w.heard == notes + if IDLE in mask then [Note(IDLE, "")] else []
  {
    AnnounceIs(fs, fs.nodes[dir].children);
  }

  // ----- class directories

  /** A class directory that holds device links only, each under a sequence
      name, and that is no other device node's parent. */
  ghost predicate ClassOk(fs: Fs, pr: Proto) {
    && pr in fs.protos && pr !in {CONSOLE, MISC, TEST_PARENT}
    && (forall q :: q in fs.protos && fs.protos[q] == fs.protos[pr] ==> q == pr)
    && DistinctAt(fs.nodes, fs.protos[pr])
    && (forall c :: c in fs.nodes[fs.protos[pr]].children ==> LinkChild(fs, c))
    && (forall d :: d in fs.devs && fs.devs[d].self.Some? && fs.devs[d].self.value in fs.nodes ==>
          fs.nodes[fs.devs[d].self.value].parent != Some(fs.protos[pr]))
  }

  ghost predicate LinkChild(fs: Fs, c: NodeId) {
    && c in fs.nodes && fs.nodes[c].dev.Some? && fs.nodes[c].dev.value in fs.devs
    && fs.devs[fs.nodes[c].dev.value].link == Some(c) && IsSeqName(fs.nodes[c].name)
  }

  lemma SeqNameShort(name: string)
    requires IsSeqName(name)
    ensures |name| == 3
  {
  }

  lemma TellNotes(dir: NodeId, op: Op, name: string, q: NodeId)
    ensures Notes(Tell(dir, [op], name), q, ALL) == if dir == q && |name| <= MAX_FILENAME then [Note(op, name)] else []
  {
  }

  // ----- what publishing says

  /** The shape of a successful devfs_publish: the new nodes, the device's
      references to them, and the announcements. */
  ghost predicate PublishedAs(fs: Fs, at: NodeId, d: DevId, name: string, fs': Fs, events: seq<Event>) {
    PutAs(fs, at, d, name, fs') && SaidAs(fs, at, d, name, events)
  }

  ghost predicate SaidAs(fs: Fs, at: NodeId, d: DevId, name: string, events: seq<Event>) {
    d in fs.devs &&
    var dir, r := ClassDir(fs, d), fs.devs[d];
    events == (if r.invisible then []
               else (if dir.Some? then Tell(dir.value, [ADDED], name) else []) + Tell(at, [ADDED], r.name))
  }

  ghost predicate PutAs(fs: Fs, at: NodeId, d: DevId, name: string, fs': Fs) {
    && d in fs.devs && at in fs.nodes && fs.nodes.Keys <= fs'.nodes.Keys
    && var k, dir, r := fs.nextIno, ClassDir(fs, d), fs.devs[d];
    && fs'.protos == fs.protos
    && fs'.devs == fs.devs[d := r.(self := Some(k), link := if dir.Some? then Some(k + 1) else r.link)]
    && (forall n :: n in fs.nodes ==>
          && fs'.nodes[n].name == fs.nodes[n].name && fs'.nodes[n].dev == fs.nodes[n].dev
          && fs'.nodes[n].parent == fs.nodes[n].parent
          && (n != at ==> fs'.nodes[n].children == fs.nodes[n].children + if dir == Some(n) then [k + 1] else []))
    && (dir.Some? ==> k + 1 in fs'.nodes && fs'.nodes[k + 1].name == name && fs'.nodes[k + 1].dev == Some(d))
    && (dir.Some? && r.proto != CONSOLE ==> IsSeqName(name))
    && k in fs'.nodes && fs'.nodes[k].parent == Some(at)
  }

  lemma PublishSays(fs: Fs, p: DevId, d: DevId) returns (name: string)
    requires Inv(fs) && p in fs.devs && d in fs.devs && Publish(fs, p, d).Ok?
    ensures fs.devs[p].self.Some? && fs.devs[p].self.value in fs.nodes && fs.devs[d].self.None? && fs.devs[d].link.None?
    ensures PublishedAs(fs, fs.devs[p].self.value, d, name, Publish(fs, p, d).fs, Publish(fs, p, d).events)
  {
    hide Inv, Scan, PublishSelf, AddLink, SetCount, IsSeqName, PublishedAs;
    var k, at, dir := fs.nextIno, fs.devs[p].self.value, ClassDir(fs, d);
    PublishReady(fs, p, d);
    NotAtClassDir(fs, p, d);
    if dir.None? {
      name := "";
      SelfSays(fs, fs.(nextIno := k + 1), at, d, dir, name);
    } else if fs.devs[d].proto == CONSOLE {
      name := fs.devs[d].name;
      LinkSays(fs, fs, dir.value, name, at, d);
    } else {
      var (found, c) := Scan(fs.nodes, dir.value, fs.nodes[dir.value].seqcount % WORD, SEQ_NAMES);
      name := found.value;
      CountKeeps(fs, dir.value, c);
      LinkSays(fs, fs.(nodes := SetCount(fs.nodes, dir.value, c)), dir.value, name, at, d);
    }
  }

  lemma NotAtClassDir(fs: Fs, p: DevId, d: DevId)
    requires Inv(fs) && p in fs.devs && d in fs.devs && fs.devs[p].self.Some?
    ensures ClassDir(fs, d) != fs.devs[p].self
  {
  }

  /** Nodes as in `fs` but for counters. */
  ghost predicate SameNodes(fs: Fs, fs1: Fs) {
    && fs1.nodes.Keys == fs.nodes.Keys && fs1.devs == fs.devs && fs1.protos == fs.protos
    && forall n :: n in fs.nodes ==> fs1.nodes[n].(seqcount := fs.nodes[n].seqcount) == fs.nodes[n]
  }

  lemma SelfSays(fs: Fs, fs1: Fs, at: NodeId, d: DevId, dir: Option<NodeId>, name: string)
    requires d in fs.devs && at in fs.nodes && SameNodes(fs, fs1) && ClassDir(fs, d).None?
    requires fs.devs[d].link.None? && (forall n :: n in fs.nodes ==> n < fs.nextIno)
    ensures var r := PublishSelf(fs1, fs.nextIno, at, d); r.Ok? ==> PublishedAs(fs, at, d, name, r.fs, r.events)
  {
  }

  lemma LinkSays(fs: Fs, fs1: Fs, dir: NodeId, name: string, at: NodeId, d: DevId)
    requires d in fs.devs && at in fs.nodes && SameNodes(fs, fs1) && dir in fs.nodes && dir != at
    requires (forall n :: n in fs.nodes ==> n < fs.nextIno)
    requires ClassDir(fs, d) == Some(dir) && fs.devs[d].link.None? && (fs.devs[d].proto != CONSOLE ==> IsSeqName(name))
    ensures var fs2 := AddLink(fs1, fs.nextIno + 1, dir, name, d).(nextIno := fs.nextIno + 2);
            && at in fs2.nodes && d in fs2.devs
            && var r := PublishSelf(fs2, fs.nextIno, at, d);
            r.Ok? ==> PublishedAs(fs, at, d, name, r.fs, r.events)
  {
    LinkPut(fs, fs1, dir, name, at, d);
    LinkSaid(fs, fs1, dir, name, at, d);
    hide IsSeqName, PutAs, SaidAs, AddLink, AddSelf;
  }

  lemma LinkPut(fs: Fs, fs1: Fs, dir: NodeId, name: string, at: NodeId, d: DevId)
    requires d in fs.devs && at in fs.nodes && SameNodes(fs, fs1) && dir in fs.nodes && dir != at
    requires (forall n :: n in fs.nodes ==> n < fs.nextIno)
    requires ClassDir(fs, d) == Some(dir) && fs.devs[d].link.None? && (fs.devs[d].proto != CONSOLE ==> IsSeqName(name))
    ensures var fs2 := AddLink(fs1, fs.nextIno + 1, dir, name, d).(nextIno := fs.nextIno + 2);
            at in fs2.nodes && d in fs2.devs && PutAs(fs, at, d, name, AddSelf(fs2, fs.nextIno, at, d))
  {
    hide IsSeqName, AddLink, AddSelf;
    LinkDevs(fs, fs1, dir, name, at, d);
    LinkNodes(fs, fs1, dir, name, at, d);
  }

  lemma LinkDevs(fs: Fs, fs1: Fs, dir: NodeId, name: string, at: NodeId, d: DevId)
    requires d in fs.devs && fs1.devs == fs.devs && fs1.protos == fs.protos && dir in fs1.nodes
    ensures var fs2 := AddLink(fs1, fs.nextIno + 1, dir, name, d).(nextIno := fs.nextIno + 2);
            && d in fs2.devs
            && (at in fs2.nodes ==>
                  && AddSelf(fs2, fs.nextIno, at, d).protos == fs.protos
                  && AddSelf(fs2, fs.nextIno, at, d).devs ==
                       fs.devs[d := fs.devs[d].(self := Some(fs.nextIno), link := Some(fs.nextIno + 1))])
  {
    hide Insert;
  }

  lemma LinkNodes(fs: Fs, fs1: Fs, dir: NodeId, name: string, at: NodeId, d: DevId)
    requires d in fs.devs && at in fs.nodes && SameNodes(fs, fs1) && dir in fs.nodes && dir != at
    requires forall n :: n in fs.nodes ==> n < fs.nextIno
    ensures var k := fs.nextIno;
            var fs2 := AddLink(fs1, k + 1, dir, name, d).(nextIno := k + 2);
            && at in fs2.nodes && d in fs2.devs
            && var nodes := AddSelf(fs2, k, at, d).nodes;
               && fs.nodes.Keys <= nodes.Keys && k in nodes && k + 1 in nodes
               && nodes[k].parent == Some(at) && nodes[k + 1].name == name && nodes[k + 1].dev == Some(d)
               && forall n :: n in fs.nodes ==>
                    && nodes[n].name == fs.nodes[n].name && nodes[n].dev == fs.nodes[n].dev
                    && nodes[n].parent == fs.nodes[n].parent
                    && (n != at ==> nodes[n].children == fs.nodes[n].children + if n == dir then [k + 1] else [])
  {
    hide Insert;
    var k := fs.nextIno;
    var fs2 := AddLink(fs1, k + 1, dir, name, d).(nextIno := k + 2);
    InsertFrame(fs1.nodes, k + 1, dir, name, Some(d));
    InsertFrame(fs2.nodes, k, at, fs.devs[d].name, Some(d));
  }

  lemma InsertFrame(nodes: map<NodeId, Node>, n: NodeId, p: NodeId, name: string, dev: Option<DevId>)
    requires p in nodes && n !in nodes
    ensures var nodes' := Insert(nodes, n, p, name, dev);
            && nodes'.Keys == nodes.Keys + {n} && nodes'[n] == Node(name, dev, Some(p), [], None, 0)
            && forall m :: m in nodes ==>
                 nodes'[m] == nodes[m].(children := nodes[m].children + if m == p then [n] else [])
  {
  }

  lemma LinkSaid(fs: Fs, fs1: Fs, dir: NodeId, name: string, at: NodeId, d: DevId)
    requires d in fs.devs && at in fs.nodes && SameNodes(fs, fs1) && dir in fs.nodes && dir != at
    requires (forall n :: n in fs.nodes ==> n < fs.nextIno) && ClassDir(fs, d) == Some(dir)
    ensures var fs2 := AddLink(fs1, fs.nextIno + 1, dir, name, d).(nextIno := fs.nextIno + 2);
            && at in fs2.nodes && d in fs2.devs
            && var r := PublishSelf(fs2, fs.nextIno, at, d);
               r.Ok? ==> r.fs == AddSelf(fs2, fs.nextIno, at, d) && SaidAs(fs, at, d, name, r.events)
  {
    hide Tell;
  }

  /** Replaying the events of an operation takes a client from the visible
      names before it to those after it. */
  ghost predicate Tracks(fs: Fs, events: seq<Event>, fs': Fs, dir: NodeId) {
    dir in fs.nodes && dir in fs'.nodes
    && Replay(VisibleNames(fs, dir), Notes(events, dir, ALL)) == VisibleNames(fs', dir)
  }

  /** Nodes of a list look the same in two states. */
  ghost predicate Alike(fs: Fs, fs': Fs, list: seq<NodeId>) {
    forall c :: c in list ==>
      c in fs.nodes && c in fs'.nodes && fs'.nodes[c].name == fs.nodes[c].name && (Shows(fs', c) <==> Shows(fs, c))
  }

  lemma ShownAlike(fs: Fs, fs': Fs, list: seq<NodeId>)
    requires Alike(fs, fs', list)
    ensures Shown(fs', list) == Shown(fs, list)
  {
  }

  lemma ShownAppend(fs: Fs, list: seq<NodeId>, c: NodeId)
    ensures Shown(fs, list + [c]) == Shown(fs, list) + if Shows(fs, c) then {fs.nodes[c].name} else {}
  {
  }

  lemma OneNote(known: set<string>, n: Note)
    ensures Replay(known, [n]) == Learn(known, n) && Replay(known, []) == known
  {
  }

  lemma PublishTracks(fs: Fs, p: DevId, d: DevId, pr: Proto)
    requires Inv(fs) && ClassOk(fs, pr) && p in fs.devs && d in fs.devs && Publish(fs, p, d).Ok?
    ensures Tracks(fs, Publish(fs, p, d).events, Publish(fs, p, d).fs, fs.protos[pr])
  {
    hide Publish, Inv, Notes, Tell, Replay;
    var name := PublishSays(fs, p, d);
    NotAtClass(fs, p, pr);
    LinkTracks(fs, fs.devs[p].self.value, d, name, Publish(fs, p, d).fs, Publish(fs, p, d).events, pr);
  }

  lemma LinkTracks(fs: Fs, at: NodeId, d: DevId, name: string, fs': Fs, events: seq<Event>, pr: Proto)
    requires ClassOk(fs, pr) && PublishedAs(fs, at, d, name, fs', events) && at != fs.protos[pr]
    requires fs.devs[d].link.None?
    ensures Tracks(fs, events, fs', fs.protos[pr])
  {
    var q, list := fs.protos[pr], fs.nodes[fs.protos[pr]].children;
    hide Notes, Tell, Replay, Shown, LinkChild, PublishedAs, ClassOk, IsSeqName;
    var known := Shown(fs, list);
    PublishNotes(fs, at, d, name, fs', events, pr);
    LinksAlike(fs, at, d, name, fs', events, pr);
    ShownAlike(fs, fs', list);
    ShownAppend(fs', list, fs.nextIno + 1);
    OneNote(known, Note(ADDED, name));
  }

  lemma PublishNotes(fs: Fs, at: NodeId, d: DevId, name: string, fs': Fs, events: seq<Event>, pr: Proto)
    requires ClassOk(fs, pr) && PublishedAs(fs, at, d, name, fs', events) && at != fs.protos[pr]
    ensures var mine := ClassDir(fs, d) == Some(fs.protos[pr]);
            && Notes(events, fs.protos[pr], ALL) == (if mine && !fs.devs[d].invisible then [Note(ADDED, name)] else [])
            && (mine ==> IsSeqName(name) && fs.nextIno + 1 in fs'.nodes && fs'.nodes[fs.nextIno + 1].name == name
                         && (Shows(fs', fs.nextIno + 1) <==> !fs.devs[d].invisible))
            && fs.protos[pr] in fs'.nodes
            && fs'.nodes[fs.protos[pr]].children == fs.nodes[fs.protos[pr]].children + if mine then [fs.nextIno + 1]
                     else []
  {
    var q, dir := fs.protos[pr], ClassDir(fs, d);
    if dir == Some(q) { SeqNameShort(name); }
    hide IsSeqName, Tell;
    if !fs.devs[d].invisible {
      TellNotes(at, ADDED, fs.devs[d].name, q);
      if dir.Some? {
        TellNotes(dir.value, ADDED, name, q);
        NotesAppend(Tell(dir.value, [ADDED], name), Tell(at, [ADDED], fs.devs[d].name), q, ALL);
      } else {
        assert [] + Tell(at, [ADDED], fs.devs[d].name) == Tell(at, [ADDED], fs.devs[d].name);
      }
    }
  }

  lemma LinksAlike(fs: Fs, at: NodeId, d: DevId, name: string, fs': Fs, events: seq<Event>, pr: Proto)
    requires ClassOk(fs, pr) && PublishedAs(fs, at, d, name, fs', events)
    ensures Alike(fs, fs', fs.nodes[fs.protos[pr]].children)
  {
    hide Tell;
    forall c | c in fs.nodes[fs.protos[pr]].children ensures c in fs'.nodes && (Shows(fs', c) <==> Shows(fs, c)) {
      assert LinkChild(fs, c);
    }
  }

  lemma PublishClassOk(fs: Fs, p: DevId, d: DevId, pr: Proto)
    requires Inv(fs) && ClassNames(fs) && ClassOk(fs, pr) && p in fs.devs && d in fs.devs && Publish(fs, p, d).Ok?
    ensures ClassOk(Publish(fs, p, d).fs, pr)
  {
    hide Publish, Inv, ClassNames, DistinctAt, ClassOk, PublishedAs;
    ClassThere(fs, pr);
    PublishNames(fs, p, d, pr);
    var name := PublishSays(fs, p, d);
    NotAtClass(fs, p, pr);
    SelvesAreNodes(fs);
    PublishedOk(fs, fs.devs[p].self.value, d, name, Publish(fs, p, d).fs, Publish(fs, p, d).events, pr);
  }

  lemma ClassThere(fs: Fs, pr: Proto)
    requires ClassOk(fs, pr)
    ensures pr in fs.protos && pr != CONSOLE
  {
  }

  lemma PublishedOk(fs: Fs, at: NodeId, d: DevId, name: string, fs': Fs, events: seq<Event>, pr: Proto)
    requires ClassOk(fs, pr) && PublishedAs(fs, at, d, name, fs', events) && pr in fs.protos
    requires at != fs.protos[pr] && fs.devs[d].link.None?
    requires DistinctAt(fs'.nodes, fs.protos[pr])
    requires forall x :: x in fs.devs && fs.devs[x].self.Some? ==> fs.devs[x].self.value in fs.nodes
    ensures ClassOk(fs', pr)
  {
    hide Tell, IsSeqName, DistinctAt;
    assert fs.protos[pr] in fs.nodes by { DistinctHere(fs.nodes, fs.protos[pr]); }
    forall c | c in fs'.nodes[fs'.protos[pr]].children ensures LinkChild(fs', c) {
      if c in fs.nodes[fs.protos[pr]].children { assert LinkChild(fs, c); }
    }
  }

  lemma DistinctHere(nodes: map<NodeId, Node>, q: NodeId)
    requires DistinctAt(nodes, q)
    ensures q in nodes
  {
  }

  lemma SelvesAreNodes(fs: Fs)
    requires Inv(fs)
    ensures forall d :: d in fs.devs && fs.devs[d].self.Some? ==> fs.devs[d].self.value in fs.nodes
  {
  }

  // ----- what unpublishing says

  /** Freeing a device's node tells a class directory at most that its link is
      gone. */
  lemma RemoveNotes(fs: Fs, n: NodeId, pr: Proto)
    requires Inv(fs) && pr in fs.protos && n in fs.nodes && fs.nodes[n].dev.Some? && Remove(fs, n).Ok?
    ensures fs.nodes[n].dev.value in fs.devs
    ensures var dev := fs.devs[fs.nodes[n].dev.value];
            Notes(Remove(fs, n).events, fs.protos[pr], ALL) ==
              if && !dev.invisible && dev.link == Some(n) && dev.proto in fs.protos
                 && fs.protos[dev.proto] == fs.protos[pr] && |fs.nodes[n].name| <= MAX_FILENAME
              then [Note(REMOVED, fs.nodes[n].name)] else []
  {
    var q, d := fs.protos[pr], fs.nodes[n].dev.value;
    var dev := fs.devs[d];
    assert n != q;
    ParentNotClass(fs, d, n, pr);
    hide Inv, Delete, InContainer, Notes, NotifyName;
    var fs1 := fs.(nodes := Delete(fs.nodes, n), devs := fs.devs[d := Released(dev, n)]);
    var up := ParentSelf(fs1, dev);
    var b := if dev.self == Some(n) && up.Some? then NotifyName(up.value, REMOVED, fs.nodes[n].name) else [];
    var c := if dev.link == Some(n)
    && dev.proto in fs.protos then NotifyName(fs.protos[dev.proto], REMOVED, fs.nodes[n].name) else [];
    NoNotes(q);
    GoneNotes(n, q);
    if up.Some? { NotifyNotes(up.value, REMOVED, fs.nodes[n].name, q); }
    if dev.proto in fs.protos { NotifyNotes(fs.protos[dev.proto], REMOVED, fs.nodes[n].name, q); }
    if !dev.invisible {
      NotesAppend([Told(n, DELETED, "")], b, q, ALL);
      NotesAppend([Told(n, DELETED, "")] + b, c, q, ALL);
      NotesAppend([Told(n, DELETED, "")] + b + c, [Gone(n)], q, ALL);
    }
  }

  lemma NotifyNotes(dir: NodeId, op: Op, name: string, q: NodeId)
    ensures Notes(NotifyName(dir, op, name), q, ALL) == if dir == q && |name| <= MAX_FILENAME then [Note(op, name)]
                                                        else []
  {
  }

  /** The watchers of a directory do not hear of another node's end. */
  lemma GoneNotes(n: NodeId, q: NodeId)
    requires n != q
    ensures Notes([Told(n, DELETED, "")], q, ALL) == [] && Notes([Gone(n)], q, ALL) == []
  {
  }

  lemma ParentNotClass(fs: Fs, d: DevId, n: NodeId, pr: Proto)
    requires Inv(fs) && d in fs.devs && pr in fs.protos
    ensures var fs1 := fs.(devs := fs.devs[d := Released(fs.devs[d], n)]);
            ParentSelf(fs1, fs.devs[d]) != Some(fs.protos[pr])
  {
  }

  /** The link of a device, if it hangs in the directory of `pr`. */
  function LinkIn(fs: Fs, d: DevId, pr: Proto): Option<NodeId>
    requires d in fs.devs
  {
    if fs.devs[d].proto == pr then fs.devs[d].link else None
  }

  /** Links of a class are children of its directory, and nothing else of
      their device is. */
  lemma LinkListed(fs: Fs, d: DevId, pr: Proto)
    requires Inv(fs) && ClassOk(fs, pr) && d in fs.devs
    ensures LinkIn(fs, d, pr).Some? ==>
              LinkIn(fs, d, pr).value in fs.nodes[fs.protos[pr]].children && LinkChild(fs, LinkIn(fs, d, pr).value)
              && fs.nodes[LinkIn(fs, d, pr).value].dev == Some(d)
    ensures forall c :: c in fs.nodes[fs.protos[pr]].children && fs.nodes[c].dev == Some(d) ==>
              LinkIn(fs, d, pr) == Some(c)
    ensures fs.devs[d].link.Some? ==>
              fs.devs[d].proto in fs.protos && (fs.protos[fs.devs[d].proto] == fs.protos[pr] <==>
                                                  fs.devs[d].proto == pr)
  {
  }

  lemma UnpublishNotes(fs: Fs, d: DevId, pr: Proto)
    requires Inv(fs) && ClassOk(fs, pr) && d in fs.devs && Unpublish(fs, d).Ok?
    ensures var link := LinkIn(fs, d, pr);
            && (link.Some? ==> link.value in fs.nodes)
            && Notes(Unpublish(fs, d).events, fs.protos[pr], ALL) ==
                 if link.Some? && !fs.devs[d].invisible then [Note(REMOVED, fs.nodes[link.value].name)] else []
  {
    var q, self := fs.protos[pr], fs.devs[d].self;
    hide Inv, RemoveIf, Notes, ClassOk, LinkChild;
    LinkListed(fs, d, pr);
    OnlyOwn(fs, d);
    RemoveIfInv(fs, d, self);
    var r1 := RemoveIf(fs, self);
    RemoveIfNotes(fs, d, self, pr);
    var link := r1.fs.devs[d].link;
    OnlyOwn(r1.fs, d);
    RemoveIfNotes(r1.fs, d, link, pr);
    if LinkIn(fs, d, pr).Some? { ShortLink(fs, link.value); }
    NotesAppend(r1.events, RemoveIf(r1.fs, link).events, q, ALL);
  }

  lemma RemoveIfNotes(fs: Fs, d: DevId, n: Option<NodeId>, pr: Proto)
    requires Inv(fs) && pr in fs.protos && d in fs.devs
    requires (n.Some? ==> n.value in fs.nodes && fs.nodes[n.value].dev == Some(d))
    ensures RemoveIf(fs, n).Ok?
    ensures var dev := fs.devs[d];
            Notes(RemoveIf(fs, n).events, fs.protos[pr], ALL) ==
              if && n.Some? && !dev.invisible && dev.link == n && dev.proto in fs.protos
                 && fs.protos[dev.proto] == fs.protos[pr] && |fs.nodes[n.value].name| <= MAX_FILENAME
              then [Note(REMOVED, fs.nodes[n.value].name)] else []
  {
    hide Inv, Remove, Notes;
    RemoveIfInv(fs, d, n);
    NoNotes(fs.protos[pr]);
    if n.Some? { RemoveNotes(fs, n.value, pr); }
  }

  lemma ShortLink(fs: Fs, c: NodeId)
    requires LinkChild(fs, c)
    ensures |fs.nodes[c].name| <= MAX_FILENAME
  {
  }

  lemma NoNotes(q: NodeId)
    ensures Notes([], q, ALL) == []
  {
  }

  lemma UnpublishTracks(fs: Fs, d: DevId, pr: Proto)
    requires Inv(fs) && ClassOk(fs, pr) && d in fs.devs && Unpublish(fs, d).Ok?
    ensures Tracks(fs, Unpublish(fs, d).events, Unpublish(fs, d).fs, fs.protos[pr])
  {
    var q, link, fs' := fs.protos[pr], LinkIn(fs, d, pr), Unpublish(fs, d).fs;
    hide Inv, Unpublish, Notes, Replay, LinkChild, ClassOk, Unlisted, Shown;
    UnpublishNotes(fs, d, pr);
    LinkListed(fs, d, pr);
    ClassIsNode(fs, pr);
    UnpublishUnlists(fs, d, pr);
    if link.Some? {
      OneNote(VisibleNames(fs, q), Note(REMOVED, fs.nodes[link.value].name));
      NameGone(fs, d, link.value, fs', pr);
    } else {
      OneNote(VisibleNames(fs, q), Note(IDLE, ""));
      SameShown(fs, d, fs', pr);
    }
  }

  lemma UnpublishUnlists(fs: Fs, d: DevId, pr: Proto)
    requires Inv(fs) && ClassOk(fs, pr) && d in fs.devs && Unpublish(fs, d).Ok?
    ensures var fs' := Unpublish(fs, d).fs; fs.protos[pr] in fs'.nodes && Unlisted(fs, d, fs', fs.protos[pr])
  {
    var q := fs.protos[pr];
    hide Inv, Unpublish, LinkChild, ClassOk, Without, NodesOf, Unlisted;
    UnpublishInv(fs, d);
    ClassNotOf(fs, d, pr);
    LinksNotOf(fs, d, pr);
    UnlistedFrom(fs, d, NodesOf(fs, d), Unpublish(fs, d).fs, q);
  }

  lemma UnlistedFrom(fs: Fs, d: DevId, gone: set<NodeId>, fs': Fs, q: NodeId)
    requires Without(fs, gone, fs') && q in fs.nodes && q !in gone && d in fs.devs
    requires fs'.devs == fs.devs[d := fs.devs[d].(self := None, link := None)]
    requires forall c :: c in fs.nodes[q].children ==> c in fs.nodes && (c in gone <==> fs.nodes[c].dev == Some(d))
    ensures q in fs'.nodes && Unlisted(fs, d, fs', q)
  {
  }

  lemma ClassNotOf(fs: Fs, d: DevId, pr: Proto)
    requires Inv(fs) && pr in fs.protos
    ensures fs.protos[pr] in fs.nodes && fs.protos[pr] !in NodesOf(fs, d)
  {
  }

  lemma LinksNotOf(fs: Fs, d: DevId, pr: Proto)
    requires Inv(fs) && ClassOk(fs, pr)
    ensures forall c :: c in fs.nodes[fs.protos[pr]].children ==>
              c in fs.nodes && (c in NodesOf(fs, d) <==> fs.nodes[c].dev == Some(d))
  {
  }

  /** The state after device `d` lost its nodes. */
  ghost predicate Unlisted(fs: Fs, d: DevId, fs': Fs, q: NodeId) {
    && q in fs.nodes && q in fs'.nodes && d in fs.devs
    && fs'.devs == fs.devs[d := fs.devs[d].(self := None, link := None)]
    && (forall c :: c in fs.nodes[q].children ==> c in fs.nodes)
    && (forall c :: c in fs'.nodes[q].children <==> c in fs.nodes[q].children && fs.nodes[c].dev != Some(d))
    && (forall c :: c in fs'.nodes[q].children ==>
          c in fs'.nodes && fs'.nodes[c].name == fs.nodes[c].name && fs'.nodes[c].dev == fs.nodes[c].dev)
  }

  lemma NameGone(fs: Fs, d: DevId, link: NodeId, fs': Fs, pr: Proto)
    requires ClassOk(fs, pr) && Unlisted(fs, d, fs', fs.protos[pr])
    requires link in fs.nodes[fs.protos[pr]].children && fs.nodes[link].dev == Some(d)
    requires forall c :: c in fs.nodes[fs.protos[pr]].children && fs.nodes[c].dev == Some(d) ==> c == link
    ensures var q := fs.protos[pr];
            VisibleNames(fs', q) == if fs.devs[d].invisible then VisibleNames(fs, q)
                                    else VisibleNames(fs, q) - {fs.nodes[link].name}
  {
  }

  lemma SameShown(fs: Fs, d: DevId, fs': Fs, pr: Proto)
    requires ClassOk(fs, pr) && Unlisted(fs, d, fs', fs.protos[pr])
    requires forall c :: c in fs.nodes[fs.protos[pr]].children ==> fs.nodes[c].dev != Some(d)
    ensures VisibleNames(fs', fs.protos[pr]) == VisibleNames(fs, fs.protos[pr])
  {
  }

  lemma UnpublishClassOk(fs: Fs, d: DevId, pr: Proto)
    requires Inv(fs) && ClassOk(fs, pr) && d in fs.devs && Unpublish(fs, d).Ok?
    ensures ClassOk(Unpublish(fs, d).fs, pr)
  {
    hide Inv, Unpublish, ClassOk;
    UnpublishInv(fs, d);
    SelvesAreNodes(fs);
    UnlistedOk(fs, d, Unpublish(fs, d).fs, pr);
  }

  lemma UnlistedOk(fs: Fs, d: DevId, fs': Fs, pr: Proto)
    requires Inv(fs) && ClassOk(fs, pr) && d in fs.devs && Without(fs, NodesOf(fs, d), fs')
    requires fs'.devs == fs.devs[d := fs.devs[d].(self := None, link := None)]
    requires forall x :: x in fs.devs && fs.devs[x].self.Some? ==> fs.devs[x].self.value in fs.nodes
    ensures ClassOk(fs', pr)
  {
    ClassNotOf(fs, d, pr);
    LinksNotOf(fs, d, pr);
    UnlistedLinks(fs, d, fs', fs.protos[pr]);
    hide Inv, LinkChild;
  }

  lemma UnlistedLinks(fs: Fs, d: DevId, fs': Fs, q: NodeId)
    requires q in fs.nodes && q in fs'.nodes && d in fs.devs && Without(fs, NodesOf(fs, d), fs')
    requires fs'.devs == fs.devs[d := fs.devs[d].(self := None, link := None)]
    requires forall c :: c in fs.nodes[q].children ==> LinkChild(fs, c)
    ensures forall c :: c in fs'.nodes[q].children ==> LinkChild(fs', c)
  {
  }

  // ----- what becoming visible says

  lemma AdvertNotes(fs: Fs, d: DevId, pr: Proto, ops: seq<Op>)
    requires Inv(fs) && ClassOk(fs, pr) && d in fs.devs && Advertise(fs, d, ops).Ok?
    ensures var link := LinkIn(fs, d, pr);
            && (link.Some? ==> link.value in fs.nodes)
            && Notes(Advertise(fs, d, ops).events, fs.protos[pr], ALL) ==
                 if link.Some? then Notes(Tell(fs.protos[pr], ops, fs.nodes[link.value].name), fs.protos[pr], ALL)
                   else []
  {
    var q, r := fs.protos[pr], fs.devs[d];
    LinkListed(fs, d, pr);
    SelvesAreNodes(fs);
    hide Inv, Notes, Tell;
    var own := fs.nodes[r.self.value];
    var a := if r.link.Some? then Tell(fs.protos[r.proto], ops, fs.nodes[r.link.value].name) else [];
    var b := if own.parent.Some? then Tell(own.parent.value, ops, own.name) else [];
    NoNotes(q);
    NotesAppend(a, b, q, ALL);
    if own.parent.Some? { TellElsewhere(own.parent.value, ops, own.name, q); }
    if r.link.Some? && r.proto != pr { TellElsewhere(fs.protos[r.proto], ops, fs.nodes[r.link.value].name, q); }
  }

  lemma {:induction false} TellElsewhere(dir: NodeId, ops: seq<Op>, name: string, q: NodeId)
    requires dir != q
    ensures Notes(Tell(dir, ops, name), q, ALL) == []
    decreases |ops|
  {
    if ops == [] {
    } else {
      TellElsewhere(dir, ops[1..], name, q);
      NotesAppend(NotifyName(dir, ops[0], name), Tell(dir, ops[1..], name), q, ALL);
      var ev := NotifyName(dir, ops[0], name);
      assert ev != [] ==> ev[1..] == [];
    }
  }

  lemma DevicesClassOk(fs: Fs, pr: Proto, devs': map<DevId, Dev>)
    requires ClassOk(fs, pr) && SameReferences(fs.devs, devs')
    ensures ClassOk(fs.(devs := devs'), pr)
  {
  }

  lemma VisibleTracks(fs: Fs, d: DevId, ready: bool, pr: Proto)
    requires Inv(fs) && ClassOk(fs, pr) && d in fs.devs && MakeVisible(fs, d, ready).Ok?
    ensures var r := MakeVisible(fs, d, ready);
            Tracks(fs, r.events, r.fs, fs.protos[pr]) && ClassOk(r.fs, pr) && Inv(r.fs)
  {
    var q := fs.protos[pr];
    hide Inv, Notes, Replay, Tell, LinkChild;
    ClassIsNode(fs, pr);
    OneNote(VisibleNames(fs, q), Note(IDLE, ""));
    NoNotes(q);
    if ready && fs.devs[d].invisible {
      var fs1 := fs.(devs := fs.devs[d := fs.devs[d].(invisible := false)]);
      DevicesInv(fs, fs1.devs);
      DevicesClassOk(fs, pr, fs1.devs);
      AdvertiseSafe(fs1, d, [ADDED]);
      AdvertNotes(fs1, d, pr, [ADDED]);
      LinkListed(fs, d, pr);
      var link := LinkIn(fs, d, pr);
      ShownVisible(fs, d, fs1, pr);
      if link.Some? {
        ShortLink(fs, link.value);
        TellNotes(q, ADDED, fs.nodes[link.value].name, q);
        OneNote(VisibleNames(fs, q), Note(ADDED, fs.nodes[link.value].name));
      }
    }
  }

  lemma ShownVisible(fs: Fs, d: DevId, fs': Fs, pr: Proto)
    requires Inv(fs) && ClassOk(fs, pr) && d in fs.devs
    requires fs' == fs.(devs := fs.devs[d := fs.devs[d].(invisible := false)])
    ensures var link := LinkIn(fs, d, pr);
            && (link.Some? ==> link.value in fs.nodes)
            && VisibleNames(fs', fs.protos[pr]) == VisibleNames(fs, fs.protos[pr]) + if link.Some?
                 then {fs.nodes[link.value].name} else {}
  {
    LinkListed(fs, d, pr);
    hide Inv, IsSeqName;
    var q := fs.protos[pr];
    forall c | c in fs.nodes[q].children
      ensures Shows(fs', c) <==> Shows(fs, c) || LinkIn(fs, d, pr) == Some(c)
    {
      assert LinkChild(fs, c);
    }
  }

  // ----- what a modification says

  /** devfs_advertise_modified sends Removed and Added. This agrees with what is
      visible exactly if the device is visible or has no link in the directory;
      for an invisible device the client comes to believe in its name. */
  lemma ModifiedTracks(fs: Fs, d: DevId, pr: Proto)
    requires Inv(fs) && ClassOk(fs, pr) && d in fs.devs && AdvertiseModified(fs, d).Ok?
    ensures Tracks(fs, AdvertiseModified(fs, d).events, fs, fs.protos[pr]) <==>
              LinkIn(fs, d, pr).None? || !fs.devs[d].invisible
  {
    var q := fs.protos[pr];
    hide Inv, Notes, Replay, LinkChild;
    ClassIsNode(fs, pr);
    AdvertNotes(fs, d, pr, [REMOVED, ADDED]);
    LinkListed(fs, d, pr);
    OneNote(VisibleNames(fs, q), Note(IDLE, ""));
    var link := LinkIn(fs, d, pr);
    if link.Some? {
      var name := fs.nodes[link.value].name;
      ShortLink(fs, link.value);
      TwoNotes(q, name, VisibleNames(fs, q));
      NameShows(fs, d, link.value, pr);
    }
  }

  lemma TwoNotes(q: NodeId, name: string, known: set<string>)
    requires |name| <= MAX_FILENAME
    ensures Replay(known, Notes(Tell(q, [REMOVED, ADDED], name), q, ALL)) == known + {name}
  {
    assert [REMOVED, ADDED][1..] == [ADDED];
    TellNotes(q, ADDED, name, q);
    NotesAppend([Told(q, REMOVED, name)], Tell(q, [ADDED], name), q, ALL);
    var first := [Told(q, REMOVED, name)];
    assert first[1..] == [] && Notes(first, q, ALL) == [Note(REMOVED, name)];
    ReplayAppend(known, [Note(REMOVED, name)], [Note(ADDED, name)]);
    OneNote(known, Note(REMOVED, name));
    OneNote(known - {name}, Note(ADDED, name));
  }

  /** With distinct names, a name is visible exactly if its own link is. */
  lemma NameShows(fs: Fs, d: DevId, link: NodeId, pr: Proto)
    requires ClassOk(fs, pr) && d in fs.devs && link in fs.nodes[fs.protos[pr]].children && LinkChild(fs, link)
    requires fs.nodes[link].dev == Some(d)
    ensures fs.nodes[link].name in VisibleNames(fs, fs.protos[pr]) <==> !fs.devs[d].invisible
  {
  }

  // ----- what watchers know

  datatype Scene = Scene(fs: Fs, watchers: map<nat, Watcher>)

  /** Events reach every watcher of their directory whose mask asks for them,
      and watchers of a freed node go with it. */
  function Deliver(watchers: map<nat, Watcher>, events: seq<Event>): map<nat, Watcher> {
    map w | w in watchers && Gone(watchers[w].dir) !in events ::
      watchers[w].(heard := watchers[w].heard + Notes(events, watchers[w].dir, watchers[w].mask))
  }

  ghost predicate Synced(scene: Scene, pr: Proto) {
    && Inv(scene.fs) && ClassNames(scene.fs) && ClassOk(scene.fs, pr)
    && forall w :: w in scene.watchers && scene.watchers[w].dir == scene.fs.protos[pr]
                   && scene.watchers[w].mask == ALL ==>
         Knows(scene, w, pr)
  }

  ghost predicate Knows(scene: Scene, w: nat, pr: Proto)
    requires w in scene.watchers
  {
    && pr in scene.fs.protos && scene.fs.protos[pr] in scene.fs.nodes
    && Replay({}, scene.watchers[w].heard) == VisibleNames(scene.fs, scene.fs.protos[pr])
  }

  lemma DeliverKnows(scene: Scene, pr: Proto, events: seq<Event>, fs': Fs)
    requires Synced(scene, pr) && Tracks(scene.fs, events, fs', scene.fs.protos[pr])
    requires pr in fs'.protos && fs'.protos[pr] == scene.fs.protos[pr]
    requires Inv(fs') && ClassNames(fs') && ClassOk(fs', pr)
    ensures Synced(Scene(fs', Deliver(scene.watchers, events)), pr)
  {
    var scene' := Scene(fs', Deliver(scene.watchers, events));
    ClassIsNode(fs', pr);
    hide Inv, ClassNames, ClassOk, Replay, Notes;
    forall w | w in scene'.watchers && scene'.watchers[w].dir == fs'.protos[pr] && scene'.watchers[w].mask == ALL
      ensures Knows(scene', w, pr)
    {
      assert Knows(scene, w, pr);
      ReplayAppend({}, scene.watchers[w].heard, Notes(events, fs'.protos[pr], ALL));
    }
  }

  /** A change of devices that nobody is told about. */
  lemma DevicesSynced(scene: Scene, pr: Proto, devs': map<DevId, Dev>)
    requires Synced(scene, pr) && SameReferences(scene.fs.devs, devs')
    requires forall d :: d in scene.fs.devs ==> devs'[d].invisible == scene.fs.devs[d].invisible
    ensures Synced(scene.(fs := scene.fs.(devs := devs')), pr)
  {
    var fs, fs' := scene.fs, scene.fs.(devs := devs');
    DevicesInv(fs, devs');
    DevicesClassOk(fs, pr, devs');
    SameNames(fs, fs');
    ClassIsNode(fs, pr);
    var q := fs.protos[pr];
    forall n | n in fs.nodes[q].children
      ensures n in fs.nodes && (Shows(fs', n) <==> Shows(fs, n))
    {
      assert LinkChild(fs, n);
    }
    ShownAlike(fs, fs', fs.nodes[q].children);
    hide Inv, ClassNames, ClassOk, Shown, Replay;
    forall w | w in scene.watchers && scene.watchers[w].dir == q && scene.watchers[w].mask == ALL
      ensures Knows(scene.(fs := fs'), w, pr)
    {
      assert Knows(scene, w, pr);
    }
  }

  lemma PublishSynced(scene: Scene, p: DevId, d: DevId, pr: Proto)
    requires Synced(scene, pr) && p in scene.fs.devs && d in scene.fs.devs
    ensures !Publish(scene.fs, p, d).Broken?
    ensures var r := Publish(scene.fs, p, d); Synced(Scene(r.fs, Deliver(scene.watchers, r.events)), pr)
  {
    var fs, r := scene.fs, Publish(scene.fs, p, d);
    hide Inv, Publish, ClassNames, ClassOk, Tracks;
    PublishInv(fs, p, d);
    PublishGrows(fs, p, d);
    PublishStepNames(fs, p, d);
    if r.Ok? {
      PublishTracks(fs, p, d, pr);
      PublishClassOk(fs, p, d, pr);
    } else {
      RefusedTracks(fs, p, d, pr);
    }
    DeliverKnows(scene, pr, r.events, r.fs);
  }

  /** A refused publication moves counters at most. */
  lemma RefusedTracks(fs: Fs, p: DevId, d: DevId, pr: Proto)
    requires Inv(fs) && ClassOk(fs, pr) && p in fs.devs && d in fs.devs && Publish(fs, p, d).Refused?
    ensures var r := Publish(fs, p, d); Tracks(fs, r.events, r.fs, fs.protos[pr]) && ClassOk(r.fs, pr)
  {
    hide Inv, Publish;
    var fs' := Publish(fs, p, d).fs;
    RefusedCounts(fs, p, d);
    CountedTracks(fs, fs', pr);
  }

  lemma CountedTracks(fs: Fs, fs': Fs, pr: Proto)
    requires Inv(fs) && ClassOk(fs, pr) && SameNodes(fs, fs')
    ensures Tracks(fs, [], fs', fs.protos[pr]) && ClassOk(fs', pr)
  {
    ClassIsNode(fs, pr);
    var list := fs.nodes[fs.protos[pr]].children;
    hide Inv, IsSeqName;
    forall n | n in list ensures LinkChild(fs', n) && (Shows(fs', n) <==> Shows(fs, n)) { assert LinkChild(fs, n); }
    ShownAlike(fs, fs', list);
  }

  lemma RefusedCounts(fs: Fs, p: DevId, d: DevId)
    requires Inv(fs) && p in fs.devs && d in fs.devs && Publish(fs, p, d).Refused?
    ensures SameNodes(fs, Publish(fs, p, d).fs) && Publish(fs, p, d).events == []
  {
    hide Inv, Scan;
  }

  lemma UnpublishSynced(scene: Scene, d: DevId, pr: Proto)
    requires Synced(scene, pr) && d in scene.fs.devs
    ensures Unpublish(scene.fs, d).Ok?
    ensures var r := Unpublish(scene.fs, d); Synced(Scene(r.fs, Deliver(scene.watchers, r.events)), pr)
  {
    var fs, r := scene.fs, Unpublish(scene.fs, d);
    hide Inv, Unpublish, ClassNames, ClassOk, Tracks;
    UnpublishInv(fs, d);
    FreedNames(fs, NodesOf(fs, d), r.fs);
    UnpublishTracks(fs, d, pr);
    UnpublishClassOk(fs, d, pr);
    DeliverKnows(scene, pr, r.events, r.fs);
  }

  lemma VisibleSynced(scene: Scene, d: DevId, ready: bool, pr: Proto)
    requires Synced(scene, pr) && d in scene.fs.devs && MakeVisible(scene.fs, d, ready).Ok?
    ensures var r := MakeVisible(scene.fs, d, ready); Synced(Scene(r.fs, Deliver(scene.watchers, r.events)), pr)
  {
    var fs, r := scene.fs, MakeVisible(scene.fs, d, ready);
    VisibleTracks(fs, d, ready, pr);
    assert r.fs.nodes == fs.nodes && r.fs.protos == fs.protos;
    hide Inv, MakeVisible, ClassNames, ClassOk, Tracks;
    SameNames(fs, r.fs);
    DeliverKnows(scene, pr, r.events, r.fs);
  }

  lemma ModifiedSynced(scene: Scene, d: DevId, pr: Proto)
    requires Synced(scene, pr) && d in scene.fs.devs && !scene.fs.devs[d].invisible
    requires AdvertiseModified(scene.fs, d).Ok?
    ensures var r := AdvertiseModified(scene.fs, d); Synced(Scene(r.fs, Deliver(scene.watchers, r.events)), pr)
  {
    var fs, r := scene.fs, AdvertiseModified(scene.fs, d);
    assert r.fs == fs;
    hide Inv, AdvertiseModified, ClassNames, ClassOk, Tracks;
    ModifiedTracks(fs, d, pr);
    DeliverKnows(scene, pr, r.events, fs);
  }

  lemma WatchSynced(scene: Scene, w: nat, dir: NodeId, mask: set<Op>, pr: Proto)
    requires Synced(scene, pr) && dir in scene.fs.nodes && w !in scene.watchers
    ensures Synced(scene.(watchers := scene.watchers[w := Watch(scene.fs, dir, mask)]), pr)
  {
    var fs, scene' := scene.fs, scene.(watchers := scene.watchers[w := Watch(scene.fs, dir, mask)]);
    var q := fs.protos[pr];
    ClassIsNode(fs, pr);
    forall c | c in fs.nodes[q].children ensures |fs.nodes[c].name| <= MAX_FILENAME { ShortLink(fs, c); }
    WatchKnows(fs, q);
    hide Inv, ClassNames, ClassOk, Watch, Replay, VisibleNames;
    forall v | v in scene'.watchers && scene'.watchers[v].dir == q && scene'.watchers[v].mask == ALL
      ensures Knows(scene', v, pr)
    {
      if v != w { assert Knows(scene, v, pr); } else { WatchIs(fs, dir, mask); }
    }
  }

  lemma WatchIs(fs: Fs, dir: NodeId, mask: set<Op>)
    requires dir in fs.nodes
    ensures Watch(fs, dir, mask).dir == dir && Watch(fs, dir, mask).mask == mask
  {
  }

  lemma HangUpSynced(scene: Scene, w: nat, pr: Proto)
    requires Synced(scene, pr)
    ensures Synced(scene.(watchers := scene.watchers - {w}), pr)
  {
  }

  lemma VisibleOk(fs: Fs, d: DevId, ready: bool)
    requires d in fs.devs
    ensures !MakeVisible(fs, d, ready).Refused? && !AdvertiseModified(fs, d).Refused?
  {
  }

  /** Replay can begin with any class directory that is still empty. */
  lemma EmptySynced(fs: Fs, pr: Proto)
    requires Inv(fs) && ClassNames(fs) && pr in fs.protos && pr !in {CONSOLE, MISC, TEST_PARENT}
    requires fs.nodes[fs.protos[pr]].children == []
    ensures Synced(Scene(fs, map[]), pr)
  {
  }

  /** A device that is still invisible, with its link in class 7. */
  function OneInvisible(): Fs {
    Fs(map[1 := Node("", Some(0), None, [2, 3], None, 0), 2 := Node("class", None, Some(1), [4], None, 1),
           3 := Node("d", Some(1), Some(1), [], None, 0), 4 := Node("000", Some(1), Some(2), [], None, 0)],
       map[0 := Dev("root", None, MISC, false, false, false, Some(1), None),
           1 := Dev("d", Some(0), Class(7), false, false, true, Some(3), Some(4))],
       map[Class(7) := 2], 5)
  }

  lemma OneInvisibleShape()
    ensures Shape(OneInvisible().nodes, 5)
  {
    var nodes := OneInvisible().nodes;
    forall n | n in nodes ensures n < 5 && ListAt(nodes, n) && ParentAt(nodes, n) { assert n in {1, 2, 3, 4}; }
  }

  lemma OneInvisibleOwned()
    ensures Owned(OneInvisible())
  {
    var fs := OneInvisible();
    forall d | d in fs.devs ensures OwnedAt(fs, d) { assert d in {0, 1}; }
  }

  lemma OneInvisibleOk()
    ensures Inv(OneInvisible()) && ClassOk(OneInvisible(), Class(7))
  {
    var fs := OneInvisible();
    OneInvisibleShape();
    OneInvisibleOwned();
    hide Shape, Owned;
    assert SeqName(0) == "000";
    assert LinkChild(fs, 4);
  }

  /** Announcing a modification of it makes a client believe in "000". */
  lemma InvisibleModified()
    ensures var fs := OneInvisible();
            AdvertiseModified(fs, 1).Ok? && !Tracks(fs, AdvertiseModified(fs, 1).events, fs, 2)
  {
    OneInvisibleOk();
    ModifiedTracks(OneInvisible(), 1, Class(7));
  }
}
