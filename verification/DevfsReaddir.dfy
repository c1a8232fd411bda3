/** Paged directory reading: devfs_readdir and fill_dirent of devfs.cc. */
module DevfsReaddir {
  import opened Common
  import opened Devfs
  import opened DevfsForest

  type Byte = x: int | 0 <= x < 256

  /** The header of a directory entry: 8 bytes of inode number, one of name
      length and one of type. */
  const HEADER: nat := 10
  const NAME_MAX: nat := 255
  const DT_DIR: Byte := 4

  datatype Entry = Entry(ino: NodeId, name: string)

  function SizeOf(name: string): nat {
    HEADER + |name|
  }

  /** Bare directories are listed once they have children or serve something;
      `special` are the diagnostics, null and zero nodes. */
  predicate Listable(fs: Fs, special: set<NodeId>, c: NodeId) {
    && c in fs.nodes
    && var r := fs.nodes[c];
    if r.dev.None? then r.children != [] || c in special || r.service.Some?
    else r.dev.value in fs.devs && !fs.devs[r.dev.value].invisible
  }

  /** A page: what was emitted, the cursor afterwards, and whether an entry did
      not fit. */
  datatype Page = Page(entries: seq<Entry>, ino: NodeId, stopped: bool)

  /** There is room for an entry of this name. */
  predicate FitsIn(name: string, room: nat) {
    SizeOf(name) <= room && |name| <= NAME_MAX
  }

  function Read(fs: Fs, special: set<NodeId>, list: seq<NodeId>, ino: NodeId, room: nat): Page
    decreases |list|
  {
    if list == [] then Page([], ino, false)
    else if list[0] <= ino || !Listable(fs, special, list[0]) then Read(fs, special, list[1..], ino, room)
    else
      var name := fs.nodes[list[0]].name;
      if !FitsIn(name, room) then Page([], list[0], true)
      else
        var p := Read(fs, special, list[1..], list[0], room - SizeOf(name));
        Page([Entry(list[0], name)] + p.entries, p.ino, p.stopped)
  }

  function Total(es: seq<Entry>): nat {
    if es == [] then 0 else SizeOf(es[0].name) + Total(es[1..])
  }

  /** Entries ascend strictly from above `ino`. */
  ghost predicate Above(es: seq<Entry>, ino: NodeId) {
    && (forall i :: 0 <= i < |es| ==> ino < es[i].ino)
    && (forall i, j :: 0 <= i < j < |es| ==> es[i].ino < es[j].ino)
  }

  ghost function Inos(es: seq<Entry>): set<NodeId> {
    if es == [] then {} else {es[0].ino} + Inos(es[1..])
  }

  lemma {:induction false} InosAppend(es: seq<Entry>, fs: seq<Entry>)
    ensures Inos(es + fs) == Inos(es) + Inos(fs)
  {
    if es == [] {
      assert es + fs == fs;
    } else {
      assert (es + fs)[0] == es[0] && (es + fs)[1..] == es[1..] + fs;
      InosAppend(es[1..], fs);
    }
  }

  lemma {:induction false} InosBounds(es: seq<Entry>, low: NodeId, high: NodeId)
    requires forall i :: 0 <= i < |es| ==> low < es[i].ino <= high
    ensures forall c :: c in Inos(es) ==> low < c <= high
  {
    if es == [] {
    } else {
      InosBounds(es[1..], low, high);
    }
  }

  /** What a page holds: exactly the listable children from the old cursor to
      the new, save the one that stopped the call; and if none did, nothing is
      left beyond, and the cursor is at the last entry. */
  ghost predicate Covers(fs: Fs, special: set<NodeId>, list: seq<NodeId>, ino: NodeId, p: Page) {
    && (forall c :: c in Inos(p.entries) <==>
          c in list && Listable(fs, special, c) && ino < c <= p.ino && !(p.stopped && c == p.ino))
    && (forall e :: e in p.entries ==> e.ino in fs.nodes && e.name == fs.nodes[e.ino].name && e.ino <= p.ino)
    && (p.stopped ==> p.ino in list && Listable(fs, special, p.ino) && ino < p.ino)
    && (!p.stopped ==>
          && (p.ino == ino || p.ino in Inos(p.entries))
          && forall c :: c in list && Listable(fs, special, c) && ino < c ==> c <= p.ino)
  }

  /** The entries fit together, and the one that stopped the call does not fit
      what is left of the room. */
  ghost predicate Packed(fs: Fs, room: nat, p: Page) {
    && Total(p.entries) <= room
    && (forall e :: e in p.entries ==> |e.name| <= NAME_MAX)
    && (p.stopped ==> p.ino in fs.nodes && !FitsIn(fs.nodes[p.ino].name, room - Total(p.entries)))
  }

  /** The requirements on a page. */
  ghost predicate IsPage(fs: Fs, special: set<NodeId>, list: seq<NodeId>, ino: NodeId, room: nat, p: Page) {
    Packed(fs, room, p) && Above(p.entries, ino) && ino <= p.ino && Covers(fs, special, list, ino, p)
  }

  lemma {:induction false} ReadPage(fs: Fs, special: set<NodeId>, list: seq<NodeId>, ino: NodeId, room: nat)
    requires Ascending(list)
    ensures IsPage(fs, special, list, ino, room, Read(fs, special, list, ino, room))
    decreases |list|
  {
    hide Above, Covers, Packed, FitsIn;
    if list == [] {
      EmptyPage(fs, special, ino, room);
    } else {
      Tail(list);
      if list[0] <= ino || !Listable(fs, special, list[0]) {
        ReadPage(fs, special, list[1..], ino, room);
        SkipFirst(fs, special, list, ino, Read(fs, special, list[1..], ino, room));
      } else {
        var name := fs.nodes[list[0]].name;
        if FitsIn(name, room) {
          Leaves(name, room);
          ReadPage(fs, special, list[1..], list[0], room - SizeOf(name));
          EmitFirst(fs, special, list, ino, room, Read(fs, special, list[1..], list[0], room - SizeOf(name)));
        } else {
          StopFirst(fs, special, list, ino, room);
        }
      }
    }
  }

  lemma Leaves(name: string, room: nat)
    requires FitsIn(name, room)
    ensures SizeOf(name) <= room
  {
  }

  lemma EmptyPage(fs: Fs, special: set<NodeId>, ino: NodeId, room: nat)
    ensures var p := Page([], ino, false);
            Above([], ino) && Covers(fs, special, [], ino, p) && Packed(fs, room, p)
  {
  }

  lemma Tail(list: seq<NodeId>)
    requires Ascending(list) && list != []
    ensures Ascending(list[1..]) && forall c :: c in list <==> c == list[0] || c in list[1..]
    ensures forall c :: c in list[1..] ==> list[0] < c
  {
  }

  lemma SkipFirst(fs: Fs, special: set<NodeId>, list: seq<NodeId>, ino: NodeId, p: Page)
    requires Ascending(list) && list != [] && (list[0] <= ino || !Listable(fs, special, list[0]))
    requires Covers(fs, special, list[1..], ino, p)
    ensures Covers(fs, special, list, ino, p)
  {
  }

  lemma StopFirst(fs: Fs, special: set<NodeId>, list: seq<NodeId>, ino: NodeId, room: nat)
    requires Ascending(list) && list != [] && ino < list[0] && Listable(fs, special, list[0])
    requires !FitsIn(fs.nodes[list[0]].name, room)
    ensures var p := Page([], list[0], true);
            Above([], ino) && Covers(fs, special, list, ino, p) && Packed(fs, room, p)
  {
  }

  lemma EmitFirst(fs: Fs, special: set<NodeId>, list: seq<NodeId>, ino: NodeId, room: nat, p: Page)
    requires list != [] && Ascending(list) && ino < list[0] && Listable(fs, special, list[0])
    requires FitsIn(fs.nodes[list[0]].name, room)
    requires Above(p.entries, list[0]) && list[0] <= p.ino && Covers(fs, special, list[1..], list[0], p)
    requires Packed(fs, room - SizeOf(fs.nodes[list[0]].name), p)
    ensures var p' := p.(entries := [Entry(list[0], fs.nodes[list[0]].name)] + p.entries);
            Packed(fs, room, p') && Above(p'.entries, ino) && Covers(fs, special, list, ino, p')
  {
    var e := Entry(list[0], fs.nodes[list[0]].name);
    Tail(list);
    assert ([e] + p.entries)[1..] == p.entries;
    PackedMore(fs, room, e, p);
    EmitCovers(fs, special, list, ino, p);
  }

  lemma PackedMore(fs: Fs, room: nat, e: Entry, p: Page)
    requires FitsIn(e.name, room) && Packed(fs, room - SizeOf(e.name), p)
    ensures Packed(fs, room, p.(entries := [e] + p.entries))
  {
    assert ([e] + p.entries)[1..] == p.entries;
  }

  lemma EmitCovers(fs: Fs, special: set<NodeId>, list: seq<NodeId>, ino: NodeId, p: Page)
    requires list != [] && Ascending(list) && ino < list[0] && Listable(fs, special, list[0])
    requires list[0] <= p.ino && Covers(fs, special, list[1..], list[0], p)
    ensures Covers(fs, special, list, ino, p.(entries := [Entry(list[0], fs.nodes[list[0]].name)] + p.entries))
  {
    var e := Entry(list[0], fs.nodes[list[0]].name);
    Tail(list);
    assert ([e] + p.entries)[1..] == p.entries;
    assert Inos([e] + p.entries) == {list[0]} + Inos(p.entries);
  }

  lemma {:induction false} InInos(es: seq<Entry>, c: NodeId)
    ensures c in Inos(es) <==> exists i :: 0 <= i < |es| && es[i].ino == c
  {
    if es == [] {
    } else {
      InInos(es[1..], c);
      if c in Inos(es[1..]) {
        var i :| 0 <= i < |es[1..]| && es[1..][i].ino == c;
        assert es[i + 1].ino == c;
      }
      if i :| 0 < i < |es| && es[i].ino == c { assert es[1..][i - 1].ino == c; }
    }
  }

  /** The first listable child above the cursor is the first entry, or it is
      what stops the call. */
  lemma FirstEntry(fs: Fs, special: set<NodeId>, list: seq<NodeId>, ino: NodeId, room: nat, p: Page)
    requires Ascending(list) && list != [] && ino < list[0] && Listable(fs, special, list[0])
    requires IsPage(fs, special, list, ino, room, p)
    ensures if p.entries == [] then p == Page([], list[0], true)
            else p.entries[0] == Entry(list[0], fs.nodes[list[0]].name)
  {
    hide Packed, Listable;
    Tail(list);
    InInos(p.entries, list[0]);
    if p.entries != [] {
      InInos(p.entries, p.entries[0].ino);
      assert p.entries[0] in p.entries;
    }
  }

  lemma RestIsPage(fs: Fs, special: set<NodeId>, list: seq<NodeId>, ino: NodeId, room: nat, p: Page)
    requires Ascending(list) && list != [] && ino < list[0] && Listable(fs, special, list[0])
    requires IsPage(fs, special, list, ino, room, p) && p.entries != []
    requires p.entries[0] == Entry(list[0], fs.nodes[list[0]].name)
    ensures var name := fs.nodes[list[0]].name;
            && FitsIn(name, room)
            && IsPage(fs, special, list[1..], list[0], room - SizeOf(name), p.(entries := p.entries[1..]))
  {
    hide Listable, Covers, Above, Packed, FitsIn;
    RestPacked(fs, room, p);
    RestAbove(p.entries, ino);
    RestCovers(fs, special, list, ino, p);
  }

  lemma RestPacked(fs: Fs, room: nat, p: Page)
    requires Packed(fs, room, p) && p.entries != []
    ensures var name := p.entries[0].name;
            FitsIn(name, room) && Packed(fs, room - SizeOf(name), p.(entries := p.entries[1..]))
  {
    assert p.entries[0] in p.entries && forall e :: e in p.entries[1..] ==> e in p.entries;
  }

  lemma RestAbove(es: seq<Entry>, ino: NodeId)
    requires Above(es, ino) && es != []
    ensures Above(es[1..], es[0].ino)
  {
  }

  lemma RestCovers(fs: Fs, special: set<NodeId>, list: seq<NodeId>, ino: NodeId, p: Page)
    requires Ascending(list) && list != [] && ino < list[0] && p.entries != [] && p.entries[0].ino == list[0]
    requires Above(p.entries, ino) && Covers(fs, special, list, ino, p)
    ensures list[0] <= p.ino && Covers(fs, special, list[1..], list[0], p.(entries := p.entries[1..]))
  {
    hide Listable;
    var q := p.(entries := p.entries[1..]);
    Tail(list);
    assert p.entries[0] in p.entries && forall e :: e in q.entries ==> e in p.entries;
    forall c ensures c in Inos(q.entries) <==> c in Inos(p.entries) && c != list[0] {
      InInos(p.entries, c);
      InInos(q.entries, c);
    }
    hide Inos, Above;
  }

  /** And there is only one page that meets them. */
  lemma {:induction false} OnlyPage(fs: Fs, special: set<NodeId>, list: seq<NodeId>, ino: NodeId, room: nat, p: Page)
    requires Ascending(list) && IsPage(fs, special, list, ino, room, p)
    ensures p == Read(fs, special, list, ino, room)
    decreases |list|
  {
    if list == [] {
      NothingListed(fs, special, ino, p);
    } else {
      Tail(list);
      if list[0] <= ino || !Listable(fs, special, list[0]) {
        assert Covers(fs, special, list[1..], ino, p) by { Unskip(fs, special, list, ino, p); }
        hide Covers, Packed, Above;
        OnlyPage(fs, special, list[1..], ino, room, p);
      } else {
        FirstEntry(fs, special, list, ino, room, p);
        if p.entries == [] {
          assert Total([]) == 0;
        } else {
          RestIsPage(fs, special, list, ino, room, p);
          hide IsPage;
          var name := fs.nodes[list[0]].name;
          OnlyPage(fs, special, list[1..], list[0], room - SizeOf(name), p.(entries := p.entries[1..]));
          assert p.entries == [p.entries[0]] + p.entries[1..];
        }
      }
    }
  }

  lemma NothingListed(fs: Fs, special: set<NodeId>, ino: NodeId, p: Page)
    requires Covers(fs, special, [], ino, p)
    ensures p == Page([], ino, false)
  {
  }

  lemma Unskip(fs: Fs, special: set<NodeId>, list: seq<NodeId>, ino: NodeId, p: Page)
    requires Ascending(list) && list != [] && (list[0] <= ino || !Listable(fs, special, list[0]))
    requires Covers(fs, special, list, ino, p)
    ensures Covers(fs, special, list[1..], ino, p)
  {
    Tail(list);
    hide Listable;
  }

  // ----- several calls

  /** One call of a session: the directory as it is then, and the room. */
  datatype Call = Call(fs: Fs, special: set<NodeId>, list: seq<NodeId>, room: nat)

  function Session(calls: seq<Call>, ino: NodeId): (seq<Entry>, NodeId)
    decreases |calls|
  {
    if calls == [] then ([], ino)
    else
      var p := Read(calls[0].fs, calls[0].special, calls[0].list, ino, calls[0].room);
      var rest := Session(calls[1..], p.ino);
      (p.entries + rest.0, rest.1)
  }

  /** No entry is ever repeated in a session without a rewind, whatever happens
      to the directory between the calls. */
  lemma {:induction false} SessionAscends(calls: seq<Call>, ino: NodeId)
    requires forall i :: 0 <= i < |calls| ==> Ascending(calls[i].list)
    ensures Above(Session(calls, ino).0, ino) && ino <= Session(calls, ino).1
    ensures forall i :: 0 <= i < |Session(calls, ino).0| ==> Session(calls, ino).0[i].ino <= Session(calls, ino).1
    decreases |calls|
  {
    if calls == [] {
    } else {
      var c := calls[0];
      var p := Read(c.fs, c.special, c.list, ino, c.room);
      ReadPage(c.fs, c.special, c.list, ino, c.room);
      SessionAscends(calls[1..], p.ino);
      var rest := Session(calls[1..], p.ino).0;
      var es := p.entries + rest;
      forall i, j | 0 <= i < j < |es| ensures es[i].ino < es[j].ino {
        if i < |p.entries| <= j { assert es[i].ino <= p.ino < rest[j - |p.entries|].ino; }
      }
    }
  }

  /** The entry that stopped a call is passed over for the rest of the session. */
  lemma StopperIsLost(call: Call, ino: NodeId, later: seq<Call>)
    requires Ascending(call.list) && (forall i :: 0 <= i < |later| ==> Ascending(later[i].list))
    requires Read(call.fs, call.special, call.list, ino, call.room).stopped
    ensures var p := Read(call.fs, call.special, call.list, ino, call.room);
            p.ino !in Inos(Session([call] + later, ino).0) && p.ino in call.list
            && Listable(call.fs, call.special, p.ino) && ino < p.ino
  {
    var p := Read(call.fs, call.special, call.list, ino, call.room);
    ReadPage(call.fs, call.special, call.list, ino, call.room);
    SessionAscends(later, p.ino);
    assert ([call] + later)[0] == call && ([call] + later)[1..] == later;
    var rest := Session(later, p.ino);
    InosAppend(p.entries, rest.0);
    InosBounds(rest.0, p.ino, rest.1);
  }

  // ----- what a caller can know before

  /** The bytes that the listable children above the cursor take. */
  function Needed(fs: Fs, special: set<NodeId>, list: seq<NodeId>, ino: NodeId): nat
    decreases |list|
  {
    if list == [] then 0
    else
      (if ino < list[0] && Listable(fs, special, list[0]) then SizeOf(fs.nodes[list[0]].name) else 0)
      + Needed(fs, special, list[1..], ino)
  }

  /** And that their names are not too long. */
  ghost predicate NamesFit(fs: Fs, special: set<NodeId>, list: seq<NodeId>, ino: NodeId) {
    forall c :: c in list && Listable(fs, special, c) && ino < c ==> |fs.nodes[c].name| <= NAME_MAX
  }

  lemma {:induction false} NeededFrom(fs: Fs, special: set<NodeId>, list: seq<NodeId>, a: NodeId, b: NodeId)
    requires forall c :: c in list ==> a < c && b < c
    ensures Needed(fs, special, list, a) == Needed(fs, special, list, b)
    ensures NamesFit(fs, special, list, a) == NamesFit(fs, special, list, b)
    decreases |list|
  {
    if list == [] {
    } else {
      assert list[0] in list && forall c :: c in list[1..] ==> c in list;
      NeededFrom(fs, special, list[1..], a, b);
    }
  }

  lemma NamesFirst(fs: Fs, special: set<NodeId>, list: seq<NodeId>, ino: NodeId)
    requires list != []
    ensures NamesFit(fs, special, list, ino) <==>
              && (ino < list[0] && Listable(fs, special, list[0]) ==> |fs.nodes[list[0]].name| <= NAME_MAX)
              && NamesFit(fs, special, list[1..], ino)
  {
    assert forall c :: c in list <==> c == list[0] || c in list[1..];
  }

  /** A call is stopped exactly if what is left of the directory does not fit
      the room as a whole, or a name in it is too long. */
  lemma {:induction false} StoppedIff(fs: Fs, special: set<NodeId>, list: seq<NodeId>, ino: NodeId, room: nat)
    requires Ascending(list)
    ensures Read(fs, special, list, ino, room).stopped <==>
              !(Needed(fs, special, list, ino) <= room && NamesFit(fs, special, list, ino))
    decreases |list|
  {
    hide Listable, NamesFit;
    if list == [] {
      assert NamesFit(fs, special, list, ino) by { NoNames(fs, special, ino); }
    } else {
      var first, rest := list[0], list[1..];
      Tail(list);
      NamesFirst(fs, special, list, ino);
      if first <= ino || !Listable(fs, special, first) {
        StoppedIff(fs, special, rest, ino, room);
      } else {
        ListableIsNode(fs, special, first);
        var name := fs.nodes[first].name;
        if FitsIn(name, room) {
          StoppedIff(fs, special, rest, first, room - SizeOf(name));
          NeededFrom(fs, special, rest, ino, first);
        }
      }
    }
  }

  lemma NoNames(fs: Fs, special: set<NodeId>, ino: NodeId)
    ensures NamesFit(fs, special, [], ino)
  {
  }

  ghost predicate Everything(dir: Call, ino: NodeId, es: seq<Entry>) {
    forall c :: c in dir.list && Listable(dir.fs, dir.special, c) && ino < c ==> c in Inos(es)
  }

  /** A directory that does not change is read completely, over however many
      calls, exactly if the first call alone has room for all that is left of
      it and no name in it is too long: the first entry that does not fit is
      lost. */
  lemma SessionComplete(calls: seq<Call>, dir: Call, ino: NodeId)
    requires calls != [] && Ascending(dir.list)
    requires forall i :: 0 <= i < |calls| ==> calls[i].(room := dir.room) == dir
    ensures Everything(dir, ino, Session(calls, ino).0) <==>
              && Needed(dir.fs, dir.special, dir.list, ino) <= calls[0].room
              && NamesFit(dir.fs, dir.special, dir.list, ino)
  {
    hide Listable, Read, NamesFit, Packed;
    var c, later := calls[0], calls[1..];
    assert c.(room := dir.room) == dir && calls == [c] + later;
    var p := Read(c.fs, c.special, c.list, ino, c.room);
    ReadPage(c.fs, c.special, c.list, ino, c.room);
    StoppedIff(c.fs, c.special, c.list, ino, c.room);
    if p.stopped {
      forall i | 0 <= i < |later| ensures Ascending(later[i].list) { assert later[i] == calls[i + 1]; }
      StopperIsLost(c, ino, later);
    } else {
      InosAppend(p.entries, Session(later, p.ino).0);
    }
  }

  /** A directory with services "a" and "bb". */
  function TwoServices(): Fs {
    Fs(map[1 := Node("", Some(0), None, [2, 3], None, 0),
           2 := Node("a", None, Some(1), [], Some("s"), 0),
           3 := Node("bb", None, Some(1), [], Some("s"), 0)],
       map[0 := Dev("root", None, MISC, false, false, false, Some(1), None)], map[], 4)
  }

  lemma TwoServicesInv()
    ensures Inv(TwoServices())
  {
    var fs := TwoServices();
    assert OwnedAt(fs, 0);
    forall n | n in fs.nodes ensures n < 4 && ListAt(fs.nodes, n) && ParentAt(fs.nodes, n) { assert n in {1, 2, 3}; }
  }

  /** With room for 22 bytes, enough for either entry by itself, "bb" is not
      listed, nor by any later call, with however much room. */
  lemma EntryIsLost(later: seq<Call>)
    requires forall i :: 0 <= i < |later| ==> Ascending(later[i].list)
    ensures Inv(TwoServices()) && TwoServices().nodes[1].children == [2, 3]
    ensures var fs := TwoServices();
            && Listable(fs, {}, 3) && FitsIn(fs.nodes[3].name, 22) && Needed(fs, {}, [2, 3], 0) == 23
            && 3 !in Inos(Session([Call(fs, {}, [2, 3], 22)] + later, 0).0)
  {
    TwoServicesInv();
    hide Inv;
    var fs, call := TwoServices(), Call(TwoServices(), {}, [2, 3], 22);
    var p := Read(fs, {}, [2, 3], 0, 22);
    assert [2, 3][1..] == [3] && [3][1..] == [];
    assert Read(fs, {}, [3], 2, 11) == Page([], 3, true);
    assert p.stopped && p.ino == 3;
    StopperIsLost(call, 0, later);
  }

  // ----- the buffer

  function Le(n: nat, bytes: nat): (r: seq<Byte>)
    ensures |r| == bytes
    decreases bytes
  {
    if bytes == 0 then [] else [n % 256] + Le(n / 256, bytes - 1)
  }

  function FromLe(b: seq<Byte>): nat {
    if b == [] then 0 else b[0] + 256 * FromLe(b[1..])
  }

  function Pow256(n: nat): nat {
    if n == 0 then 1 else 256 * Pow256(n - 1)
  }

  lemma {:induction false} LeRoundTrip(n: nat, bytes: nat)
    requires n < Pow256(bytes)
    ensures FromLe(Le(n, bytes)) == n
    decreases bytes
  {
    if bytes == 0 {
    } else {
      assert Le(n, bytes)[1..] == Le(n / 256, bytes - 1);
      LeRoundTrip(n / 256, bytes - 1);
    }
  }

  function NameBytes(name: string): seq<Byte> {
    seq(|name|, i requires 0 <= i < |name| => name[i] as int % 256)
  }

  /** A vdirent_t. */
  function Encode(e: Entry): (r: seq<Byte>)
    ensures |r| == SizeOf(e.name)
  {
    Le(e.ino, 8) + [|e.name| % 256, DT_DIR] + NameBytes(e.name)
  }

  function EncodeAll(es: seq<Entry>): (r: seq<Byte>)
    ensures |r| == Total(es)
  {
    if es == [] then [] else Encode(es[0]) + EncodeAll(es[1..])
  }

  lemma {:induction false} EncodeAppend(es: seq<Entry>, e: Entry)
    ensures EncodeAll(es + [e]) == EncodeAll(es) + Encode(e)
  {
    if es == [] {
      assert es + [e] == [e] && EncodeAll([]) == [];
    } else {
      assert (es + [e])[0] == es[0] && (es + [e])[1..] == es[1..] + [e];
      EncodeAppend(es[1..], e);
    }
  }

  /** How a client takes the entries out of the buffer again. */
  function DecodeAll(b: seq<Byte>): seq<Entry>
    decreases |b|
  {
    if |b| < HEADER || |b| < HEADER + b[8] then []
    else
      var name := seq(b[8], i requires 0 <= i < b[8] => b[HEADER + i] as char);
      [Entry(FromLe(b[..8]), name)] + DecodeAll(b[HEADER + b[8]..])
  }

  predicate Encodable(e: Entry) {
    e.ino < Pow256(8) && |e.name| <= NAME_MAX && forall i :: 0 <= i < |e.name| ==> e.name[i] as int < 256
  }

  /** An entry takes ten bytes and its name: the inode number from the lowest
      byte up, the length of the name and the type, which is that of a
      directory. */
  lemma Layout(e: Entry, rest: seq<Byte>)
    requires Encodable(e)
    ensures var b := Encode(e) + rest;
            && |b| == 10 + |e.name| + |rest| && b[..8] == Le(e.ino, 8) && b[8] == |e.name| && b[9] == 4
            && b[0] == e.ino % 256 && b[1] == e.ino / 256 % 256
            && (forall i :: 0 <= i < |e.name| ==> b[10 + i] == e.name[i] as int)
            && b[10 + |e.name|..] == rest
  {
    assert Le(e.ino, 8) == [e.ino % 256] + ([e.ino / 256 % 256] + Le(e.ino / 256 / 256, 6));
  }

  lemma DecodeOne(e: Entry, rest: seq<Byte>)
    requires Encodable(e)
    ensures DecodeAll(Encode(e) + rest) == [e] + DecodeAll(rest)
  {
    Layout(e, rest);
    LeRoundTrip(e.ino, 8);
    hide Le, FromLe, Encode;
    var b := Encode(e) + rest;
    var name := seq(b[8], i requires 0 <= i < b[8] => b[HEADER + i] as char);
    assert name == e.name;
  }

  /** A page can be read back from the bytes it was written as. */
  lemma {:induction false} DecodeEncode(es: seq<Entry>)
    requires forall i :: 0 <= i < |es| ==> Encodable(es[i])
    ensures DecodeAll(EncodeAll(es)) == es
  {
    if es != [] {
      hide DecodeAll, Encode, Encodable;
      DecodeEncode(es[1..]);
      DecodeOne(es[0], EncodeAll(es[1..]));
    } else {
      assert EncodeAll([]) == [];
    }
  }

  /** A sequence with `t` written over it at offset `at`. */
  function Splice(s: seq<Byte>, at: nat, t: seq<Byte>): seq<Byte>
    requires at + |t| <= |s|
  {
    s[..at] + t + s[at + |t|..]
  }

  method Write(data: array<Byte>, at: nat, bytes: seq<Byte>)
    requires at + |bytes| <= data.Length
    modifies data
    ensures data[..] == Splice(old(data[..]), at, bytes)
  {
    forall i | 0 <= i < |bytes| { data[at + i] := bytes[i]; }
  }

  /** fill_dirent at offset `at`; the result is the size or -1. */
  method FillDirent(data: array<Byte>, at: nat, room: nat, e: Entry) returns (r: int)
    requires at + room <= data.Length
    modifies data
    ensures r == if FitsIn(e.name, room) then SizeOf(e.name) else -1
    ensures r < 0 ==> data[..] == old(data[..])
    ensures r >= 0 ==> data[..] == Splice(old(data[..]), at, Encode(e))
  {
    var size := HEADER + |e.name|;
    if size > room || |e.name| > NAME_MAX {
      return -1;
    }
    hide Encode, Splice;
    Write(data, at, Encode(e));
    return size;
  }

  /** The front of the buffer holds the entries; the rest is untouched. */
  ghost predicate Filled(now: seq<Byte>, before: seq<Byte>, es: seq<Entry>) {
    var used := Total(es);
    used <= |before| == |now| && now[..used] == EncodeAll(es) && now[used..] == before[used..]
  }

  lemma FilledMore(now: seq<Byte>, before: seq<Byte>, es: seq<Entry>, e: Entry)
    requires Filled(now, before, es) && Total(es) + SizeOf(e.name) <= |before|
    ensures Total(es) + SizeOf(e.name) <= |now| && Filled(Splice(now, Total(es), Encode(e)), before, es + [e])
    ensures Total(es + [e]) == Total(es) + SizeOf(e.name)
  {
    hide Encode, EncodeAll, Total;
    EncodeAppend(es, e);
    assert |EncodeAll(es + [e])| == Total(es + [e]);
  }

  /** A page of which `done` is written and `rest` is to come. */
  ghost predicate Pending(page: Page, done: seq<Entry>, rest: Page) {
    page == rest.(entries := done + rest.entries)
  }

  lemma PendingMore(page: Page, done: seq<Entry>, e: Entry, rest: Page)
    requires Pending(page, done, rest.(entries := [e] + rest.entries))
    ensures Pending(page, done + [e], rest)
  {
  }

  lemma PendingEnd(page: Page, done: seq<Entry>, ino: NodeId, stopped: bool)
    requires Pending(page, done, Page([], ino, stopped))
    ensures page == Page(done, ino, stopped)
  {
  }

  /** devfs_readdir: the page is written to the front of the buffer, within its
      size, and the cursor is moved. */
  method Readdir(fs: Fs, special: set<NodeId>, dn: NodeId, start: NodeId, data: array<Byte>, max: nat)
    returns (used: nat, ino: NodeId, ghost page: Page)
    requires dn in fs.nodes && max <= data.Length
    modifies data
    ensures page == Read(fs, special, fs.nodes[dn].children, start, max)
    ensures ino == page.ino && used == Total(page.entries) && used <= max
    ensures Filled(data[..], old(data[..]), page.entries)
  {
    var list := fs.nodes[dn].children;
    page := Read(fs, special, list, start, max);
    ghost var done: seq<Entry> := [];
    assert Filled(data[..], old(data[..]), done) && Total(done) == 0;
    assert list[0..] == list && Pending(page, done, page);
    hide Listable, Total, Encode, Read, Filled, Splice, Pending, FitsIn;
    var i, len := 0, max;
    used, ino := 0, start;
    while i < |list|
      invariant i <= |list| && 0 <= len && used + len == max && used == Total(done)
      invariant Filled(data[..], old(data[..]), done)
      invariant Pending(page, done, Read(fs, special, list[i..], ino, len))
    {
      var c := list[i];
      ReadStep(fs, special, list, i, ino, len);
      i := i + 1;
      if c <= ino || !Listable(fs, special, c) {
        continue;
      }
      ListableIsNode(fs, special, c);
      ino := c;
      var e := Entry(c, fs.nodes[c].name);
      ghost var now := data[..];
      var r := FillDirent(data, used, len, e);
      assert r >= 0 ==> data[..] == Splice(now, used, Encode(e));
      if r < 0 {
        PendingEnd(page, done, ino, true);
        return;
      }
      Leaves(e.name, len);
      PendingMore(page, done, e, Read(fs, special, list[i..], ino, len - r));
      FilledMore(now, old(data[..]), done, e);
      done := done + [e];
      used, len := used + r, len - r;
    }
    assert list[i..] == [];
    ReadNothing(fs, special, ino, len);
    PendingEnd(page, done, ino, false);
  }

  lemma ReadStep(fs: Fs, special: set<NodeId>, list: seq<NodeId>, i: nat, ino: NodeId, len: nat)
    requires i < |list|
    ensures var c, p := list[i], Read(fs, special, list[i..], ino, len);
            if c <= ino || !Listable(fs, special, c) then p == Read(fs, special, list[i + 1..], ino, len)
            else if !FitsIn(fs.nodes[c].name, len) then p == Page([], c, true)
            else var rest := Read(fs, special, list[i + 1..], c, len - SizeOf(fs.nodes[c].name));
                 p == rest.(entries := [Entry(c, fs.nodes[c].name)] + rest.entries)
  {
  }

  lemma ReadNothing(fs: Fs, special: set<NodeId>, ino: NodeId, len: nat)
    ensures Read(fs, special, [], ino, len) == Page([], ino, false)
  {
  }

  lemma ListableIsNode(fs: Fs, special: set<NodeId>, c: NodeId)
    requires Listable(fs, special, c)
    ensures c in fs.nodes
  {
  }
}
