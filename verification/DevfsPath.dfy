/** Topological paths and their inverse: GetTopologicalPath of coordinator.cc
    prints the path of a device, devfs_walk of devfs.cc finds the node of a path. */
module DevfsPath {
  import opened Common
  import opened Devfs
  import opened DevfsForest
  import opened DevfsExport

  // ----- printing

  /** Parents are older than their children. */
  ghost predicate Ranked(devs: map<DevId, Dev>) {
    forall d :: d in devs && devs[d].parent.Some? ==> devs[d].parent.value in devs && devs[d].parent.value < d
  }

  /** What fits into the name buffer after "dev/" and before the final NUL. */
  function Cut(name: string): string {
    if |name| < MAX_FILENAME then name else name[..MAX_FILENAME - 1]
  }

  function Segment(dev: Dev): string {
    if dev.name == "root" && dev.parent.None? then "dev"
    else if dev.composite then "dev/" + Cut(dev.name)
    else dev.name
  }

  /** A proxy stands for the device it is a proxy of. */
  function Real(devs: map<DevId, Dev>, d: DevId): Option<DevId>
    requires d in devs
  {
    if devs[d].proxy then devs[d].parent else Some(d)
  }

  /** The path of a device. There is none for a proxy without a parent. */
  function PathOf(devs: map<DevId, Dev>, d: Option<DevId>): Option<string>
    requires Ranked(devs) && (d.Some? ==> d.value in devs)
    decreases if d.Some? then d.value + 1 else 0
  {
    if d.None? then Some("")
    else
      var r := Real(devs, d.value);
      if r.None? then None
      else
        var up := PathOf(devs, devs[r.value].parent);
        if up.None? then None else Some(up.value + "/" + Segment(devs[r.value]))
  }

  /** A proxy goes by the path of the device it stands for, and without one the
      path is read through a null pointer. */
  lemma ProxyPath(devs: map<DevId, Dev>, d: DevId)
    requires Ranked(devs) && d in devs && devs[d].proxy
    ensures devs[d].parent.None? ==> PathOf(devs, Some(d)).None?
    ensures devs[d].parent.Some? && !devs[devs[d].parent.value].proxy ==>
              PathOf(devs, Some(d)) == PathOf(devs, devs[d].parent)
  {
  }

  datatype PathReply = PathOk(path: string) | BUFFER_TOO_SMALL | NullPointer

  /** The loop: `tail` is what has been written so far, from the end. */
  function Climb(devs: map<DevId, Dev>, itr: Option<DevId>, tail: string, max: nat): PathReply
    requires Ranked(devs) && (itr.Some? ==> itr.value in devs)
    decreases if itr.Some? then itr.value + 1 else 0
  {
    if itr.None? then PathOk(tail)
    else
      var r := Real(devs, itr.value);
      if r.None? then NullPointer
      else
        var name := Segment(devs[r.value]);
        if |name| + 1 > max - (1 + |tail|) then BUFFER_TOO_SMALL
        else Climb(devs, devs[r.value].parent, "/" + name + tail, max)
  }

  lemma {:induction false} ClimbIsPath(devs: map<DevId, Dev>, itr: Option<DevId>, tail: string, max: nat)
    requires Ranked(devs) && (itr.Some? ==> itr.value in devs) && PathOf(devs, itr).Some? && 1 + |tail| <= max
    ensures var path := PathOf(devs, itr).value + tail;
            Climb(devs, itr, tail, max) == if |path| + 1 <= max then PathOk(path) else BUFFER_TOO_SMALL
    decreases if itr.Some? then itr.value + 1 else 0
  {
    if itr.None? {
      assert "" + tail == tail;
    } else {
      var r := Real(devs, itr.value).value;
      var up, name := PathOf(devs, devs[r].parent).value, Segment(devs[r]);
      assert (up + "/" + name) + tail == up + ("/" + name + tail);
      if |name| + 1 <= max - (1 + |tail|) {
        ClimbIsPath(devs, devs[r].parent, "/" + name + tail, max);
      }
    }
  }

  /** The call succeeds exactly when the path and its NUL fit, and then it
      yields the path. */
  lemma PathFits(devs: map<DevId, Dev>, d: DevId, max: nat)
    requires Ranked(devs) && d in devs && PathOf(devs, Some(d)).Some? && 0 < max
    ensures var path := PathOf(devs, Some(d)).value;
            Climb(devs, Some(d), "", max) == if |path| + 1 <= max then PathOk(path) else BUFFER_TOO_SMALL
  {
    ClimbIsPath(devs, Some(d), "", max);
    assert PathOf(devs, Some(d)).value + "" == PathOf(devs, Some(d)).value;
  }

  /** A temporary of `max` characters is filled from the end; the part in use
      is copied to the front of the caller's buffer. */
  method GetTopologicalPath(devs: map<DevId, Dev>, dev: DevId, out: array<char>, max: nat) returns (reply: PathReply)
    requires Ranked(devs) && dev in devs && 0 < max <= out.Length
    modifies out
    ensures reply == Climb(devs, Some(dev), "", max)
    ensures reply.PathOk? ==> |reply.path| < max && out[..|reply.path| + 1] == reply.path + [0 as char]
    ensures !reply.PathOk? ==> out[..] == old(out[..])
  {
    hide Ranked, Segment;
    var tmp := new char[max];
    var path, total := max - 1, 1;
    tmp[path] := 0 as char;
    ghost var tail := "";
    var itr := Some(dev);
    assert tmp[path..] == tail + [0 as char];
    while itr.Some?
      invariant (itr.Some? ==> itr.value in devs) && total == 1 + |tail| && path + total == max && 0 <= path
      invariant tmp[path..] == tail + [0 as char] && out[..] == old(out[..])
      invariant Climb(devs, itr, tail, max) == Climb(devs, Some(dev), "", max)
      decreases if itr.Some? then itr.value + 1 else 0
    {
      RankedParent(devs, itr.value);
      if devs[itr.value].proxy {
        itr := devs[itr.value].parent;
        if itr.None? {
          return NullPointer;
        }
        RankedParent(devs, itr.value);
      }
      var name := Segment(devs[itr.value]);
      var len := |name| + 1;
      if len > max - total {
        return BUFFER_TOO_SMALL;
      }
      ghost var was := tmp[path..];
      forall i | 0 <= i < |name| { tmp[path - len + 1 + i] := name[i]; }
      path := path - len;
      tmp[path] := '/';
      assert tmp[path..] == "/" + name + was;
      tail := "/" + name + tail;
      total := total + len;
      itr := devs[itr.value].parent;
    }
    forall i | 0 <= i < total { out[i] := tmp[path + i]; }
    assert out[..total] == tail + [0 as char] && out[..total - 1] == tail;
    return PathOk(out[..total - 1]);
  }

  lemma RankedParent(devs: map<DevId, Dev>, d: DevId)
    requires Ranked(devs) && d in devs
    ensures devs[d].parent.Some? ==> devs[d].parent.value in devs && devs[d].parent.value < d
  {
  }

  // ----- walking

  datatype WalkReply = Found(node: NodeId) | BAD_PATH | NOT_FOUND

  predicate VisibleNode(fs: Fs, n: NodeId) {
    n in fs.nodes && (fs.nodes[n].dev.Some? && fs.nodes[n].dev.value in fs.devs ==>
                        !fs.devs[fs.nodes[n].dev.value].invisible)
  }

  /** The first visible child of a name. */
  function FindVisible(fs: Fs, list: seq<NodeId>, name: string): (r: Option<NodeId>)
    ensures r.Some? ==> r.value in list && VisibleNode(fs, r.value) && fs.nodes[r.value].name == name
    ensures r.None? ==> forall n :: n in list && VisibleNode(fs, n) ==> fs.nodes[n].name != name
  {
    if list == [] then None
    else if VisibleNode(fs, list[0]) && fs.nodes[list[0]].name == name then Some(list[0])
    else FindVisible(fs, list[1..], name)
  }

  /** Place `i` of the list has the first node of that name without a device or
      with a visible one. */
  ghost predicate FirstSeen(fs: Fs, list: seq<NodeId>, i: int, name: string) {
    && 0 <= i < |list| && Seen(fs, list[i], name) && forall j :: 0 <= j < i ==> !Seen(fs, list[j], name)
  }

  ghost predicate Seen(fs: Fs, c: NodeId, name: string) {
    && c in fs.nodes && fs.nodes[c].name == name
    && (fs.nodes[c].dev.None? || fs.nodes[c].dev.value !in fs.devs || !fs.devs[fs.nodes[c].dev.value].invisible)
  }

  lemma {:induction false} FindFirst(fs: Fs, list: seq<NodeId>, name: string)
    ensures var r := FindVisible(fs, list, name);
            if r.Some? then exists i :: FirstSeen(fs, list, i, name) && list[i] == r.value
            else forall i :: 0 <= i < |list| ==> !Seen(fs, list[i], name)
  {
    var r := FindVisible(fs, list, name);
    if list == [] {
    } else if Seen(fs, list[0], name) {
      assert FirstSeen(fs, list, 0, name);
    } else {
      FindFirst(fs, list[1..], name);
      assert forall j :: 0 < j < |list| ==> list[j] == list[1..][j - 1];
      if r.Some? {
        var i :| FirstSeen(fs, list[1..], i, name) && list[1..][i] == r.value;
        assert FirstSeen(fs, list, i + 1, name);
      }
    }
  }

  function Walk(fs: Fs, n: NodeId, path: string): (r: WalkReply)
    requires n in fs.nodes
    ensures r.Found? ==> r.node in fs.nodes
    decreases |path|
  {
    if path == "" then Found(n)
    else
      var e := IndexOf(path, '/');
      if e == 0 then BAD_PATH
      else match FindVisible(fs, fs.nodes[n].children, path[..e])
        case None => NOT_FOUND
        case Some(c) => Walk(fs, c, if e < |path| then path[e + 1..] else "")
  }

  method FindChild(fs: Fs, n: NodeId, name: string) returns (r: Option<NodeId>)
    requires n in fs.nodes
    ensures r == FindVisible(fs, fs.nodes[n].children, name)
  {
    var list := fs.nodes[n].children;
    var i := 0;
    assert list[0..] == list;
    while i < |list|
      invariant i <= |list| && FindVisible(fs, list[i..], name) == FindVisible(fs, list, name)
    {
      assert list[i..][0] == list[i] && list[i..][1..] == list[i + 1..];
      if VisibleNode(fs, list[i]) && fs.nodes[list[i]].name == name {
        return Some(list[i]);
      }
      i := i + 1;
    }
    return None;
  }

  /** devfs_walk, component by component. */
  method WalkPath(fs: Fs, start: NodeId, path: string) returns (reply: WalkReply)
    requires start in fs.nodes
    ensures reply == Walk(fs, start, path)
  {
    hide Walk, FindVisible;
    var dn, at := start, 0;
    assert path[0..] == path;
    while at < |path|
      invariant at <= |path| && dn in fs.nodes && Walk(fs, dn, path[at..]) == Walk(fs, start, path)
    {
      var e := at;
      while e < |path| && path[e] != '/'
        invariant at <= e <= |path| && forall i :: at <= i < e ==> path[i] != '/'
      {
        e := e + 1;
      }
      WalkStep(fs, dn, path, at, e);
      if e == at {
        return BAD_PATH;
      }
      var c := FindChild(fs, dn, path[at..e]);
      if c.None? {
        return NOT_FOUND;
      }
      dn := c.value;
      at := if e < |path| then e + 1 else e;
    }
    WalkEnd(fs, dn, path[at..]);
    return Found(dn);
  }

  lemma WalkEnd(fs: Fs, n: NodeId, path: string)
    requires n in fs.nodes && path == ""
    ensures Walk(fs, n, path) == Found(n)
  {
  }

  /** One component, up to the separator at `e` or the end. */
  lemma WalkStep(fs: Fs, n: NodeId, path: string, at: nat, e: nat)
    requires n in fs.nodes && at < |path| && at <= e <= |path| && (e < |path| ==> path[e] == '/')
    requires forall i :: at <= i < e ==> path[i] != '/'
    ensures var r, c := Walk(fs, n, path[at..]), FindVisible(fs, fs.nodes[n].children, path[at..e]);
            if e == at then r == BAD_PATH
            else if c.None? then r == NOT_FOUND
            else r == Walk(fs, c.value, path[if e < |path| then e + 1 else e..])
  {
    FirstSlash(path, at, e);
    assert path[at..][..e - at] == path[at..e];
    if e < |path| {
      assert path[at..][e - at + 1..] == path[e + 1..];
    } else {
      assert path[e..] == "";
    }
  }

  lemma FirstSlash(path: string, at: nat, e: nat)
    requires at <= e <= |path| && (e < |path| ==> path[e] == '/') && forall i :: at <= i < e ==> path[i] != '/'
    ensures IndexOf(path[at..], '/') == e - at
  {
  }

  // ----- the round trip

  /** The root device: it is named "root", has no parent, and `rd` is it. */
  ghost predicate RootAt(fs: Fs, rd: DevId) {
    rd in fs.devs && fs.devs[rd].name == "root" && fs.devs[rd].parent.None? && !fs.devs[rd].proxy
    && fs.devs[rd].self.Some?
  }

  /** The device under whose node another is published: a composite, which has
      no parent, is published under the root. */
  function TopoParent(fs: Fs, rd: DevId, d: DevId): Option<DevId>
    requires d in fs.devs
  {
    if fs.devs[d].parent.None? then Some(rd) else fs.devs[d].parent
  }

  /** A device's node hangs below that of its topological parent. */
  ghost predicate Under(fs: Fs, d: DevId, p: DevId) {
    && d in fs.devs && p in fs.devs && fs.devs[d].self.Some? && fs.devs[p].self.Some?
    && fs.devs[d].self.value in fs.nodes && fs.nodes[fs.devs[d].self.value].parent == fs.devs[p].self
  }

  /** A device is published, and so are all its topological ancestors; their
      names are those of path components. A composite called "root", or one
      whose name is cut, is printed as something else. */
  ghost predicate Housed(fs: Fs, rd: DevId, d: DevId)
    requires Ranked(fs.devs) && RootAt(fs, rd)
    decreases d
  {
    && d in fs.devs && !fs.devs[d].proxy
    && (d == rd ||
        var r := fs.devs[d];
        Plain(r.name) &&
        if r.composite then r.parent.None? && r.name != "root" && |r.name| < MAX_FILENAME && Under(fs, d, rd)
        else r.parent.Some? && Housed(fs, rd, r.parent.value) && Under(fs, d, r.parent.value))
  }

  function Below(a: string, b: string): string {
    if a == "" then b else a + "/" + b
  }

  /** The path below "/dev/". */
  ghost function Rel(fs: Fs, rd: DevId, d: DevId): (s: string)
    requires Ranked(fs.devs) && RootAt(fs, rd) && Housed(fs, rd, d)
    ensures s == "" <==> d == rd
    ensures s != "" ==> s[|s| - 1] != '/'
    decreases d
  {
    if d == rd then "" else if fs.devs[d].composite then fs.devs[d].name
                            else Below(Rel(fs, rd, fs.devs[d].parent.value), fs.devs[d].name)
  }

  function FullPath(rel: string): string {
    if rel == "" then "/dev" else "/dev/" + rel
  }

  lemma {:induction false} PathIsRel(fs: Fs, rd: DevId, d: DevId)
    requires Ranked(fs.devs) && RootAt(fs, rd) && Housed(fs, rd, d)
    ensures PathOf(fs.devs, Some(d)) == Some(FullPath(Rel(fs, rd, d)))
    decreases d
  {
    var r := fs.devs[d];
    PathStep(fs.devs, d);
    if d == rd {
      assert "" + "/" + "dev" == "/dev";
    } else if r.composite {
      assert "" + "/" + ("dev/" + r.name) == "/dev/" + r.name;
    } else {
      PathIsRel(fs, rd, r.parent.value);
      hide PathOf;
      var up := Rel(fs, rd, r.parent.value);
      if up == "" {
        assert "/dev" + "/" + r.name == "/dev/" + r.name;
      } else {
        assert ("/dev/" + up) + "/" + r.name == "/dev/" + (up + "/" + r.name);
      }
    }
  }

  lemma PathStep(devs: map<DevId, Dev>, d: DevId)
    requires Ranked(devs) && d in devs && !devs[d].proxy
    ensures PathOf(devs, None) == Some("")
    ensures var up := PathOf(devs, devs[d].parent);
            PathOf(devs, Some(d)) == if up.None? then None else Some(up.value + "/" + Segment(devs[d]))
  {
  }

  lemma {:induction false} WalkOne(fs: Fs, n: NodeId, name: string)
    requires n in fs.nodes && Plain(name)
    ensures var c := FindVisible(fs, fs.nodes[n].children, name);
            Walk(fs, n, name) == if c.Some? then Found(c.value) else NOT_FOUND
  {
    WalkStep(fs, n, name, 0, |name|);
    assert name[0..] == name && name[0..|name|] == name && name[|name|..] == "";
  }

  /** Walking a longer path is walking its front and then its last component. */
  lemma {:induction false} WalkSplit(fs: Fs, n: NodeId, a: string, b: string)
    requires n in fs.nodes && a != "" && a[|a| - 1] != '/'
    ensures Walk(fs, n, a + "/" + b) == var m := Walk(fs, n, a); if m.Found? then Walk(fs, m.node, b) else m
    decreases |a|
  {
    hide Walk, FindVisible;
    var path, e := a + "/" + b, IndexOf(a, '/');
    assert forall i :: 0 <= i < |a| ==> path[i] == a[i];
    assert path[|a|] == '/';
    WalkStep(fs, n, path, 0, e);
    WalkStep(fs, n, a, 0, e);
    assert path[0..] == path && a[0..] == a && path[0..e] == a[0..e];
    var c := FindVisible(fs, fs.nodes[n].children, a[0..e]);
    if e > 0 && c.Some? {
      if e < |a| {
        assert path[e + 1..] == a[e + 1..] + "/" + b;
        WalkSplit(fs, c.value, a[e + 1..], b);
      } else {
        assert a[e..] == "" && path[e + 1..] == b;
        WalkEnd(fs, c.value, "");
      }
    }
  }

  /** Each component of the path leads to the node it was printed for: that
      node is the first visible one of its name. */
  ghost predicate Resolves(fs: Fs, rd: DevId, d: DevId)
    requires Ranked(fs.devs) && RootAt(fs, rd) && Housed(fs, rd, d)
    decreases d
  {
    d == rd ||
    var p := TopoParent(fs, rd, d).value;
    && fs.devs[p].self.value in fs.nodes
    && FindVisible(fs, fs.nodes[fs.devs[p].self.value].children, fs.devs[d].name) == fs.devs[d].self
    && (fs.devs[d].composite || Resolves(fs, rd, p))
  }

  /** Walking the printed path finds the device's own node exactly when every
      component resolves. */
  lemma {:induction false} RoundTripIff(fs: Fs, rd: DevId, d: DevId)
    requires Inv(fs) && Ranked(fs.devs) && RootAt(fs, rd) && Housed(fs, rd, d)
    ensures fs.devs[rd].self.value in fs.nodes && fs.devs[d].self.Some?
    ensures Walk(fs, fs.devs[rd].self.value, Rel(fs, rd, d)) == Found(fs.devs[d].self.value) <==> Resolves(fs, rd, d)
    decreases d
  {
    SelfIsNode(fs, rd);
    hide Inv, Walk, FindVisible;
    var root, name := fs.devs[rd].self.value, fs.devs[d].name;
    if d == rd {
      WalkEnd(fs, root, "");
    } else {
      var p := TopoParent(fs, rd, d).value;
      SelfIsNode(fs, p);
      if fs.devs[d].composite || p == rd {
        WalkOne(fs, root, name);
      } else {
        RoundTripIff(fs, rd, p);
        WalkSplit(fs, root, Rel(fs, rd, p), name);
        var m := Walk(fs, root, Rel(fs, rd, p));
        if m.Found? {
          WalkOne(fs, m.node, name);
          OnlyFromParent(fs, m.node, name, d, p);
        }
      }
    }
  }

  lemma SelfIsNode(fs: Fs, d: DevId)
    requires Inv(fs) && d in fs.devs
    ensures fs.devs[d].self.Some? ==> fs.devs[d].self.value in fs.nodes
  {
  }

  lemma OnlyFromParent(fs: Fs, m: NodeId, name: string, d: DevId, p: DevId)
    requires Inv(fs) && m in fs.nodes && Under(fs, d, p)
    ensures FindVisible(fs, fs.nodes[m].children, name) == fs.devs[d].self ==> fs.devs[p].self == Some(m)
  {
  }

  /** Visible, and the only visible child of its name. */
  ghost predicate Clear(fs: Fs, n: NodeId) {
    && VisibleNode(fs, n)
    && forall m :: m in fs.nodes && VisibleNode(fs, m) && fs.nodes[m].parent == fs.nodes[n].parent
                   && fs.nodes[m].name == fs.nodes[n].name ==>
         m == n
  }

  ghost predicate AllClear(fs: Fs, rd: DevId, d: DevId)
    requires Ranked(fs.devs) && RootAt(fs, rd) && Housed(fs, rd, d)
    decreases d
  {
    d == rd || (Clear(fs, fs.devs[d].self.value) && (fs.devs[d].composite || AllClear(fs, rd, fs.devs[d].parent.value)))
  }

  lemma {:induction false} ClearResolves(fs: Fs, rd: DevId, d: DevId)
    requires Inv(fs) && Ranked(fs.devs) && RootAt(fs, rd) && Housed(fs, rd, d) && AllClear(fs, rd, d)
    ensures Resolves(fs, rd, d)
    decreases d
  {
    if d == rd {
    } else {
      var p := TopoParent(fs, rd, d).value;
      ClearStep(fs, d, p);
      hide Inv, Clear, FindVisible;
      if !fs.devs[d].composite { ClearResolves(fs, rd, p); }
    }
  }

  lemma ClearStep(fs: Fs, d: DevId, p: DevId)
    requires Inv(fs) && Under(fs, d, p) && Clear(fs, fs.devs[d].self.value)
    ensures fs.devs[p].self.value in fs.nodes
    ensures FindVisible(fs, fs.nodes[fs.devs[p].self.value].children, fs.devs[d].name) == fs.devs[d].self
  {
  }

  /** Print and parse: for a published device whose ancestors and itself are
      visible and uniquely named among their siblings, walking from the root
      along its topological path without "/dev/" ends at its own node. */
  lemma RoundTrip(fs: Fs, rd: DevId, d: DevId)
    requires Inv(fs) && Ranked(fs.devs) && RootAt(fs, rd) && Housed(fs, rd, d) && AllClear(fs, rd, d) && d != rd
    ensures var path := PathOf(fs.devs, Some(d));
            && path.Some? && "/dev/" <= path.value && fs.devs[rd].self.value in fs.nodes
            && var found := Walk(fs, fs.devs[rd].self.value, path.value[5..]);
            found.Found? && fs.devs[d].self == Some(found.node) && fs.nodes[found.node].dev == Some(d)
  {
    hide Walk;
    ClearResolves(fs, rd, d);
    RoundTripIff(fs, rd, d);
    PathIsRel(fs, rd, d);
    assert OwnedAt(fs, d);
    var rel := Rel(fs, rd, d);
    assert ("/dev/" + rel)[5..] == rel;
  }

  // ----- the devices that are not found

  /** A device is published, and so are all its topological ancestors; their
      names are those of path components. */
  ghost predicate Hung(fs: Fs, rd: DevId, d: DevId)
    requires Ranked(fs.devs) && RootAt(fs, rd)
    decreases d
  {
    && d in fs.devs && !fs.devs[d].proxy
    && (d != rd ==>
          && Plain(fs.devs[d].name) && (fs.devs[d].composite ==> fs.devs[d].parent.None?)
          && (fs.devs[d].parent.Some? ==> Hung(fs, rd, fs.devs[d].parent.value))
          && Under(fs, d, TopoParent(fs, rd, d).value))
  }

  /** The device, or the composite it descends from, is printed as what it is:
      not called "root", not cut, and not dissociated from its composite. */
  ghost predicate Printable(fs: Fs, rd: DevId, d: DevId)
    requires Ranked(fs.devs) && RootAt(fs, rd) && Hung(fs, rd, d)
    decreases d
  {
    d == rd ||
    var r := fs.devs[d];
    if r.parent.None? then r.composite && r.name != "root" && |r.name| < MAX_FILENAME
    else Printable(fs, rd, r.parent.value)
  }

  lemma {:induction false} HousedIff(fs: Fs, rd: DevId, d: DevId)
    requires Ranked(fs.devs) && RootAt(fs, rd) && Hung(fs, rd, d)
    ensures Housed(fs, rd, d) <==> Printable(fs, rd, d)
    decreases d
  {
    if d == rd || fs.devs[d].parent.None? {
    } else {
      HousedIff(fs, rd, fs.devs[d].parent.value);
    }
  }

  /** The topmost ancestor other than the root. */
  ghost function Top(fs: Fs, rd: DevId, d: DevId): (c: DevId)
    requires Ranked(fs.devs) && RootAt(fs, rd) && Hung(fs, rd, d) && d != rd
    ensures c in fs.devs && c != rd && Hung(fs, rd, c) && (fs.devs[c].parent.None? || fs.devs[c].parent == Some(rd))
    decreases d
  {
    var p := fs.devs[d].parent;
    if p.None? || p.value == rd then d else Top(fs, rd, p.value)
  }

  /** The path from there on down. */
  ghost function Down(fs: Fs, rd: DevId, d: DevId): (s: string)
    requires Ranked(fs.devs) && RootAt(fs, rd) && Hung(fs, rd, d) && d != rd
    ensures s == "" <==> d == Top(fs, rd, d)
    ensures s != "" ==> s[|s| - 1] != '/' && s[0] != '/'
    decreases d
  {
    var p := fs.devs[d].parent;
    if p.None? || p.value == rd then "" else Below(Down(fs, rd, p.value), fs.devs[d].name)
  }

  function Joined(a: string, b: string): string {
    if b == "" then a else Below(a, b)
  }

  lemma {:induction false} PathIsDown(fs: Fs, rd: DevId, d: DevId)
    requires Ranked(fs.devs) && RootAt(fs, rd) && Hung(fs, rd, d) && d != rd && fs.devs[Top(fs, rd, d)].parent.None?
    ensures var down := Down(fs, rd, d);
            PathOf(fs.devs, Some(d)) == Some("/" + Segment(fs.devs[Top(fs, rd, d)]) + (if down == "" then ""
                  else "/" + down))
    decreases d
  {
    PathStep(fs.devs, d);
    var p, name := fs.devs[d].parent, fs.devs[d].name;
    var c := Top(fs, rd, d);
    var head := "/" + Segment(fs.devs[c]);
    if p.None? {
      assert "" + "/" + Segment(fs.devs[c]) == head && head + "" == head;
    } else {
      PathIsDown(fs, rd, p.value);
      hide PathOf;
      var up := Down(fs, rd, p.value);
      assert Segment(fs.devs[d]) == name;
      if up == "" {
        assert (head + "") + "/" + name == head + ("/" + name);
      } else {
        assert (head + ("/" + up)) + "/" + name == head + ("/" + (up + "/" + name));
      }
    }
  }

  /** Walking down can only end at the device's node if it passed the node of
      its topmost ancestor. */
  lemma {:induction false} WalkUp(fs: Fs, rd: DevId, d: DevId, root: NodeId, a: string)
    requires Inv(fs) && Ranked(fs.devs) && RootAt(fs, rd) && Hung(fs, rd, d) && d != rd && root in fs.nodes
    requires a != "" ==> a[|a| - 1] != '/'
    requires fs.devs[d].self.Some? && Walk(fs, root, Joined(a, Down(fs, rd, d))) == Found(fs.devs[d].self.value)
    ensures var c := Top(fs, rd, d); fs.devs[c].self.Some? && Walk(fs, root, a) == Found(fs.devs[c].self.value)
    decreases d
  {
    hide Inv, Walk, FindVisible;
    var p, name := fs.devs[d].parent, fs.devs[d].name;
    if p.None? || p.value == rd {
    } else {
      var x := Joined(a, Down(fs, rd, p.value));
      SelfIsNode(fs, p.value);
      if x == "" {
        WalkOne(fs, root, name);
        WalkEnd(fs, root, "");
        OnlyFromParent(fs, root, name, d, p.value);
      } else {
        assert Joined(a, Down(fs, rd, d)) == x + "/" + name by { Assoc(a, Down(fs, rd, p.value), name); }
        WalkSplit(fs, root, x, name);
        var m := Walk(fs, root, x);
        WalkOne(fs, m.node, name);
        OnlyFromParent(fs, m.node, name, d, p.value);
      }
      WalkUp(fs, rd, p.value, root, a);
    }
  }

  lemma Assoc(a: string, b: string, c: string)
    requires c != ""
    ensures Joined(a, Below(b, c)) == if Joined(a, b) == "" then c else Joined(a, b) + "/" + c
  {
    if a != "" && b != "" { assert a + "/" + (b + "/" + c) == (a + "/" + b) + "/" + c; }
  }

  /** The node of a composite is not the root, and bears its whole name. */
  lemma TopNode(fs: Fs, rd: DevId, c: DevId)
    requires Inv(fs) && RootAt(fs, rd) && c != rd && Under(fs, c, rd)
    ensures fs.devs[c].self != fs.devs[rd].self
    ensures fs.devs[c].self.value in fs.nodes && fs.nodes[fs.devs[c].self.value].name == fs.devs[c].name
  {
    assert OwnedAt(fs, c) && OwnedAt(fs, rd);
  }

  ghost predicate FoundByPath(fs: Fs, rd: DevId, d: DevId)
    requires Ranked(fs.devs) && d in fs.devs && rd in fs.devs
  {
    var path := PathOf(fs.devs, Some(d));
    && path.Some? && "/dev/" <= path.value
    && fs.devs[rd].self.Some? && fs.devs[rd].self.value in fs.nodes && fs.devs[d].self.Some?
    && Walk(fs, fs.devs[rd].self.value, path.value[5..]) == Found(fs.devs[d].self.value)
  }

  lemma {:induction false} TopPrintable(fs: Fs, rd: DevId, d: DevId)
    requires Ranked(fs.devs) && RootAt(fs, rd) && Hung(fs, rd, d) && d != rd
    ensures Printable(fs, rd, d) <==> Printable(fs, rd, Top(fs, rd, d))
    decreases d
  {
    var p := fs.devs[d].parent;
    if p.None? || p.value == rd {
    } else {
      TopPrintable(fs, rd, p.value);
    }
  }

  /** A composite called "root", one whose name is cut and one that was
      dissociated are not found by their paths, nor is anything below them. */
  lemma NotPrintableNotFound(fs: Fs, rd: DevId, d: DevId)
    requires Inv(fs) && Ranked(fs.devs) && RootAt(fs, rd) && Hung(fs, rd, d) && d != rd && !Printable(fs, rd, d)
    ensures !FoundByPath(fs, rd, d)
  {
    hide Inv, Walk, PathOf;
    var c := Top(fs, rd, d);
    TopPrintable(fs, rd, d);
    var top, down := fs.devs[c], Down(fs, rd, d);
    assert top.parent.None?;
    PathIsDown(fs, rd, d);
    if FoundByPath(fs, rd, d) {
      var path, root := PathOf(fs.devs, Some(d)).value, fs.devs[rd].self.value;
      var a := if top.name != "root" && top.composite then Cut(top.name) else "";
      RestOfPath(top, down, path);
      WalkUp(fs, rd, d, root, a);
      TopNode(fs, rd, c);
      if a == "" {
        WalkEnd(fs, root, "");
      } else {
        WalkOne(fs, root, a);
      }
    }
  }

  lemma RestOfPath(top: Dev, down: string, path: string)
    requires top.parent.None? && Plain(top.name) && (down != "" ==> down[0] != '/')
    requires !(top.composite && top.name != "root" && |top.name| < MAX_FILENAME)
    requires path == "/" + Segment(top) + (if down == "" then "" else "/" + down) && "/dev/" <= path
    ensures var a := if top.name != "root" && top.composite then Cut(top.name) else "";
            && path[5..] == Joined(a, down)
            && (a != "" ==> Plain(a))
  {
    if top.name == "root" {
      AfterDev("dev", down, path);
    } else if top.composite {
      CutPlain(top.name);
      AfterCut(Cut(top.name), down, path);
    } else {
      AfterDev(top.name, down, path);
    }
  }

  lemma CutPlain(name: string)
    requires Plain(name)
    ensures Plain(Cut(name))
  {
    var cut := Cut(name);
    forall i | 0 <= i < |cut| ensures cut[i] != '/' { assert cut[i] == name[i]; }
  }

  lemma AfterCut(cut: string, down: string, path: string)
    requires cut != "" && path == "/" + ("dev/" + cut) + (if down == "" then "" else "/" + down)
    ensures path[5..] == Joined(cut, down)
  {
    var rest := if down == "" then "" else "/" + down;
    assert path == "/dev/" + (cut + rest);
    assert path[5..] == cut + rest;
  }

  lemma AfterDev(name: string, down: string, path: string)
    requires Plain(name) && path == "/" + name + (if down == "" then "" else "/" + down) && "/dev/" <= path
    ensures path[5..] == down
  {
    assert path[1] == 'd' && path[2] == 'e' && path[3] == 'v' && path[4] == '/';
    assert forall i :: 0 <= i < |name| ==> path[1 + i] == name[i];
    assert |name| < 4;
    assert path[1 + |name|] == '/';
  }

  /** Print and parse, for every published device: its path starts with "/dev/"
      and walking the rest of it finds the device's own node exactly if the
      composite it descends from, if any, is printed as what it is and every
      component resolves. */
  lemma FoundIff(fs: Fs, rd: DevId, d: DevId)
    requires Inv(fs) && Ranked(fs.devs) && RootAt(fs, rd) && Hung(fs, rd, d) && d != rd
    ensures FoundByPath(fs, rd, d) <==> Printable(fs, rd, d) && Housed(fs, rd, d) && Resolves(fs, rd, d)
  {
    hide Walk, Inv, PathOf;
    HousedIff(fs, rd, d);
    if Printable(fs, rd, d) {
      RoundTripIff(fs, rd, d);
      PathIsRel(fs, rd, d);
      var rel := Rel(fs, rd, d);
      assert ("/dev/" + rel)[5..] == rel;
    } else {
      NotPrintableNotFound(fs, rd, d);
    }
  }

  /** For a composite published under the root: exactly if its name is not
      "root" and shorter than 255 characters, it is still associated, and its
      node is the first visible one of that name. */
  lemma CompositeFoundIff(fs: Fs, rd: DevId, d: DevId)
    requires Inv(fs) && Ranked(fs.devs) && RootAt(fs, rd) && Hung(fs, rd, d) && d != rd && fs.devs[d].parent.None?
    ensures fs.devs[rd].self.value in fs.nodes
    ensures FoundByPath(fs, rd, d) <==>
              && fs.devs[d].composite && fs.devs[d].name != "root" && |fs.devs[d].name| < MAX_FILENAME
              && FindVisible(fs, fs.nodes[fs.devs[rd].self.value].children, fs.devs[d].name) == fs.devs[d].self
  {
    SelfIsNode(fs, rd);
    hide Inv, FoundByPath, FindVisible;
    FoundIff(fs, rd, d);
  }

  /** A composite device that was dissociated from its composite and is still
      published is printed without "/dev". */
  lemma DissociatedPath(devs: map<DevId, Dev>, d: DevId)
    requires Ranked(devs) && d in devs && !devs[d].proxy && !devs[d].composite && devs[d].parent.None?
    requires Plain(devs[d].name) && devs[d].name != "root"
    ensures PathOf(devs, Some(d)) == Some("/" + devs[d].name) && !("/dev/" <= "/" + devs[d].name)
  {
    assert PathOf(devs, None) == Some("");
    assert "" + "/" + devs[d].name == "/" + devs[d].name;
    var path := "/" + devs[d].name;
    assert |path| > 4 ==> path[4] == devs[d].name[3];
  }
}
