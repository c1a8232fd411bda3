/** What a directory listing shows, in terms of devices and services: readdir
    and walking agree (devfs_readdir and devfs_walk of devfs.cc). */
module DevfsListing {
  import opened Common
  import opened Devfs
  import opened DevfsForest
  import opened DevfsExport
  import opened DevfsPath
  import R = DevfsReaddir

  /** A node of a device that is not invisible. */
  ghost predicate OfVisibleDevice(fs: Fs, c: NodeId) {
    && c in fs.nodes && fs.nodes[c].dev.Some? && fs.nodes[c].dev.value in fs.devs
    && !fs.devs[fs.nodes[c].dev.value].invisible
  }

  /** A node without a device that has something to show. */
  ghost predicate Substantial(fs: Fs, special: set<NodeId>, c: NodeId) {
    && c in fs.nodes && fs.nodes[c].dev.None?
    && (fs.nodes[c].service.Some? || |fs.nodes[c].children| > 0 || c in special)
  }

  /** No page, stopped or not, holds the node of an invisible device or a node
      without a device and with nothing to show. */
  lemma NeverListed(fs: Fs, special: set<NodeId>, list: seq<NodeId>, ino: NodeId, room: nat, e: R.Entry)
    requires Ascending(list) && e in R.Read(fs, special, list, ino, room).entries
    ensures e.ino in list && ino < e.ino && e.ino in fs.nodes && e.name == fs.nodes[e.ino].name
    ensures OfVisibleDevice(fs, e.ino) || Substantial(fs, special, e.ino)
  {
    hide R.Read, R.Packed;
    R.ReadPage(fs, special, list, ino, room);
    var p := R.Read(fs, special, list, ino, room);
    R.InInos(p.entries, e.ino);
  }

  /** A call that is not stopped lists exactly the children above the cursor
      that belong to a visible device or have something to show. */
  lemma ListedExactly(fs: Fs, special: set<NodeId>, list: seq<NodeId>, ino: NodeId, room: nat, c: NodeId)
    requires Ascending(list) && !R.Read(fs, special, list, ino, room).stopped
    ensures c in R.Inos(R.Read(fs, special, list, ino, room).entries) <==>
              c in list && ino < c && (OfVisibleDevice(fs, c) || Substantial(fs, special, c))
  {
    hide R.Read, R.Packed, R.Above;
    R.ReadPage(fs, special, list, ino, room);
  }

  /** Names under a node are plain and distinct. */
  ghost predicate Distinct(fs: Fs, n: NodeId)
    requires n in fs.nodes
  {
    var list := fs.nodes[n].children;
    && (forall c :: c in list && c in fs.nodes ==> Plain(fs.nodes[c].name))
    && (forall a, b :: a in list && b in list && a in fs.nodes && b in fs.nodes
                       && fs.nodes[a].name == fs.nodes[b].name ==>
          a == b)
  }

  /** Listing and walking agree: in a directory with distinct plain names, an
      unstopped read from the start lists the node of a device exactly if
      walking the node's name finds that node. */
  lemma ListedIffFound(fs: Fs, special: set<NodeId>, n: NodeId, room: nat, c: NodeId)
    requires Inv(fs) && n in fs.nodes && Distinct(fs, n) && c in fs.nodes[n].children && c in fs.nodes
    requires fs.nodes[c].dev.Some? && !R.Read(fs, special, fs.nodes[n].children, 0, room).stopped
    ensures c in R.Inos(R.Read(fs, special, fs.nodes[n].children, 0, room).entries) <==>
              Walk(fs, n, fs.nodes[c].name) == Found(c)
  {
    hide Walk, R.Read;
    ChildrenHere(fs, n, c);
    ListedExactly(fs, special, fs.nodes[n].children, 0, room, c);
    WalkOne(fs, n, fs.nodes[c].name);
    hide Inv;
    var found := FindVisible(fs, fs.nodes[n].children, fs.nodes[c].name);
    assert VisibleNode(fs, c) <==> OfVisibleDevice(fs, c);
  }

  lemma ChildrenHere(fs: Fs, n: NodeId, c: NodeId)
    requires Inv(fs) && n in fs.nodes && c in fs.nodes[n].children
    ensures Ascending(fs.nodes[n].children) && 0 < c
    ensures c in fs.nodes && (fs.nodes[c].dev.Some? ==> fs.nodes[c].dev.value in fs.devs)
  {
    assert ListAt(fs.nodes, n);
  }
}
