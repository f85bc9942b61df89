/** The file system: the invariant that ties allocators, block maps, directories and the tree
    together, and path resolution over it. */
module Ext2Fs {
  import opened Bytes
  import opened Ext2Layout
  import opened Ext2Volume
  import opened Ext2Store
  import opened Ext2BlockMap
  import opened Ext2DirBlock
  import opened Ext2Dir
  import opened Ext2Tree

  /** The current inode of each inode in the tree: an open handle's copy, else the one on disk. */
  ghost function Current(v: Volume, open: map<nat, Inode>, live: set<nat>): map<nat, Inode> {
    map n | n in live && n in v.inodes :: if n in open then open[n] else v.inodes[n]
  }

  ghost function DirsOf(g: Geometry, v: Volume, live: set<nat>): Dirs {
    map n | n in live && n in v.inodes && IsDir(v.inodes[n]) && DirOk(g, v.data, v.inodes[n]) ::
      Contents(g, v.data, v.inodes[n])
  }

  ghost predicate LiveOk(g: Geometry, v: Volume, open: map<nat, Inode>, live: set<nat>) {
    && live <= v.iused && live <= v.inodes.Keys && open.Keys <= live
    && (forall n :: n in live && IsDir(v.inodes[n]) ==> DirOk(g, v.data, v.inodes[n]))
    && (forall n :: n in open ==> !IsDir(v.inodes[n]) && !IsDir(open[n]))
  }

  /** A handle's copy h of inode n may be ahead of the inode table's record i: it may have more pointers.
      The record counts no more sectors than it has, and exactly those it has if it has no indirect block. */
  ghost predicate HandleOk(g: Geometry, data: Blocks, stale: set<nat>, n: nat, i: Inode, h: Inode) {
    Behind(i, h) && AtMost(g, data, i) && (n !in stale && i.block[DIRECT] == 0 ==> SectorsOk(g, data, i))
  }

  ghost predicate HandlesOk(g: Geometry, v: Volume, open: map<nat, Inode>, stale: set<nat>) {
    forall n :: n in open ==> n in v.inodes && HandleOk(g, v.data, stale, n, v.inodes[n], open[n])
  }

  /** Every block reachable from an inode of the tree is used and owned by one slot of one inode;
      directories are tiled; the tree hangs together. */
  ghost predicate FsInv(g: Geometry, v: Volume, open: map<nat, Inode>, t: Tree) {
    && LiveOk(g, v, open, t.live) && HandlesOk(g, v, open, t.owner.stale) && t.owner.stale <= t.live
    && MapsOk(g, v, t.owner, Current(v, open, t.live))
    && TreeOk(t, DirsOf(g, v, t.live))
  }

  ghost predicate Inv(fs: FsInstance)
    reads fs
  {
    fs.Valid() && FsInv(fs.g, fs.Vol(), fs.open, fs.tree)
  }

  /** Where a path leads, or 0. */
  ghost function Resolve(g: Geometry, v: Volume, t: Tree, path: seq<byte>): nat {
    Walk(DirsOf(g, v, t.live), ROOT, Components(path))
  }

  /** The directories are the directory inodes of the tree, each with what its blocks list. */
  lemma DirAt(g: Geometry, v: Volume, open: map<nat, Inode>, live: set<nat>, n: nat)
    requires LiveOk(g, v, open, live)
    ensures n in DirsOf(g, v, live) <==> n in live && IsDir(v.inodes[n])
    ensures n in DirsOf(g, v, live) ==> DirOk(g, v.data, v.inodes[n])
    ensures n in DirsOf(g, v, live) ==> DirsOf(g, v, live)[n] == Contents(g, v.data, v.inodes[n])
  {
    hide DirOk; hide Contents; hide IsDir;
  }

  lemma SameDirs(g: Geometry, v: Volume, open: map<nat, Inode>, v': Volume, open': map<nat, Inode>, live: set<nat>)
    requires LiveOk(g, v, open, live) && LiveOk(g, v', open', live)
    requires forall n :: n in live ==> (IsDir(v'.inodes[n]) <==> IsDir(v.inodes[n]))
    requires forall n ::
      n in live && IsDir(v.inodes[n]) ==> Contents(g, v'.data, v'.inodes[n]) == Contents(g, v.data, v.inodes[n])
    ensures DirsOf(g, v', live) == DirsOf(g, v, live)
  {
    hide DirOk; hide Contents; hide IsDir; hide DirsOf;
    var a, b := DirsOf(g, v, live), DirsOf(g, v', live);
    forall n ensures n in a <==> n in b ensures n in a ==> a[n] == b[n] {
      DirAt(g, v, open, live, n);
      DirAt(g, v', open', live, n);
    }
  }

  lemma SameCurrent(v: Volume, open: map<nat, Inode>, v': Volume, live: set<nat>)
    requires live <= v.inodes.Keys && live <= v'.inodes.Keys
    requires forall n :: n in live ==> v'.inodes[n] == v.inodes[n]
    ensures Current(v', open, live) == Current(v, open, live)
  {
  }

  lemma LiveInode(g: Geometry, v: Volume, open: map<nat, Inode>, t: Tree, n: nat)
    requires FsInv(g, v, open, t) && n in t.live
    ensures n in v.inodes && n in v.iused
    ensures IsDir(v.inodes[n]) ==> DirOk(g, v.data, v.inodes[n]) && n !in open
    ensures IsDir(v.inodes[n]) <==> n in DirsOf(g, v, t.live)
    ensures IsDir(v.inodes[n]) ==> DirsOf(g, v, t.live)[n] == Contents(g, v.data, v.inodes[n])
    ensures v.inodes[n].block[DIRECT] == 0 || n in open || v.inodes[n].block[DIRECT] in v.data
  {
    hide MapsOk; hide DirOk; hide Contents; hide TreeOk; hide HandlesOk;
    var eff := Current(v, open, t.live);
    assert n in eff;
    LastSlotsEmpty(g, v, t.owner, eff, n);
  }

  lemma RootLive(g: Geometry, v: Volume, open: map<nat, Inode>, t: Tree)
    requires FsInv(g, v, open, t)
    ensures ROOT in t.live && 0 !in t.live
  {
    hide MapsOk; hide DirsOf; hide DirFits; hide Hangs; hide LiveOk;
  }

  ghost predicate AllKept(g: Geometry, data: Blocks, data': Blocks, eff: map<nat, Inode>) {
    forall m :: m in eff ==> FileKept(g, data, eff[m], data', eff[m])
  }

  lemma NothingKept(g: Geometry, v: Volume, owner: Owners, eff: map<nat, Inode>)
    requires MapsOk(g, v, owner, eff)
    ensures AllKept(g, v.data, v.data, eff)
  {
    hide Counted; hide Slot; hide KeptBut;
    forall m | m in eff ensures FileKept(g, v.data, eff[m], v.data, eff[m]) {
      KeptSelf(g, v, owner, m, eff[m], MaxBlocks(g));
    }
  }

  /** The ownership invariant looks at the used set and the data blocks only. */
  lemma SameMaps(g: Geometry, v: Volume, v': Volume, owner: Owners, eff: map<nat, Inode>)
    requires MapsOk(g, v, owner, eff) && v'.used == v.used && v'.data == v.data
    ensures MapsOk(g, v', owner, eff)
  {
    hide Counted; hide Owns;
  }

  /** The slots of a record are among those of a copy that is ahead of it, and change only as that copy's do. */
  lemma BehindSlots(g: Geometry, data: Blocks, i: Inode, h: Inode, s: nat)
    requires Behind(i, h) && s <= MaxBlocks(g)
    ensures Slot(g, data, i, s) == 0 || Slot(g, data, i, s) == Slot(g, data, h, s)
    ensures i.block[DIRECT] != 0 && s >= DIRECT ==> Slot(g, data, i, s) == Slot(g, data, h, s)
    ensures i.block[DIRECT] == 0 && s >= DIRECT ==> Slot(g, data, i, s) == 0
  {
  }

  lemma RecordSlotsKept(g: Geometry, data: Blocks, data': Blocks, i: Inode, h: Inode, s: nat)
    requires Behind(i, h) && FileKept(g, data, h, data', h) && s <= MaxBlocks(g)
    ensures Slot(g, data', i, s) == Slot(g, data, i, s)
  {
    if DIRECT <= s < MaxBlocks(g) {
      assert BlockAt(g, data', h, s) == BlockAt(g, data, h, s);
    }
  }

  lemma HandleKept(g: Geometry, data: Blocks, data': Blocks, stale: set<nat>, stale': set<nat>, n: nat, i: Inode,
                   h: Inode)
    requires HandleOk(g, data, stale, n, i, h) && FileKept(g, data, h, data', h) && (n in stale <==> n in stale')
    ensures HandleOk(g, data', stale', n, i, h)
  {
    hide Slot; hide FileKept; hide Owned;
    forall s: nat | s <= MaxBlocks(g)
      ensures Slot(g, data', i, s) == Slot(g, data, i, s)
    {
      RecordSlotsKept(g, data, data', i, h, s);
    }
    OwnedSame(g, data, i, data', i, MaxBlocks(g) + 1);
  }

  /** Handles stay sound when their records stay and their files are kept. */
  lemma HandlesKept(g: Geometry, v: Volume, open: map<nat, Inode>, stale: set<nat>, v': Volume, open': map<nat, Inode>,
                    stale': set<nat>)
    requires HandlesOk(g, v, open, stale) && open'.Keys <= open.Keys
    requires forall n ::
      n in open' ==> open'[n] == open[n] && n in v'.inodes && n in v.inodes && v'.inodes[n] == v.inodes[n]
    requires forall n :: n in open' ==> FileKept(g, v.data, open[n], v'.data, open[n]) && (n in stale <==> n in stale')
    ensures HandlesOk(g, v', open', stale')
  {
    hide HandleOk; hide FileKept;
    forall n | n in open' ensures HandleOk(g, v'.data, stale', n, v'.inodes[n], open'[n]) {
      HandleKept(g, v.data, v'.data, stale, stale', n, v.inodes[n], open[n]);
    }
  }

  /** A change that no inode of the tree can see keeps the invariant and every directory. */
  lemma Unseen(g: Geometry, v: Volume, open: map<nat, Inode>, t: Tree, v': Volume, owner': Owners)
    requires FsInv(g, v, open, t) && v.iused <= v'.iused && t.live <= v'.inodes.Keys
    requires forall n :: n in t.live ==> v'.inodes[n] == v.inodes[n]
    requires MapsOk(g, v', owner', Current(v, open, t.live)) && AllKept(g, v.data, v'.data, Current(v, open, t.live))
    requires owner'.stale == t.owner.stale
    ensures FsInv(g, v', open, t.(owner := owner')) && DirsOf(g, v', t.live) == DirsOf(g, v, t.live)
  {
    hide MapsOk; hide TreeOk; hide FileKept; hide DirOk; hide Contents; hide HandlesOk; hide DirsOf; hide IsDir;
    forall n | n in open
      ensures FileKept(g, v.data, open[n], v'.data, open[n])
    {
      assert n in Current(v, open, t.live);
    }
    HandlesThere(g, v, open, t.owner.stale);
    HandlesKept(g, v, open, t.owner.stale, v', open, owner'.stale);
    forall n | n in t.live && IsDir(v.inodes[n])
      ensures DirOk(g, v.data, v.inodes[n]) && DirOk(g, v'.data, v.inodes[n])
      ensures Contents(g, v'.data, v.inodes[n]) == Contents(g, v.data, v.inodes[n])
    {
      assert n in Current(v, open, t.live) && Current(v, open, t.live)[n] == v.inodes[n];
      DirKept(g, v.data, v.inodes[n], v'.data, v.inodes[n]);
    }
    SameCurrent(v, open, v', t.live);
    assert LiveOk(g, v', open, t.live);
    SameDirs(g, v, open, v', open, t.live);
    OwnerUnseen(t, DirsOf(g, v, t.live), owner');
  }

  lemma HandlesThere(g: Geometry, v: Volume, open: map<nat, Inode>, stale: set<nat>)
    requires HandlesOk(g, v, open, stale)
    ensures forall n :: n in open ==> n in v.inodes
  {
  }

  /** One step of the walk: read the inode of cur, look the component up. */
  method StepInto(fs: FsInstance, cur: nat, comp: Name) returns (next: nat)
    requires Inv(fs) && cur in fs.tree.live
    ensures next == var dirs := DirsOf(fs.g, fs.Vol(), fs.tree.live); if cur in dirs then Find(dirs[cur], comp) else 0
    ensures next != 0 ==> next in fs.tree.live
  {
    hide ImageOk; hide Meaning; hide MapsOk; hide DirOk; hide Contents; hide TreeOk; hide Find; hide DirsOf;
    hide LiveOk; hide Current;
    LiveInode(fs.g, fs.Vol(), fs.open, fs.tree, cur);
    var ok, i := ReadInode(fs, cur);
    if !IsDir(i) { return 0; }
    next := LookupInDir(fs, i, comp);
    LookupFits(fs.tree, DirsOf(fs.g, fs.Vol(), fs.tree.live), cur, comp);
  }

  method ResolvePathToInode(fs: FsInstance, path: seq<byte>) returns (r: nat)
    requires Inv(fs)
    ensures r == Resolve(fs.g, fs.Vol(), fs.tree, path)
    ensures r != 0 ==> r in fs.tree.live
  {
    hide ImageOk; hide Meaning; hide FsInv; hide DirsOf; hide Find;
    ghost var dirs := DirsOf(fs.g, fs.Vol(), fs.tree.live);
    RootLive(fs.g, fs.Vol(), fs.open, fs.tree);
    if path == [] { return ROOT; }
    var current, component: Name, p := ROOT, [], 0;
    while true
      invariant 0 <= p <= |path| && current in fs.tree.live && current != 0
      invariant Walk(dirs, ROOT, Components(path)) == Walk(dirs, current, Comps(path[p..], component))
      decreases |path| - p
    {
      assert p < |path| ==> path[p..][0] == path[p] && path[p..][1..] == path[p + 1..];
      if p == |path| || path[p] == SLASH {
        if component != [] {
          var next := StepInto(fs, current, component);
          ghost var rest := if p == |path| then [] else Comps(path[p + 1..], []);
          assert Comps(path[p..], component) == [component] + rest;
          assert ([component] + rest)[0] == component && ([component] + rest)[1..] == rest;
          if next == 0 { return 0; }
          current, component := next, [];
        } else if p < |path| {
          assert Comps(path[p..], []) == Comps(path[p + 1..], []);
        }
        if p == |path| { return current; }
        p := p + 1;
      } else {
        if |component| < MAX_COMPONENT { component := component + [path[p]]; }
        p := p + 1;
      }
    }
  }
}
