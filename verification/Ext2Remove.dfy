/** unlinkFile and rmdirPath. */
module Ext2Remove {
  import opened Bytes
  import opened Ext2Layout
  import opened Ext2Volume
  import opened Ext2Store
  import opened Ext2BlockMap
  import opened Ext2DirBlock
  import opened Ext2Dir
  import opened Ext2Tree
  import opened Ext2Fs
  import opened Ext2Create

  // ---------- is the directory empty? ----------

  lemma OnlyDotsConcat(a: seq<Entry>, b: seq<Entry>)
    ensures OnlyDots(a + b) <==> OnlyDots(a) && OnlyDots(b)
  {
    if OnlyDots(a + b) {
      forall k | 0 <= k < |a| ensures Dotted(a[k].name) { assert (a + b)[k] == a[k]; }
      forall k | 0 <= k < |b| ensures Dotted(b[k].name) { assert (a + b)[|a| + k] == b[k]; }
    }
  }

  /** is_dot || is_dotdot, on a record in use. */
  predicate DotRecord(s: seq<byte>, o: nat)
    requires RecordOk(s, o) && InoAt(s, o) != 0
  {
    || (NameLenAt(s, o) == 1 && s[o + HEADER] == 46)
    || (NameLenAt(s, o) == 2 && s[o + HEADER] == 46 && s[o + HEADER + 1] == 46)
  }

  lemma DotRecordHere(s: seq<byte>, o: nat)
    requires RecordOk(s, o)
    ensures OnlyDots(Here(s, o)) <==> InoAt(s, o) == 0 || DotRecord(s, o)
  {
    hide Get32; hide Get16;
    if InoAt(s, o) != 0 {
      var name := EntryAt(s, o).name;
      assert Here(s, o)[0].name == name && |Here(s, o)| == 1;
      assert |name| == NameLenAt(s, o) && forall k :: 0 <= k < |name| ==> name[k] == s[o + HEADER + k];
      assert DotRecord(s, o) <==> Dotted(name) by {
        if DotRecord(s, o) { assert name == DOT || name == DOTDOT; }
      }
    }
  }

  method BlockHasChildren(s: seq<byte>) returns (r: bool)
    requires Tiled(s, 0)
    ensures r <==> !OnlyDots(Entries(s, 0))
  {
    hide Tiled; hide Chain; hide Between; hide Entries; hide OnlyDots; hide Here; hide RecordOk; hide LenAt;
    hide DotRecord; hide InoAt;
    var o := 0;
    ScanStarts(s);
    NothingIsDots();
    while o < |s|
      invariant o <= |s| && ScanAt(s, o) && OnlyDots(Between(s, 0, o))
    {
      ScanAdvances(s, o);
      RecordBounds(s, o);
      DotRecordHere(s, o);
      OnlyDotsConcat(Between(s, 0, o), Here(s, o));
      if InoAt(s, o) != 0 && !DotRecord(s, o) {
        ScanRest(s, o + LenAt(s, o));
        return true;
      }
      o := o + LenAt(s, o);
    }
    ScanEnds(s);
    return false;
  }

  lemma NothingIsDots()
    ensures OnlyDots([])
  {
  }

  lemma ScanRest(s: seq<byte>, o: nat)
    requires ScanAt(s, o) && !OnlyDots(Between(s, 0, o))
    ensures !OnlyDots(Entries(s, 0))
  {
    hide Tiled; hide Chain; hide Between; hide Entries; hide OnlyDots;
    OnlyDotsConcat(Between(s, 0, o), Entries(s, o));
  }

  method HasChildren(fs: FsInstance, i: Inode) returns (r: bool)
    requires fs.Valid() && DirOk(fs.g, fs.Vol().data, i)
    requires i.block[DIRECT] == 0 || i.block[DIRECT] in fs.Vol().data
    ensures r <==> !OnlyDots(Contents(fs.g, fs.Vol().data, i))
  {
    hide ImageOk; hide Meaning; hide BlockAt; hide Listing; hide OnlyDots; hide Tiled; hide Entries;
    ghost var data := fs.Vol().data;
    BlockCount(fs.g, i);
    var num := (i.size + fs.g.bs - 1) / fs.g.bs;
    var b := 0;
    ListingEmpty(fs.g, data, i, []);
    NothingIsDots();
    while b < num
      invariant b <= num == DirBlocks(fs.g, i)
      invariant BlocksOk(fs.g, data, i, b) && OnlyDots(Listing(fs.g, data, i, b))
    {
      assert DirBlockOk(fs.g, data, i, b);
      var phys := InodeBlockAt(fs, i, b);
      var block := ReadBlock(fs, phys);
      r := BlockHasChildren(block);
      ListingStep(fs.g, data, i, b);
      OnlyDotsConcat(Listing(fs.g, data, i, b), BlockEntries(fs.g, data, i, b));
      if r {
        ListingRest(fs.g, data, i, b + 1, num);
        return true;
      }
      b := b + 1;
    }
    return false;
  }

  lemma ListingStep(g: Geometry, data: Blocks, i: Inode, k: nat)
    requires BlocksOk(g, data, i, k) && DirBlockOk(g, data, i, k)
    ensures BlocksOk(g, data, i, k + 1)
    ensures Listing(g, data, i, k + 1) == Listing(g, data, i, k) + BlockEntries(g, data, i, k)
  {
    hide BlockAt; hide Tiled; hide Entries;
  }

  lemma {:induction false} ListingRest(g: Geometry, data: Blocks, i: Inode, k: nat, n: nat)
    requires k <= n && BlocksOk(g, data, i, n) && !OnlyDots(Listing(g, data, i, k))
    ensures !OnlyDots(Listing(g, data, i, n))
  {
    hide BlockAt; hide DirBlockOk; hide OnlyDots;
    if k < n {
      ListingRest(g, data, i, k, n - 1);
      OnlyDotsConcat(Listing(g, data, i, n - 1), BlockEntries(g, data, i, n - 1));
    }
  }

  // ---------- taking one inode out ----------

  /** The blocks in the slots of inode i, and no others, have become free. */
  ghost predicate BlocksFreed(g: Geometry, v: Volume, v': Volume, i: Inode) {
    v'.used == v.used - AllSlots(g, v.data, i)
  }

  /** What is left after the entry, the blocks and the inode of x are gone. */
  ghost predicate Detached(g: Geometry, v: Volume, owner: Owners, v': Volume, owner': Owners, eff: map<nat, Inode>,
                           d: nat, pi: Inode, name: Name, x: nat, ti: Inode)
    requires d in eff && x in eff && DirOk(g, v.data, eff[d])
  {
    && v'.iused == v.iused - {x} && v'.inodes == v.inodes[d := pi][x := ti]
    && MapsOk(g, v', owner', eff[x := ti]) && owner'.stale == owner.stale
    && OthersKept(g, v.data, v'.data, eff, d)
    && DirOk(g, v'.data, pi) && Removed(Contents(g, v.data, eff[d]), Contents(g, v'.data, pi), name)
    && BlocksFreed(g, v, v', eff[x])
  }

  lemma FreedSince(g: Geometry, v: Volume, owner: Owners, v1: Volume, v': Volume, owner': Owners, eff: map<nat, Inode>,
                   x: nat, i: Inode)
    requires v1.data == v'.data && v1.used == v.used && AllSlots(g, v1.data, i) == AllSlots(g, v.data, i)
    requires Freeing(g, v1, owner, v', owner', eff, x, i, MaxBlocks(g) + 1)
    ensures BlocksFreed(g, v, v', i)
  {
    hide Slot; hide MapsOk; hide SlotSet;
  }

  /** The record of a removed inode: no links, bytes, blocks or pointers. Only unlink also resets its deletion time. */
  ghost predicate EmptiedRecord(i: Inode, i': Inode, dir: bool) {
    && i' == i.(links := 0, size := 0, blocks := 0, block := i'.block, dtime := if dir then i.dtime else 0)
    && forall k :: 0 <= k < 15 ==> i'.block[k] == 0
  }

  /** The record of its parent: one link less after rmdir, the same after unlink. */
  ghost predicate RelievedRecord(i: Inode, i': Inode, dir: bool) {
    i' == i.(links := i'.links) && if dir then (i'.links + 1) % U16 == i.links else i'.links == i.links
  }

  method Detach(fs: FsInstance, d: nat, pi: Inode, links: nat, name: Name, x: nat, ti: Inode, clearTime: bool,
                ghost eff: map<nat, Inode>)
    returns (ok: bool, ghost pi': Inode, ghost ti': Inode)
    requires fs.Valid() && MapsOk(fs.g, fs.Vol(), fs.tree.owner, eff) && links < U16
    requires d in eff && eff[d] == pi && x in eff && eff[x] == ti && d in fs.Vol().inodes && x in fs.Vol().inodes
    requires x in fs.Vol().iused
    requires DirOk(fs.g, fs.Vol().data, pi) && !NoName(Contents(fs.g, fs.Vol().data, pi), name)
    modifies fs
    ensures fs.Valid() && fs.open == old(fs.open) && SameTree(old(fs.tree), fs.tree)
    ensures ok && pi' == pi.(links := links) && EmptiedRecord(ti, ti', !clearTime)
    ensures Detached(fs.g, old(fs.Vol()), old(fs.tree.owner), fs.Vol(), fs.tree.owner, eff, d, pi', name, x, ti')
  {
    hide ImageOk; hide Meaning; hide MapsOk; hide DirOk; hide Contents; hide Removed; hide NoName; hide OthersKept;
    hide DirUpdated; hide Freeing; hide AllSlots; hide KeptBut;
    ghost var v, owner := fs.Vol(), fs.tree.owner;
    ok := RemoveDirEntry(fs, pi, name, d, eff);
    ghost var v1 := fs.Vol();
    var parent := pi.(links := links);
    EditedParts(fs.g, v, v1, owner, eff, d);
    EditedSlots(fs.g, v, v1, owner, eff, d, x);
    ok := WriteInode(fs, d, parent);
    SameMaps(fs.g, v1, fs.Vol(), owner, eff);
    ghost var v2 := fs.Vol();
    var empty := FreeAllInodeBlocks(fs, ti, x, eff);
    ghost var v3 := fs.Vol();
    var target := empty.(links := 0, dtime := if clearTime then 0 else empty.dtime);
    FieldsUnseen(fs.g, v3, fs.tree.owner, eff[x := empty], x, target);
    assert eff[x := empty][x := target] == eff[x := target];
    FreeingParts(fs.g, v2, owner, v3, fs.tree.owner, eff, x, ti);
    ok := WriteInode(fs, x, target);
    ok := FreeInode(fs, x);
    pi', ti' := parent, target;
    SameMaps(fs.g, v3, fs.Vol(), fs.tree.owner, eff[x := target]);
    LinksOnly(fs.g, fs.Vol().data, pi, parent);
    FreedSince(fs.g, v, owner, v2, v3, fs.tree.owner, eff, x, ti);
  }

  /** Editing a directory in place moves no block. */
  lemma EditedSlots(g: Geometry, v: Volume, v': Volume, owner: Owners, eff: map<nat, Inode>, d: nat, x: nat)
    requires d in eff && x in eff && DirUpdated(g, v, v', owner, eff, d, eff[d]) && v'.used == v.used
    ensures AllSlots(g, v'.data, eff[x]) == AllSlots(g, v.data, eff[x])
  {
    hide MapsOk; hide KeptBut; hide AllSlots; hide Slot;
    if x == d {
      ExtendsNothing(g, v, eff[d], v', eff[d]);
      SlotsAlike(g, v.data, eff[d], v'.data, eff[d], {});
    } else {
      KeptSlots(g, v.data, v'.data, eff[x]);
    }
  }

  lemma EditedParts(g: Geometry, v: Volume, v': Volume, owner: Owners, eff: map<nat, Inode>, d: nat)
    requires d in eff && DirUpdated(g, v, v', owner, eff, d, eff[d])
    ensures MapsOk(g, v', owner, eff) && v'.iused == v.iused && v'.inodes == v.inodes
    ensures OthersKept(g, v.data, v'.data, eff, d)
  {
    hide MapsOk; hide OthersKept;
    assert eff[d := eff[d]] == eff;
  }

  lemma FreeingParts(g: Geometry, v0: Volume, o0: Owners, v: Volume, owner: Owners, eff: map<nat, Inode>, n: nat,
                     i: Inode)
    requires Freeing(g, v0, o0, v, owner, eff, n, i, MaxBlocks(g) + 1)
    ensures v == v0.(used := v.used)
  {
    hide MapsOk; hide Slot; hide SlotSet;
  }

  lemma LinksOnly(g: Geometry, data: Blocks, i: Inode, i': Inode)
    requires DirOk(g, data, i) && i' == i.(links := i'.links)
    ensures DirOk(g, data, i') && Contents(g, data, i') == Contents(g, data, i)
  {
    hide Tiled; hide Entries;
    assert forall k: nat :: BlockAt(g, data, i', k) == BlockAt(g, data, i, k);
    forall k: nat | k < DirBlocks(g, i)
      ensures SameBlock(data, data, BlockAt(g, data, i, k))
    {
      assert DirBlockOk(g, data, i, k);
    }
    ListingSame(g, data, i, data, i', DirBlocks(g, i));
  }

  // ---------- the file system after a removal ----------

  /** The target x of a removal: a child of d under an ordinary name, not open, and empty if a directory. */
  ghost predicate Removable(g: Geometry, v: Volume, open: map<nat, Inode>, t: Tree, d: nat, name: Name, x: nat) {
    && d in DirsOf(g, v, t.live) && d in t.live && !Dotted(name) && x != d && x != 0 && x in t.live && x !in open
    && Find(DirsOf(g, v, t.live)[d], name) == x && !NoName(DirsOf(g, v, t.live)[d], name)
    && (x in DirsOf(g, v, t.live) ==> OnlyDots(DirsOf(g, v, t.live)[x]))
  }

  lemma KeptDirs(g: Geometry, v: Volume, open: map<nat, Inode>, t: Tree, v': Volume, owner': Owners,
                 eff: map<nat, Inode>, d: nat, pi: Inode, name: Name, x: nat, ti: Inode, m: nat)
    requires FsInv(g, v, open, t) && d in t.live && x in t.live && m in t.live && m != d && m != x
    requires eff == Current(v, open, t.live) && d in eff && x in eff && DirOk(g, v.data, eff[d])
    requires Detached(g, v, t.owner, v', owner', eff, d, pi, name, x, ti)
    ensures v'.inodes[m] == v.inodes[m]
    ensures IsDir(v.inodes[m]) ==> DirOk(g, v.data, v.inodes[m]) && DirOk(g, v'.data, v.inodes[m])
    ensures IsDir(v.inodes[m]) ==> Contents(g, v'.data, v.inodes[m]) == Contents(g, v.data, v.inodes[m])
  {
    hide MapsOk; hide TreeOk; hide FileKept; hide DirOk; hide Contents; hide Removed; hide BlocksFreed; hide DirsOf;
    if IsDir(v.inodes[m]) {
      assert m in Current(v, open, t.live) && Current(v, open, t.live)[m] == v.inodes[m];
      DirKept(g, v.data, v.inodes[m], v'.data, v.inodes[m]);
    }
  }

  lemma RemovedCurrent(g: Geometry, v: Volume, open: map<nat, Inode>, t: Tree, v': Volume, eff: map<nat, Inode>, d: nat,
                       pi: Inode, x: nat, ti: Inode)
    requires FsInv(g, v, open, t) && d in t.live && x in t.live && x != d && x !in open && d !in open
    requires eff == Current(v, open, t.live) && v'.inodes == v.inodes[d := pi][x := ti]
    ensures Current(v', open, t.live - {x}) == (eff - {x})[d := pi]
  {
    hide MapsOk; hide TreeOk; hide DirOk; hide IsDir; hide DirsOf;
  }

  lemma RemovedLive(g: Geometry, v: Volume, open: map<nat, Inode>, t: Tree, v': Volume, owner': Owners,
                    eff: map<nat, Inode>, d: nat, pi: Inode, name: Name, x: nat, ti: Inode)
    requires FsInv(g, v, open, t) && d in t.live && x in t.live && x != d && x !in open && d !in open
    requires eff == Current(v, open, t.live) && d in eff && x in eff && DirOk(g, v.data, eff[d])
    requires Detached(g, v, t.owner, v', owner', eff, d, pi, name, x, ti) && pi == eff[d].(links := pi.links)
    ensures LiveOk(g, v', open, t.live - {x})
  {
    hide MapsOk; hide TreeOk; hide OthersKept; hide DirOk; hide Contents; hide Removed; hide BlocksFreed;
    hide DirsOf; hide IsDir; hide Current;
    forall n | n in t.live && n != x
      ensures n in v'.inodes && (IsDir(v'.inodes[n]) ==> DirOk(g, v'.data, v'.inodes[n]))
      ensures n in open ==> v'.inodes[n] == v.inodes[n]
    {
      if n != d { KeptDirs(g, v, open, t, v', owner', eff, d, pi, name, x, ti, n); }
    }
  }

  lemma RemovedDirs(g: Geometry, v: Volume, open: map<nat, Inode>, t: Tree, v': Volume, owner': Owners,
                    eff: map<nat, Inode>, d: nat, pi: Inode, name: Name, x: nat, ti: Inode)
    requires FsInv(g, v, open, t) && Removable(g, v, open, t, d, name, x) && d !in open
    requires eff == Current(v, open, t.live) && d in eff && x in eff && DirOk(g, v.data, eff[d])
    requires Detached(g, v, t.owner, v', owner', eff, d, pi, name, x, ti) && pi == eff[d].(links := pi.links)
    ensures Pruned(DirsOf(g, v, t.live), DirsOf(g, v', t.live - {x}), d, name, x)
  {
    hide MapsOk; hide TreeOk; hide OthersKept; hide DirOk; hide Contents; hide Removed; hide BlocksFreed;
    hide NoName; hide Find; hide OnlyDots; hide DirsOf; hide HandlesOk; hide Current;
    var live := t.live - {x};
    var big, small := DirsOf(g, v, t.live), DirsOf(g, v', live);
    RemovedLive(g, v, open, t, v', owner', eff, d, pi, name, x, ti);
    CurrentAt(v, open, t.live, d);
    DirAt(g, v, open, t.live, d);
    DirAt(g, v', open, live, d);
    DirAt(g, v', open, live, x);
    forall n | n != d && n != x
      ensures n in small <==> n in big
      ensures n in small ==> small[n] == big[n]
    {
      DirAt(g, v, open, t.live, n);
      DirAt(g, v', open, live, n);
      if n in t.live { KeptDirs(g, v, open, t, v', owner', eff, d, pi, name, x, ti, n); }
    }
    assert small.Keys == big.Keys - {x};
  }

  /** A removal keeps the invariant and takes x, and nothing else, out of the tree. */
  lemma RemoveKeepsInv(g: Geometry, v: Volume, open: map<nat, Inode>, t: Tree, v': Volume, owner': Owners,
                       eff: map<nat, Inode>, d: nat, pi: Inode, name: Name, x: nat, ti: Inode)
    requires FsInv(g, v, open, t) && Removable(g, v, open, t, d, name, x) && d !in open
    requires eff == Current(v, open, t.live) && d in eff && x in eff && DirOk(g, v.data, eff[d])
    requires Detached(g, v, t.owner, v', owner', eff, d, pi, name, x, ti) && pi == eff[d].(links := pi.links)
    ensures FsInv(g, v', open, Uprooted(t.(owner := owner'), x))
    ensures Pruned(DirsOf(g, v, t.live), DirsOf(g, v', t.live - {x}), d, name, x)
  {
    hide MapsOk; hide TreeOk; hide OthersKept; hide DirOk; hide Contents; hide Removed; hide BlocksFreed;
    hide NoName; hide Find; hide OnlyDots; hide Pruned; hide DirsOf; hide Current; hide LiveOk; hide HandlesOk;
    RemovedHandles(g, v, open, t, v', owner', eff, d, pi, name, x, ti);
    RemovedLive(g, v, open, t, v', owner', eff, d, pi, name, x, ti);
    RemovedCurrent(g, v, open, t, v', eff, d, pi, x, ti);
    RemovedDirs(g, v, open, t, v', owner', eff, d, pi, name, x, ti);
    OwnerUnseen(t, DirsOf(g, v, t.live), owner');
    PruneKeepsTree(t.(owner := owner'), DirsOf(g, v, t.live), DirsOf(g, v', t.live - {x}), d, name, x);
    RestMaps(g, v', owner', eff, d, pi, x, ti);
    LessStale(g, v', owner', (eff - {x})[d := pi], x);
  }

  lemma RemovedHandles(g: Geometry, v: Volume, open: map<nat, Inode>, t: Tree, v': Volume, owner': Owners,
                       eff: map<nat, Inode>, d: nat, pi: Inode, name: Name, x: nat, ti: Inode)
    requires FsInv(g, v, open, t) && x !in open && d !in open
    requires eff == Current(v, open, t.live) && d in eff && x in eff && DirOk(g, v.data, eff[d])
    requires Detached(g, v, t.owner, v', owner', eff, d, pi, name, x, ti)
    ensures HandlesOk(g, v', open, t.owner.stale - {x})
  {
    hide MapsOk; hide TreeOk; hide FileKept; hide DirOk; hide Contents; hide Removed; hide BlocksFreed; hide DirsOf;
    hide HandlesOk;
    HandlesThere(g, v, open, t.owner.stale);
    forall n | n in open
      ensures FileKept(g, v.data, open[n], v'.data, open[n]) && n in v'.inodes && v'.inodes[n] == v.inodes[n]
    {
      assert n in eff && eff[n] == open[n];
    }
    HandlesKept(g, v, open, t.owner.stale, v', open, t.owner.stale - {x});
  }

  /** Only inodes at hand are looked up among the stale. */
  lemma LessStale(g: Geometry, v: Volume, owner: Owners, eff: map<nat, Inode>, x: nat)
    requires MapsOk(g, v, owner, eff) && x !in eff
    ensures MapsOk(g, v, owner.(stale := owner.stale - {x}), eff)
  {
    hide Slot; hide SectorsOk; hide AtMost;
    var owner' := owner.(stale := owner.stale - {x});
    forall n | n in eff ensures Owns(g, v.data, owner', n, eff[n]) && Counted(g, v.data, owner'.stale, n, eff[n]) {
      assert Owns(g, v.data, owner, n, eff[n]);
    }
  }

  lemma RestMaps(g: Geometry, v: Volume, owner: Owners, eff: map<nat, Inode>, d: nat, pi: Inode, x: nat, ti: Inode)
    requires d in eff && x in eff && d != x && MapsOk(g, v, owner, eff[x := ti]) && pi == eff[d].(links := pi.links)
    ensures MapsOk(g, v, owner, (eff - {x})[d := pi])
  {
    hide MapsOk;
    FieldsUnseen(g, v, owner, eff[x := ti], d, pi);
    FewerMaps(g, v, owner, eff[x := ti][d := pi], (eff - {x})[d := pi]);
  }

  lemma FewerMaps(g: Geometry, v: Volume, owner: Owners, eff: map<nat, Inode>, fewer: map<nat, Inode>)
    requires MapsOk(g, v, owner, eff) && forall n :: n in fewer ==> n in eff && eff[n] == fewer[n]
    ensures MapsOk(g, v, owner, fewer)
  {
    hide Owns; hide Counted;
  }

  // ---------- the operations ----------

  /** The inode a removal would take away: what the last name leads to in the parent, or 0. */
  ghost function Target(g: Geometry, v: Volume, t: Tree, path: seq<byte>): nat {
    var d := Resolve(g, v, t, ParentPath(path));
    if d in DirsOf(g, v, t.live) then Find(DirsOf(g, v, t.live)[d], LastName(path)) else 0
  }

  ghost predicate Named(g: Geometry, v: Volume, t: Tree, path: seq<byte>) {
    |ParentPath(path)| < 128 && LastName(path) != [] && Target(g, v, t, path) != 0
  }

  /** The prologue both removals share: split, resolve the parent, look the name up. */
  method FindTarget(fs: FsInstance, path: seq<byte>) returns (d: nat, pi: Inode, name: Name, x: nat, ti: Inode)
    requires Inv(fs)
    ensures x != 0 <==> Named(fs.g, fs.Vol(), fs.tree, path)
    ensures x != 0 ==>
      d == Resolve(fs.g, fs.Vol(), fs.tree, ParentPath(path)) && d in DirsOf(fs.g, fs.Vol(), fs.tree.live)
    ensures x != 0 ==> x == Target(fs.g, fs.Vol(), fs.tree, path) && name == LastName(path)
    ensures x != 0 ==> d in fs.tree.live && x in fs.tree.live && d in fs.Vol().inodes && x in fs.Vol().inodes
    ensures x != 0 ==> pi == fs.Vol().inodes[d] && ti == fs.Vol().inodes[x]
  {
    hide ImageOk; hide Meaning; hide DirOk; hide Contents; hide DirsOf; hide FsInv; hide Find; hide Resolve;
    hide IsDir; hide LastSlash;
    d, pi, name, x, ti := 0, ZeroInode, [], 0, ZeroInode;
    ghost var v, t := fs.Vol(), fs.tree;
    ZeroNotDir(fs.g, v, fs.open, t);
    var split, parent, last := SplitPath(path);
    if !split || last == [] { return; }
    d := ResolvePathToInode(fs, parent);
    if d == 0 { return; }
    LiveInode(fs.g, v, fs.open, t, d);
    var there, i := ReadInode(fs, d);
    if !IsDir(i) { return; }
    var y := LookupInDir(fs, i, last);
    if y == 0 { return; }
    TreeParts(fs.g, v, fs.open, t);
    LookupFits(t, DirsOf(fs.g, v, t.live), d, last);
    LiveInode(fs.g, v, fs.open, t, y);
    there, ti := ReadInode(fs, y);
    pi, name, x := i, last, y;
  }

  lemma {:induction false} TargetRemovable(g: Geometry, v: Volume, open: map<nat, Inode>, t: Tree, d: nat, name: Name,
                                           x: nat)
    requires FsInv(g, v, open, t) && d in DirsOf(g, v, t.live) && Find(DirsOf(g, v, t.live)[d], name) == x && x != 0
    requires x !in open && (x in DirsOf(g, v, t.live) ==> OnlyDots(DirsOf(g, v, t.live)[x]) && !Dotted(name))
    ensures Removable(g, v, open, t, d, name, x)
  {
    hide MapsOk; hide LiveOk; hide DirsOf; hide Find; hide OnlyDots;
    var dirs := DirsOf(g, v, t.live);
    LookupFits(t, dirs, d, name);
    assert DirFits(t, d, dirs[d]);
    FoundNotFree(dirs[d], name);
    if Dotted(name) {
      DottedIsDir(t, dirs, d, name);
    }
    if x == d {
      OnlyDotsFound(dirs[d], name);
    }
  }

  /** "." and ".." always lead to directories. */
  lemma DottedIsDir(t: Tree, dirs: Dirs, d: nat, name: Name)
    requires TreeOk(t, dirs) && d in dirs && Dotted(name)
    ensures Find(dirs[d], name) in dirs
  {
    hide Find; hide NamesDistinct;
    assert DirFits(t, d, dirs[d]);
    if d != ROOT { assert Hangs(t, dirs, d); }
  }

  /** After the removal of x, a path resolves exactly as before when it stays clear of x, and not at all otherwise. */
  lemma RemovedPaths(t: Tree, big: Dirs, small: Dirs, d: nat, name: Name, x: nat, path: seq<byte>)
    requires TreeOk(t, big) && Pruned(big, small, d, name, x) && !Dotted(name) && x != 0
    requires x in big ==> OnlyDots(big[x])
    requires Walk(big, ROOT, Components(ParentPath(path))) == d && name == LastName(path) != []
    ensures OnlyAdds(small, big, x)
    ensures Walk(small, ROOT, Components(path)) == 0 <==>
      |name| <= MAX_COMPONENT || Walk(big, ROOT, Components(path)) == 0 || Visits(big, ROOT, Components(path), x)
  {
    hide OnlyAdds; hide Components; hide Find; hide Visits; hide OnlyDots; hide LastSlash; hide Walk; hide Pruned;
    hide TreeOk;
    TargetNotRoot(t, big, small, d, name, x);
    CreateOnlyAdds(t, small, big, d, name, x);
    AnswerFor(small, big, x, Components(path));
    if |name| <= MAX_COMPONENT {
      SplitAtLast(path);
      SplitComponents(path, ParentPath(path), name);
      assert Truncate(name) == name;
      EndsAt(big, d, Components(ParentPath(path)), name, x);
    }
  }

  lemma TargetNotRoot(t: Tree, big: Dirs, small: Dirs, d: nat, name: Name, x: nat)
    requires TreeOk(t, big) && Pruned(big, small, d, name, x) && !Dotted(name) && x != 0
    ensures x != ROOT && d in big && Find(big[d], name) == x && d != 0
  {
    LookupFits(t, big, d, name);
    InodeFits(t, big, d);
  }

  lemma AnswerFor(small: Dirs, big: Dirs, x: nat, comps: seq<Name>)
    requires OnlyAdds(small, big, x)
    ensures Walk(small, ROOT, comps) == if Visits(big, ROOT, comps, x) then 0 else Walk(big, ROOT, comps)
  {
  }

  /** A walk that ends at x visits x. */
  lemma {:induction false} EndVisited(dirs: Dirs, cur: nat, comps: seq<Name>, x: nat)
    requires Walk(dirs, cur, comps) == x && x != 0
    ensures Visits(dirs, cur, comps, x)
    decreases |comps|
  {
    if comps != [] && cur in dirs { EndVisited(dirs, Find(dirs[cur], comps[0]), comps[1..], x); }
  }

  lemma EndsAt(dirs: Dirs, d: nat, comps: seq<Name>, name: Name, x: nat)
    requires Walk(dirs, ROOT, comps) == d && d in dirs && Find(dirs[d], name) == x && x != 0 && d != 0
    ensures Walk(dirs, ROOT, comps + [name]) == x && Visits(dirs, ROOT, comps + [name], x)
  {
    hide Visits; hide Find;
    WalkConcat(dirs, ROOT, comps, [name]);
    var tail: seq<Name> := [name];
    assert tail[1..] == [];
    assert Walk(dirs, d, tail) == x;
    EndVisited(dirs, ROOT, comps + [name], x);
  }

  /** What every successful removal changes: x is free, its blocks are free and no others, and besides the records of x
      and of directory d, and d's listing, every record and every file is as it was. */
  ghost predicate OnlyRemoved(g: Geometry, v: Volume, open: map<nat, Inode>, t: Tree, v': Volume, d: nat, x: nat,
                              dir: bool) {
    && v'.iused == v.iused - {x} && x in v.inodes && BlocksFreed(g, v, v', v.inodes[x]) && d in t.live && d in v.inodes
    && v'.inodes.Keys == v.inodes.Keys
    && (forall m :: m in v.inodes && m != x && m != d ==> v'.inodes[m] == v.inodes[m])
    && EmptiedRecord(v.inodes[x], v'.inodes[x], dir)
    && (d != x ==> RelievedRecord(v.inodes[d], v'.inodes[d], dir))
    && OthersKept(g, v.data, v'.data, Current(v, open, t.live), d)
  }

  /** What a successful removal of an ordinary name has done besides: its entry is gone, no path leads to x any more and
      every path that stayed clear of it is as it was. */
  ghost predicate TakenOut(g: Geometry, v: Volume, open: map<nat, Inode>, t: Tree, v': Volume, t': Tree,
                           path: seq<byte>, x: nat, dir: bool) {
    && t'.live == t.live - {x} && t'.owner.stale == t.owner.stale - {x}
    && OnlyRemoved(g, v, open, t, v', Resolve(g, v, t, ParentPath(path)), x, dir)
    && Pruned(DirsOf(g, v, t.live), DirsOf(g, v', t'.live), Resolve(g, v, t, ParentPath(path)), LastName(path), x)
    && OnlyAdds(DirsOf(g, v', t'.live), DirsOf(g, v, t.live), x)
    && (Resolve(g, v', t', path) == 0 <==>
          |LastName(path)| <= MAX_COMPONENT || Resolve(g, v, t, path) == 0
          || Visits(DirsOf(g, v, t.live), ROOT, Components(path), x))
  }

  method TakeOut(fs: FsInstance, d: nat, pi: Inode, links: nat, name: Name, x: nat, ti: Inode, clearTime: bool,
                 ghost path: seq<byte>)
    returns (ok: bool)
    requires Inv(fs) && Removable(fs.g, fs.Vol(), fs.open, fs.tree, d, name, x) && links < U16
    requires d in fs.Vol().inodes && x in fs.Vol().inodes && pi == fs.Vol().inodes[d] && ti == fs.Vol().inodes[x]
    requires d == Resolve(fs.g, fs.Vol(), fs.tree, ParentPath(path)) && name == LastName(path) != []
    requires if clearTime then links == pi.links else (links + 1) % U16 == pi.links
    modifies fs
    ensures Inv(fs) && fs.open == old(fs.open)
    ensures ok && TakenOut(fs.g, old(fs.Vol()), fs.open, old(fs.tree), fs.Vol(), fs.tree, path, x, !clearTime)
  {
    hide ImageOk; hide Meaning; hide MapsOk; hide DirOk; hide Contents; hide DirsOf; hide FsInv; hide Find;
    hide NoName; hide OnlyDots; hide Detached; hide Current; hide Resolve; hide LastSlash; hide TakenOut;
    hide EmptiedRecord;
    ghost var v, t := fs.Vol(), fs.tree;
    ghost var eff := Current(v, fs.open, t.live);
    LiveInode(fs.g, v, fs.open, t, d);
    LiveInode(fs.g, v, fs.open, t, x);
    LiveParts(fs.g, v, fs.open, t);
    CurrentAt(v, fs.open, t.live, d);
    CurrentAt(v, fs.open, t.live, x);
    ghost var pi', ti';
    ok, pi', ti' := Detach(fs, d, pi, links, name, x, ti, clearTime, eff);
    TakenOutAll(fs.g, v, fs.open, t, fs.Vol(), fs.tree.owner, eff, d, pi', name, x, ti', path, !clearTime);
    fs.tree := Uprooted(fs.tree, x);
  }

  lemma TakenOutAll(g: Geometry, v: Volume, open: map<nat, Inode>, t: Tree, v': Volume, owner': Owners,
                    eff: map<nat, Inode>, d: nat, pi: Inode, name: Name, x: nat, ti: Inode, path: seq<byte>, dir: bool)
    requires FsInv(g, v, open, t) && Removable(g, v, open, t, d, name, x) && d !in open
    requires eff == Current(v, open, t.live) && d in eff && x in eff && DirOk(g, v.data, eff[d]) && x in v.inodes
    requires eff[x] == v.inodes[x] && d in v.inodes && eff[d] == v.inodes[d]
    requires Detached(g, v, t.owner, v', owner', eff, d, pi, name, x, ti) && pi == eff[d].(links := pi.links)
    requires EmptiedRecord(eff[x], ti, dir) && RelievedRecord(eff[d], pi, dir)
    requires d == Resolve(g, v, t, ParentPath(path)) && name == LastName(path) != []
    ensures FsInv(g, v', open, Uprooted(t.(owner := owner'), x))
    ensures TakenOut(g, v, open, t, v', Uprooted(t.(owner := owner'), x), path, x, dir)
  {
    hide DirOk; hide DirsOf; hide FsInv; hide Find; hide NoName; hide OnlyDots; hide Detached; hide Current;
    hide Walk; hide Components; hide LastSlash; hide OnlyAdds; hide BlocksFreed; hide Pruned; hide Visits;
    hide TreeOk; hide OnlyRemoved; hide EmptiedRecord; hide RelievedRecord;
    RemoveKeepsInv(g, v, open, t, v', owner', eff, d, pi, name, x, ti);
    TreeParts(g, v, open, t);
    RemovedPaths(t, DirsOf(g, v, t.live), DirsOf(g, v', t.live - {x}), d, name, x, path);
    LiveParts(g, v, open, t);
    DetachedOnly(g, v, open, t, v', owner', eff, d, pi, name, x, ti, dir);
  }

  lemma DetachedOnly(g: Geometry, v: Volume, open: map<nat, Inode>, t: Tree, v': Volume, owner': Owners,
                     eff: map<nat, Inode>, d: nat, pi: Inode, name: Name, x: nat, ti: Inode, dir: bool)
    requires eff == Current(v, open, t.live) && d in eff && x in eff && DirOk(g, v.data, eff[d])
    requires d in t.live && d in v.inodes && x in v.inodes && eff[x] == v.inodes[x] && eff[d] == v.inodes[d]
    requires Detached(g, v, t.owner, v', owner', eff, d, pi, name, x, ti)
    requires EmptiedRecord(eff[x], ti, dir) && RelievedRecord(eff[d], pi, dir)
    ensures OnlyRemoved(g, v, open, t, v', d, x, dir) && owner'.stale == t.owner.stale
  {
    hide MapsOk; hide OthersKept; hide DirOk; hide Contents; hide Removed; hide BlocksFreed; hide Current;
    hide EmptiedRecord; hide RelievedRecord;
  }

  method UnlinkFile(fs: FsInstance, path: seq<byte>) returns (ok: bool)
    requires Inv(fs) && (Named(fs.g, fs.Vol(), fs.tree, path) ==> Target(fs.g, fs.Vol(), fs.tree, path) !in fs.open)
    modifies fs
    ensures Inv(fs) && fs.open == old(fs.open)
    ensures ok <==> old(Named(fs.g, fs.Vol(), fs.tree, path)
      && Target(fs.g, fs.Vol(), fs.tree, path) !in DirsOf(fs.g, fs.Vol(), fs.tree.live))
    ensures !ok ==> fs.Vol() == old(fs.Vol()) && fs.tree == old(fs.tree)
    ensures ok ==>
      TakenOut(fs.g, old(fs.Vol()), fs.open, old(fs.tree), fs.Vol(), fs.tree, path,
               old(Target(fs.g, fs.Vol(), fs.tree, path)), false)
  {
    hide ImageOk; hide Meaning; hide DirOk; hide Contents; hide DirsOf; hide FsInv; hide Find; hide OnlyDots;
    hide TakenOut; hide Removable; hide Resolve; hide LastSlash; hide IsDir;
    var d, pi, name, x, ti := FindTarget(fs, path);
    if x == 0 { return false; }
    LiveInode(fs.g, fs.Vol(), fs.open, fs.tree, x);
    if IsDir(ti) { return false; }
    TargetRemovable(fs.g, fs.Vol(), fs.open, fs.tree, d, name, x);
    ok := TakeOut(fs, d, pi, pi.links, name, x, ti, true, path);
  }

  /** Directory p, an inode in use, has an entry for x. */
  ghost predicate Lists(g: Geometry, v: Volume, p: nat, name: Name, x: nat) {
    p in v.iused && p in v.inodes && DirOk(g, v.data, v.inodes[p]) && Find(Contents(g, v.data, v.inodes[p]), name) == x
  }

  /** The inode x is free, yet unless it is the root its parent directory still lists it. */
  ghost predicate Dangling(g: Geometry, v': Volume, t: Tree, x: nat) {
    && x !in v'.iused
    && (x != ROOT ==> x in t.parent && x in t.nameOf && t.parent[x] != x && Lists(g, v', t.parent[x], t.nameOf[x], x))
  }

  /** No way of reading the volume that reaches that parent satisfies the invariant. */
  lemma DanglingIsBroken(g: Geometry, v': Volume, t: Tree, x: nat, open: map<nat, Inode>, t': Tree)
    requires Dangling(g, v', t, x) && x != 0 && (x == ROOT || t.parent[x] in t'.live)
    ensures !FsInv(g, v', open, t')
  {
    hide DirOk; hide Contents; hide MapsOk; hide Find; hide DirFits; hide Hangs;
    if FsInv(g, v', open, t') && x != ROOT {
      var p := t.parent[x];
      DirOkIsDir(g, v'.data, v'.inodes[p]);
      LookupFits(t', DirsOf(g, v', t'.live), p, t.nameOf[x]);
    }
  }

  lemma DirOkIsDir(g: Geometry, data: Blocks, i: Inode)
    requires DirOk(g, data, i)
    ensures IsDir(i)
  {
  }

  /** An empty directory reached by "." or ".." is the very directory it is looked up in. */
  lemma DottedTarget(t: Tree, dirs: Dirs, d: nat, name: Name, x: nat)
    requires TreeOk(t, dirs) && d in dirs && Dotted(name) && Find(dirs[d], name) == x && x in dirs && OnlyDots(dirs[x])
    ensures x == d && (x != ROOT ==> x in t.parent && x in t.nameOf)
    ensures x != ROOT ==> t.parent[x] != x && t.parent[x] in dirs && Find(dirs[t.parent[x]], t.nameOf[x]) == x
  {
    hide Find; hide NamesDistinct;
    assert DirFits(t, d, dirs[d]);
    if d != ROOT {
      assert Hangs(t, dirs, d);
      if x != d {
        OnlyDotsFound(dirs[x], t.nameOf[d]);
      }
    }
    if x != ROOT {
      assert Hangs(t, dirs, x);
      if t.parent[x] == x {
        OnlyDotsFound(dirs[x], t.nameOf[x]);
      }
    }
  }

  method RmdirPath(fs: FsInstance, path: seq<byte>) returns (ok: bool)
    requires Inv(fs)
    modifies fs
    ensures fs.Valid() && fs.open == old(fs.open)
    ensures ok <==>
      old(Named(fs.g, fs.Vol(), fs.tree, path) &&
          EmptyDir(fs.g, fs.Vol(), fs.tree, Target(fs.g, fs.Vol(), fs.tree, path)))
    ensures !ok ==> fs.Vol() == old(fs.Vol()) && fs.tree == old(fs.tree)
    ensures ok && !Dotted(LastName(path)) ==> Inv(fs)
    ensures ok && !Dotted(LastName(path)) ==>
      TakenOut(fs.g, old(fs.Vol()), fs.open, old(fs.tree), fs.Vol(), fs.tree, path,
               old(Target(fs.g, fs.Vol(), fs.tree, path)), true)
    ensures ok && Dotted(LastName(path)) ==>
      && Dangling(fs.g, fs.Vol(), fs.tree, old(Target(fs.g, fs.Vol(), fs.tree, path)))
      && OnlyRemoved(fs.g, old(fs.Vol()), fs.open, old(fs.tree), fs.Vol(),
                     old(Resolve(fs.g, fs.Vol(), fs.tree, ParentPath(path))),
                     old(Target(fs.g, fs.Vol(), fs.tree, path)), true)
  {
    hide ImageOk; hide Meaning; hide DirOk; hide Contents; hide DirsOf; hide FsInv; hide Find; hide OnlyDots;
    hide TakenOut; hide Removable; hide Resolve; hide LastSlash; hide IsDir; hide Dangling; hide OnlyRemoved;
    ghost var v, t := fs.Vol(), fs.tree;
    var d, pi, name, x, ti := FindTarget(fs, path);
    if x == 0 { return false; }
    LiveInode(fs.g, v, fs.open, t, x);
    if !IsDir(ti) { return false; }
    var children := HasChildren(fs, ti);
    if children { return false; }
    var links := (pi.links + 0xFFFF) % U16;
    if Dotted(name) {
      ok := RemoveDotted(fs, d, pi, links, name, x, ti);
    } else {
      TargetRemovable(fs.g, v, fs.open, t, d, name, x);
      ok := TakeOut(fs, d, pi, links, name, x, ti, false, path);
    }
  }

  ghost predicate EmptyDir(g: Geometry, v: Volume, t: Tree, x: nat) {
    x in DirsOf(g, v, t.live) && OnlyDots(DirsOf(g, v, t.live)[x])
  }

  /** The same steps on "." (or ".." in the root), which the driver does not refuse. */
  method RemoveDotted(fs: FsInstance, d: nat, pi: Inode, links: nat, name: Name, x: nat, ti: Inode) returns (ok: bool)
    requires Inv(fs) && links < U16 && d in DirsOf(fs.g, fs.Vol(), fs.tree.live) && d in fs.tree.live
    requires x in fs.tree.live && x != 0
    requires Dotted(name) && Find(DirsOf(fs.g, fs.Vol(), fs.tree.live)[d], name) == x
    requires EmptyDir(fs.g, fs.Vol(), fs.tree, x) && (links + 1) % U16 == pi.links
    requires d in fs.Vol().inodes && x in fs.Vol().inodes && pi == fs.Vol().inodes[d] && ti == fs.Vol().inodes[x]
    modifies fs
    ensures fs.Valid() && fs.open == old(fs.open)
    ensures ok && Dangling(fs.g, fs.Vol(), fs.tree, x)
    ensures OnlyRemoved(fs.g, old(fs.Vol()), fs.open, old(fs.tree), fs.Vol(), d, x, true)
  {
    hide ImageOk; hide Meaning; hide MapsOk; hide DirOk; hide Contents; hide DirsOf; hide FsInv; hide Find;
    hide NoName; hide OnlyDots; hide Detached; hide Current; hide Dangling; hide OnlyRemoved;
    hide EmptiedRecord; hide TreeOk; hide RelievedRecord;
    ghost var v, t := fs.Vol(), fs.tree;
    ghost var eff := Current(v, fs.open, t.live);
    TreeParts(fs.g, v, fs.open, t);
    DottedTarget(t, DirsOf(fs.g, v, t.live), d, name, x);
    LiveInode(fs.g, v, fs.open, t, d);
    LiveParts(fs.g, v, fs.open, t);
    CurrentAt(v, fs.open, t.live, d);
    FoundNotFree(DirsOf(fs.g, v, t.live)[d], name);
    ghost var pi', ti';
    ok, pi', ti' := Detach(fs, d, pi, links, name, x, ti, false, eff);
    LeftDangling(fs.g, v, fs.open, t, fs.Vol(), fs.tree, eff, x, pi', name, ti');
    OneLinkLess(pi, links);
    DetachedOnly(fs.g, v, fs.open, t, fs.Vol(), fs.tree.owner, eff, d, pi', name, x, ti', true);
  }

  lemma OneLinkLess(i: Inode, links: nat)
    requires links < U16 && (links + 1) % U16 == i.links
    ensures RelievedRecord(i, i.(links := links), true)
  {
  }

  lemma LeftDangling(g: Geometry, v: Volume, open: map<nat, Inode>, t: Tree, v': Volume, t': Tree, eff: map<nat, Inode>,
                     x: nat, pi: Inode, name: Name, ti: Inode)
    requires FsInv(g, v, open, t) && x in t.live && t' == t.(owner := t'.owner)
    requires eff == Current(v, open, t.live) && x in eff && DirOk(g, v.data, eff[x])
    requires Detached(g, v, t.owner, v', t'.owner, eff, x, pi, name, x, ti)
    requires x != ROOT ==> x in t.parent && x in t.nameOf && t.parent[x] != x
    requires x != ROOT ==>
      t.parent[x] in DirsOf(g, v, t.live) && Find(DirsOf(g, v, t.live)[t.parent[x]], t.nameOf[x]) == x
    ensures Dangling(g, v', t', x)
  {
    hide MapsOk; hide TreeOk; hide FileKept; hide DirOk; hide Contents; hide Find; hide Removed; hide FsInv;
    if x != ROOT {
      var p := t.parent[x];
      DirsLive(g, v, open, t, p);
      LiveInode(g, v, open, t, p);
      assert eff[p] == v.inodes[p];
      DirKept(g, v.data, v.inodes[p], v'.data, v.inodes[p]);
    }
  }
}
