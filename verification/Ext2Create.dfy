/** create: a new file or directory. */
module Ext2Create {
  import opened Bytes
  import opened Ext2Layout
  import opened Ext2Volume
  import opened Ext2Store
  import opened Ext2BlockMap
  import opened Ext2DirBlock
  import opened Ext2Dir
  import opened Ext2Tree
  import opened Ext2Fs

  /** The inode create writes: empty for a file, one block for a directory. */
  function NewInode(g: Geometry, isDir: bool, b: nat): (i: Inode)
    requires g.bs < U32 && b < U32
  {
    InodeRec(if isDir then S_IFDIR + 0x1ED else S_IFREG + 0x1A4, Zeros(2), if isDir then g.bs else 0,
             Zeros(12), 0, Zeros(2),
             if isDir then 2 else 1, if isDir then Sectors(g) else 0, Zeros(8),
             [b, 0, 0, 0, 0, 0, 0, 0, 0, 0, 0, 0, 0, 0, 0], Zeros(28))
  }

  /** A record fresh from create, field by field. A file (0100644) has one link and no bytes, blocks or pointers; a
      directory (040755) has two links and one block, which its first pointer names and its size and sectors count. */
  ghost predicate NewRecord(g: Geometry, i: Inode, isDir: bool) {
    && i.mode == (if isDir then 0x41ED else 0x81A4) && i.links == (if isDir then 2 else 1)
    && i.size == (if isDir then g.bs else 0) && i.blocks == (if isDir then g.bs / 512 else 0)
    && (i.block[0] != 0 <==> isDir) && (forall k :: 0 < k < 15 ==> i.block[k] == 0)
    && i.dtime == 0 && i.uid == [0, 0] && i.gid == [0, 0]
    && (forall k :: 0 <= k < 12 ==> i.times[k] == 0) && (forall k :: 0 <= k < 8 ==> i.flags[k] == 0)
    && (forall k :: 0 <= k < 28 ==> i.tail[k] == 0)
  }

  /** The parent gains a link for a new directory and none for a file; else only what grows with its listing changes. */
  ghost predicate ParentRecord(i: Inode, i': Inode, isDir: bool) {
    && i' == i.(links := i'.links, block := i'.block, blocks := i'.blocks, size := i'.size)
    && i'.links == (if isDir then (i.links + 1) % U16 else i.links)
  }

  /** Filling a block nobody owns is invisible to every inode. */
  lemma FreshBlock(g: Geometry, v: Volume, owner: Owners, eff: map<nat, Inode>, b: nat, block: seq<byte>, v': Volume)
    requires MapsOk(g, v, owner, eff) && b !in v.used && b in v.data && |block| == g.bs
    requires v'.used == v.used + {b} && v'.data == v.data[b := block]
    ensures MapsOk(g, v', owner, eff) && AllKept(g, v.data, v'.data, eff)
  {
    hide Counted; hide KeptBut; hide Slot; hide Owns;
    NotOwned(g, v, owner, eff, b);
    forall m | m in eff
      ensures Owns(g, v'.data, owner, m, eff[m]) && Counted(g, v'.data, owner.stale, m, eff[m])
      ensures FileKept(g, v.data, eff[m], v'.data, eff[m])
    {
      FreshSlots(g, v, owner, eff, b, block, m);
      OtherSectors(g, v.data, v'.data, owner.stale, m, eff[m]);
      OwnsSame(g, v.data, v'.data, owner, m, eff[m]);
      ContentsKept(g, v, owner, m, eff[m], v'.data, eff[m], b, MaxBlocks(g));
    }
  }

  lemma FreshSlots(g: Geometry, v: Volume, owner: Owners, eff: map<nat, Inode>, b: nat, block: seq<byte>, m: nat)
    requires MapsOk(g, v, owner, eff) && m in eff && b !in owner.slot
    ensures forall t: nat :: t <= MaxBlocks(g) ==> Slot(g, v.data[b := block], eff[m], t) == Slot(g, v.data, eff[m], t)
  {
    hide Counted; hide Get32;
    if eff[m].block[DIRECT] != 0 { IndirectOwned(g, v, owner, eff, m); }
  }

  lemma NewInodeKind(g: Geometry, isDir: bool, b: nat)
    requires g.bs < U32 && b < U32
    ensures IsDir(NewInode(g, isDir, b)) <==> isDir
    ensures (b != 0 <==> isDir) ==> NewRecord(g, NewInode(g, isDir, b), isDir)
  {
  }

  lemma NewInodeSlots(g: Geometry, data: Blocks, isDir: bool, b: nat, s: nat)
    requires g.bs < U32 && b < U32
    ensures Slot(g, data, NewInode(g, isDir, b), s) == if s == 0 then b else 0
  {
  }

  lemma NewInodeBlocks(g: Geometry, data: Blocks, isDir: bool, b: nat)
    requires g.bs < U32 && b < U32
    ensures AllSlots(g, data, NewInode(g, isDir, b)) == if b != 0 then {b} else {}
  {
    hide Slot; hide SlotSet; hide NewInode;
    var ni := NewInode(g, isDir, b);
    forall s: nat ensures Slot(g, data, ni, s) == if s == 0 then b else 0 { NewInodeSlots(g, data, isDir, b, s); }
    assert Slot(g, data, ni, 0) == b;
    forall x: nat ensures x in AllSlots(g, data, ni) <==> x == b != 0 {
      SlotSetIs(g, data, ni, MaxBlocks(g) + 1, x);
    }
  }

  lemma {:induction false} NewInodeOwned(g: Geometry, data: Blocks, isDir: bool, b: nat, s: nat)
    requires g.bs < U32 && b < U32
    ensures Owned(g, data, NewInode(g, isDir, b), s) == if s > 0 && b != 0 then 1 else 0
  {
    hide Slot; hide NewInode;
    if s > 0 {
      NewInodeSlots(g, data, isDir, b, s - 1);
      NewInodeOwned(g, data, isDir, b, s - 1);
    }
  }

  lemma NewInodeSectors(g: Geometry, data: Blocks, isDir: bool, b: nat)
    requires g.bs < U32 && b < U32 && (b != 0 <==> isDir)
    ensures SectorsOk(g, data, NewInode(g, isDir, b))
  {
    hide Slot; hide Owned;
    NewInodeOwned(g, data, isDir, b, MaxBlocks(g) + 1);
  }

  lemma ExactIsCounted(g: Geometry, data: Blocks, stale: set<nat>, n: nat, i: Inode)
    requires SectorsOk(g, data, i)
    ensures Counted(g, data, stale, n, i)
  {
  }

  /** The new inode joins the ownership invariant, its block going from free to owned. */
  lemma AddInode(g: Geometry, v: Volume, owner: Owners, eff: map<nat, Inode>, c: nat, isDir: bool, b: nat)
    requires MapsOk(g, v, owner, eff) && c !in eff && g.bs < U32 && b < U32 && (b != 0 <==> isDir)
    requires isDir ==> b !in owner.slot && b in v.used && b in v.data
    ensures MapsOk(g, v, if isDir then Assigned(owner, b, c, 0) else owner, eff[c := NewInode(g, isDir, b)])
  {
    hide Counted; hide Slot;
    var ni := NewInode(g, isDir, b);
    var owner' := if isDir then Assigned(owner, b, c, 0) else owner;
    var eff' := eff[c := ni];
    NewInodeSectors(g, v.data, isDir, b);
    ExactIsCounted(g, v.data, owner.stale, c, ni);
    forall s: nat ensures Slot(g, v.data, ni, s) == if s == 0 then b else 0 { NewInodeSlots(g, v.data, isDir, b, s); }
    forall m | m in eff' ensures Owns(g, v.data, owner', m, eff'[m]) && Counted(g, v.data, owner'.stale, m, eff'[m]) {
      if m != c { assert Owns(g, v.data, owner, m, eff[m]); }
    }
  }

  /** A new directory lists "." and "..". */
  lemma NewDirContents(g: Geometry, data: Blocks, b: nat, c: nat, d: nat)
    requires 1024 <= g.bs < U16 && g.bs % 4 == 0 && 0 < b < U32 && 0 < c < U32 && 0 < d < U32
    requires b in data && data[b] == DotBlock(g.bs, c, d)
    ensures var ni := NewInode(g, true, b); DirOk(g, data, ni) && Contents(g, data, ni) == DotEntries(c, d)
  {
    hide Tiled; hide Entries; hide DotBlock;
    var ni := NewInode(g, true, b);
    DotBlockEntries(g.bs, c, d);
    assert BlockAt(g, data, ni, 0) == b;
    assert DirBlocks(g, ni) == 1;
    assert DirBlockOk(g, data, ni, 0);
    assert Listing(g, data, ni, 1) == Listing(g, data, ni, 0) + BlockEntries(g, data, ni, 0);
  }

  /** Allocates the first block of a directory and fills it with "." and "..". */
  method MakeDots(fs: FsInstance, c: nat, d: nat, ghost eff: map<nat, Inode>) returns (b: nat)
    requires fs.Valid() && MapsOk(fs.g, fs.Vol(), fs.tree.owner, eff)
    requires 0 < c < U32 && 0 < d < U32
    modifies fs
    ensures fs.Valid() && fs.open == old(fs.open) && fs.tree == old(fs.tree) && fs.g.bs < U32 && b < U32
    ensures fs.Vol().iused == old(fs.Vol().iused) && fs.Vol().inodes == old(fs.Vol().inodes)
    ensures b == 0 ==> Full(fs.g, fs.Vol()) && fs.Vol() == old(fs.Vol())
    ensures b != 0 ==>
      MapsOk(fs.g, fs.Vol(), fs.tree.owner, eff) && AllKept(fs.g, old(fs.Vol().data), fs.Vol().data, eff)
    ensures b != 0 ==> b !in fs.tree.owner.slot && b in fs.Vol().used && b in fs.Vol().data
    ensures b != 0 ==> OneMoreAtMost(old(fs.Vol()), fs.Vol()) && fs.Vol().used == old(fs.Vol().used) + {b}
    ensures b != 0 ==> var ni := NewInode(fs.g, true, b);
      DirOk(fs.g, fs.Vol().data, ni) && Contents(fs.g, fs.Vol().data, ni) == DotEntries(c, d)
  {
    hide ImageOk; hide Meaning; hide MapsOk; hide AllKept; hide DirOk; hide Contents; hide DotBlock; hide Sized;
    hide OneMoreAtMost; hide NewInode; hide Full; hide DotEntries; hide Geometry.RangesOk; hide Geometry.CountsOk;
    ghost var v, owner := fs.Vol(), fs.tree.owner;
    ValidSizes(fs);
    BlockSizes(fs.g);
    b := AllocBlock(fs);
    if b == 0 { return; }
    NotOwned(fs.g, v, owner, eff, b);
    WriteBlock(fs, b, DotBlock(fs.g.bs, c, d));
    FreshBlock(fs.g, v, owner, eff, b, DotBlock(fs.g.bs, c, d), fs.Vol());
    NewDirContents(fs.g, fs.Vol().data, b, c, d);
    TookOne(v, fs.Vol(), b);
  }

  /** Allocates the first block of a directory and writes the new inode's record. */
  method MakeInode(fs: FsInstance, isDir: bool, c: nat, d: nat, ghost eff: map<nat, Inode>)
    returns (ok: bool, ni: Inode)
    requires fs.Valid() && MapsOk(fs.g, fs.Vol(), fs.tree.owner, eff) && c !in eff && c in fs.Vol().inodes
    requires 0 < c < U32 && 0 < d < U32
    modifies fs
    ensures fs.Valid() && fs.open == old(fs.open) && SameTree(old(fs.tree), fs.tree)
    ensures fs.Vol().iused == old(fs.Vol().iused)
    ensures !ok ==> isDir && Full(fs.g, fs.Vol()) && fs.Vol() == old(fs.Vol()) && fs.tree == old(fs.tree)
    ensures ok ==> fs.Vol().inodes == old(fs.Vol().inodes)[c := ni] && OneMoreAtMost(old(fs.Vol()), fs.Vol())
    ensures ok ==> MapsOk(fs.g, fs.Vol(), fs.tree.owner, eff[c := ni])
    ensures ok ==> AllKept(fs.g, old(fs.Vol().data), fs.Vol().data, eff)
    ensures ok ==> fs.Vol().used == old(fs.Vol().used) + AllSlots(fs.g, fs.Vol().data, ni)
    ensures ok ==> (IsDir(ni) <==> isDir) && NewRecord(fs.g, ni, isDir)
    ensures ok && isDir ==> DirOk(fs.g, fs.Vol().data, ni) && Contents(fs.g, fs.Vol().data, ni) == DotEntries(c, d)
  {
    hide ImageOk; hide Meaning; hide MapsOk; hide AllKept; hide DirOk; hide Contents; hide DotEntries; hide Sized;
    hide OneMoreAtMost; hide NewInode; hide IsDir; hide Full; hide AllSlots; hide NewRecord;
    ghost var v, owner := fs.Vol(), fs.tree.owner;
    ValidSizes(fs);
    var b := 0;
    if isDir {
      b := MakeDots(fs, c, d, eff);
      if b == 0 { return false, ZeroInode; }
      fs.tree := fs.tree.(owner := Assigned(owner, b, c, 0));
    } else {
      NothingKept(fs.g, v, owner, eff);
      TookNone(v, v);
    }
    ghost var v1 := fs.Vol();
    ni := NewInode(fs.g, isDir, b);
    ok := WriteInode(fs, c, ni);
    InodeMade(fs.g, v, v1, fs.Vol(), owner, fs.tree.owner, eff, c, isDir, b);
  }

  lemma InodeMade(g: Geometry, v: Volume, v1: Volume, v2: Volume, owner: Owners, owner': Owners, eff: map<nat, Inode>,
                  c: nat, isDir: bool, b: nat)
    requires MapsOk(g, v1, owner, eff) && c !in eff && g.bs < U32 && b < U32 && (b != 0 <==> isDir)
    requires isDir ==> b !in owner.slot && b in v1.used && b in v1.data
    requires owner' == if isDir then Assigned(owner, b, c, 0) else owner
    requires OneMoreAtMost(v, v1) && v1.used == if isDir then v.used + {b} else v.used
    requires v2 == v1.(inodes := v2.inodes)
    ensures var ni := NewInode(g, isDir, b);
      && MapsOk(g, v2, owner', eff[c := ni]) && OneMoreAtMost(v, v2) && (IsDir(ni) <==> isDir)
      && NewRecord(g, ni, isDir) && v2.used == v.used + AllSlots(g, v2.data, ni)
  {
    hide MapsOk; hide OneMoreAtMost; hide NewInode; hide IsDir; hide AllSlots; hide NewRecord;
    NewInodeKind(g, isDir, b);
    NewInodeBlocks(g, v1.data, isDir, b);
    AddInode(g, v1, owner, eff, c, isDir, b);
    SameTaken(v, v1, v2);
    SameMaps(g, v1, v2, owner', eff[c := NewInode(g, isDir, b)]);
  }

  // ---------- the file system after create ----------

  /** What create has put in place when it succeeds. */
  ghost predicate Created(g: Geometry, v: Volume, open: map<nat, Inode>, t: Tree, v': Volume, owner': Owners, d: nat,
                          pi: Inode, ni: Inode, e: Entry, isDir: bool) {
    var eff := Current(v, open, t.live);
    && d in t.live && d in v.inodes && IsDir(v.inodes[d]) && d !in open && DirOk(g, v.data, v.inodes[d])
    && e.ino !in v.iused && e.ino in v.inodes && EntryOk(e)
    && v'.iused == v.iused + {e.ino} && v'.inodes == v.inodes[e.ino := ni][d := pi]
    && MapsOk(g, v', owner', eff[e.ino := ni][d := pi]) && owner'.stale == t.owner.stale
    && OthersKept(g, v.data, v'.data, eff, d)
    && IsDir(pi) && DirOk(g, v'.data, pi) && NoName(Contents(g, v.data, v.inodes[d]), e.name)
    && Inserted(Contents(g, v.data, v.inodes[d]), Contents(g, v'.data, pi), e)
    && (IsDir(ni) <==> isDir) && NewRecord(g, ni, isDir) && ParentRecord(v.inodes[d], pi, isDir)
    && (isDir ==> DirOk(g, v'.data, ni) && Contents(g, v'.data, ni) == DotEntries(e.ino, d))
    && v'.used == v.used + AllSlots(g, v'.data, ni) + AllSlots(g, v'.data, pi)
  }

  lemma OtherDirs(g: Geometry, v: Volume, open: map<nat, Inode>, t: Tree, v': Volume, owner': Owners, d: nat, pi: Inode,
                  ni: Inode, e: Entry, isDir: bool, m: nat)
    requires FsInv(g, v, open, t) && Created(g, v, open, t, v', owner', d, pi, ni, e, isDir)
    requires m in t.live && m != d
    ensures v'.inodes[m] == v.inodes[m]
    ensures IsDir(v.inodes[m]) ==> DirOk(g, v.data, v.inodes[m]) && DirOk(g, v'.data, v.inodes[m])
    ensures IsDir(v.inodes[m]) ==> Contents(g, v'.data, v.inodes[m]) == Contents(g, v.data, v.inodes[m])
  {
    hide MapsOk; hide TreeOk; hide FileKept; hide DirOk; hide Contents; hide NoName; hide Inserted; hide DirsOf;
    if IsDir(v.inodes[m]) {
      assert m in Current(v, open, t.live) && Current(v, open, t.live)[m] == v.inodes[m];
      DirKept(g, v.data, v.inodes[m], v'.data, v.inodes[m]);
    }
  }

  lemma CreatedLive(g: Geometry, v: Volume, open: map<nat, Inode>, t: Tree, v': Volume, owner': Owners, d: nat,
                    pi: Inode, ni: Inode, e: Entry, isDir: bool)
    requires FsInv(g, v, open, t) && Created(g, v, open, t, v', owner', d, pi, ni, e, isDir)
    ensures LiveOk(g, v', open, t.live + {e.ino})
  {
    hide MapsOk; hide TreeOk; hide OthersKept; hide DirOk; hide Contents; hide NoName; hide Inserted; hide DirsOf;
    hide HandlesOk; hide Current; hide IsDir;
    forall n | n in t.live && n != d
      ensures v'.inodes[n] == v.inodes[n] && (IsDir(v'.inodes[n]) ==> DirOk(g, v'.data, v'.inodes[n]))
    {
      OtherDirs(g, v, open, t, v', owner', d, pi, ni, e, isDir, n);
    }
  }

  lemma CreatedCurrent(g: Geometry, v: Volume, open: map<nat, Inode>, t: Tree, v': Volume, owner': Owners, d: nat,
                       pi: Inode, ni: Inode, e: Entry, isDir: bool)
    requires FsInv(g, v, open, t) && Created(g, v, open, t, v', owner', d, pi, ni, e, isDir)
    ensures Current(v', open, t.live + {e.ino}) == Current(v, open, t.live)[e.ino := ni][d := pi]
  {
    hide MapsOk; hide TreeOk; hide OthersKept; hide DirOk; hide Contents; hide NoName; hide Inserted; hide DirsOf;
    hide HandlesOk; hide IsDir;
    var a, b := Current(v', open, t.live + {e.ino}), Current(v, open, t.live)[e.ino := ni][d := pi];
    assert e.ino !in open && d !in open;
    assert a.Keys == b.Keys;
  }

  lemma CreatedDirs(g: Geometry, v: Volume, open: map<nat, Inode>, t: Tree, v': Volume, owner': Owners, d: nat,
                    pi: Inode, ni: Inode, e: Entry, isDir: bool)
    requires FsInv(g, v, open, t) && Created(g, v, open, t, v', owner', d, pi, ni, e, isDir)
    ensures Grafted(DirsOf(g, v, t.live), DirsOf(g, v', t.live + {e.ino}), d, e, isDir)
  {
    hide MapsOk; hide TreeOk; hide OthersKept; hide DirOk; hide Contents; hide NoName; hide Inserted; hide Current;
    hide IsDir; hide DirsOf; hide HandlesOk;
    var live := t.live + {e.ino};
    var small, big := DirsOf(g, v, t.live), DirsOf(g, v', live);
    CreatedLive(g, v, open, t, v', owner', d, pi, ni, e, isDir);
    DirAt(g, v, open, t.live, d);
    DirAt(g, v', open, live, d);
    DirAt(g, v, open, t.live, e.ino);
    DirAt(g, v', open, live, e.ino);
    forall n | n != d && n != e.ino
      ensures n in small <==> n in big
      ensures n in small ==> big[n] == small[n]
    {
      DirAt(g, v, open, t.live, n);
      DirAt(g, v', open, live, n);
      if n in t.live { OtherDirs(g, v, open, t, v', owner', d, pi, ni, e, isDir, n); }
    }
    assert big.Keys == small.Keys + (if isDir then {e.ino} else {});
  }

  lemma CreatedHandles(g: Geometry, v: Volume, open: map<nat, Inode>, t: Tree, v': Volume, owner': Owners, d: nat,
                       pi: Inode, ni: Inode, e: Entry, isDir: bool)
    requires FsInv(g, v, open, t) && Created(g, v, open, t, v', owner', d, pi, ni, e, isDir)
    ensures HandlesOk(g, v', open, t.owner.stale)
  {
    hide MapsOk; hide TreeOk; hide FileKept; hide DirOk; hide Contents; hide NoName; hide Inserted; hide DirsOf;
    hide HandlesOk;
    HandlesThere(g, v, open, t.owner.stale);
    forall n | n in open
      ensures FileKept(g, v.data, open[n], v'.data, open[n]) && n in v'.inodes && v'.inodes[n] == v.inodes[n]
    {
      assert n in Current(v, open, t.live) && Current(v, open, t.live)[n] == open[n];
    }
    HandlesKept(g, v, open, t.owner.stale, v', open, t.owner.stale);
  }

  /** create keeps the invariant and hangs the new inode in the tree. */
  lemma CreateKeepsInv(g: Geometry, v: Volume, open: map<nat, Inode>, t: Tree, v': Volume, owner': Owners, d: nat,
                       pi: Inode, ni: Inode, e: Entry, isDir: bool)
    requires FsInv(g, v, open, t) && Created(g, v, open, t, v', owner', d, pi, ni, e, isDir)
    ensures FsInv(g, v', open, Planted(t.(owner := owner'), d, e.name, e.ino))
    ensures Grafted(DirsOf(g, v, t.live), DirsOf(g, v', t.live + {e.ino}), d, e, isDir) && e.ino !in t.live
  {
    hide MapsOk; hide OthersKept; hide DirOk; hide Contents; hide NoName; hide Inserted; hide IsDir; hide Grafted;
    hide DirsOf; hide Current; hide TreeOk; hide HandlesOk; hide LiveOk;
    LiveParts(g, v, open, t);
    CreatedLive(g, v, open, t, v', owner', d, pi, ni, e, isDir);
    CreatedCurrent(g, v, open, t, v', owner', d, pi, ni, e, isDir);
    CreatedHandles(g, v, open, t, v', owner', d, pi, ni, e, isDir);
    CreatedDirs(g, v, open, t, v', owner', d, pi, ni, e, isDir);
    OwnerUnseen(t, DirsOf(g, v, t.live), owner');
    GraftKeepsTree(t.(owner := owner'), DirsOf(g, v, t.live), DirsOf(g, v', t.live + {e.ino}), d, e, isDir);
  }

  /** What a successful create changes besides the paths: inode c, the record of directory d and its listing. Every
      other record and every other file is as it was, and the blocks in use grow by exactly the blocks of c and d. */
  ghost predicate OnlyCreated(g: Geometry, v: Volume, open: map<nat, Inode>, t: Tree, v': Volume, t': Tree, d: nat,
                              c: nat, isDir: bool) {
    && v'.iused == v.iused + {c} && t'.live == t.live + {c} && c !in v.iused && c !in t.live
    && d in t.live && d in v'.inodes && c in v'.inodes && v'.inodes.Keys == v.inodes.Keys
    && (forall m :: m in v.inodes && m != c && m != d ==> v'.inodes[m] == v.inodes[m])
    && NewRecord(g, v'.inodes[c], isDir) && ParentRecord(v.inodes[d], v'.inodes[d], isDir)
    && OthersKept(g, v.data, v'.data, Current(v, open, t.live), d)
    && v'.used == v.used + AllSlots(g, v'.data, v'.inodes[c]) + AllSlots(g, v'.data, v'.inodes[d])
  }

  lemma CreatedOnly(g: Geometry, v: Volume, open: map<nat, Inode>, t: Tree, v': Volume, t': Tree, d: nat, pi: Inode,
                    ni: Inode, e: Entry, isDir: bool)
    requires FsInv(g, v, open, t) && Created(g, v, open, t, v', t'.owner, d, pi, ni, e, isDir)
    requires t'.live == t.live + {e.ino}
    ensures OnlyCreated(g, v, open, t, v', t', d, e.ino, isDir)
  {
    hide MapsOk; hide TreeOk; hide OthersKept; hide DirOk; hide Contents; hide NoName; hide Inserted; hide DirsOf;
    hide HandlesOk; hide Current; hide IsDir; hide AllSlots; hide FsInv; hide NewRecord; hide ParentRecord;
    LiveParts(g, v, open, t);
  }

  // ---------- paths after create ----------

  /** Paths that stay clear of c lead where they did; the others led nowhere before. */
  ghost predicate OnlyAdds(small: Dirs, big: Dirs, c: nat) {
    forall comps: seq<Name> ::
      Walk(small, ROOT, comps) == if Visits(big, ROOT, comps, c) then 0 else Walk(big, ROOT, comps)
  }

  lemma CreateOnlyAdds(t: Tree, small: Dirs, big: Dirs, d: nat, name: Name, c: nat)
    requires TreeOk(t, big) && Pruned(big, small, d, name, c) && !Dotted(name) && c != 0 && c != ROOT
    requires c in big ==> OnlyDots(big[c])
    ensures OnlyAdds(small, big, c)
  {
    hide Walk; hide Visits; hide Pruned; hide OnlyDots;
    forall comps: seq<Name>
      ensures Walk(small, ROOT, comps) == if Visits(big, ROOT, comps, c) then 0 else Walk(big, ROOT, comps)
    {
      PrunedWalk(t, big, small, d, name, c, ROOT, comps);
    }
  }

  /** Nothing that resolved before is lost. */
  lemma OldPathsStay(small: Dirs, big: Dirs, c: nat, comps: seq<Name>)
    requires OnlyAdds(small, big, c) && Walk(small, ROOT, comps) != 0
    ensures Walk(big, ROOT, comps) == Walk(small, ROOT, comps)
  {
  }

  /** The new path resolves to the new inode exactly when its last component survives the cut
      at 63 bytes that the walk makes and create does not. */
  lemma NewPathResolves(t: Tree, small: Dirs, big: Dirs, d: nat, e: Entry, isDir: bool, path: seq<byte>,
                        parent: seq<byte>)
    requires TreeOk(t, small) && Grafted(small, big, d, e, isDir) && e.ino !in t.live && OnlyAdds(small, big, e.ino)
    requires SplitOk(path, parent, e.name) && Walk(small, ROOT, Components(parent)) == d
    ensures Walk(big, ROOT, Components(path)) == e.ino <==> |e.name| <= MAX_COMPONENT
  {
    hide OnlyAdds; hide Components; hide SplitOk; hide Find; hide Inserted; hide Visits; hide NoName;
    var comps, last := Components(parent), Truncate(e.name);
    InodeFits(t, small, d);
    OldPathsStay(small, big, e.ino, comps);
    SplitComponents(path, parent, e.name);
    WalkConcat(big, ROOT, comps, [last]);
    InsertIsPut(small[d], big[d], e, last);
    LookupFits(t, small, d, last);
    var tail: seq<Name> := [last];
    assert tail[1..] == [];
    assert Walk(big, d, [last]) == Find(big[d], last);
  }

  // ---------- the operation ----------

  /** The reasons create has to refuse before it allocates anything. */
  ghost predicate Refused(g: Geometry, v: Volume, t: Tree, path: seq<byte>) {
    var d, name := Resolve(g, v, t, ParentPath(path)), LastName(path);
    || |ParentPath(path)| >= 128 || name == [] || d !in DirsOf(g, v, t.live) || !NoName(DirsOf(g, v, t.live)[d], name)
  }

  lemma WithLinksKept(g: Geometry, data: Blocks, data': Blocks, i: Inode, i': Inode)
    requires DirOk(g, data, i) && FileKept(g, data, i, data', i)
    requires i' == i.(links := i'.links)
    ensures DirOk(g, data', i') && Contents(g, data', i') == Contents(g, data, i)
  {
    hide DirOk; hide Contents;
    assert forall k: nat :: BlockAt(g, data', i', k) == BlockAt(g, data', i, k);
    DirKept(g, data, i, data', i');
  }

  ghost predicate DirFull(g: Geometry, i: Inode) {
    0 < g.bs && DirBlocks(g, i) == MaxBlocks(g)
  }

  /** The state between allocating the inode and naming it, seen from the tree as it was. */
  lemma Unnamed(g: Geometry, v: Volume, open: map<nat, Inode>, t: Tree, v': Volume, owner': Owners, d: nat, pi: Inode,
                c: nat, ni: Inode)
    requires FsInv(g, v, open, t) && d in t.live && d !in open && c !in t.live && owner'.stale == t.owner.stale
    requires v'.iused == v.iused + {c} && v'.inodes == v.inodes[c := ni]
    requires pi == v.inodes[d].(links := pi.links)
    requires var eff := Current(v, open, t.live);
      MapsOk(g, v', owner', eff[c := ni][d := pi]) && AllKept(g, v.data, v'.data, eff)
    ensures FsInv(g, v', open, t.(owner := owner')) && DirsOf(g, v', t.live) == DirsOf(g, v, t.live)
  {
    hide MapsOk; hide TreeOk; hide AllKept; hide DirOk; hide Contents; hide DirsOf; hide FsInv; hide IsDir;
    var eff := Current(v, open, t.live);
    LiveInode(g, v, open, t, d);
    assert eff[d] == v.inodes[d];
    FieldsUnseen(g, v', owner', eff[c := ni][d := pi], d, eff[d]);
    DropInode(g, v', owner', eff, c, ni, d, pi);
    LiveParts(g, v, open, t);
    Unseen(g, v, open, t, v', owner');
  }

  lemma DropInode(g: Geometry, v: Volume, owner: Owners, eff: map<nat, Inode>, c: nat, ni: Inode, d: nat, pi: Inode)
    requires c !in eff && d in eff && MapsOk(g, v, owner, eff[c := ni][d := pi][d := eff[d]])
    ensures MapsOk(g, v, owner, eff)
  {
    hide Counted; hide Owns;
    var big := eff[c := ni][d := pi][d := eff[d]];
    assert forall m :: m in eff ==> m in big && big[m] == eff[m];
  }

  lemma LiveParts(g: Geometry, v: Volume, open: map<nat, Inode>, t: Tree)
    requires FsInv(g, v, open, t)
    ensures t.live <= v.iused && t.live <= v.inodes.Keys && Current(v, open, t.live).Keys == t.live
    ensures MapsOk(g, v, t.owner, Current(v, open, t.live))
  {
    hide MapsOk; hide TreeOk; hide DirOk;
  }

  /** What a create that fails after its first allocation leaves behind: inode c, in use but in no directory, and at
      most two blocks, in use but in no slot of any inode of the tree. Every file keeps its contents. */
  ghost predicate Leaked(g: Geometry, v: Volume, v': Volume, eff: map<nat, Inode>, c: nat) {
    && c !in v.iused && c !in eff && v'.iused == v.iused + {c}
    && v'.inodes.Keys == v.inodes.Keys && (forall m :: m in v.inodes && m != c ==> v'.inodes[m] == v.inodes[m])
    && v.used <= v'.used && |v'.used - v.used| <= 2 && Unowned(g, v'.data, eff, v'.used - v.used)
    && AllKept(g, v.data, v'.data, eff)
  }

  ghost predicate Unowned(g: Geometry, data: Blocks, eff: map<nat, Inode>, blocks: set<nat>) {
    forall m, s: nat :: m in eff && s <= MaxBlocks(g) && Slot(g, data, eff[m], s) != 0 ==>
      Slot(g, data, eff[m], s) !in blocks
  }

  lemma SameTaken(v: Volume, v1: Volume, v2: Volume)
    requires OneMoreAtMost(v, v1) && v2.used == v1.used
    ensures OneMoreAtMost(v, v2)
  {
  }

  /** Blocks taken while every file is kept are in no slot. */
  lemma NewUnowned(g: Geometry, v: Volume, owner: Owners, eff: map<nat, Inode>, v': Volume)
    requires MapsOk(g, v, owner, eff) && AllKept(g, v.data, v'.data, eff)
    ensures Unowned(g, v'.data, eff, v'.used - v.used)
  {
    hide BlockAt; hide Counted;
    forall m, s: nat | m in eff && s <= MaxBlocks(g) && Slot(g, v'.data, eff[m], s) != 0
      ensures Slot(g, v'.data, eff[m], s) in v.used
    {
      assert FileKept(g, v.data, eff[m], v'.data, eff[m]);
      assert Slot(g, v'.data, eff[m], s) == Slot(g, v.data, eff[m], s);
      assert Owns(g, v.data, owner, m, eff[m]);
    }
  }

  lemma OneInodeLeaked(g: Geometry, v: Volume, owner: Owners, eff: map<nat, Inode>, v': Volume, c: nat)
    requires MapsOk(g, v, owner, eff) && c !in v.iused && c !in eff && v' == v.(iused := v.iused + {c})
    ensures Leaked(g, v, v', eff, c)
  {
    hide MapsOk; hide AllKept; hide Unowned;
    NothingKept(g, v, owner, eff);
    NewUnowned(g, v, owner, eff, v');
    assert v'.used - v.used == {};
  }

  lemma BlocksLeaked(g: Geometry, v: Volume, owner: Owners, eff: map<nat, Inode>, v1: Volume, v2: Volume, v3: Volume,
                     c: nat)
    requires MapsOk(g, v, owner, eff) && c !in v.iused && c !in eff && c in v.inodes && v1 == v.(iused := v.iused + {c})
    requires OneMoreAtMost(v1, v2) && OneMoreAtMost(v2, v3) && AllKept(g, v.data, v3.data, eff)
    requires v3.iused == v1.iused && v3.inodes == v2.inodes && v2.inodes.Keys == v.inodes.Keys
    requires forall m :: m in v.inodes && m != c ==> v2.inodes[m] == v.inodes[m]
    ensures Leaked(g, v, v3, eff, c)
  {
    hide MapsOk; hide AllKept; hide Unowned;
    NewUnowned(g, v, owner, eff, v3);
    assert v3.used - v.used == (v3.used - v2.used) + (v2.used - v1.used);
  }

  /** The state of create between making inode c and naming it in directory d: v is the volume and t the tree
      it started from. */
  ghost predicate Made(g: Geometry, v: Volume, open: map<nat, Inode>, t: Tree, v2: Volume, t2: Tree, d: nat, pi: Inode,
                       c: nat, ni: Inode, isDir: bool) {
    var eff := Current(v, open, t.live);
    && FsInv(g, v, open, t) && d in t.live && d in v.inodes && d !in open && d in eff && eff[d] == pi == v.inodes[d]
    && IsDir(pi) && DirOk(g, v.data, pi)
    && SameTree(t, t2) && c !in v.iused && c !in t.live && c !in eff && c in v.inodes && 0 < c < U32
    && v2.iused == v.iused + {c} && v2.inodes == v.inodes[c := ni]
    && OneMoreAtMost(v.(iused := v.iused + {c}), v2) && v2.used == v.used + AllSlots(g, v2.data, ni)
    && MapsOk(g, v2, t2.owner, eff[c := ni]) && AllKept(g, v.data, v2.data, eff)
    && (IsDir(ni) <==> isDir) && NewRecord(g, ni, isDir)
    && (isDir ==> DirOk(g, v2.data, ni) && Contents(g, v2.data, ni) == DotEntries(c, d))
  }

  lemma ReadyToName(g: Geometry, v: Volume, v2: Volume, owner: Owners, eff: map<nat, Inode>, d: nat, pi: Inode,
                    pi1: Inode, c: nat, ni: Inode)
    requires DirOk(g, v.data, pi) && d in eff && eff[d] == pi && c !in eff && pi1 == pi.(links := pi1.links)
    requires MapsOk(g, v2, owner, eff[c := ni]) && AllKept(g, v.data, v2.data, eff)
    ensures MapsOk(g, v2, owner, eff[c := ni][d := pi1])
    ensures DirOk(g, v2.data, pi1) && Contents(g, v2.data, pi1) == Contents(g, v.data, pi)
  {
    hide MapsOk; hide AllKept; hide DirOk; hide Contents; hide FileKept;
    FieldsUnseen(g, v2, owner, eff[c := ni], d, pi1);
    KeptAt(g, v.data, v2.data, eff, d);
    WithLinksKept(g, v.data, v2.data, pi, pi1);
  }

  /** Inode c could not be named: the tree is as it was and everything taken since is lost. */
  lemma NotNamed(g: Geometry, v: Volume, open: map<nat, Inode>, t: Tree, v2: Volume, t2: Tree, v3: Volume, t3: Tree,
                 eff2: map<nat, Inode>, d: nat, pi: Inode, pi1: Inode, c: nat, ni: Inode, isDir: bool)
    requires d in eff2 && DirDropped(g, v2, v3, t3.owner, eff2, d) && SameTree(t2, t3)
    requires Made(g, v, open, t, v2, t2, d, pi, c, ni, isDir) && pi1 == pi.(links := pi1.links)
    requires eff2 == Current(v, open, t.live)[c := ni][d := pi1]
    ensures FsInv(g, v3, open, t3) && DirsOf(g, v3, t3.live) == DirsOf(g, v, t.live) && t3.owner.stale == t.owner.stale
    ensures Full(g, v3) || DirFull(g, pi)
    ensures Leaked(g, v, v3, Current(v, open, t.live), c)
  {
    hide MapsOk; hide AllKept; hide DirOk; hide Contents; hide FsInv; hide Current; hide OneMoreAtMost; hide IsDir;
    hide FileKept; hide DirsOf; hide Full; hide DirFull; hide Leaked; hide DirDropped;
    var eff := Current(v, open, t.live);
    LiveParts(g, v, open, t);
    DroppedKept(g, v, v2, v3, t3.owner, eff, eff2, c, ni, d, pi1);
    Unnamed(g, v, open, t, v3, t3.owner, d, pi1, c, ni);
    BlocksLeaked(g, v, t.owner, eff, v.(iused := v.iused + {c}), v2, v3, c);
  }

  /** The last part of create: inode c gets its name in directory d, whose record is written back. */
  method NameInode(fs: FsInstance, d: nat, pi: Inode, c: nat, ni: Inode, name: Name, isDir: bool, ghost v: Volume,
                   ghost t: Tree)
    returns (ok: bool, ghost e: Entry)
    requires fs.Valid() && Made(fs.g, v, fs.open, t, fs.Vol(), fs.tree, d, pi, c, ni, isDir)
    requires 0 < |name| < 256 && NoName(Contents(fs.g, v.data, pi), name)
    modifies fs
    ensures Inv(fs) && fs.open == old(fs.open) && fs.tree.owner.stale == t.owner.stale
    ensures e.name == name && e.ino == c && e.kind == if isDir then 2 else 1
    ensures !ok ==> DirsOf(fs.g, fs.Vol(), fs.tree.live) == DirsOf(fs.g, v, t.live)
    ensures !ok ==> (Full(fs.g, fs.Vol()) || DirFull(fs.g, pi))
    ensures !ok ==> Leaked(fs.g, v, fs.Vol(), Current(v, fs.open, t.live), c)
    ensures ok ==> c in fs.Vol().iused && c in fs.Vol().inodes && (IsDir(fs.Vol().inodes[c]) <==> isDir)
    ensures ok ==> fs.tree == Planted(t.(owner := fs.tree.owner), d, name, c)
    ensures ok ==> Grafted(DirsOf(fs.g, v, t.live), DirsOf(fs.g, fs.Vol(), fs.tree.live), d, e, isDir)
    ensures ok ==> OnlyCreated(fs.g, v, fs.open, t, fs.Vol(), fs.tree, d, c, isDir)
    ensures !ok ==> fs.tree.live == t.live
  {
    hide ImageOk; hide Meaning; hide MapsOk; hide AllKept; hide DirOk; hide Contents; hide TreeOk; hide DirsOf;
    hide FsInv; hide NoName; hide Grafted; hide DirUpdated; hide DirDropped; hide Created; hide Inserted;
    hide FileKept; hide Current; hide Leaked; hide OneMoreAtMost; hide Full; hide IsDir; hide DirFull;
    hide DotEntries; hide AllSlots; hide OnlyCreated; hide NewRecord;
    e := Entry(name, c, if isDir then FT_DIR else FT_REG);
    ghost var eff := Current(v, fs.open, t.live);
    var pi1 := if isDir then pi.(links := (pi.links + 1) % U16) else pi;
    ghost var v2, t2 := fs.Vol(), fs.tree;
    ghost var eff2: map<nat, Inode> := eff[c := ni][d := pi1];
    ReadyToName(fs.g, v, v2, t2.owner, eff, d, pi, pi1, c, ni);
    var inserted, pi2 := InsertDirEntry(fs, pi1, Entry(name, c, if isDir then FT_DIR else FT_REG), d, eff2);
    if !inserted {
      NotNamed(fs.g, v, fs.open, t, v2, t2, fs.Vol(), fs.tree, eff2, d, pi, pi1, c, ni, isDir);
      return false, e;
    }
    ghost var v3 := fs.Vol();
    UpdatedSame(fs.g, v2, v3, fs.tree.owner, eff2, d, pi2);
    ok := WriteInode(fs, d, pi2);
    UpdatedCreated(fs.g, v, fs.open, t, v2, v3, fs.Vol(), fs.tree.owner, eff, eff2, d, pi1, pi2, ni, e, isDir);
    CreateKeepsInv(fs.g, v, fs.open, t, fs.Vol(), fs.tree.owner, d, pi2, ni, e, isDir);
    fs.tree := Planted(fs.tree, d, name, c);
    CreatedOnly(fs.g, v, fs.open, t, fs.Vol(), fs.tree, d, pi2, ni, e, isDir);
  }

  /** The part of create that runs once the name is known to be free in directory d. */
  method CreateIn(fs: FsInstance, d: nat, pi: Inode, name: Name, isDir: bool) returns (ok: bool, ghost e: Entry)
    requires Inv(fs) && d in DirsOf(fs.g, fs.Vol(), fs.tree.live) && 0 < |name| < 256
    requires d in fs.Vol().inodes && pi == fs.Vol().inodes[d]
    requires NoName(DirsOf(fs.g, fs.Vol(), fs.tree.live)[d], name)
    modifies fs
    ensures Inv(fs) && fs.open == old(fs.open)
    ensures !ok ==> DirsOf(fs.g, fs.Vol(), fs.tree.live) == old(DirsOf(fs.g, fs.Vol(), fs.tree.live))
    ensures !ok ==> NoFreeInode(fs.g, old(fs.Vol())) || Full(fs.g, fs.Vol()) || DirFull(fs.g, pi)
    ensures !ok && NoFreeInode(fs.g, old(fs.Vol())) ==> fs.Vol() == old(fs.Vol())
    ensures !ok && !NoFreeInode(fs.g, old(fs.Vol())) ==>
      Leaked(fs.g, old(fs.Vol()), fs.Vol(), Current(old(fs.Vol()), old(fs.open), old(fs.tree.live)), e.ino)
    ensures fs.tree.owner.stale == old(fs.tree.owner.stale)
    ensures ok ==> e.kind == if isDir then 2 else 1
    ensures ok ==> e.name == name && e.ino !in old(fs.Vol().iused) && e.ino !in old(fs.tree.live)
    ensures ok ==> e.ino in fs.Vol().iused && e.ino in fs.Vol().inodes && (IsDir(fs.Vol().inodes[e.ino]) <==> isDir)
    ensures ok ==> fs.tree == Planted(old(fs.tree).(owner := fs.tree.owner), d, name, e.ino)
    ensures ok ==> Grafted(old(DirsOf(fs.g, fs.Vol(), fs.tree.live)), DirsOf(fs.g, fs.Vol(), fs.tree.live), d, e, isDir)
    ensures ok ==> OnlyCreated(fs.g, old(fs.Vol()), fs.open, old(fs.tree), fs.Vol(), fs.tree, d, e.ino, isDir)
    ensures ok ==> !NoFreeInode(fs.g, old(fs.Vol()))
    ensures !ok ==> fs.tree.live == old(fs.tree.live)
  {
    hide ImageOk; hide Meaning; hide MapsOk; hide AllKept; hide DirOk; hide Contents; hide TreeOk; hide DirsOf;
    hide FsInv; hide NoName; hide Grafted; hide Current; hide Leaked; hide OneMoreAtMost; hide NoFreeInode;
    hide Full; hide IsDir; hide DirFull; hide Planted; hide DotEntries; hide AllSlots; hide OnlyCreated; hide NewRecord;
    e := Entry(name, 0, 0);
    ghost var v, t := fs.Vol(), fs.tree;
    ghost var eff := Current(v, fs.open, t.live);
    DirsLive(fs.g, v, fs.open, t, d);
    LiveInode(fs.g, v, fs.open, t, d);
    LiveParts(fs.g, v, fs.open, t);
    CurrentAt(v, fs.open, t.live, d);
    var c := AllocInode(fs);
    if c == 0 { return false, e; }
    InodeNumbers(fs, c);
    InodeNumbers(fs, d);
    SameMaps(fs.g, v, fs.Vol(), t.owner, eff);
    NothingKept(fs.g, v, t.owner, eff);
    Unseen(fs.g, v, fs.open, t, fs.Vol(), t.owner);
    var made, ni := MakeInode(fs, isDir, c, d, eff);
    if !made {
      e := Entry(name, c, 0);
      OneInodeLeaked(fs.g, v, t.owner, eff, fs.Vol(), c);
      return false, e;
    }
    ok, e := NameInode(fs, d, pi, c, ni, name, isDir, v, t);
  }

  lemma InodeNumbers(fs: FsInstance, n: nat)
    requires fs.Valid() && (n in fs.Vol().inodes || 1 <= n <= fs.g.Inodes())
    ensures 0 < n < U32 && n in fs.Vol().inodes
  {
    hide Ext2Volume.CountsOk; hide MetaUsed; hide Used; hide UsedInodes; hide Data; hide InodeAt;
  }

  lemma DirsLive(g: Geometry, v: Volume, open: map<nat, Inode>, t: Tree, d: nat)
    requires FsInv(g, v, open, t) && d in DirsOf(g, v, t.live)
    ensures d in t.live
  {
    hide MapsOk; hide TreeOk; hide DirOk;
  }

  lemma CurrentAt(v: Volume, open: map<nat, Inode>, live: set<nat>, n: nat)
    requires n in live && n in v.inodes && n !in open
    ensures n in Current(v, open, live) && Current(v, open, live)[n] == v.inodes[n]
  {
  }

  lemma KeptAt(g: Geometry, data: Blocks, data': Blocks, eff: map<nat, Inode>, n: nat)
    requires AllKept(g, data, data', eff) && n in eff
    ensures FileKept(g, data, eff[n], data', eff[n])
  {
  }

  lemma DroppedKept(g: Geometry, v: Volume, v2: Volume, v3: Volume, owner: Owners, eff: map<nat, Inode>,
                    eff2: map<nat, Inode>, c: nat, ni: Inode, d: nat, pi: Inode)
    requires d in eff && c !in eff && eff2 == eff[c := ni][d := pi] && pi == eff[d].(links := pi.links)
    requires AllKept(g, v.data, v2.data, eff) && DirDropped(g, v2, v3, owner, eff2, d)
    ensures AllKept(g, v.data, v3.data, eff) && MapsOk(g, v3, owner, eff2)
    ensures v3.iused == v2.iused && v3.inodes == v2.inodes && (Full(g, v3) || DirFull(g, eff[d]))
    ensures OneMoreAtMost(v2, v3)
  {
    hide MapsOk; hide KeptBut; hide Full; hide OneMoreAtMost;
    forall m | m in eff ensures FileKept(g, v.data, eff[m], v3.data, eff[m]) {
      assert FileKept(g, v2.data, eff2[m], v3.data, eff2[m]);
      if m == d { LinksUnseen(g, v2.data, v3.data, pi, eff[d]); }
      KeptTransitive(g, v.data, eff[m], v2.data, eff[m], v3.data, eff[m], MaxBlocks(g));
    }
  }

  lemma LinksUnseen(g: Geometry, data: Blocks, data': Blocks, i: Inode, i': Inode)
    requires FileKept(g, data, i, data', i) && i'.block == i.block
    ensures FileKept(g, data, i', data', i')
  {
    assert forall k: nat :: BlockAt(g, data, i', k) == BlockAt(g, data, i, k);
    assert forall k: nat :: BlockAt(g, data', i', k) == BlockAt(g, data', i, k);
  }

  lemma UpdatedSame(g: Geometry, v: Volume, v': Volume, owner: Owners, eff: map<nat, Inode>, d: nat, i': Inode)
    requires d in eff && DirUpdated(g, v, v', owner, eff, d, i')
    ensures v'.inodes == v.inodes && v'.iused == v.iused
  {
    hide MapsOk; hide OthersKept;
  }

  lemma OthersAfter(g: Geometry, v: Volume, v2: Volume, v3: Volume, owner: Owners, eff: map<nat, Inode>,
                    eff2: map<nat, Inode>, d: nat, pi1: Inode, pi2: Inode, c: nat, ni: Inode)
    requires d in eff && c !in eff && eff2 == eff[c := ni][d := pi1]
    requires AllKept(g, v.data, v2.data, eff) && DirUpdated(g, v2, v3, owner, eff2, d, pi2)
    ensures OthersKept(g, v.data, v3.data, eff, d) && FileKept(g, v2.data, ni, v3.data, ni)
    ensures MapsOk(g, v3, owner, eff[c := ni][d := pi2])
    ensures pi2 == pi1.(block := pi2.block, blocks := pi2.blocks, size := pi2.size)
    ensures v3.iused == v2.iused && v3.inodes == v2.inodes
    ensures v3.used == v2.used + AllSlots(g, v3.data, pi2)
  {
    hide MapsOk; hide FileKept; hide AllSlots; hide Slot;
    assert eff2[d := pi2] == eff[c := ni][d := pi2];
    assert c in eff2 && c != d && eff2[c] == ni;
    forall m | m in eff && m != d ensures FileKept(g, v.data, eff[m], v3.data, eff[m]) {
      assert FileKept(g, v2.data, eff2[m], v3.data, eff2[m]);
      FilesKept(g, v.data, v2.data, v3.data, eff[m]);
    }
  }

  /** Collects what the steps of a successful create have established. */
  lemma UpdatedCreated(g: Geometry, v: Volume, open: map<nat, Inode>, t: Tree, v2: Volume, v3: Volume, v4: Volume,
                       owner: Owners, eff: map<nat, Inode>, eff2: map<nat, Inode>, d: nat, pi1: Inode, pi2: Inode,
                       ni: Inode, e: Entry, isDir: bool)
    requires eff == Current(v, open, t.live) && d in eff && e.ino !in eff && eff2 == eff[e.ino := ni][d := pi1]
    requires owner.stale == t.owner.stale
    requires d in t.live && d !in open && d in v.inodes && IsDir(v.inodes[d]) && EntryOk(e)
    requires e.ino !in v.iused && e.ino in v.inodes
    requires pi1 == v.inodes[d].(links := if isDir then (v.inodes[d].links + 1) % U16 else v.inodes[d].links)
    requires v2.iused == v.iused + {e.ino} && v2.inodes == v.inodes[e.ino := ni]
    requires AllKept(g, v.data, v2.data, eff) && DirOk(g, v2.data, pi1)
    requires DirOk(g, v.data, v.inodes[d]) && Contents(g, v2.data, pi1) == Contents(g, v.data, v.inodes[d])
    requires DirUpdated(g, v2, v3, owner, eff2, d, pi2)
    requires DirOk(g, v3.data, pi2) && Inserted(Contents(g, v2.data, pi1), Contents(g, v3.data, pi2), e)
    requires NoName(Contents(g, v.data, v.inodes[d]), e.name)
    requires (IsDir(ni) <==> isDir) && NewRecord(g, ni, isDir)
    requires isDir ==> DirOk(g, v2.data, ni) && Contents(g, v2.data, ni) == DotEntries(e.ino, d)
    requires v2.used == v.used + AllSlots(g, v2.data, ni)
    requires v4 == v3.(inodes := v3.inodes[d := pi2])
    ensures Created(g, v, open, t, v4, owner, d, pi2, ni, e, isDir)
  {
    hide MapsOk; hide DirOk; hide Contents; hide NoName; hide Inserted; hide FileKept; hide DirUpdated;
    hide OthersKept; hide AllKept; hide Current; hide AllSlots; hide NewRecord;
    OthersAfter(g, v, v2, v3, owner, eff, eff2, d, pi1, pi2, e.ino, ni);
    SameMaps(g, v3, v4, owner, eff[e.ino := ni][d := pi2]);
    if isDir { DirKept(g, v2.data, ni, v3.data, ni); }
    KeptSlots(g, v2.data, v3.data, ni);
  }

  lemma FilesKept(g: Geometry, d0: Blocks, d1: Blocks, d2: Blocks, i: Inode)
    requires FileKept(g, d0, i, d1, i) && FileKept(g, d1, i, d2, i)
    ensures FileKept(g, d0, i, d2, i)
  {
    KeptTransitive(g, d0, i, d1, i, d2, i, MaxBlocks(g));
  }

  /** Directory d lists the new inode among what it listed before, a new directory lists itself and d, and no other
      listing changes. */
  ghost predicate Entered(small: Dirs, big: Dirs, d: nat, name: Name, c: nat, isDir: bool) {
    && d in small && NoName(small[d], name) && d != c
    && big.Keys == small.Keys + (if isDir then {c} else {})
    && Inserted(small[d], big[d], Entry(name, c, if isDir then 2 else 1))
    && (isDir ==> big[c] == [Entry([46], c, 2), Entry([46, 46], d, 2)])
    && (forall m :: m in small && m != d && m != c ==> big[m] == small[m])
  }

  /** What create does. A successful one makes its path resolve to a fresh inode, empty and of the right kind (when the
      walk can see the whole last name), changes no path that does not pass through it, and leaves all other inodes
      alone. A failed one changes no path at all and has a reason; unless it was refused or found no inode it loses what
      it had taken. */
  ghost predicate CreateDid(g: Geometry, v: Volume, open: map<nat, Inode>, t: Tree, path: seq<byte>, isDir: bool,
                            ok: bool, c: nat, v': Volume, t': Tree) {
    var early := Refused(g, v, t, path) || NoFreeInode(g, v);
    && t'.owner.stale == t.owner.stale
    && (ok ==>
          && !early && OnlyCreated(g, v, open, t, v', t', Resolve(g, v, t, ParentPath(path)), c, isDir)
          && Entered(DirsOf(g, v, t.live), DirsOf(g, v', t'.live), Resolve(g, v, t, ParentPath(path)), LastName(path),
                     c, isDir)
          && (IsDir(v'.inodes[c]) <==> isDir)
          && OnlyAdds(DirsOf(g, v, t.live), DirsOf(g, v', t'.live), c)
          && (Resolve(g, v', t', path) == c <==> |LastName(path)| <= MAX_COMPONENT))
    && (!ok ==>
          && t'.live == t.live && DirsOf(g, v', t'.live) == DirsOf(g, v, t.live)
          && (early || Full(g, v') || DirFull(g, ParentInode(g, v, t, path)))
          && (v' == v <==> early) && (!early ==> Leaked(g, v, v', Current(v, open, t.live), c)))
  }

  method Create(fs: FsInstance, path: seq<byte>, isDir: bool) returns (ok: bool, ghost c: nat)
    requires Inv(fs) && |LastName(path)| < 256
    modifies fs
    ensures Inv(fs) && fs.open == old(fs.open)
    ensures CreateDid(fs.g, old(fs.Vol()), old(fs.open), old(fs.tree), path, isDir, ok, c, fs.Vol(), fs.tree)
  {
    hide ImageOk; hide Meaning; hide DirOk; hide Contents; hide DirsOf; hide FsInv; hide Find; hide Walk;
    hide Components; hide NoName; hide Grafted; hide OnlyAdds; hide IsDir; hide LastSlash; hide Leaked;
    hide NoFreeInode; hide OnlyCreated; hide Full; hide DirFull; hide Current; hide CreateDid;
    hide Entered;
    c := 0;
    RefusedDid(fs.g, fs.Vol(), fs.open, fs.tree, path, isDir);
    ghost var v, t := fs.Vol(), fs.tree;
    ghost var dirs := DirsOf(fs.g, v, t.live);
    var split, parent, name := SplitPath(path);
    if !split || name == [] { return false, 0; }
    var d := ResolvePathToInode(fs, parent);
    ZeroNotDir(fs.g, v, fs.open, t);
    if d == 0 { return false, 0; }
    LiveInode(fs.g, v, fs.open, t, d);
    var there, pi := ReadInode(fs, d);
    if !IsDir(pi) { return false, 0; }
    var found := LookupInDir(fs, pi, name);
    if found != 0 { return false, 0; }
    ghost var e;
    ok, e := CreateIn(fs, d, pi, name, isDir);
    c := e.ino;
    if !ok {
      FailedDid(fs.g, v, fs.open, t, path, isDir, c, fs.Vol(), fs.tree);
      return false, c;
    }
    SplitAtLast(path);
    TreeParts(fs.g, v, fs.open, t);
    ghost var big := DirsOf(fs.g, fs.Vol(), fs.tree.live);
    CreatedPaths(t, dirs, big, d, e, isDir, path, parent);
    GraftedEnters(dirs, big, d, e, isDir);
    SucceededDid(fs.g, v, fs.open, t, path, isDir, c, fs.Vol(), fs.tree);
  }

  lemma RefusedDid(g: Geometry, v: Volume, open: map<nat, Inode>, t: Tree, path: seq<byte>, isDir: bool)
    ensures Refused(g, v, t, path) ==> CreateDid(g, v, open, t, path, isDir, false, 0, v, t)
  {
    hide Refused; hide DirsOf; hide Full; hide DirFull; hide ParentInode; hide NoFreeInode; hide Leaked; hide Resolve;
  }

  lemma FailedDid(g: Geometry, v: Volume, open: map<nat, Inode>, t: Tree, path: seq<byte>, isDir: bool, c: nat,
                  v': Volume, t': Tree)
    requires t'.owner.stale == t.owner.stale && t'.live == t.live && DirsOf(g, v', t'.live) == DirsOf(g, v, t.live)
    requires NoFreeInode(g, v) || Full(g, v') || DirFull(g, ParentInode(g, v, t, path))
    requires !Refused(g, v, t, path) && (NoFreeInode(g, v) ==> v' == v)
    requires !NoFreeInode(g, v) ==> Leaked(g, v, v', Current(v, open, t.live), c)
    ensures CreateDid(g, v, open, t, path, isDir, false, c, v', t')
  {
    hide Refused; hide DirsOf; hide Full; hide DirFull; hide ParentInode; hide NoFreeInode; hide Leaked;
    hide Resolve; hide Current;
    if !NoFreeInode(g, v) { LeakedChanges(g, v, v', Current(v, open, t.live), c); }
  }

  lemma SucceededDid(g: Geometry, v: Volume, open: map<nat, Inode>, t: Tree, path: seq<byte>, isDir: bool, c: nat,
                     v': Volume, t': Tree)
    requires t'.owner.stale == t.owner.stale && !Refused(g, v, t, path) && !NoFreeInode(g, v)
    requires OnlyCreated(g, v, open, t, v', t', Resolve(g, v, t, ParentPath(path)), c, isDir)
    requires Entered(DirsOf(g, v, t.live), DirsOf(g, v', t'.live), Resolve(g, v, t, ParentPath(path)), LastName(path),
                     c, isDir)
    requires c in v'.inodes && (IsDir(v'.inodes[c]) <==> isDir)
    requires OnlyAdds(DirsOf(g, v, t.live), DirsOf(g, v', t'.live), c)
    requires Resolve(g, v', t', path) == c <==> |LastName(path)| <= MAX_COMPONENT
    ensures CreateDid(g, v, open, t, path, isDir, true, c, v', t')
  {
    hide Refused; hide DirsOf; hide NoFreeInode; hide Resolve; hide OnlyCreated; hide IsDir; hide OnlyAdds;
    hide Entered;
  }

  lemma GraftedEnters(small: Dirs, big: Dirs, d: nat, e: Entry, isDir: bool)
    requires Grafted(small, big, d, e, isDir) && e.kind == if isDir then 2 else 1
    ensures Entered(small, big, d, e.name, e.ino, isDir)
  {
    hide NoName; hide Inserted; hide EntryOk;
    assert e == Entry(e.name, e.ino, e.kind);
  }

  lemma LeakedChanges(g: Geometry, v: Volume, v': Volume, eff: map<nat, Inode>, c: nat)
    requires Leaked(g, v, v', eff, c)
    ensures v' != v
  {
    hide AllKept; hide Unowned;
    assert c in v'.iused && c !in v.iused;
  }

  /** The inode of the directory that the path's parent leads to. */
  ghost function ParentInode(g: Geometry, v: Volume, t: Tree, path: seq<byte>): Inode {
    var d := Resolve(g, v, t, ParentPath(path));
    if d in v.inodes then v.inodes[d] else ZeroInode
  }

  lemma ZeroNotDir(g: Geometry, v: Volume, open: map<nat, Inode>, t: Tree)
    requires FsInv(g, v, open, t)
    ensures 0 !in DirsOf(g, v, t.live)
  {
    hide MapsOk; hide DirOk; hide DirFits; hide Hangs;
  }

  lemma TreeParts(g: Geometry, v: Volume, open: map<nat, Inode>, t: Tree)
    requires FsInv(g, v, open, t)
    ensures TreeOk(t, DirsOf(g, v, t.live)) && ROOT in t.live
  {
    hide MapsOk; hide DirOk; hide DirFits; hide Hangs; hide LiveOk;
  }

  lemma CreatedPaths(t: Tree, small: Dirs, big: Dirs, d: nat, e: Entry, isDir: bool, path: seq<byte>, parent: seq<byte>)
    requires TreeOk(t, small) && Grafted(small, big, d, e, isDir) && e.ino !in t.live && ROOT in t.live
    requires SplitOk(path, parent, e.name) && Walk(small, ROOT, Components(parent)) == d
    ensures OnlyAdds(small, big, e.ino)
    ensures Walk(big, ROOT, Components(path)) == e.ino <==> |e.name| <= MAX_COMPONENT
  {
    hide TreeOk; hide OnlyAdds; hide Walk; hide Components; hide SplitOk; hide Pruned; hide OnlyDots; hide Grafted;
    GraftKeepsTree(t, small, big, d, e, isDir);
    GraftedParts(small, big, d, e, isDir, t);
    CreateOnlyAdds(Planted(t, d, e.name, e.ino), small, big, d, e.name, e.ino);
    NewPathResolves(t, small, big, d, e, isDir, path, parent);
  }

  lemma GraftedParts(small: Dirs, big: Dirs, d: nat, e: Entry, isDir: bool, t: Tree)
    requires Grafted(small, big, d, e, isDir) && TreeOk(t, small) && e.ino !in t.live
    ensures e.ino != 0 && (e.ino in big <==> isDir)
  {
    hide DirFits; hide Hangs;
  }
}
