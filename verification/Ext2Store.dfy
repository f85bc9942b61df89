/** The driver's instance of a mounted volume and the operations that touch the device:
    the block and inode allocators, the inode table and plain blocks. */
module Ext2Store {
  import opened Bytes
  import opened Bits
  import opened Arithmetic
  import opened Ext2Layout
  import opened Ext2Volume

  type Name = seq<byte>

  /** The inode slot that owns each data block, and the inodes whose sector count has fallen behind. */
  datatype Owners = Owners(slot: map<nat, (nat, nat)>, stale: set<nat>)

  /** Proof annotations kept beside the volume: which inodes the directory tree reaches, the directory
      and name each is reached by, its distance from the root, and the owners of blocks. */
  datatype Tree = Tree(live: set<nat>, parent: map<nat, nat>, nameOf: map<nat, Name>,
                       depth: map<nat, nat>, owner: Owners)

  /** Only the owners of blocks may differ. */
  ghost predicate SameTree(t: Tree, t': Tree) {
    t' == t.(owner := t'.owner) && t'.owner.stale == t.owner.stale
  }

  class FsInstance {
    const g: Geometry
    var disk: Disk
    var groups: seq<Counts>
    var sb: Counts
    // The counters as last written to the superblock and the group descriptor table.
    var groupsOnDisk: seq<Counts>
    var sbOnDisk: Counts
    // The private inode copy of each open handle, by inode number.
    var open: map<nat, Inode>
    ghost var tree: Tree

    constructor (g: Geometry, disk: Disk, groups: seq<Counts>, sb: Counts, ghost tree: Tree)
      requires ImageOk(g, Image(disk, groups, sb))
      ensures Valid() && this.g == g && Vol() == Meaning(g, disk) && open == map[] && this.tree == tree
    {
      this.g := g;
      this.disk, this.groups, this.sb := disk, groups, sb;
      this.groupsOnDisk, this.sbOnDisk := groups, sb;
      this.open := map[];
      this.tree := tree;
    }

    ghost function Current(): Image
      reads this
    {
      Image(disk, groups, sb)
    }

    ghost predicate Valid()
      reads this
    {
      ImageOk(g, Current()) && groupsOnDisk == groups && sbOnDisk == sb
    }

    ghost function Vol(): Volume
      requires Valid()
      reads this
    {
      Meaning(g, disk)
    }
  }

  method WriteGroupDescriptors(fs: FsInstance)
    modifies fs`groupsOnDisk
    ensures fs.groupsOnDisk == fs.groups
  {
    fs.groupsOnDisk := fs.groups;
  }

  method WriteSuperblock(fs: FsInstance)
    modifies fs`sbOnDisk
    ensures fs.sbOnDisk == fs.sb
  {
    fs.sbOnDisk := fs.sb;
  }

  /** First clear bit among the first n, if any. */
  method FindClear(bitmap: seq<byte>, n: nat) returns (i: nat)
    requires n <= 8 * |bitmap|
    ensures i <= n && (i < n ==> i / 8 < |bitmap| && !Test(bitmap, i))
    ensures forall j: nat :: j < i ==> j / 8 < |bitmap| && Test(bitmap, j)
  {
    i := 0;
    while i < n && Test(bitmap, i)
      invariant i <= n
      invariant forall j: nat :: j < i ==> j / 8 < |bitmap| && Test(bitmap, j)
    {
      i := i + 1;
    }
  }

  method AllocBlockInGroup(fs: FsInstance, group: nat) returns (r: nat)
    requires fs.Valid()
    modifies fs
    ensures fs.Valid() && fs.open == old(fs.open) && fs.tree == old(fs.tree)
    ensures r == 0 ==> fs.Vol() == old(fs.Vol())
    ensures r == 0 ==>
      forall b: nat :: fs.g.firstData <= b < fs.g.blocksCount && fs.g.GroupOf(b) == group ==> b in fs.Vol().used
    ensures r != 0 ==> r !in old(fs.Vol().used) && r in old(fs.Vol().data)
    ensures r != 0 ==> fs.g.firstData <= r < fs.g.blocksCount && fs.g.GroupOf(r) == group
    ensures r != 0 ==> FirstOfGroup(fs.g, old(fs.Vol()), r)
    ensures r != 0 ==> fs.Vol() == old(fs.Vol()).(used := old(fs.Vol().used) + {r})
  {
    hide Test; hide MetaUsed; hide Data; hide Inodes; hide UsedInodes; hide Used; hide CountClear; hide Set;
    hide FirstOfGroup; hide Geometry.BlockNo; hide Geometry.IsMeta; hide Geometry.CountsOk; hide Geometry.GroupOf;
    hide Geometry.IndexOf;
    if group >= fs.g.Groups() { return 0; }
    assert GroupCountsOk(fs.g, fs.disk, fs.groups[group], group);
    if fs.groups[group].blocks == 0 {
      GroupFull(fs.g, fs.Current(), group);
      return 0;
    }
    var at := fs.g.blockBitmap[group];
    var bitmap := fs.disk[at];
    var i := FindClear(bitmap, fs.g.BlocksIn(group));
    if i == fs.g.BlocksIn(group) {
      GroupScanned(fs.g, fs.disk, group);
      return 0;
    }
    ghost var m := fs.Current();
    r := fs.g.BlockNo(group, i);
    GroupScannedTo(fs.g, m.disk, group, i);
    MarkBlockMeaning(fs.g, m, group, i);
    fs.disk := fs.disk[at := Set(bitmap, i)];
    fs.groups := fs.groups[group := fs.groups[group].(blocks := fs.groups[group].blocks - 1)];
    fs.sb := fs.sb.(blocks := fs.sb.blocks - 1);
    assert fs.Current() == MarkBlock(fs.g, m, group, i);
    WriteGroupDescriptors(fs);
    WriteSuperblock(fs);
    FreeIsData(fs.g, m, r);
  }

  /** The blocks of r's group before r are used. */
  ghost predicate FirstOfGroup(g: Geometry, v: Volume, r: nat)
    requires g.SizesOk() && g.firstData <= r < g.blocksCount
  {
    forall b: nat :: g.firstData <= b < g.blocksCount && g.GroupOf(b) == g.GroupOf(r) && g.IndexOf(b) < g.IndexOf(r) ==>
      b in v.used
  }

  lemma GroupScannedTo(g: Geometry, disk: Disk, i: nat, n: nat)
    requires DiskOk(g, disk) && i < g.Groups() && n < g.BlocksIn(i)
    requires forall k: nat :: k < n ==> k / 8 < g.bs && Test(disk[g.blockBitmap[i]], k)
    ensures FirstOfGroup(g, Meaning(g, disk), g.BlockNo(i, n))
  {
    hide Test; hide Geometry.BlocksIn; hide UsedInodes; hide Inodes; hide Data; hide Geometry.GroupOf;
    hide Geometry.IndexOf; hide Geometry.CountsOk;
  }

  /** In order of their numbers, blocks are in order of their groups and within a group of their bits. */
  lemma FirstOfAll(g: Geometry, v: Volume, r: nat)
    requires g.SizesOk() && g.firstData <= r < g.blocksCount
    requires GroupsFull(g, v, g.GroupOf(r)) && FirstOfGroup(g, v, r)
    ensures forall b: nat :: g.firstData <= b < r ==> b in v.used
  {
    hide Geometry.CountsOk;
    forall b: nat | g.firstData <= b < r ensures b in v.used {
      DivModOrder(b - g.firstData, r - g.firstData, g.bpg);
      assert g.GroupOf(b) < g.GroupOf(r) || (g.GroupOf(b) == g.GroupOf(r) && g.IndexOf(b) < g.IndexOf(r));
    }
  }

  lemma GroupFull(g: Geometry, m: Image, i: nat)
    requires ImageOk(g, m) && i < g.Groups() && m.groups[i].blocks == 0
    ensures forall b: nat :: g.firstData <= b < g.blocksCount && g.GroupOf(b) == i ==> b in Used(g, m.disk)
  {
    hide Test; hide CountClear;
    assert GroupCountsOk(g, m.disk, m.groups[i], i);
    CountZero(m.disk[g.blockBitmap[i]], g.BlocksIn(i));
    GroupScanned(g, m.disk, i);
  }

  lemma GroupScanned(g: Geometry, disk: Disk, i: nat)
    requires DiskOk(g, disk) && i < g.Groups()
    requires forall k: nat :: k < g.BlocksIn(i) ==> k / 8 < g.bs && Test(disk[g.blockBitmap[i]], k)
    ensures forall b: nat :: g.firstData <= b < g.blocksCount && g.GroupOf(b) == i ==> b in Used(g, disk)
  {
    hide Test; hide Geometry.BlocksIn;
    forall b: nat | g.firstData <= b < g.blocksCount && g.GroupOf(b) == i ensures b in Used(g, disk) {
      g.BlockPlace(b);
    }
  }

  /** A free block is never 0 and never metadata. */
  lemma FreeIsData(g: Geometry, m: Image, b: nat)
    requires ImageOk(g, m) && g.firstData <= b < g.blocksCount && b !in Used(g, m.disk)
    ensures b != 0 && !g.IsMeta(b) && b in Data(g, m.disk)
  {
    hide Bit; hide CountsOk; hide Geometry.IsMeta; hide Geometry.PlacementOk; hide Geometry.CountsOk;
    ZeroIsMeta(g);
  }

  lemma ZeroIsMeta(g: Geometry)
    requires g.SizesOk()
    ensures g.IsMeta(0)
  {
    hide Geometry.CountsOk; hide Geometry.MetaEnd;
    MetaEndAbove(g);
  }

  ghost predicate Full(g: Geometry, v: Volume) {
    forall b: nat :: g.firstData <= b < g.blocksCount ==> b in v.used
  }

  ghost predicate NoFreeInode(g: Geometry, v: Volume) {
    forall n: nat :: 1 <= n <= g.Inodes() ==> n in v.iused
  }

  /** Takes the first free block; fails exactly when there is none. Every call uses group hint 0. */
  method AllocBlock(fs: FsInstance) returns (r: nat)
    requires fs.Valid()
    modifies fs
    ensures fs.Valid() && fs.open == old(fs.open) && fs.tree == old(fs.tree)
    ensures r == 0 ==> fs.Vol() == old(fs.Vol())
    ensures r == 0 <==> Full(fs.g, old(fs.Vol()))
    ensures r != 0 ==> r !in old(fs.Vol().used) && r in old(fs.Vol().data)
    ensures r != 0 ==> forall b: nat :: fs.g.firstData <= b < r ==> b in old(fs.Vol().used)
    ensures r != 0 ==> fs.Vol() == old(fs.Vol()).(used := old(fs.Vol().used) + {r})
  {
    hide CountsOk; hide FirstOfGroup; hide MetaUsed; hide Used; hide UsedInodes; hide Inodes; hide Data;
    var i := 0;
    while i < fs.g.Groups()
      invariant i <= fs.g.Groups()
      invariant fs.Valid() && fs.open == old(fs.open) && fs.tree == old(fs.tree) && fs.Vol() == old(fs.Vol())
      invariant GroupsFull(fs.g, fs.Vol(), i)
    {
      r := AllocBlockInGroup(fs, i);
      if r != 0 {
        FirstOfAll(fs.g, old(fs.Vol()), r);
        DataInRange(fs.g, old(fs.disk), r);
        return;
      }
      i := i + 1;
    }
    AllFull(fs.g, fs.Vol());
    r := 0;
  }

  /** Every block of the first i groups is used. */
  ghost predicate GroupsFull(g: Geometry, v: Volume, i: nat)
    requires g.SizesOk()
  {
    forall b: nat :: g.firstData <= b < g.blocksCount && g.GroupOf(b) < i ==> b in v.used
  }

  lemma AllFull(g: Geometry, v: Volume)
    requires g.SizesOk() && GroupsFull(g, v, g.Groups())
    ensures Full(g, v)
  {
  }

  lemma DataInRange(g: Geometry, disk: Disk, b: nat)
    requires DiskOk(g, disk) && b in Data(g, disk)
    ensures g.firstData < b < g.blocksCount
  {
    hide Geometry.CountsOk; hide Geometry.PlacementOk; hide Geometry.MetaEnd;
    MetaEndAbove(g);
  }

  lemma MetaEndAbove(g: Geometry)
    requires g.RangesOk()
    ensures g.firstData < g.MetaEnd()
  {
  }

  /** The group freeBlock computes for b is one of the volume's. */
  ghost predicate Grouped(g: Geometry, b: nat) {
    0 < g.bpg && g.firstData <= b && FreeGroup(g, b) < g.Groups()
  }

  lemma FreeSizes(g: Geometry, m: Image)
    requires ImageOk(g, m)
    ensures 0 < g.bpg && g.firstData <= 1 && |m.groups| == g.Groups() && |m.disk| == g.blocksCount
    ensures forall i :: 0 <= i < g.Groups() ==> g.blockBitmap[i] < |m.disk| && |m.disk[g.blockBitmap[i]]| == g.bs
  {
    hide MetaUsed; hide GroupCountsOk; hide Geometry.CountsOk;
  }

  lemma FreePlace(g: Geometry, m: Image, b: nat)
    requires ImageOk(g, m) && Grouped(g, b)
    ensures FreedAt(g, b, FreeGroup(g, b), FreeIndex(g, b)) && FreeIndex(g, b) / 8 < g.bs
  {
    hide MetaUsed; hide CountsOk; hide Geometry.CountsOk; hide Geometry.PlacementOk;
    DivMod(b - g.firstData, g.bpg);
  }

  lemma DataGrouped(g: Geometry, m: Image, b: nat)
    requires ImageOk(g, m) && b in Meaning(g, m.disk).used && b in Meaning(g, m.disk).data
    ensures b != 0 && Grouped(g, b)
  {
    hide Bit; hide MetaUsed; hide CountsOk; hide UsedInodes; hide Inodes; hide Geometry.IsMeta;
    hide Geometry.CountsOk; hide Geometry.PlacementOk;
    ZeroIsMeta(g);
    g.GroupInRange(b);
  }

  /** freeBlock does not look at the bit it clears: the books stay right exactly when b is a used data block. */
  method FreeBlock(fs: FsInstance, b: nat) returns (ok: bool)
    requires fs.Valid()
    modifies fs
    ensures fs.open == old(fs.open) && fs.tree == old(fs.tree)
    ensures ok <==> b != 0 && Grouped(fs.g, b)
    ensures !ok ==> fs.Valid() && fs.Vol() == old(fs.Vol())
    ensures ok ==> (fs.Valid() <==> b in old(fs.Vol().used) && b in old(fs.Vol().data))
    ensures b in old(fs.Vol().used) && b in old(fs.Vol().data) ==>
      ok && fs.Valid() && fs.Vol() == old(fs.Vol()).(used := old(fs.Vol().used) - {b})
  {
    hide ImageOk; hide Meaning; hide Clear; hide FreeGroup; hide FreeIndex; hide FreedAt;
    ghost var m := fs.Current();
    if b in fs.Vol().used && b in fs.Vol().data { DataGrouped(fs.g, m, b); }
    FreeSizes(fs.g, m);
    if b == 0 { return false; }
    var group, index := FreeGroup(fs.g, b), FreeIndex(fs.g, b);
    if group >= fs.g.Groups() { return false; }
    FreePlace(fs.g, m, b);
    var at := fs.g.blockBitmap[group];
    FreeBlockExact(fs.g, m, b, group, index);
    fs.disk := fs.disk[at := Clear(fs.disk[at], index)];
    fs.groups := fs.groups[group := fs.groups[group].(blocks := fs.groups[group].blocks + 1)];
    fs.sb := fs.sb.(blocks := fs.sb.blocks + 1);
    assert fs.Current() == UnmarkBlock(fs.g, m, group, index);
    WriteGroupDescriptors(fs);
    WriteSuperblock(fs);
    ok := true;
  }

  method AllocInodeInGroup(fs: FsInstance, group: nat) returns (r: nat)
    requires fs.Valid()
    modifies fs
    ensures fs.Valid() && fs.open == old(fs.open) && fs.tree == old(fs.tree)
    ensures r == 0 ==> fs.Vol() == old(fs.Vol())
    ensures r == 0 ==> forall n: nat :: 1 <= n <= fs.g.Inodes() && fs.g.InodeGroup(n) == group ==> n in fs.Vol().iused
    ensures r != 0 ==> 1 <= r <= fs.g.Inodes() && r !in old(fs.Vol().iused) && fs.g.InodeGroup(r) == group
    ensures r != 0 ==> FirstInGroup(fs.g, old(fs.Vol()), r)
    ensures r != 0 ==> fs.Vol() == old(fs.Vol()).(iused := old(fs.Vol().iused) + {r})
  {
    hide Test; hide FirstInGroup; hide MetaUsed; hide Data; hide Inodes; hide Used;
    if group >= fs.g.Groups() { return 0; }
    assert GroupCountsOk(fs.g, fs.disk, fs.groups[group], group);
    if fs.groups[group].inodes == 0 {
      CountZero(fs.disk[fs.g.inodeBitmap[group]], fs.g.ipg);
      InodesScanned(fs.g, fs.disk, group);
      return 0;
    }
    var at := fs.g.inodeBitmap[group];
    var bitmap := fs.disk[at];
    var i := FindClear(bitmap, fs.g.ipg);
    if i == fs.g.ipg {
      InodesScanned(fs.g, fs.disk, group);
      return 0;
    }
    ghost var m := fs.Current();
    MarkInodeMeaning(fs.g, m, group, i);
    fs.disk := fs.disk[at := Set(bitmap, i)];
    fs.groups := fs.groups[group := fs.groups[group].(inodes := fs.groups[group].inodes - 1)];
    fs.sb := fs.sb.(inodes := fs.sb.inodes - 1);
    assert fs.Current() == MarkInode(fs.g, m, group, i);
    WriteGroupDescriptors(fs);
    WriteSuperblock(fs);
    r := fs.g.InodeNo(group, i);
    InodesScannedTo(fs.g, m.disk, group, i);
  }

  /** The inodes of r's group before r are used. */
  ghost predicate FirstInGroup(g: Geometry, v: Volume, r: nat)
    requires g.SizesOk() && 1 <= r <= g.Inodes()
  {
    forall n: nat :: 1 <= n <= g.Inodes() && g.InodeGroup(n) == g.InodeGroup(r) && g.InodeIndex(n) < g.InodeIndex(r) ==>
      n in v.iused
  }

  lemma InodesScannedTo(g: Geometry, disk: Disk, i: nat, k0: nat)
    requires DiskOk(g, disk) && i < g.Groups() && k0 < g.ipg
    requires forall k: nat :: k < k0 ==> k / 8 < g.bs && Test(disk[g.inodeBitmap[i]], k)
    ensures FirstInGroup(g, Meaning(g, disk), g.InodeNo(i, k0))
  {
    hide Test; hide Used; hide Inodes; hide Data; hide Geometry.InodeGroup; hide Geometry.InodeIndex;
    hide Geometry.CountsOk; hide Geometry.Inodes;
  }

  lemma FirstInAll(g: Geometry, v: Volume, r: nat)
    requires g.SizesOk() && 1 <= r <= g.Inodes() && FirstInGroup(g, v, r)
    requires forall n: nat :: 1 <= n <= g.Inodes() && g.InodeGroup(n) < g.InodeGroup(r) ==> n in v.iused
    ensures forall n: nat :: 1 <= n < r ==> n in v.iused
  {
    hide Geometry.CountsOk; hide Geometry.Inodes;
    forall n: nat | 1 <= n < r ensures n in v.iused {
      DivModOrder(n - 1, r - 1, g.ipg);
      assert g.InodeGroup(n) < g.InodeGroup(r) || g.InodeIndex(n) < g.InodeIndex(r);
    }
  }

  lemma InodesScanned(g: Geometry, disk: Disk, i: nat)
    requires DiskOk(g, disk) && i < g.Groups()
    requires forall k: nat :: k < g.ipg ==> k / 8 < g.bs && Test(disk[g.inodeBitmap[i]], k)
    ensures forall n: nat :: 1 <= n <= g.Inodes() && g.InodeGroup(n) == i ==> n in UsedInodes(g, disk)
  {
    hide Test; hide Geometry.Inodes;
    forall n: nat | 1 <= n <= g.Inodes() && g.InodeGroup(n) == i ensures n in UsedInodes(g, disk) {
      assert InodeBit(g, disk, n);
    }
  }

  /** Takes the first free inode; fails exactly when there is none. */
  method AllocInode(fs: FsInstance) returns (r: nat)
    requires fs.Valid()
    modifies fs
    ensures fs.Valid() && fs.open == old(fs.open) && fs.tree == old(fs.tree)
    ensures r == 0 ==> fs.Vol() == old(fs.Vol())
    ensures r == 0 <==> NoFreeInode(fs.g, old(fs.Vol()))
    ensures r != 0 ==> 1 <= r <= fs.g.Inodes() && r !in old(fs.Vol().iused)
    ensures r != 0 ==> forall n: nat :: 1 <= n < r ==> n in old(fs.Vol().iused)
    ensures r != 0 ==> fs.Vol() == old(fs.Vol()).(iused := old(fs.Vol().iused) + {r})
  {
    hide CountsOk; hide FirstInGroup; hide MetaUsed; hide Used; hide UsedInodes; hide Inodes; hide Data;
    hide Geometry.Inodes;
    var i := 0;
    while i < fs.g.Groups()
      invariant i <= fs.g.Groups()
      invariant fs.Valid() && fs.open == old(fs.open) && fs.tree == old(fs.tree) && fs.Vol() == old(fs.Vol())
      invariant forall n: nat :: 1 <= n <= fs.g.Inodes() && fs.g.InodeGroup(n) < i ==> n in fs.Vol().iused
    {
      r := AllocInodeInGroup(fs, i);
      if r != 0 {
        FirstInAll(fs.g, old(fs.Vol()), r);
        return;
      }
      i := i + 1;
    }
    r := 0;
  }

  lemma FreeInodeRange(g: Geometry, m: Image, n: nat)
    requires ImageOk(g, m)
    ensures 0 < g.ipg && |m.groups| == g.Groups() == |g.inodeBitmap| && g.SizesOk()
    ensures 1 <= n <= g.Inodes() <==> n != 0 && (n - 1) / g.ipg < g.Groups()
    ensures 1 <= n <= g.Inodes() ==>
      var i, k := (n - 1) / g.ipg, (n - 1) % g.ipg;
      && g.InodeGroup(n) == i && g.InodeIndex(n) == k && k / 8 < g.bs && g.inodeBitmap[i] < |m.disk|
      && |m.disk[g.inodeBitmap[i]]| == g.bs
    ensures n in Meaning(g, m.disk).iused ==> 1 <= n <= g.Inodes()
  {
    hide InodeBit; hide MetaUsed; hide GroupCountsOk; hide Used; hide Data; hide Inodes; hide Geometry.IsMeta;
    hide Geometry.CountsOk;
    g.InodeRange(n);
  }

  /** freeInode does not look at the bit it clears: the books stay right exactly when n was in use. */
  method FreeInode(fs: FsInstance, n: nat) returns (ok: bool)
    requires fs.Valid()
    modifies fs
    ensures fs.open == old(fs.open) && fs.tree == old(fs.tree)
    ensures ok <==> 1 <= n <= fs.g.Inodes()
    ensures !ok ==> fs.Valid() && fs.Vol() == old(fs.Vol())
    ensures ok ==> (fs.Valid() <==> n in old(fs.Vol().iused))
    ensures n in old(fs.Vol().iused) ==>
      ok && fs.Valid() && fs.Vol() == old(fs.Vol()).(iused := old(fs.Vol().iused) - {n})
  {
    hide ImageOk; hide Meaning; hide Clear; hide Geometry.SizesOk;
    FreeInodeRange(fs.g, fs.Current(), n);
    if n == 0 || (n - 1) / fs.g.ipg >= fs.g.Groups() { return false; }
    var group, index := (n - 1) / fs.g.ipg, (n - 1) % fs.g.ipg;
    ghost var m := fs.Current();
    var at := fs.g.inodeBitmap[group];
    FreeInodeExact(fs.g, m, n);
    fs.disk := fs.disk[at := Clear(fs.disk[at], index)];
    fs.groups := fs.groups[group := fs.groups[group].(inodes := fs.groups[group].inodes + 1)];
    fs.sb := fs.sb.(inodes := fs.sb.inodes + 1);
    assert fs.Current() == UnmarkInode(fs.g, m, group, index);
    WriteGroupDescriptors(fs);
    WriteSuperblock(fs);
    ok := true;
  }

  method ReadInode(fs: FsInstance, n: nat) returns (ok: bool, i: Inode)
    requires fs.Valid()
    ensures ok <==> n in fs.Vol().inodes
    ensures ok ==> i == fs.Vol().inodes[n]
  {
    i := ZeroInode;
    if n == 0 || (n - 1) / fs.g.ipg >= fs.g.Groups() {
      fs.g.InodeRange(n);
      return false, i;
    }
    fs.g.InodeRange(n);
    fs.g.InodeInTable(n);
    i := RecordIn(fs.disk[fs.g.InodeBlock(n)], fs.g.InodeOffset(n));
    ok := true;
  }

  method WriteInode(fs: FsInstance, n: nat, i: Inode) returns (ok: bool)
    requires fs.Valid()
    modifies fs
    ensures fs.Valid() && fs.open == old(fs.open) && fs.tree == old(fs.tree)
    ensures ok <==> n in old(fs.Vol().inodes)
    ensures fs.Vol() == if ok then old(fs.Vol()).(inodes := old(fs.Vol().inodes)[n := i]) else old(fs.Vol())
  {
    if n == 0 || (n - 1) / fs.g.ipg >= fs.g.Groups() {
      fs.g.InodeRange(n);
      return false;
    }
    fs.g.InodeRange(n);
    WriteInodeBlock(fs.g, fs.Current(), n, i);
    var at := fs.g.InodeBlock(n);
    fs.disk := fs.disk[at := Splice(fs.disk[at], fs.g.InodeOffset(n), EncodeInode(i))];
    ok := true;
  }

  /** readBlock of a block outside the metadata. */
  method ReadBlock(fs: FsInstance, b: nat) returns (block: seq<byte>)
    requires fs.Valid() && b in fs.Vol().data
    ensures block == fs.Vol().data[b]
  {
    block := fs.disk[b];
  }

  method WriteBlock(fs: FsInstance, b: nat, block: seq<byte>)
    requires fs.Valid() && b in fs.Vol().data && |block| == fs.g.bs
    modifies fs
    ensures fs.Valid() && fs.open == old(fs.open) && fs.tree == old(fs.tree)
    ensures fs.Vol() == old(fs.Vol()).(data := old(fs.Vol().data)[b := block])
  {
    WriteDataBlock(fs.g, fs.Current(), b, block);
    fs.disk := fs.disk[b := block];
  }
}
