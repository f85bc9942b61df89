/** What the bytes of a volume mean: bitmaps as sets of block and inode numbers, inode
    tables as an array of inodes, every other block as data. */
module Ext2Volume {
  import opened Bytes
  import opened Bits
  import opened Arithmetic
  import opened Ext2Layout

  type Disk = seq<seq<byte>>

  /** Free counters of a group, or of the superblock. */
  datatype Counts = Counts(blocks: nat, inodes: nat)

  /** The bytes of the device and the in-memory counters of FsInstance. */
  datatype Image = Image(disk: Disk, groups: seq<Counts>, sb: Counts)

  /** The meaning of an image. */
  datatype Volume = Volume(used: set<nat>, iused: set<nat>, inodes: map<nat, Inode>, data: map<nat, seq<byte>>)

  ghost predicate DiskOk(g: Geometry, disk: Disk) {
    && g.WellFormed()
    && |disk| == g.blocksCount
    && forall b :: 0 <= b < |disk| ==> |disk[b]| == g.bs
  }

  ghost predicate Bit(g: Geometry, disk: Disk, b: nat)
    requires DiskOk(g, disk) && g.firstData <= b < g.blocksCount
  {
    Test(disk[g.blockBitmap[g.GroupOf(b)]], g.IndexOf(b))
  }

  ghost predicate InodeBit(g: Geometry, disk: Disk, n: nat)
    requires DiskOk(g, disk) && 1 <= n <= g.Inodes()
  {
    Test(disk[g.inodeBitmap[g.InodeGroup(n)]], g.InodeIndex(n))
  }

  /** readInode's memcpy out of the table block. */
  function RecordIn(block: seq<byte>, o: nat): (i: Inode)
    requires o + INODE_BYTES <= |block|
  {
    DecodeInode(block[o..o + INODE_BYTES])
  }

  ghost function InodeAt(g: Geometry, disk: Disk, n: nat): (i: Inode)
    requires DiskOk(g, disk) && 1 <= n <= g.Inodes()
  {
    g.InodeInTable(n);
    RecordIn(disk[g.InodeBlock(n)], g.InodeOffset(n))
  }

  ghost function Used(g: Geometry, disk: Disk): set<nat>
    requires DiskOk(g, disk)
  {
    set b | g.firstData <= b < g.blocksCount && Bit(g, disk, b)
  }

  ghost function UsedInodes(g: Geometry, disk: Disk): set<nat>
    requires DiskOk(g, disk)
  {
    set n | 1 <= n <= g.Inodes() && InodeBit(g, disk, n)
  }

  ghost function Inodes(g: Geometry, disk: Disk): map<nat, Inode>
    requires DiskOk(g, disk)
  {
    map n | 1 <= n <= g.Inodes() :: InodeAt(g, disk, n)
  }

  ghost function Data(g: Geometry, disk: Disk): map<nat, seq<byte>>
    requires DiskOk(g, disk)
  {
    map b | 0 <= b < g.blocksCount && !g.IsMeta(b) :: disk[b]
  }

  ghost function Meaning(g: Geometry, disk: Disk): Volume
    requires DiskOk(g, disk)
  {
    Volume(Used(g, disk), UsedInodes(g, disk), Inodes(g, disk), Data(g, disk))
  }

  function SumBlocks(cs: seq<Counts>): nat {
    if cs == [] then 0 else cs[0].blocks + SumBlocks(cs[1..])
  }

  function SumInodes(cs: seq<Counts>): nat {
    if cs == [] then 0 else cs[0].inodes + SumInodes(cs[1..])
  }

  /** Group i's counters are the clear bits of its bitmaps. */
  ghost predicate GroupCountsOk(g: Geometry, disk: Disk, c: Counts, i: nat)
    requires DiskOk(g, disk) && i < g.Groups()
  {
    && c.blocks == CountClear(disk[g.blockBitmap[i]], g.BlocksIn(i))
    && c.inodes == CountClear(disk[g.inodeBitmap[i]], g.ipg)
  }

  ghost predicate CountsOk(g: Geometry, m: Image)
    requires DiskOk(g, m.disk)
  {
    && |m.groups| == g.Groups()
    && (forall i :: 0 <= i < g.Groups() ==> GroupCountsOk(g, m.disk, m.groups[i], i))
    && m.sb.blocks == SumBlocks(m.groups)
    && m.sb.inodes == SumInodes(m.groups)
  }

  /** Blocks that hold metadata are never on offer. */
  ghost predicate MetaUsed(g: Geometry, disk: Disk)
    requires DiskOk(g, disk)
  {
    forall b: nat :: g.firstData <= b < g.blocksCount && g.IsMeta(b) ==> Bit(g, disk, b)
  }

  ghost predicate ImageOk(g: Geometry, m: Image) {
    DiskOk(g, m.disk) && CountsOk(g, m) && MetaUsed(g, m.disk)
  }

  // ---------- one block write at a time ----------

  lemma WriteKeepsDiskOk(g: Geometry, disk: Disk, k: nat, block: seq<byte>)
    requires DiskOk(g, disk) && k < |disk| && |block| == g.bs
    ensures DiskOk(g, disk[k := block])
  {
  }

  lemma KeepUsed(g: Geometry, disk: Disk, k: nat, block: seq<byte>)
    requires DiskOk(g, disk) && k < |disk| && |block| == g.bs
    requires forall i :: 0 <= i < g.Groups() ==> g.blockBitmap[i] != k
    ensures Used(g, disk[k := block]) == Used(g, disk)
  {
    hide Test;
    forall b: nat | g.firstData <= b < g.blocksCount
      ensures Bit(g, disk[k := block], b) == Bit(g, disk, b)
    {
      assert g.blockBitmap[g.GroupOf(b)] != k;
    }
  }

  lemma KeepUsedInodes(g: Geometry, disk: Disk, k: nat, block: seq<byte>)
    requires DiskOk(g, disk) && k < |disk| && |block| == g.bs
    requires forall i :: 0 <= i < g.Groups() ==> g.inodeBitmap[i] != k
    ensures UsedInodes(g, disk[k := block]) == UsedInodes(g, disk)
  {
    hide Test;
    forall n: nat | 1 <= n <= g.Inodes()
      ensures InodeBit(g, disk[k := block], n) == InodeBit(g, disk, n)
    {
      assert g.inodeBitmap[g.InodeGroup(n)] != k;
    }
  }

  lemma KeepInodes(g: Geometry, disk: Disk, k: nat, block: seq<byte>)
    requires DiskOk(g, disk) && k < |disk| && |block| == g.bs
    requires forall i :: 0 <= i < g.Groups() ==> !g.InTable(i, k)
    ensures Inodes(g, disk[k := block]) == Inodes(g, disk)
  {
    hide RecordIn;
    forall n: nat | 1 <= n <= g.Inodes()
      ensures InodeAt(g, disk[k := block], n) == InodeAt(g, disk, n)
    {
      g.InodeInTable(n);
      assert g.InodeBlock(n) != k;
    }
  }

  lemma KeepData(g: Geometry, disk: Disk, k: nat, block: seq<byte>)
    requires DiskOk(g, disk) && k < |disk| && |block| == g.bs
    requires g.IsMeta(k)
    ensures Data(g, disk[k := block]) == Data(g, disk)
  {
  }

  lemma KeepCounts(g: Geometry, m: Image, k: nat, block: seq<byte>)
    requires ImageOk(g, m) && k < |m.disk| && |block| == g.bs
    requires forall i :: 0 <= i < g.Groups() ==> g.blockBitmap[i] != k && g.inodeBitmap[i] != k
    ensures CountsOk(g, m.(disk := m.disk[k := block]))
  {
    hide CountClear;
    var disk' := m.disk[k := block];
    forall i | 0 <= i < g.Groups() ensures GroupCountsOk(g, disk', m.groups[i], i) {
      assert GroupCountsOk(g, m.disk, m.groups[i], i);
      assert disk'[g.blockBitmap[i]] == m.disk[g.blockBitmap[i]];
      assert disk'[g.inodeBitmap[i]] == m.disk[g.inodeBitmap[i]];
    }
  }

  /** MetaUsed speaks of the used set alone. */
  lemma KeepMetaUsed(g: Geometry, disk: Disk, disk': Disk)
    requires DiskOk(g, disk) && DiskOk(g, disk') && MetaUsed(g, disk)
    requires Used(g, disk) <= Used(g, disk')
    ensures MetaUsed(g, disk')
  {
    hide Bit; hide Geometry.IsMeta;
    forall b: nat | g.firstData <= b < g.blocksCount && g.IsMeta(b) ensures Bit(g, disk', b) {
      assert b in Used(g, disk);
      assert b in Used(g, disk');
    }
  }

  lemma MetaStaysUsed(g: Geometry, disk: Disk, disk': Disk, x: nat)
    requires DiskOk(g, disk) && DiskOk(g, disk') && MetaUsed(g, disk)
    requires !g.IsMeta(x) && Used(g, disk') == Used(g, disk) - {x}
    ensures MetaUsed(g, disk')
  {
    hide Bit; hide Geometry.IsMeta;
    forall b: nat | g.firstData <= b < g.blocksCount && g.IsMeta(b) ensures Bit(g, disk', b) {
      assert b in Used(g, disk);
      assert b in Used(g, disk');
    }
  }

  /** writeBlock to a block outside the metadata changes that block's contents and nothing else. */
  lemma WriteDataBlock(g: Geometry, m: Image, k: nat, block: seq<byte>)
    requires ImageOk(g, m) && k < g.blocksCount && !g.IsMeta(k) && |block| == g.bs
    ensures var m' := m.(disk := m.disk[k := block]);
      && ImageOk(g, m')
      && Meaning(g, m'.disk) == Meaning(g, m.disk).(data := Meaning(g, m.disk).data[k := block])
  {
    hide Bit; hide InodeBit; hide InodeAt; hide GroupCountsOk;
    forall i | 0 <= i < g.Groups()
      ensures g.blockBitmap[i] != k && g.inodeBitmap[i] != k && !g.InTable(i, k) {}
    WriteKeepsDiskOk(g, m.disk, k, block);
    KeepUsed(g, m.disk, k, block);
    KeepUsedInodes(g, m.disk, k, block);
    KeepInodes(g, m.disk, k, block);
    KeepCounts(g, m, k, block);
    KeepMetaUsed(g, m.disk, m.disk[k := block]);
    assert Data(g, m.disk[k := block]) == Data(g, m.disk)[k := block];
  }

  /** Storing record n in its table block is seen at n and at no other inode. */
  lemma StoreRecord(g: Geometry, disk: Disk, n: nat, i: Inode)
    requires DiskOk(g, disk) && 1 <= n <= g.Inodes()
    requires g.InodeOffset(n) + INODE_BYTES <= g.bs && g.InodeBlock(n) < |disk|
    ensures var k := g.InodeBlock(n);
      var disk' := disk[k := Splice(disk[k], g.InodeOffset(n), EncodeInode(i))];
      DiskOk(g, disk') && Inodes(g, disk') == Inodes(g, disk)[n := i]
  {
    hide DecodeInode; hide EncodeInode; hide Splice; hide Geometry.InodeBlock; hide Geometry.InodeOffset;
    var k, o := g.InodeBlock(n), g.InodeOffset(n);
    var block' := Splice(disk[k], o, EncodeInode(i));
    var disk' := disk[k := block'];
    WriteKeepsDiskOk(g, disk, k, block');
    forall m: nat | 1 <= m <= g.Inodes()
      ensures InodeAt(g, disk', m) == if m == n then i else InodeAt(g, disk, m)
    {
      if m == n {
        assert block'[o..o + INODE_BYTES] == EncodeInode(i);
        InodeRoundTrip(i);
      } else {
        OtherRecord(g, disk, n, i, m);
      }
    }
  }

  lemma OtherRecord(g: Geometry, disk: Disk, n: nat, i: Inode, m: nat)
    requires DiskOk(g, disk) && 1 <= n <= g.Inodes() && 1 <= m <= g.Inodes() && m != n
    requires g.InodeOffset(n) + INODE_BYTES <= g.bs && g.InodeBlock(n) < |disk|
    requires DiskOk(g, disk[g.InodeBlock(n) := Splice(disk[g.InodeBlock(n)], g.InodeOffset(n), EncodeInode(i))])
    ensures var k := g.InodeBlock(n);
      var disk' := disk[k := Splice(disk[k], g.InodeOffset(n), EncodeInode(i))];
      InodeAt(g, disk', m) == InodeAt(g, disk, m)
  {
    hide DecodeInode; hide EncodeInode; hide Splice; hide Geometry.InodeBlock; hide Geometry.InodeOffset;
    var k, o := g.InodeBlock(n), g.InodeOffset(n);
    var p := g.InodeOffset(m);
    g.InodeInTable(m);
    if g.InodeBlock(m) == k {
      g.InodesApart(n, m);
      assert Splice(disk[k], o, EncodeInode(i))[p..p + INODE_BYTES] == disk[k][p..p + INODE_BYTES];
    }
  }

  /** writeInode updates the inode array at n and changes nothing else. */
  lemma WriteInodeBlock(g: Geometry, m: Image, n: nat, i: Inode)
    requires ImageOk(g, m) && 1 <= n <= g.Inodes()
    ensures g.InodeOffset(n) + INODE_BYTES <= g.bs && g.InodeBlock(n) < |m.disk|
    ensures var k := g.InodeBlock(n);
      var m' := m.(disk := m.disk[k := Splice(m.disk[k], g.InodeOffset(n), EncodeInode(i))]);
      && ImageOk(g, m')
      && Meaning(g, m'.disk) == Meaning(g, m.disk).(inodes := Meaning(g, m.disk).inodes[n := i])
  {
    hide Bit; hide InodeBit; hide InodeAt; hide GroupCountsOk; hide Splice; hide EncodeInode;
    hide Geometry.InodeBlock; hide Geometry.InodeOffset;
    g.InodeInTable(n);
    var k := g.InodeBlock(n);
    var j := g.InodeGroup(n);
    var block := Splice(m.disk[k], g.InodeOffset(n), EncodeInode(i));
    assert g.IsMeta(k);
    StoreRecord(g, m.disk, n, i);
    KeepUsed(g, m.disk, k, block);
    KeepUsedInodes(g, m.disk, k, block);
    KeepData(g, m.disk, k, block);
    KeepCounts(g, m, k, block);
    KeepMetaUsed(g, m.disk, m.disk[k := block]);
  }

  // ---------- one bit at a time ----------

  lemma {:induction false} SumUpdate(cs: seq<Counts>, i: nat, c: Counts)
    requires i < |cs|
    ensures SumBlocks(cs[i := c]) == SumBlocks(cs) - cs[i].blocks + c.blocks
    ensures SumInodes(cs[i := c]) == SumInodes(cs) - cs[i].inodes + c.inodes
  {
    if i > 0 {
      assert cs[i := c][1..] == cs[1..][i - 1 := c];
      SumUpdate(cs[1..], i - 1, c);
    } else {
      assert cs[i := c][1..] == cs[1..];
    }
  }

  /** Rewriting group i's block bitmap so that only bit k differs changes membership of one block. */
  lemma BlockBitChange(g: Geometry, disk: Disk, i: nat, k: nat, bm: seq<byte>)
    requires DiskOk(g, disk) && i < g.Groups() && k < g.BlocksIn(i) && |bm| == g.bs
    requires forall j: nat :: j / 8 < g.bs && j != k ==> Test(bm, j) == Test(disk[g.blockBitmap[i]], j)
    ensures k / 8 < g.bs
    ensures var disk' := disk[g.blockBitmap[i] := bm];
      DiskOk(g, disk') && Used(g, disk') - {g.BlockNo(i, k)} == Used(g, disk) - {g.BlockNo(i, k)}
      && (g.BlockNo(i, k) in Used(g, disk') <==> Test(bm, k))
      && (g.BlockNo(i, k) in Used(g, disk) <==> Test(disk[g.blockBitmap[i]], k))
  {
    hide Test; hide Geometry.GroupOf; hide Geometry.IndexOf; hide Geometry.BlocksIn;
    var disk' := disk[g.blockBitmap[i] := bm];
    WriteKeepsDiskOk(g, disk, g.blockBitmap[i], bm);
    var x := g.BlockNo(i, k);
    assert g.IndexOf(x) == k;
    forall b: nat | g.firstData <= b < g.blocksCount && b != x ensures Bit(g, disk', b) == Bit(g, disk, b) {
      g.BlockPlace(b);
      if g.GroupOf(b) == i {
        assert g.IndexOf(b) != k;
      }
    }
  }

  /** Rewriting group i's inode bitmap so that only bit k differs changes membership of one inode. */
  lemma InodeBitChange(g: Geometry, disk: Disk, i: nat, k: nat, bm: seq<byte>)
    requires DiskOk(g, disk) && i < g.Groups() && k < g.ipg && |bm| == g.bs
    requires forall j: nat :: j / 8 < g.bs && j != k ==> Test(bm, j) == Test(disk[g.inodeBitmap[i]], j)
    ensures k / 8 < g.bs
    ensures var disk' := disk[g.inodeBitmap[i] := bm];
      DiskOk(g, disk') && UsedInodes(g, disk') - {g.InodeNo(i, k)} == UsedInodes(g, disk) - {g.InodeNo(i, k)}
      && (g.InodeNo(i, k) in UsedInodes(g, disk') <==> Test(bm, k))
      && (g.InodeNo(i, k) in UsedInodes(g, disk) <==> Test(disk[g.inodeBitmap[i]], k))
  {
    hide Test; hide Geometry.InodeGroup; hide Geometry.InodeIndex; hide Geometry.Inodes;
    var disk' := disk[g.inodeBitmap[i] := bm];
    WriteKeepsDiskOk(g, disk, g.inodeBitmap[i], bm);
    var x := g.InodeNo(i, k);
    assert g.InodeIndex(x) == k;
    forall n: nat | 1 <= n <= g.Inodes() && n != x ensures InodeBit(g, disk', n) == InodeBit(g, disk, n) {
      g.InodePlace(n);
      if g.InodeGroup(n) == i {
        assert g.InodeIndex(n) != k;
      }
    }
  }

  lemma SetChange(s: set<nat>, t: set<nat>, x: nat)
    requires s - {x} == t - {x}
    ensures x in t && x !in s ==> t == s + {x}
    ensures x !in t && x in s ==> t == s - {x}
  {
    assert forall y :: y != x ==> (y in s - {x} <==> y in s) && (y in t - {x} <==> y in t);
  }

  lemma GroupsLength(g: Geometry, m: Image)
    requires ImageOk(g, m)
    ensures |m.groups| == g.Groups()
  {
  }

  /** The counters stay exact when group i's counters follow its bitmap blocks. */
  lemma CountsFollow(g: Geometry, m: Image, i: nat, k: nat, block: seq<byte>, c: Counts, sb: Counts)
    requires ImageOk(g, m) && i < g.Groups() && (k == g.blockBitmap[i] || k == g.inodeBitmap[i]) && |block| == g.bs
    requires DiskOk(g, m.disk[k := block])
    requires GroupCountsOk(g, m.disk[k := block], c, i)
    requires sb.blocks == m.sb.blocks - m.groups[i].blocks + c.blocks
    requires sb.inodes == m.sb.inodes - m.groups[i].inodes + c.inodes
    ensures CountsOk(g, Image(m.disk[k := block], m.groups[i := c], sb))
  {
    hide CountClear; hide Geometry.BlocksIn;
    var disk' := m.disk[k := block];
    var groups' := m.groups[i := c];
    forall j | 0 <= j < g.Groups() ensures GroupCountsOk(g, disk', groups'[j], j) {
      if j != i {
        assert GroupCountsOk(g, m.disk, m.groups[j], j);
        assert disk'[g.blockBitmap[j]] == m.disk[g.blockBitmap[j]];
        assert disk'[g.inodeBitmap[j]] == m.disk[g.inodeBitmap[j]];
      }
    }
    SumUpdate(m.groups, i, c);
  }

  /** The image after setting bit k of group i's block bitmap, counters included. */
  function MarkBlock(g: Geometry, m: Image, i: nat, k: nat): (m': Image)
    requires i < |g.blockBitmap| && g.blockBitmap[i] < |m.disk| && k / 8 < |m.disk[g.blockBitmap[i]]|
    requires i < |m.groups| && 0 < m.groups[i].blocks && 0 < m.sb.blocks
  {
    var b := g.blockBitmap[i];
    Image(m.disk[b := Set(m.disk[b], k)],
          m.groups[i := m.groups[i].(blocks := m.groups[i].blocks - 1)],
          m.sb.(blocks := m.sb.blocks - 1))
  }

  function UnmarkBlock(g: Geometry, m: Image, i: nat, k: nat): (m': Image)
    requires i < |g.blockBitmap| && g.blockBitmap[i] < |m.disk| && k / 8 < |m.disk[g.blockBitmap[i]]|
    requires i < |m.groups|
  {
    var b := g.blockBitmap[i];
    Image(m.disk[b := Clear(m.disk[b], k)],
          m.groups[i := m.groups[i].(blocks := m.groups[i].blocks + 1)],
          m.sb.(blocks := m.sb.blocks + 1))
  }

  function MarkInode(g: Geometry, m: Image, i: nat, k: nat): (m': Image)
    requires i < |g.inodeBitmap| && g.inodeBitmap[i] < |m.disk| && k / 8 < |m.disk[g.inodeBitmap[i]]|
    requires i < |m.groups| && 0 < m.groups[i].inodes && 0 < m.sb.inodes
  {
    var b := g.inodeBitmap[i];
    Image(m.disk[b := Set(m.disk[b], k)],
          m.groups[i := m.groups[i].(inodes := m.groups[i].inodes - 1)],
          m.sb.(inodes := m.sb.inodes - 1))
  }

  function UnmarkInode(g: Geometry, m: Image, i: nat, k: nat): (m': Image)
    requires i < |g.inodeBitmap| && g.inodeBitmap[i] < |m.disk| && k / 8 < |m.disk[g.inodeBitmap[i]]|
    requires i < |m.groups|
  {
    var b := g.inodeBitmap[i];
    Image(m.disk[b := Clear(m.disk[b], k)],
          m.groups[i := m.groups[i].(inodes := m.groups[i].inodes + 1)],
          m.sb.(inodes := m.sb.inodes + 1))
  }

  lemma {:induction false} SumAtLeast(cs: seq<Counts>, i: nat)
    requires i < |cs|
    ensures cs[i].blocks <= SumBlocks(cs) && cs[i].inodes <= SumInodes(cs)
  {
    if i > 0 { SumAtLeast(cs[1..], i - 1); }
  }

  /** A clear bit means the counters that will be decremented are positive. */
  lemma ClearBitCounted(bm: seq<byte>, k: nat, n: nat)
    requires k < n <= 8 * |bm| && !Test(bm, k)
    ensures CountClear(bm, n) > 0
  {
    hide Test;
    CountZero(bm, n);
  }

  lemma FreeBlockCounted(g: Geometry, m: Image, i: nat, k: nat)
    requires ImageOk(g, m) && i < g.Groups() && k < g.BlocksIn(i) && !Test(m.disk[g.blockBitmap[i]], k)
    ensures |m.groups| == g.Groups() && 0 < m.groups[i].blocks && 0 < m.sb.blocks
  {
    hide Test; hide CountClear; hide Geometry.BlocksIn;
    assert GroupCountsOk(g, m.disk, m.groups[i], i);
    ClearBitCounted(m.disk[g.blockBitmap[i]], k, g.BlocksIn(i));
    SumAtLeast(m.groups, i);
  }

  lemma FreeInodeCounted(g: Geometry, m: Image, i: nat, k: nat)
    requires ImageOk(g, m) && i < g.Groups() && k < g.ipg && !Test(m.disk[g.inodeBitmap[i]], k)
    ensures |m.groups| == g.Groups() && 0 < m.groups[i].inodes && 0 < m.sb.inodes
  {
    hide Test; hide CountClear;
    assert GroupCountsOk(g, m.disk, m.groups[i], i);
    ClearBitCounted(m.disk[g.inodeBitmap[i]], k, g.ipg);
    SumAtLeast(m.groups, i);
  }

  lemma MarkBlockCounts(g: Geometry, m: Image, i: nat, k: nat)
    requires ImageOk(g, m) && i < g.Groups() && k < g.BlocksIn(i) && k / 8 < g.bs && !Test(m.disk[g.blockBitmap[i]], k)
    requires 0 < m.groups[i].blocks && 0 < m.sb.blocks
    ensures var m' := MarkBlock(g, m, i, k); DiskOk(g, m'.disk) && CountsOk(g, m')
  {
    hide Test; hide CountClear; hide MetaUsed; hide Geometry.BlocksIn; hide Geometry.BlockNo;
    var m' := MarkBlock(g, m, i, k);
    var q := g.blockBitmap[i];
    var bm, bm' := m.disk[q], Set(m.disk[q], k);
    WriteKeepsDiskOk(g, m.disk, q, bm');
    CountOneMore(bm, bm', k, g.BlocksIn(i));
    assert GroupCountsOk(g, m.disk, m.groups[i], i);
    assert m'.disk[g.inodeBitmap[i]] == m.disk[g.inodeBitmap[i]];
    CountsFollow(g, m, i, q, bm', m'.groups[i], m'.sb);
  }

  /** Taking a clear block bit adds one block to the used set and keeps every counter exact. */
  lemma MarkBlockMeaning(g: Geometry, m: Image, i: nat, k: nat)
    requires ImageOk(g, m) && i < g.Groups() && k < g.BlocksIn(i) && !Test(m.disk[g.blockBitmap[i]], k)
    ensures 0 < m.groups[i].blocks && 0 < m.sb.blocks
    ensures var m' := MarkBlock(g, m, i, k);
      && ImageOk(g, m')
      && Meaning(g, m'.disk) == Meaning(g, m.disk).(used := Meaning(g, m.disk).used + {g.BlockNo(i, k)})
      && g.BlockNo(i, k) !in Meaning(g, m.disk).used
  {
    hide Test; hide CountsOk; hide Used; hide UsedInodes; hide Inodes; hide Data; hide Geometry.BlocksIn;
    hide Geometry.BlockNo;
    FreeBlockCounted(g, m, i, k);
    var m' := MarkBlock(g, m, i, k);
    var q := g.blockBitmap[i];
    var bm, bm' := m.disk[q], Set(m.disk[q], k);
    BlockBitChange(g, m.disk, i, k, bm');
    KeepBlockRest(g, m.disk, i, bm');
    SetChange(Used(g, m.disk), Used(g, m'.disk), g.BlockNo(i, k));
    MarkBlockCounts(g, m, i, k);
    KeepMetaUsed(g, m.disk, m'.disk);
  }

  lemma UnmarkBlockCounts(g: Geometry, m: Image, i: nat, k: nat)
    requires ImageOk(g, m) && i < g.Groups() && k < g.BlocksIn(i) && k / 8 < g.bs && Test(m.disk[g.blockBitmap[i]], k)
    ensures var m' := UnmarkBlock(g, m, i, k); DiskOk(g, m'.disk) && CountsOk(g, m')
  {
    hide Test; hide CountClear; hide MetaUsed; hide Geometry.BlocksIn; hide Geometry.BlockNo;
    var m' := UnmarkBlock(g, m, i, k);
    var q := g.blockBitmap[i];
    var bm, bm' := m.disk[q], Clear(m.disk[q], k);
    WriteKeepsDiskOk(g, m.disk, q, bm');
    CountOneMore(bm', bm, k, g.BlocksIn(i));
    assert GroupCountsOk(g, m.disk, m.groups[i], i);
    assert m'.disk[g.inodeBitmap[i]] == m.disk[g.inodeBitmap[i]];
    CountsFollow(g, m, i, q, bm', m'.groups[i], m'.sb);
  }

  /** Giving a block back removes it from the used set and keeps every counter exact. */
  lemma UnmarkBlockMeaning(g: Geometry, m: Image, i: nat, k: nat)
    requires ImageOk(g, m) && i < g.Groups() && k < g.BlocksIn(i) && Test(m.disk[g.blockBitmap[i]], k)
    requires !g.IsMeta(g.BlockNo(i, k))
    ensures var m' := UnmarkBlock(g, m, i, k);
      && ImageOk(g, m')
      && Meaning(g, m'.disk) == Meaning(g, m.disk).(used := Meaning(g, m.disk).used - {g.BlockNo(i, k)})
      && g.BlockNo(i, k) in Meaning(g, m.disk).used
  {
    hide Test; hide CountsOk; hide Used; hide UsedInodes; hide Inodes; hide Data; hide Geometry.BlocksIn;
    hide Geometry.BlockNo;
    GroupsLength(g, m);
    var m' := UnmarkBlock(g, m, i, k);
    var q := g.blockBitmap[i];
    var bm, bm' := m.disk[q], Clear(m.disk[q], k);
    BlockBitChange(g, m.disk, i, k, bm');
    KeepBlockRest(g, m.disk, i, bm');
    SetChange(Used(g, m.disk), Used(g, m'.disk), g.BlockNo(i, k));
    UnmarkBlockCounts(g, m, i, k);
    MetaStaysUsed(g, m.disk, m'.disk, g.BlockNo(i, k));
  }

  function FreeGroup(g: Geometry, b: nat): nat
    requires 0 < g.bpg && g.firstData <= b
  {
    (b - g.firstData) / g.bpg
  }

  function FreeIndex(g: Geometry, b: nat): nat
    requires 0 < g.bpg && g.firstData <= b
  {
    (b - g.firstData) % g.bpg
  }

  /** The place freeBlock computes for block number b, which may lie behind the end of a short last group. */
  ghost predicate FreedAt(g: Geometry, b: nat, i: nat, k: nat) {
    i < g.Groups() && k < g.bpg && b == g.firstData + i * g.bpg + k
  }

  lemma FreedPlace(g: Geometry, b: nat, i: nat, k: nat)
    requires g.SizesOk() && FreedAt(g, b, i, k)
    ensures b < g.blocksCount <==> k < g.BlocksIn(i)
    ensures b < g.blocksCount ==> g.GroupOf(b) == i && g.IndexOf(b) == k && g.BlockNo(i, k) == b
  {
    hide Geometry.CountsOk;
    DivModUnique(g.bpg, i, k);
  }

  lemma FreedAnyway(g: Geometry, m: Image, i: nat, k: nat)
    requires ImageOk(g, m) && i < g.Groups() && k < g.bpg && k / 8 < g.bs && |m.groups| == g.Groups()
    requires k < g.BlocksIn(i) ==> !Test(m.disk[g.blockBitmap[i]], k)
    ensures !ImageOk(g, UnmarkBlock(g, m, i, k))
  {
    hide Test; hide CountClear; hide MetaUsed; hide Geometry.BlocksIn; hide Geometry.CountsOk; hide SumBlocks;
    hide SumInodes;
    var m' := UnmarkBlock(g, m, i, k);
    var q := g.blockBitmap[i];
    WriteKeepsDiskOk(g, m.disk, q, m'.disk[q]);
    CountSame(m.disk[q], m'.disk[q], g.BlocksIn(i));
    assert GroupCountsOk(g, m.disk, m.groups[i], i);
    assert !GroupCountsOk(g, m'.disk, m'.groups[i], i);
  }

  lemma MetaFreed(g: Geometry, m: Image, b: nat)
    requires ImageOk(g, m) && g.firstData <= b < g.blocksCount && g.IsMeta(b) && |m.groups| == g.Groups()
    ensures !ImageOk(g, UnmarkBlock(g, m, g.GroupOf(b), g.IndexOf(b)))
  {
    hide Test; hide CountClear; hide CountsOk; hide Geometry.IsMeta; hide Geometry.CountsOk; hide Geometry.GroupOf;
    hide Geometry.IndexOf;
    var i, k := g.GroupOf(b), g.IndexOf(b);
    var m' := UnmarkBlock(g, m, i, k);
    WriteKeepsDiskOk(g, m.disk, g.blockBitmap[i], m'.disk[g.blockBitmap[i]]);
    assert !Bit(g, m'.disk, b);
  }

  /** Giving back block b keeps the counters exact and the metadata on no offer exactly when b is a used data block. */
  lemma FreeBlockExact(g: Geometry, m: Image, b: nat, i: nat, k: nat)
    requires ImageOk(g, m) && FreedAt(g, b, i, k) && |m.groups| == g.Groups() && k / 8 < g.bs
    ensures ImageOk(g, UnmarkBlock(g, m, i, k)) <==> b in Meaning(g, m.disk).used && b in Meaning(g, m.disk).data
    ensures b in Meaning(g, m.disk).used && b in Meaning(g, m.disk).data ==>
      Meaning(g, UnmarkBlock(g, m, i, k).disk) == Meaning(g, m.disk).(used := Meaning(g, m.disk).used - {b})
  {
    hide Test; hide CountsOk; hide MetaUsed; hide UsedInodes; hide Inodes; hide Geometry.IsMeta;
    hide Geometry.CountsOk; hide Geometry.GroupOf; hide Geometry.IndexOf; hide Geometry.BlocksIn;
    hide Geometry.BlockNo; hide UnmarkBlock;
    FreedPlace(g, b, i, k);
    if b >= g.blocksCount || !Test(m.disk[g.blockBitmap[i]], k) {
      FreedAnyway(g, m, i, k);
    } else if g.IsMeta(b) {
      MetaFreed(g, m, b);
    } else {
      UnmarkBlockMeaning(g, m, i, k);
    }
  }

  lemma KeepBlockRest(g: Geometry, disk: Disk, i: nat, bm: seq<byte>)
    requires DiskOk(g, disk) && i < g.Groups() && |bm| == g.bs
    ensures var disk' := disk[g.blockBitmap[i] := bm];
      && DiskOk(g, disk') && UsedInodes(g, disk') == UsedInodes(g, disk)
      && Inodes(g, disk') == Inodes(g, disk) && Data(g, disk') == Data(g, disk)
  {
    hide Bit; hide InodeBit; hide InodeAt;
    var q := g.blockBitmap[i];
    assert g.IsMeta(q);
    WriteKeepsDiskOk(g, disk, q, bm);
    KeepUsedInodes(g, disk, q, bm);
    KeepInodes(g, disk, q, bm);
    KeepData(g, disk, q, bm);
  }

  lemma MarkInodeCounts(g: Geometry, m: Image, i: nat, k: nat)
    requires ImageOk(g, m) && i < g.Groups() && k < g.ipg && k / 8 < g.bs && !Test(m.disk[g.inodeBitmap[i]], k)
    requires 0 < m.groups[i].inodes && 0 < m.sb.inodes
    ensures var m' := MarkInode(g, m, i, k); DiskOk(g, m'.disk) && CountsOk(g, m')
  {
    hide Test; hide CountClear; hide MetaUsed; hide Geometry.InodeNo;
    var m' := MarkInode(g, m, i, k);
    var q := g.inodeBitmap[i];
    var bm, bm' := m.disk[q], Set(m.disk[q], k);
    WriteKeepsDiskOk(g, m.disk, q, bm');
    CountOneMore(bm, bm', k, g.ipg);
    assert GroupCountsOk(g, m.disk, m.groups[i], i);
    assert m'.disk[g.blockBitmap[i]] == m.disk[g.blockBitmap[i]];
    CountsFollow(g, m, i, q, bm', m'.groups[i], m'.sb);
  }

  /** Taking a clear inode bit adds one inode to the used set and keeps every counter exact. */
  lemma MarkInodeMeaning(g: Geometry, m: Image, i: nat, k: nat)
    requires ImageOk(g, m) && i < g.Groups() && k < g.ipg && !Test(m.disk[g.inodeBitmap[i]], k)
    ensures 0 < m.groups[i].inodes && 0 < m.sb.inodes
    ensures var m' := MarkInode(g, m, i, k);
      && ImageOk(g, m')
      && Meaning(g, m'.disk) == Meaning(g, m.disk).(iused := Meaning(g, m.disk).iused + {g.InodeNo(i, k)})
      && g.InodeNo(i, k) !in Meaning(g, m.disk).iused
  {
    hide Test; hide CountsOk; hide Used; hide UsedInodes; hide Inodes; hide Data; hide Geometry.InodeNo;
    FreeInodeCounted(g, m, i, k);
    var m' := MarkInode(g, m, i, k);
    var q := g.inodeBitmap[i];
    var bm, bm' := m.disk[q], Set(m.disk[q], k);
    InodeBitChange(g, m.disk, i, k, bm');
    KeepInodeRest(g, m.disk, i, bm');
    SetChange(UsedInodes(g, m.disk), UsedInodes(g, m'.disk), g.InodeNo(i, k));
    MarkInodeCounts(g, m, i, k);
    KeepMetaUsed(g, m.disk, m'.disk);
  }

  lemma UnmarkInodeCounts(g: Geometry, m: Image, i: nat, k: nat)
    requires ImageOk(g, m) && i < g.Groups() && k < g.ipg && k / 8 < g.bs && Test(m.disk[g.inodeBitmap[i]], k)
    ensures var m' := UnmarkInode(g, m, i, k); DiskOk(g, m'.disk) && CountsOk(g, m')
  {
    hide Test; hide CountClear; hide MetaUsed; hide Geometry.InodeNo;
    var m' := UnmarkInode(g, m, i, k);
    var q := g.inodeBitmap[i];
    var bm, bm' := m.disk[q], Clear(m.disk[q], k);
    WriteKeepsDiskOk(g, m.disk, q, bm');
    CountOneMore(bm', bm, k, g.ipg);
    assert GroupCountsOk(g, m.disk, m.groups[i], i);
    assert m'.disk[g.blockBitmap[i]] == m.disk[g.blockBitmap[i]];
    CountsFollow(g, m, i, q, bm', m'.groups[i], m'.sb);
  }

  /** Giving a inode back removes it from the used set and keeps every counter exact. */
  lemma UnmarkInodeMeaning(g: Geometry, m: Image, i: nat, k: nat)
    requires ImageOk(g, m) && i < g.Groups() && k < g.ipg && Test(m.disk[g.inodeBitmap[i]], k)
    requires k / 8 < g.bs
    ensures var m' := UnmarkInode(g, m, i, k);
      && ImageOk(g, m')
      && Meaning(g, m'.disk) == Meaning(g, m.disk).(iused := Meaning(g, m.disk).iused - {g.InodeNo(i, k)})
      && g.InodeNo(i, k) in Meaning(g, m.disk).iused
  {
    hide Test; hide CountsOk; hide Used; hide UsedInodes; hide Inodes; hide Data; hide Geometry.InodeNo;
    GroupsLength(g, m);
    var m' := UnmarkInode(g, m, i, k);
    var q := g.inodeBitmap[i];
    var bm, bm' := m.disk[q], Clear(m.disk[q], k);
    InodeBitChange(g, m.disk, i, k, bm');
    KeepInodeRest(g, m.disk, i, bm');
    SetChange(UsedInodes(g, m.disk), UsedInodes(g, m'.disk), g.InodeNo(i, k));
    UnmarkInodeCounts(g, m, i, k);
    KeepMetaUsed(g, m.disk, m'.disk);
  }

  /** Giving back inode n keeps the counters exact exactly when n was in use. */
  lemma FreeInodeExact(g: Geometry, m: Image, n: nat)
    requires ImageOk(g, m) && 1 <= n <= g.Inodes() && |m.groups| == g.Groups()
    ensures var m' := UnmarkInode(g, m, g.InodeGroup(n), g.InodeIndex(n));
      && (ImageOk(g, m') <==> n in Meaning(g, m.disk).iused)
      && (n in Meaning(g, m.disk).iused ==>
            Meaning(g, m'.disk) == Meaning(g, m.disk).(iused := Meaning(g, m.disk).iused - {n}))
  {
    hide Test; hide CountsOk; hide MetaUsed; hide Used; hide Data; hide Inodes; hide Geometry.CountsOk;
    hide Geometry.InodeGroup; hide Geometry.InodeIndex; hide Geometry.InodeNo; hide UnmarkInode;
    g.InodePlace(n);
    var i, k := g.InodeGroup(n), g.InodeIndex(n);
    if Test(m.disk[g.inodeBitmap[i]], k) {
      UnmarkInodeMeaning(g, m, i, k);
    } else {
      InodeFreedAnyway(g, m, i, k);
    }
  }

  lemma InodeFreedAnyway(g: Geometry, m: Image, i: nat, k: nat)
    requires ImageOk(g, m) && i < g.Groups() && k < g.ipg && k / 8 < g.bs && |m.groups| == g.Groups()
    requires !Test(m.disk[g.inodeBitmap[i]], k)
    ensures !ImageOk(g, UnmarkInode(g, m, i, k))
  {
    hide Test; hide CountClear; hide MetaUsed; hide Geometry.BlocksIn; hide Geometry.CountsOk; hide SumBlocks;
    hide SumInodes;
    var m' := UnmarkInode(g, m, i, k);
    var q := g.inodeBitmap[i];
    WriteKeepsDiskOk(g, m.disk, q, m'.disk[q]);
    CountSame(m.disk[q], m'.disk[q], g.ipg);
    assert GroupCountsOk(g, m.disk, m.groups[i], i);
    assert !GroupCountsOk(g, m'.disk, m'.groups[i], i);
  }

  lemma KeepInodeRest(g: Geometry, disk: Disk, i: nat, bm: seq<byte>)
    requires DiskOk(g, disk) && i < g.Groups() && |bm| == g.bs
    ensures var disk' := disk[g.inodeBitmap[i] := bm];
      && DiskOk(g, disk') && Used(g, disk') == Used(g, disk)
      && Inodes(g, disk') == Inodes(g, disk) && Data(g, disk') == Data(g, disk)
  {
    hide Bit; hide InodeBit; hide InodeAt;
    var q := g.inodeBitmap[i];
    assert g.IsMeta(q);
    WriteKeepsDiskOk(g, disk, q, bm);
    KeepUsed(g, disk, q, bm);
    KeepInodes(g, disk, q, bm);
    KeepData(g, disk, q, bm);
  }
}
