/** The on-disk layout of an ext2 volume: inode records, block groups and where they lie. */
module Ext2Layout {
  import opened Bytes
  import opened Arithmetic

  const INODE_BYTES: nat := 128
  const DIRECT: nat := 12
  const ROOT: nat := 2
  const S_IFDIR: nat := 0x4000
  const S_IFREG: nat := 0x8000

  /** An inode record. The fields the driver never interprets are kept as raw bytes. */
  datatype InodeRec = InodeRec(
    mode: nat, uid: seq<byte>, size: nat, times: seq<byte>, dtime: nat, gid: seq<byte>,
    links: nat, blocks: nat, flags: seq<byte>, block: seq<nat>, tail: seq<byte>)

  predicate InodeRecOk(i: InodeRec) {
    && i.mode < U16 && |i.uid| == 2 && i.size < U32 && |i.times| == 12 && i.dtime < U32
    && |i.gid| == 2 && i.links < U16 && i.blocks < U32 && |i.flags| == 8
    && |i.block| == 15 && (forall k :: 0 <= k < 15 ==> i.block[k] < U32) && |i.tail| == 28
  }

  const ZeroInode: InodeRec := InodeRec(0, Zeros(2), 0, Zeros(12), 0, Zeros(2), 0, 0, Zeros(8),
                                        [0, 0, 0, 0, 0, 0, 0, 0, 0, 0, 0, 0, 0, 0, 0], Zeros(28))

  type Inode = i: InodeRec | InodeRecOk(i) witness ZeroInode

  /** (mode & S_IFMT) == S_IFDIR */
  predicate IsDir(i: Inode) {
    i.mode / 0x1000 == 4
  }

  function InodeByte(i: Inode, k: nat): (b: byte)
    requires k < INODE_BYTES
  {
    if k < 2 then Le16(i.mode)[k]
    else if k < 4 then i.uid[k - 2]
    else if k < 8 then Le32(i.size)[k - 4]
    else if k < 20 then i.times[k - 8]
    else if k < 24 then Le32(i.dtime)[k - 20]
    else if k < 26 then i.gid[k - 24]
    else if k < 28 then Le16(i.links)[k - 26]
    else if k < 32 then Le32(i.blocks)[k - 28]
    else if k < 40 then i.flags[k - 32]
    else if k < 100 then Le32(i.block[(k - 40) / 4])[k % 4]
    else i.tail[k - 100]
  }

  /** The packed 128-byte image of an inode. */
  function EncodeInode(i: Inode): (s: seq<byte>)
    ensures |s| == INODE_BYTES
  {
    seq(INODE_BYTES, k requires 0 <= k < INODE_BYTES => InodeByte(i, k))
  }

  function DecodeInode(s: seq<byte>): (i: Inode)
    requires |s| == INODE_BYTES
  {
    InodeRec(Get16(s, 0), s[2..4], Get32(s, 4), s[8..20], Get32(s, 20), s[24..26],
             Get16(s, 26), Get32(s, 28), s[32..40],
             seq(15, k requires 0 <= k < 15 => Get32(s, 40 + 4 * k)), s[100..128])
  }

  lemma DecodePointer(i: Inode, k: nat)
    requires k < 15
    ensures Get32(EncodeInode(i), 40 + 4 * k) == i.block[k]
  {
    hide Get32; hide Le32;
    var s, o := EncodeInode(i), 40 + 4 * k;
    forall j | 0 <= j < 4 ensures s[o..o + 4][j] == Le32(i.block[k])[j] {
      assert (o + j - 40) / 4 == k && (o + j) % 4 == j;
      assert s[o + j] == InodeByte(i, o + j);
    }
    assert s[o..o + 4] == Le32(i.block[k]);
    Le32RoundTrip(s, o, i.block[k]);
  }

  lemma DecodePointers(i: Inode)
    ensures DecodeInode(EncodeInode(i)).block == i.block
  {
    var d := DecodeInode(EncodeInode(i)).block;
    forall k | 0 <= k < 15 ensures d[k] == i.block[k] {
      DecodePointer(i, k);
    }
  }

  lemma DecodeNumbers(i: Inode)
    ensures var d := DecodeInode(EncodeInode(i));
      && d.mode == i.mode && d.size == i.size && d.dtime == i.dtime
      && d.links == i.links && d.blocks == i.blocks
  {
    var s := EncodeInode(i);
    assert s[0..2] == Le16(i.mode); Le16RoundTrip(s, 0, i.mode);
    assert s[4..8] == Le32(i.size); Le32RoundTrip(s, 4, i.size);
    assert s[20..24] == Le32(i.dtime); Le32RoundTrip(s, 20, i.dtime);
    assert s[26..28] == Le16(i.links); Le16RoundTrip(s, 26, i.links);
    assert s[28..32] == Le32(i.blocks); Le32RoundTrip(s, 28, i.blocks);
  }

  lemma DecodeRaw(i: Inode)
    ensures var d := DecodeInode(EncodeInode(i));
      && d.uid == i.uid && d.times == i.times && d.gid == i.gid && d.flags == i.flags && d.tail == i.tail
  {
    var s := EncodeInode(i);
    assert s[2..4] == i.uid;
    assert s[8..20] == i.times;
    assert s[24..26] == i.gid;
    assert s[32..40] == i.flags;
    assert s[100..128] == i.tail;
  }

  lemma InodeRoundTrip(i: Inode)
    ensures DecodeInode(EncodeInode(i)) == i
  {
    hide *;
    DecodePointers(i);
    DecodeNumbers(i);
    DecodeRaw(i);
  }

  /** What mount() reads from the superblock and the group descriptors and never changes. */
  datatype Geometry = Geometry(
    bs: nat, blocksCount: nat, firstData: nat, bpg: nat, ipg: nat, inodeSize: nat,
    blockBitmap: seq<nat>, inodeBitmap: seq<nat>, inodeTable: seq<nat>)
  {
    function Groups(): nat { |blockBitmap| }

    function Inodes(): nat { ipg * Groups() }

    /** Pointers held by the single-indirect block. */
    function Ptrs(): nat { bs / 4 }

    function TableBlocks(): nat
      requires 0 < bs
    {
      (ipg * inodeSize + bs - 1) / bs
    }

    /** The first block after the superblock and the group descriptor table. */
    function MetaEnd(): nat
      requires 0 < bs
    {
      firstData + 1 + (32 * Groups() + bs - 1) / bs
    }

    ghost predicate RangesOk() {
      && 1024 <= bs < U16 && bs % 512 == 0
      && firstData <= 1 && firstData < blocksCount < U32
      && 0 < bpg <= 8 * bs && bpg < U16 && 0 < ipg <= 8 * bs && ipg < U16
      && INODE_BYTES <= inodeSize
      && |inodeBitmap| == Groups() && |inodeTable| == Groups()
    }

    ghost predicate CountsOk()
      requires RangesOk()
    {
      && bs % inodeSize == 0
      && Groups() == (blocksCount + bpg - 1) / bpg
      && (Groups() - 1) * bpg < blocksCount - firstData
      && Inodes() < U32
    }

    ghost predicate SizesOk() {
      RangesOk() && CountsOk()
    }

    predicate InTable(i: nat, b: nat)
      requires 0 < bs && i < |inodeTable|
    {
      inodeTable[i] <= b < inodeTable[i] + TableBlocks()
    }

    /** The metadata regions lie inside the volume and overlap nowhere. */
    ghost predicate PlacementOk()
      requires SizesOk()
    {
      && (forall i :: 0 <= i < Groups() ==>
            && MetaEnd() <= blockBitmap[i] < blocksCount
            && MetaEnd() <= inodeBitmap[i] < blocksCount
            && MetaEnd() <= inodeTable[i] && inodeTable[i] + TableBlocks() <= blocksCount)
      && (forall i, j :: 0 <= i < Groups() && 0 <= j < Groups() && i != j ==>
            && blockBitmap[i] != blockBitmap[j] && inodeBitmap[i] != inodeBitmap[j])
      && (forall i, j :: 0 <= i < Groups() && 0 <= j < Groups() ==> blockBitmap[i] != inodeBitmap[j])
      && (forall i, j :: 0 <= i < Groups() && 0 <= j < Groups() ==>
            !InTable(i, blockBitmap[j]) && !InTable(i, inodeBitmap[j]))
      && (forall i, j, b :: 0 <= i < Groups() && 0 <= j < Groups() && i != j && 0 <= b && InTable(i, b) ==>
            !InTable(j, b))
    }

    ghost predicate WellFormed() {
      SizesOk() && PlacementOk()
    }

    predicate IsMeta(b: nat)
      requires 0 < bs && |inodeBitmap| == Groups() && |inodeTable| == Groups()
    {
      || b < MetaEnd()
      || exists i :: 0 <= i < Groups() && (b == blockBitmap[i] || b == inodeBitmap[i] || InTable(i, b))
    }

    function GroupOf(b: nat): (i: nat)
      requires SizesOk() && firstData <= b < blocksCount
      ensures i < Groups()
    {
      hide CountsOk;
      GroupInRange(b);
      (b - firstData) / bpg
    }

    function IndexOf(b: nat): (k: nat)
      requires SizesOk() && firstData <= b < blocksCount
      ensures k < bpg && k / 8 < bs
    {
      hide CountsOk;
      (b - firstData) % bpg
    }

    /** The number of blocks the last group really has may be short. */
    function BlocksIn(i: nat): (n: nat)
      requires SizesOk() && i < Groups()
      ensures 0 < n <= bpg
    {
      MulMono(i, Groups() - 1, bpg);
      var remaining := blocksCount - firstData - i * bpg;
      if remaining < bpg then remaining else bpg
    }

    function BlockNo(i: nat, k: nat): (b: nat)
      requires SizesOk() && i < Groups() && k < BlocksIn(i)
      ensures firstData <= b < blocksCount
      ensures GroupOf(b) == i && IndexOf(b) == k
    {
      assert k < bpg;
      DivModUnique(bpg, i, k);
      firstData + i * bpg + k
    }

    function InodeGroup(n: nat): (i: nat)
      requires SizesOk() && 1 <= n <= Inodes()
      ensures i < Groups()
    {
      hide CountsOk; hide Inodes;
      InodeGroupInRange(n);
      (n - 1) / ipg
    }

    function InodeIndex(n: nat): (k: nat)
      requires SizesOk() && 1 <= n <= Inodes()
      ensures k < ipg && k / 8 < bs
    {
      hide CountsOk;
      (n - 1) % ipg
    }

    function InodeNo(i: nat, k: nat): (n: nat)
      requires SizesOk() && i < Groups() && k < ipg
      ensures 1 <= n <= Inodes()
      ensures InodeGroup(n) == i && InodeIndex(n) == k
    {
      hide CountsOk;
      DivModUnique(ipg, i, k);
      MulGap(i, Groups(), ipg);
      i * ipg + k + 1
    }

    lemma InodeGroupInRange(n: nat)
      requires RangesOk() && 1 <= n <= Inodes()
      ensures (n - 1) / ipg < Groups()
    {
      DivBelow(n - 1, ipg, Groups());
      assert ipg * Groups() == Groups() * ipg;
    }

    lemma InodeRange(n: nat)
      requires RangesOk()
      ensures n == 0 || (n - 1) / ipg >= Groups() <==> !(1 <= n <= Inodes())
    {
      if n > 0 {
        DivBelow(n - 1, ipg, Groups());
        assert ipg * Groups() == Groups() * ipg;
      }
    }

    lemma GroupInRange(b: nat)
      requires SizesOk() && firstData <= b < blocksCount
      ensures (b - firstData) / bpg < Groups()
    {
      DivMod(blocksCount + bpg - 1, bpg);
      DivBelow(b - firstData, bpg, Groups());
    }

    /** Every block has one place in one group's bitmap. */
    lemma BlockPlace(b: nat)
      requires SizesOk() && firstData <= b < blocksCount
      ensures IndexOf(b) < BlocksIn(GroupOf(b)) && BlockNo(GroupOf(b), IndexOf(b)) == b
    {
      DivMod(b - firstData, bpg);
    }

    lemma InodePlace(n: nat)
      requires SizesOk() && 1 <= n <= Inodes()
      ensures InodeNo(InodeGroup(n), InodeIndex(n)) == n
    {
      DivMod(n - 1, ipg);
    }

    function TableOffset(k: nat): nat { k * inodeSize }

    function TableBlock(k: nat): nat
      requires 0 < bs
    {
      TableOffset(k) / bs
    }

    function OffsetInBlock(k: nat): nat
      requires 0 < bs
    {
      TableOffset(k) % bs
    }

    /** readInode's placement arithmetic: the block of the table and the offset inside it. */
    function InodeBlock(n: nat): (b: nat)
      requires SizesOk() && 1 <= n <= Inodes()
    {
      hide CountsOk; hide Inodes; hide TableBlock;
      inodeTable[InodeGroup(n)] + TableBlock(InodeIndex(n))
    }

    function InodeOffset(n: nat): (o: nat)
      requires SizesOk() && 1 <= n <= Inodes()
    {
      hide CountsOk; hide Inodes;
      OffsetInBlock(InodeIndex(n))
    }

    /** A record never straddles blocks: the table is an array of bs / inodeSize records a block. */
    lemma RecordPlace(k: nat)
      requires SizesOk()
      ensures 0 < bs / inodeSize
      ensures TableBlock(k) == k / (bs / inodeSize)
      ensures OffsetInBlock(k) == k % (bs / inodeSize) * inodeSize
      ensures k % (bs / inodeSize) * inodeSize + inodeSize <= bs
    {
      var per := bs / inodeSize;
      DivMod(bs, inodeSize);
      assert bs == per * inodeSize;
      ScaledDivMod(k, per, inodeSize);
      MulGap(k % per, per, inodeSize);
    }

    lemma OffsetInTable(k: nat)
      requires RangesOk() && k < ipg
      ensures TableBlock(k) < TableBlocks()
    {
      MulGap(k, ipg, inodeSize);
      var last := ipg * inodeSize + bs - 1;
      DivMod(last, bs);
      DivBelow(k * inodeSize, bs, last / bs);
    }

    lemma InodeInTable(n: nat)
      requires SizesOk() && 1 <= n <= Inodes()
      ensures InTable(InodeGroup(n), InodeBlock(n))
      ensures InodeOffset(n) + INODE_BYTES <= bs
    {
      hide CountsOk; hide Inodes; hide TableBlock; hide OffsetInBlock; hide TableBlocks;
      RecordPlace(InodeIndex(n));
      OffsetInTable(InodeIndex(n));
    }

    /** Two inodes in one table block hold disjoint byte ranges. */
    lemma InodesApart(n: nat, m: nat)
      requires WellFormed() && 1 <= n <= Inodes() && 1 <= m <= Inodes() && n != m
      requires InodeBlock(n) == InodeBlock(m)
      ensures InodeOffset(n) + INODE_BYTES <= InodeOffset(m) || InodeOffset(m) + INODE_BYTES <= InodeOffset(n)
    {
      hide CountsOk; hide Inodes; hide TableBlock; hide OffsetInBlock; hide TableBlocks;
      InodeInTable(n);
      InodeInTable(m);
      assert InodeGroup(n) == InodeGroup(m);
      var i, j := InodeIndex(n), InodeIndex(m);
      InodePlace(n);
      InodePlace(m);
      assert i != j;
      RecordPlace(i);
      RecordPlace(j);
      var per := bs / inodeSize;
      DivMod(i, per);
      DivMod(j, per);
      if i % per < j % per {
        MulGap(i % per, j % per, inodeSize);
      } else {
        MulGap(j % per, i % per, inodeSize);
      }
    }
  }
}
