/** A volume to start from: one group of 64 blocks, formatted with a root directory and nothing else. */
module Ext2Format {
  import opened Bytes
  import opened Bits
  import opened Ext2Layout
  import opened Ext2Volume
  import opened Ext2Store
  import opened Ext2BlockMap
  import opened Ext2DirBlock
  import opened Ext2Fs
  import opened Ext2Create
  import opened Ext2Run

  const SMALL: Geometry := Geometry(1024, 64, 1, 8192, 8, 128, [3], [4], [5])
  const ROOT_BLOCK: nat := 6

  lemma SmallSizes()
    ensures SMALL.Groups() == 1 && SMALL.Inodes() == 8 && SMALL.TableBlocks() == 1 && SMALL.MetaEnd() == 3
    ensures SMALL.SizesOk() && SMALL.BlocksIn(0) == 63
  {
  }

  lemma SmallWellFormed()
    ensures SMALL.WellFormed()
  {
    SmallSizes();
  }

  lemma SmallMeta(b: nat)
    ensures SMALL.IsMeta(b) <==> b < 6
  {
    SmallSizes();
    assert SMALL.InTable(0, b) <==> b == 5;
    if b == 3 { assert b == SMALL.blockBitmap[0]; }
    if b == 4 { assert b == SMALL.inodeBitmap[0]; }
  }

  function Ones(n: nat): (s: seq<byte>)
    ensures |s| == n && forall i :: 0 <= i < n ==> s[i] == 255
  {
    seq(n, i => 255)
  }

  /** Both bitmaps full, everything else zero. */
  function FullDisk(): (d: Disk)
    ensures |d| == 64 && forall b :: 0 <= b < 64 ==> d[b] == if b == 3 || b == 4 then Ones(1024) else Zeros(1024)
  {
    seq(64, b => if b == 3 || b == 4 then Ones(1024) else Zeros(1024))
  }

  lemma OnesSet(i: nat)
    requires i < 8192
    ensures Test(Ones(1024), i)
  {
    hide Ones;
    AllBits(i % 8);
  }

  lemma AllBits(k: nat)
    requires k < 8
    ensures TestByte(255, k)
  {
    assert ToBv(255) == 0xFF;
    assert k in {0, 1, 2, 3, 4, 5, 6, 7};
  }

  lemma OnesCount(n: nat)
    requires n <= 8192
    ensures CountClear(Ones(1024), n) == 0
  {
    hide Test; hide Ones; hide CountClear;
    forall i: nat | i < n ensures i / 8 < 1024 && Test(Ones(1024), i) { OnesSet(i); }
    CountZero(Ones(1024), n);
  }

  lemma FullDiskOk()
    ensures DiskOk(SMALL, FullDisk())
  {
    hide FullDisk; hide Ones; hide Zeros;
    SmallWellFormed();
  }

  /** The full disk is a sound image on which nothing is free. */
  lemma FullImage()
    ensures ImageOk(SMALL, Image(FullDisk(), [Counts(0, 0)], Counts(0, 0)))
    ensures var v := Meaning(SMALL, FullDisk());
      && (forall b: nat :: b in v.used <==> 1 <= b < 64) && (forall n: nat :: n in v.iused <==> 1 <= n <= 8)
      && (forall n: nat :: n in v.inodes <==> 1 <= n <= 8) && (forall b: nat :: b in v.data <==> 6 <= b < 64)
  {
    hide FullDisk; hide Ones; hide Zeros; hide Test; hide CountClear; hide InodeAt;
    FullDiskOk();
    SmallSizes();
    OnesCount(63);
    OnesCount(8);
    var disk := FullDisk();
    forall b: nat | 1 <= b < 64 ensures Bit(SMALL, disk, b) { SmallBit(b); }
    forall n: nat | 1 <= n <= 8 ensures InodeBit(SMALL, disk, n) { SmallInodeBit(n); }
    forall b: nat ensures SMALL.IsMeta(b) <==> b < 6 { SmallMeta(b); }
    assert GroupCountsOk(SMALL, disk, Counts(0, 0), 0);
    assert SumBlocks([Counts(0, 0)]) == 0 && SumInodes([Counts(0, 0)]) == 0 by { assert [Counts(0, 0)][1..] == []; }
  }

  lemma SmallBit(b: nat)
    requires 1 <= b < 64 && DiskOk(SMALL, FullDisk())
    ensures Bit(SMALL, FullDisk(), b)
  {
    hide FullDisk; hide Ones; hide Test;
    SmallSizes();
    assert SMALL.GroupOf(b) == 0 && SMALL.IndexOf(b) == b - 1;
    OnesSet(b - 1);
  }

  lemma SmallInodeBit(n: nat)
    requires 1 <= n <= 8 && DiskOk(SMALL, FullDisk())
    ensures InodeBit(SMALL, FullDisk(), n)
  {
    hide FullDisk; hide Ones; hide Test;
    SmallSizes();
    assert SMALL.InodeGroup(n) == 0 && SMALL.InodeIndex(n) == n - 1;
    OnesSet(n - 1);
  }

  /** Formatting: the root's record and its directory block are written and the rest is given back. What results
      satisfies the driver's invariant, with 57 blocks and 6 inodes free, so that runs have a start. */
  method Format() returns (fs: FsInstance)
    ensures fresh(fs) && Inv(fs) && fs.g == SMALL && fs.open == map[] && fs.tree == RootTree(ROOT_BLOCK)
    ensures forall b: nat :: b in fs.Vol().used <==> 1 <= b <= ROOT_BLOCK
    ensures forall n: nat :: n in fs.Vol().iused <==> 1 <= n <= ROOT
  {
    hide ImageOk; hide Meaning; hide FsInv; hide DotBlock; hide NewInode; hide FullDisk; hide RootTree;
    FullImage();
    SmallSizes();
    fs := new FsInstance(SMALL, FullDisk(), [Counts(0, 0)], Counts(0, 0), RootTree(ROOT_BLOCK));
    ghost var v := fs.Vol();
    var ok := WriteInode(fs, ROOT, NewInode(SMALL, true, ROOT_BLOCK));
    WriteBlock(fs, ROOT_BLOCK, DotBlock(SMALL.bs, ROOT, ROOT));
    var b := 7;
    while b < 64
      invariant 7 <= b <= 64 && fs.Valid() && fs.open == map[] && fs.tree == RootTree(ROOT_BLOCK)
      invariant forall k: nat :: k in fs.Vol().used <==> 1 <= k < 7 || b <= k < 64
      invariant fs.Vol().iused == v.iused && fs.Vol().inodes == v.inodes[ROOT := NewInode(SMALL, true, ROOT_BLOCK)]
      invariant fs.Vol().data == v.data[ROOT_BLOCK := DotBlock(SMALL.bs, ROOT, ROOT)]
    {
      var freed := FreeBlock(fs, b);
      b := b + 1;
    }
    var n := 3;
    while n < 9
      invariant 3 <= n <= 9 && fs.Valid() && fs.open == map[] && fs.tree == RootTree(ROOT_BLOCK)
      invariant forall k: nat :: k in fs.Vol().used <==> 1 <= k < 7
      invariant forall k: nat :: k in fs.Vol().iused <==> 1 <= k < 3 || n <= k < 9
      invariant fs.Vol().inodes == v.inodes[ROOT := NewInode(SMALL, true, ROOT_BLOCK)]
      invariant fs.Vol().data == v.data[ROOT_BLOCK := DotBlock(SMALL.bs, ROOT, ROOT)]
    {
      var freed := FreeInode(fs, n);
      n := n + 1;
    }
    ValidSizes(fs);
    FormattedVolume(SMALL, fs.Vol(), ROOT_BLOCK);
  }
}
