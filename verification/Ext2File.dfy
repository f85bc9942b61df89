/** Files as sequences of bytes, and write through a handle. */
module Ext2File {
  import opened Bytes
  import opened Arithmetic
  import opened Ext2Layout
  import opened Ext2Volume
  import opened Ext2Store
  import opened Ext2BlockMap
  import opened Ext2Dir
  import opened Ext2Tree
  import opened Ext2Fs
  import opened Ext2Create

  function BlockNum(g: Geometry, pos: nat): nat
    requires 0 < g.bs
  {
    pos / g.bs
  }

  function OffsetIn(g: Geometry, pos: nat): (o: nat)
    requires 0 < g.bs
    ensures o < g.bs
  {
    pos % g.bs
  }

  /** Block numbers are cut to 32 bits: the position that an access to pos really reaches. */
  function Wrapped(g: Geometry, pos: nat): nat
    requires 0 < g.bs
  {
    BlockNum(g, pos) % U32 * g.bs + OffsetIn(g, pos)
  }

  lemma WrappedPlace(g: Geometry, pos: nat)
    requires 0 < g.bs
    ensures BlockNum(g, Wrapped(g, pos)) == BlockNum(g, pos) % U32 && OffsetIn(g, Wrapped(g, pos)) == OffsetIn(g, pos)
    ensures BlockNum(g, pos) < U32 ==> Wrapped(g, pos) == pos
  {
    DivModUnique(g.bs, BlockNum(g, pos) % U32, OffsetIn(g, pos));
    DivMod(pos, g.bs);
  }

  /** Going on within a block, or to its end, goes on at the wrapped position. */
  lemma WrappedNext(g: Geometry, pos: nat, c: nat)
    requires 0 < g.bs && OffsetIn(g, pos) + c <= g.bs && BlockNum(g, pos) % U32 + 1 < U32
    ensures Wrapped(g, pos + c) == Wrapped(g, pos) + c
  {
    var q, o := BlockNum(g, pos), OffsetIn(g, pos);
    DivMod(pos, g.bs);
    if o + c < g.bs {
      DivModUnique(g.bs, q, o + c);
    } else {
      assert (q + 1) * g.bs == q * g.bs + g.bs;
      DivModUnique(g.bs, q + 1, 0);
      DivMod(q, U32);
      DivModUnique(U32, q / U32, q % U32 + 1);
      assert (q % U32 + 1) * g.bs == q % U32 * g.bs + g.bs;
    }
  }

  /** The byte at pos lies in a block that the inode maps. */
  ghost predicate Mapped(g: Geometry, data: Blocks, i: Inode, pos: nat)
    requires 0 < g.bs
  {
    BlockAt(g, data, i, BlockNum(g, pos)) != 0
  }

  ghost function ByteAt(g: Geometry, data: Blocks, i: Inode, pos: nat): byte
    requires 0 < g.bs
  {
    var b := BlockAt(g, data, i, BlockNum(g, pos));
    if b != 0 && b in data && OffsetIn(g, pos) < |data[b]| then data[b][OffsetIn(g, pos)] else 0
  }

  /** From (data, i) to (data', i'): the bytes at pos became these, and no other mapped byte changed. */
  ghost predicate Stored(g: Geometry, data: Blocks, i: Inode, data': Blocks, i': Inode, pos: nat, bytes: seq<byte>)
    requires 0 < g.bs
  {
    && (forall p: nat :: pos <= p < pos + |bytes| ==>
          Mapped(g, data', i', p) && ByteAt(g, data', i', p) == bytes[p - pos])
    && (forall p: nat :: Mapped(g, data, i, p) && !(pos <= p < pos + |bytes|) ==>
          Mapped(g, data', i', p) && ByteAt(g, data', i', p) == ByteAt(g, data, i, p))
  }

  lemma StoredNothing(g: Geometry, data: Blocks, i: Inode, pos: nat)
    requires 0 < g.bs
    ensures Stored(g, data, i, data, i, pos, [])
  {
  }

  /** Storing two adjacent stretches one after the other stores their concatenation. */
  lemma StoredTwice(g: Geometry, d0: Blocks, i0: Inode, d1: Blocks, i1: Inode, d2: Blocks, i2: Inode, pos: nat,
                    a: seq<byte>, b: seq<byte>)
    requires 0 < g.bs && Stored(g, d0, i0, d1, i1, pos, a) && Stored(g, d1, i1, d2, i2, pos + |a|, b)
    ensures Stored(g, d0, i0, d2, i2, pos, a + b)
  {
    hide Mapped; hide ByteAt;
    forall p: nat | pos <= p < pos + |a + b|
      ensures Mapped(g, d2, i2, p) && ByteAt(g, d2, i2, p) == (a + b)[p - pos]
    {
      if p < pos + |a| { assert Mapped(g, d1, i1, p) && ByteAt(g, d1, i1, p) == a[p - pos]; }
    }
  }

  // ---------- one chunk, inside one block ----------

  lemma SameChunkBlock(g: Geometry, pos: nat, p: nat)
    requires 0 < g.bs && pos <= p && p - pos < g.bs - OffsetIn(g, pos)
    ensures BlockNum(g, p) == BlockNum(g, pos) && OffsetIn(g, p) == OffsetIn(g, pos) + (p - pos)
  {
    DivMod(pos, g.bs);
    DivModUnique(g.bs, pos / g.bs, pos % g.bs + (p - pos));
  }

  lemma OutsideChunk(g: Geometry, pos: nat, c: nat, p: nat)
    requires 0 < g.bs && OffsetIn(g, pos) + c <= g.bs && BlockNum(g, p) == BlockNum(g, pos) && !(pos <= p < pos + c)
    ensures !(OffsetIn(g, pos) <= OffsetIn(g, p) < OffsetIn(g, pos) + c)
  {
    DivMod(pos, g.bs);
    DivMod(p, g.bs);
  }

  /** Rewriting part of block k stores a chunk, whether the block was there before or not. */
  lemma ChunkStored(g: Geometry, data: Blocks, i: Inode, data': Blocks, i': Inode, pos: nat, chunk: seq<byte>,
                    was: seq<byte>)
    requires 0 < g.bs && OffsetIn(g, pos) + |chunk| <= g.bs && |was| == g.bs
    requires KeptBut(g, data, i, data', i', BlockNum(g, pos))
    requires var b := BlockAt(g, data', i', BlockNum(g, pos));
      b != 0 && b in data' && data'[b] == Splice(was, OffsetIn(g, pos), chunk)
    requires var b := BlockAt(g, data, i, BlockNum(g, pos));
      b != 0 ==> b == BlockAt(g, data', i', BlockNum(g, pos)) && b in data && data[b] == was
    ensures Stored(g, data, i, data', i', pos, chunk)
  {
    hide BlockAt; hide Splice; hide BlockNum; hide OffsetIn; hide KeptBut;
    forall p: nat | pos <= p < pos + |chunk|
      ensures Mapped(g, data', i', p) && ByteAt(g, data', i', p) == chunk[p - pos]
    {
      SameChunkBlock(g, pos, p);
    }
    forall p: nat | Mapped(g, data, i, p) && !(pos <= p < pos + |chunk|)
      ensures Mapped(g, data', i', p) && ByteAt(g, data', i', p) == ByteAt(g, data, i, p)
    {
      if BlockNum(g, p) == BlockNum(g, pos) {
        OutsideChunk(g, pos, |chunk|, p);
      } else {
        KeptByte(g, data, i, data', i', BlockNum(g, pos), p);
      }
    }
  }

  lemma MappedBelow(g: Geometry, data: Blocks, i: Inode, pos: nat)
    requires 0 < g.bs && Mapped(g, data, i, pos)
    ensures BlockNum(g, pos) < MaxBlocks(g)
  {
  }

  // ---------- the invariant with an extended private inode ----------

  lemma {:induction false} OwnedMore(g: Geometry, data: Blocks, data': Blocks, i: Inode, s: nat)
    requires forall t: nat :: t < s && Slot(g, data, i, t) != 0 ==> Slot(g, data', i, t) != 0
    ensures Owned(g, data, i, s) <= Owned(g, data', i, s)
  {
    hide Slot;
    if s > 0 { OwnedMore(g, data, data', i, s - 1); }
  }

  /** While a copy h grows to h', the record i that it is ahead of loses no slot. */
  lemma RecordStays(g: Geometry, data: Blocks, data': Blocks, i: Inode, h: Inode, h': Inode, s: nat)
    requires Behind(i, h) && Behind(h, h') && SlotsStay(g, data, h, data', h') && s <= MaxBlocks(g)
    ensures Slot(g, data, i, s) != 0 ==> Slot(g, data', i, s) != 0
    ensures i.block[DIRECT] == 0 ==> Slot(g, data', i, s) == Slot(g, data, i, s)
  {
    BehindSlots(g, data, i, h, s);
    if i.block[DIRECT] != 0 {
      assert Behind(i, h');
      BehindSlots(g, data', i, h', s);
    }
  }

  lemma HandleGrows(g: Geometry, data: Blocks, data': Blocks, stale: set<nat>, n: nat, i: Inode, h: Inode, h': Inode)
    requires HandleOk(g, data, stale, n, i, h) && Behind(h, h') && SlotsStay(g, data, h, data', h')
    ensures HandleOk(g, data', stale, n, i, h')
  {
    hide Slot; hide Owned; hide SlotsStay;
    forall s: nat | s <= MaxBlocks(g)
      ensures Slot(g, data, i, s) != 0 ==> Slot(g, data', i, s) != 0
      ensures i.block[DIRECT] == 0 ==> Slot(g, data', i, s) == Slot(g, data, i, s)
    {
      RecordStays(g, data, data', i, h, h', s);
    }
    OwnedMore(g, data, data', i, MaxBlocks(g) + 1);
    MulMono(Owned(g, data, i, MaxBlocks(g) + 1), Owned(g, data', i, MaxBlocks(g) + 1), Sectors(g));
    if i.block[DIRECT] == 0 { OwnedSame(g, data, i, data', i, MaxBlocks(g) + 1); }
  }

  lemma HandlesGrow(g: Geometry, v: Volume, open: map<nat, Inode>, t: Tree, v': Volume, owner': Owners, n: nat,
                    i': Inode, k: nat)
    requires FsInv(g, v, open, t) && n in open && n in Current(v, open, t.live)
    requires Grown(g, v, t.owner, v', owner', Current(v, open, t.live), n, i', k)
    ensures HandlesOk(g, v', open[n := i'], owner'.stale)
  {
    hide MapsOk; hide TreeOk; hide KeptBut; hide DirOk; hide FileKept; hide HandleOk; hide SlotsStay; hide Behind;
    hide DirsOf; hide Extends;
    var eff, open' := Current(v, open, t.live), open[n := i'];
    assert eff[n] == open[n];
    ExtendsStay(g, v, open[n], v', i');
    forall m | m in open' ensures HandleOk(g, v'.data, owner'.stale, m, v'.inodes[m], open'[m]) {
      if m == n {
        HandleGrows(g, v.data, v'.data, t.owner.stale, n, v.inodes[n], open[n], i');
      } else {
        assert m in eff && eff[m] == open[m];
        HandleKept(g, v.data, v'.data, t.owner.stale, t.owner.stale, m, v.inodes[m], open[m]);
      }
    }
  }

  /** Extending or rewriting an open file keeps the invariant and every directory. */
  lemma OpenFileGrows(g: Geometry, v: Volume, open: map<nat, Inode>, t: Tree, v': Volume, owner': Owners, n: nat,
                      i': Inode, k: nat)
    requires FsInv(g, v, open, t) && n in open && n in Current(v, open, t.live)
    requires Grown(g, v, t.owner, v', owner', Current(v, open, t.live), n, i', k)
    ensures FsInv(g, v', open[n := i'], t.(owner := owner')) && DirsOf(g, v', t.live) == DirsOf(g, v, t.live)
  {
    hide MapsOk; hide TreeOk; hide KeptBut; hide DirOk; hide Contents; hide FileKept; hide HandlesOk; hide Extends;
    var eff := Current(v, open, t.live);
    HandlesGrow(g, v, open, t, v', owner', n, i', k);
    forall m | m in t.live && IsDir(v.inodes[m])
      ensures DirOk(g, v.data, v.inodes[m]) && DirOk(g, v'.data, v.inodes[m])
      ensures Contents(g, v'.data, v.inodes[m]) == Contents(g, v.data, v.inodes[m])
    {
      assert m in eff && eff[m] == v.inodes[m] && m != n;
      DirKept(g, v.data, v.inodes[m], v'.data, v.inodes[m]);
    }
    assert DirsOf(g, v', t.live) == DirsOf(g, v, t.live);
    assert LiveOk(g, v', open[n := i'], t.live);
    assert Current(v', open[n := i'], t.live) == eff[n := i'];
    OwnerUnseen(t, DirsOf(g, v, t.live), owner');
  }

  // ---------- the operations ----------

  /** An access to open file n: only n's private inode, its blocks and fresh blocks may change, and every block taken is
      in a slot of that inode. */
  ghost predicate OnlyFile(g: Geometry, v: Volume, open: map<nat, Inode>, t: Tree, v': Volume, open': map<nat, Inode>,
                           t': Tree, n: nat) {
    && n in open && n in open' && open' == open[n := open'[n]] && SameTree(t, t')
    && v'.iused == v.iused && v'.inodes.Keys == v.inodes.Keys
    && (forall m :: m in v.inodes && m != n ==> v'.inodes[m] == v.inodes[m])
    && OthersKept(g, v.data, v'.data, Current(v, open, t.live), n)
    && DirsOf(g, v', t.live) == DirsOf(g, v, t.live)
    && open'[n] == open[n].(block := open'[n].block, blocks := open'[n].blocks, size := open'[n].size)
    && Behind(open[n], open'[n]) && Extends(g, v, open[n], v', open'[n])
  }

  lemma OtherCurrent(v: Volume, open: map<nat, Inode>, v': Volume, open': map<nat, Inode>, live: set<nat>, n: nat,
                     m: nat)
    requires n in open' && open' == open[n := open'[n]] && v'.inodes.Keys == v.inodes.Keys
    requires m != n && m in Current(v, open, live) && (m in v.inodes ==> v'.inodes[m] == v.inodes[m])
    ensures m in Current(v', open', live) && Current(v', open', live)[m] == Current(v, open, live)[m]
  {
  }

  lemma OnlyFileTwice(g: Geometry, v0: Volume, p0: map<nat, Inode>, t0: Tree, v1: Volume, p1: map<nat, Inode>, t1: Tree,
                      v2: Volume, p2: map<nat, Inode>, t2: Tree, n: nat)
    requires OnlyFile(g, v0, p0, t0, v1, p1, t1, n) && OnlyFile(g, v1, p1, t1, v2, p2, t2, n)
    ensures OnlyFile(g, v0, p0, t0, v2, p2, t2, n)
  {
    hide FileKept; hide DirsOf; hide Current; hide Extends;
    ExtendsTwice(g, v0, p0[n], v1, p1[n], v2, p2[n]);
    var e0, e1 := Current(v0, p0, t0.live), Current(v1, p1, t1.live);
    assert p1[n := p2[n]] == p0[n := p2[n]];
    forall m | m in e0 && m != n ensures FileKept(g, v0.data, e0[m], v2.data, e0[m]) {
      OtherCurrent(v0, p0, v1, p1, t0.live, n, m);
      FilesKept(g, v0.data, v1.data, v2.data, e0[m]);
    }
  }

  lemma GrownIsOnlyFile(g: Geometry, v: Volume, open: map<nat, Inode>, t: Tree, v': Volume, t': Tree, n: nat, i': Inode,
                        k: nat)
    requires FsInv(g, v, open, t) && n in open && n in Current(v, open, t.live) && t' == t.(owner := t'.owner)
    requires Grown(g, v, t.owner, v', t'.owner, Current(v, open, t.live), n, i', k)
    ensures OnlyFile(g, v, open, t, v', open[n := i'], t', n) && FsInv(g, v', open[n := i'], t')
  {
    hide MapsOk; hide OthersKept; hide KeptBut; hide Current; hide DirsOf; hide FsInv; hide Extends; hide Behind;
    OpenCurrent(g, v, open, t, n);
    OpenFileGrows(g, v, open, t, v', t'.owner, n, i', k);
  }

  lemma OpenCurrent(g: Geometry, v: Volume, open: map<nat, Inode>, t: Tree, n: nat)
    requires FsInv(g, v, open, t) && n in open
    ensures n in Current(v, open, t.live) && Current(v, open, t.live)[n] == open[n]
    ensures MapsOk(g, v, t.owner, Current(v, open, t.live)) && n in v.inodes && n in t.live
  {
    hide MapsOk; hide TreeOk; hide DirOk;
  }

  /** The block behind logical block k of the open file, allocated if missing. */
  method BlockFor(fs: FsInstance, n: nat, k: nat) returns (b: nat)
    requires Inv(fs) && n in fs.open
    modifies fs
    ensures Inv(fs) && n in fs.open
    ensures OnlyFile(fs.g, old(fs.Vol()), old(fs.open), old(fs.tree), fs.Vol(), fs.open, fs.tree, n)
    ensures fs.Vol().inodes == old(fs.Vol().inodes)
    ensures n in Current(old(fs.Vol()), old(fs.open), old(fs.tree.live))
    ensures Found(fs.g, old(fs.Vol()), old(fs.tree.owner), fs.Vol(), fs.tree.owner,
                  Current(old(fs.Vol()), old(fs.open), old(fs.tree.live)), n, fs.open[n], k, b)
  {
    hide ImageOk; hide Meaning; hide MapsOk; hide Current; hide DirsOf; hide FsInv; hide OnlyFile; hide Found;
    hide Grown;
    ghost var v, t, open := fs.Vol(), fs.tree, fs.open;
    ghost var eff := Current(v, open, t.live);
    OpenCurrent(fs.g, v, open, t, n);
    var i;
    b, i := InodeBlockAtOrAlloc(fs, fs.open[n], k, n, eff);
    FoundGrown(fs.g, v, t.owner, fs.Vol(), fs.tree.owner, eff, n, i, k, b);
    GrownIsOnlyFile(fs.g, v, open, t, fs.Vol(), fs.tree, n, i, k);
    fs.open := fs.open[n := i];
  }

  lemma FoundGrown(g: Geometry, v: Volume, owner: Owners, v': Volume, owner': Owners, eff: map<nat, Inode>, n: nat,
                   i': Inode, k: nat, b: nat)
    requires n in eff && Found(g, v, owner, v', owner', eff, n, i', k, b)
    ensures Grown(g, v, owner, v', owner', eff, n, i', k) && v'.inodes == v.inodes
    ensures KeptBut(g, v.data, eff[n], v'.data, i', k)
    ensures BlockAt(g, v'.data, i', k) == b
    ensures b != 0 ==> k < MaxBlocks(g)
    ensures BlockAt(g, v.data, eff[n], k) != 0 ==>
      v' == v && i' == eff[n] && owner' == owner && b == BlockAt(g, v.data, eff[n], k)
    ensures b == 0 ==> k >= MaxBlocks(g) || Full(g, v')
  {
    hide MapsOk; hide KeptBut; hide OthersKept; hide Full;
  }

  /** Rewriting the block behind logical block k of the open file. */
  method PutBlock(fs: FsInstance, n: nat, k: nat, b: nat, block: seq<byte>)
    requires Inv(fs) && n in fs.open && k < MaxBlocks(fs.g) && |block| == fs.g.bs
    requires b == BlockAt(fs.g, fs.Vol().data, fs.open[n], k) && b != 0
    modifies fs
    ensures Inv(fs) && n in fs.open
    ensures OnlyFile(fs.g, old(fs.Vol()), old(fs.open), old(fs.tree), fs.Vol(), fs.open, fs.tree, n)
    ensures fs.Vol().inodes == old(fs.Vol().inodes) && fs.open == old(fs.open) && fs.tree == old(fs.tree)
    ensures KeptBut(fs.g, old(fs.Vol().data), fs.open[n], fs.Vol().data, fs.open[n], k)
    ensures BlockAt(fs.g, fs.Vol().data, fs.open[n], k) == b && b in fs.Vol().data && fs.Vol().data[b] == block
  {
    hide ImageOk; hide Meaning; hide MapsOk; hide Current; hide DirsOf; hide FsInv; hide OnlyFile; hide BlockAt;
    hide Grown; hide KeptBut;
    ghost var v, t, open := fs.Vol(), fs.tree, fs.open;
    ghost var eff := Current(v, open, t.live);
    OpenCurrent(fs.g, v, open, t, n);
    WriteOwned(fs.g, v, t.owner, eff, n, k, block);
    WriteBlock(fs, b, block);
    GrownIsOnlyFile(fs.g, v, open, t, fs.Vol(), fs.tree, n, open[n], k);
    GrownKept(fs.g, v, t.owner, fs.Vol(), t.owner, eff, n, open[n], k);
    assert open[n := open[n]] == open;
  }

  lemma GrownKept(g: Geometry, v: Volume, owner: Owners, v': Volume, owner': Owners, eff: map<nat, Inode>, n: nat,
                  i': Inode, k: nat)
    requires n in eff && Grown(g, v, owner, v', owner', eff, n, i', k)
    ensures KeptBut(g, v.data, eff[n], v'.data, i', k)
  {
    hide MapsOk; hide KeptBut;
  }

  /** One round of write's loop: at most one block's worth of bytes. */
  method WriteChunk(fs: FsInstance, n: nat, pos: nat, chunk: seq<byte>) returns (ok: bool)
    requires Inv(fs) && n in fs.open && 0 < fs.g.bs && OffsetIn(fs.g, pos) + |chunk| <= fs.g.bs
    modifies fs
    ensures Inv(fs) && n in fs.open
    ensures OnlyFile(fs.g, old(fs.Vol()), old(fs.open), old(fs.tree), fs.Vol(), fs.open, fs.tree, n)
    ensures fs.Vol().inodes == old(fs.Vol().inodes)
    ensures Stored(fs.g, old(fs.Vol().data), old(fs.open[n]), fs.Vol().data, fs.open[n],
                   Wrapped(fs.g, pos), if ok then chunk else [])
    ensures ok ==> BlockNum(fs.g, pos) % U32 < MaxBlocks(fs.g)
    ensures !ok ==> BlockNum(fs.g, pos) % U32 >= MaxBlocks(fs.g) || Full(fs.g, fs.Vol())
    ensures fs.open[n] == old(fs.open[n]).(block := fs.open[n].block, blocks := fs.open[n].blocks)
  {
    hide ImageOk; hide Meaning; hide MapsOk; hide Current; hide DirsOf; hide FsInv; hide OnlyFile; hide BlockAt;
    hide Found; hide KeptBut; hide Stored; hide Splice; hide Full; hide BlockNum; hide OffsetIn; hide Wrapped;
    ghost var place := Wrapped(fs.g, pos);
    WrappedPlace(fs.g, pos);
    ghost var v, t, open := fs.Vol(), fs.tree, fs.open;
    ghost var eff := Current(v, open, t.live);
    OpenCurrent(fs.g, v, open, t, n);
    var logical := BlockNum(fs.g, pos) % U32;
    var phys := BlockFor(fs, n, logical);
    ghost var v1, t1, open1 := fs.Vol(), fs.tree, fs.open;
    FoundGrown(fs.g, v, t.owner, v1, t1.owner, eff, n, open1[n], logical, phys);
    FoundShape(fs.g, v, t.owner, v1, t1.owner, eff, n, open1[n], logical, phys);
    if phys == 0 {
      StillStored(fs.g, v.data, open[n], v1.data, open1[n], place);
      return false;
    }
    MappedData(fs, n, logical);
    var block := ReadBlock(fs, phys);
    PutBlock(fs, n, logical, phys, Splice(block, OffsetIn(fs.g, pos), chunk));
    OnlyFileTwice(fs.g, v, open, t, v1, open1, t1, fs.Vol(), fs.open, fs.tree, n);
    KeptBothBut(fs.g, v.data, open[n], v1.data, open1[n], fs.Vol().data, fs.open[n], logical);
    ChunkStored(fs.g, v.data, open[n], fs.Vol().data, fs.open[n], place, chunk, block);
    ok := true;
  }

  lemma FoundShape(g: Geometry, v: Volume, owner: Owners, v': Volume, owner': Owners, eff: map<nat, Inode>, n: nat,
                   i': Inode, k: nat, b: nat)
    requires n in eff && Found(g, v, owner, v', owner', eff, n, i', k, b)
    ensures i' == eff[n].(block := i'.block, blocks := i'.blocks)
    ensures v'.data.Keys == v.data.Keys
  {
    hide MapsOk; hide KeptBut; hide OthersKept;
  }

  /** When no block could be had, every byte that was mapped is as it was. */
  lemma StillStored(g: Geometry, data: Blocks, i: Inode, data': Blocks, i': Inode, pos: nat)
    requires 0 < g.bs && KeptBut(g, data, i, data', i', BlockNum(g, pos))
    requires BlockAt(g, data', i', BlockNum(g, pos)) == 0
    requires BlockAt(g, data, i, BlockNum(g, pos)) == 0
    ensures Stored(g, data, i, data', i', pos, [])
  {
    hide Mapped; hide ByteAt; hide KeptBut; hide BlockAt; hide BlockNum;
    forall p: nat | Mapped(g, data, i, p)
      ensures Mapped(g, data', i', p) && ByteAt(g, data', i', p) == ByteAt(g, data, i, p)
    {
      KeptByte(g, data, i, data', i', BlockNum(g, pos), p);
    }
  }

  lemma KeptByte(g: Geometry, data: Blocks, i: Inode, data': Blocks, i': Inode, k: nat, p: nat)
    requires 0 < g.bs && KeptBut(g, data, i, data', i', k) && Mapped(g, data, i, p)
    requires BlockNum(g, p) != k || BlockAt(g, data, i, k) == 0
    ensures Mapped(g, data', i', p) && ByteAt(g, data', i', p) == ByteAt(g, data, i, p)
  {
    hide BlockAt; hide BlockNum; hide OffsetIn;
    MappedBelow(g, data, i, p);
  }

  lemma MappedData(fs: FsInstance, n: nat, k: nat)
    requires Inv(fs) && n in fs.open && k < MaxBlocks(fs.g) && BlockAt(fs.g, fs.Vol().data, fs.open[n], k) != 0
    ensures var b := BlockAt(fs.g, fs.Vol().data, fs.open[n], k); b in fs.Vol().data && |fs.Vol().data[b]| == fs.g.bs
  {
    hide ImageOk; hide Meaning; hide MapsOk; hide Current; hide FsInv; hide BlockAt;
    OpenCurrent(fs.g, fs.Vol(), fs.open, fs.tree, n);
    ghost var eff := Current(fs.Vol(), fs.open, fs.tree.live);
    MappedOwned(fs.g, fs.Vol(), fs.tree.owner, eff, n, k);
  }

  lemma MappedOwned(g: Geometry, v: Volume, owner: Owners, eff: map<nat, Inode>, n: nat, k: nat)
    requires MapsOk(g, v, owner, eff) && n in eff && k < MaxBlocks(g) && BlockAt(g, v.data, eff[n], k) != 0
    ensures var b := BlockAt(g, v.data, eff[n], k); b in v.data && |v.data[b]| == g.bs && b in v.used
  {
    hide Counted; hide BlockAt;
    assert Slot(g, v.data, eff[n], k) == BlockAt(g, v.data, eff[n], k);
  }

  // ---------- write ----------

  /** Storing the private inode back, with a new size, disturbs nothing. */
  lemma SyncInode(g: Geometry, v: Volume, open: map<nat, Inode>, t: Tree, n: nat, i': Inode)
    requires FsInv(g, v, open, t) && n in open && i' == open[n].(size := i'.size)
    ensures var v' := v.(inodes := v.inodes[n := i']);
      FsInv(g, v', open[n := i'], t) && OnlyFile(g, v, open, t, v', open[n := i'], t, n)
  {
    hide TreeOk; hide DirOk; hide Contents; hide MapsOk; hide OthersKept; hide AllKept; hide LiveOk; hide Current;
    hide DirsOf; hide HandlesOk; hide Extends;
    SyncHandles(g, v, open, t, n, i');
    var v', open', eff := v.(inodes := v.inodes[n := i']), open[n := i'], Current(v, open, t.live);
    OpenCurrent(g, v, open, t, n);
    FieldsUnseen(g, v, t.owner, eff, n, i');
    SameMaps(g, v, v', t.owner, eff[n := i']);
    SyncLive(g, v, open, t, n, i');
    KeptAll(g, v, t.owner, eff, n);
    assert v'.inodes.Keys == v.inodes.Keys;
    SyncExtends(g, v, t.owner, eff, n, v', i');
  }

  lemma SyncExtends(g: Geometry, v: Volume, owner: Owners, eff: map<nat, Inode>, n: nat, v': Volume, i': Inode)
    requires MapsOk(g, v, owner, eff) && n in eff && i'.block == eff[n].block && v' == v.(inodes := v'.inodes)
    ensures Extends(g, v, eff[n], v', i')
  {
    hide MapsOk; hide AllSlots;
    ExtendsNot(g, v, owner, eff, n);
    ExtendsFields(g, v, eff[n], v, eff[n], i');
  }

  /** A record that counts as it should is a sound handle of itself. */
  lemma OwnHandle(g: Geometry, v: Volume, owner: Owners, eff: map<nat, Inode>, n: nat)
    requires MapsOk(g, v, owner, eff) && n in eff
    ensures HandleOk(g, v.data, owner.stale, n, eff[n], eff[n])
  {
    hide Slot; hide Owned; hide Owns;
    assert Counted(g, v.data, owner.stale, n, eff[n]);
  }

  lemma SyncHandles(g: Geometry, v: Volume, open: map<nat, Inode>, t: Tree, n: nat, i': Inode)
    requires FsInv(g, v, open, t) && n in open && i' == open[n].(size := i'.size)
    ensures HandlesOk(g, v.(inodes := v.inodes[n := i']), open[n := i'], t.owner.stale)
  {
    hide TreeOk; hide DirOk; hide MapsOk; hide LiveOk; hide Current; hide DirsOf; hide HandleOk;
    var eff := Current(v, open, t.live);
    OpenCurrent(g, v, open, t, n);
    FieldsUnseen(g, v, t.owner, eff, n, i');
    OwnHandle(g, v, t.owner, eff[n := i'], n);
  }

  lemma KeptAll(g: Geometry, v: Volume, owner: Owners, eff: map<nat, Inode>, n: nat)
    requires MapsOk(g, v, owner, eff)
    ensures OthersKept(g, v.data, v.data, eff, n)
  {
    hide MapsOk; hide FileKept;
    NothingKept(g, v, owner, eff);
  }

  lemma SyncLive(g: Geometry, v: Volume, open: map<nat, Inode>, t: Tree, n: nat, i': Inode)
    requires FsInv(g, v, open, t) && n in open && i' == open[n].(size := i'.size)
    ensures var v', open' := v.(inodes := v.inodes[n := i']), open[n := i'];
      && LiveOk(g, v', open', t.live) && DirsOf(g, v', t.live) == DirsOf(g, v, t.live)
      && Current(v', open', t.live) == Current(v, open, t.live)[n := i']
  {
    hide TreeOk; hide DirOk; hide Contents; hide MapsOk; hide DirsOf; hide HandlesOk; hide Current;
    var v', open' := v.(inodes := v.inodes[n := i']), open[n := i'];
    assert IsDir(i') <==> IsDir(open[n]);
    assert LiveOk(g, v', open', t.live) by { hide IsDir; }
    SyncCurrent(v, open, t.live, n, i');
    SameDirs(g, v, open, v', open', t.live) by { hide IsDir; }
  }

  lemma SyncCurrent(v: Volume, open: map<nat, Inode>, live: set<nat>, n: nat, i': Inode)
    requires n in open && n in live && live <= v.inodes.Keys
    ensures Current(v.(inodes := v.inodes[n := i']), open[n := i'], live) == Current(v, open, live)[n := i']
  {
  }

  lemma BytesSeeBlocks(g: Geometry, d0: Blocks, i0: Inode, data: Blocks, i: Inode, i': Inode, pos: nat,
                       bytes: seq<byte>)
    requires 0 < g.bs && Stored(g, d0, i0, data, i, pos, bytes) && i'.block == i.block
    ensures Stored(g, d0, i0, data, i', pos, bytes)
  {
    assert forall k: nat :: BlockAt(g, data, i', k) == BlockAt(g, data, i, k);
    forall p: nat
      ensures Mapped(g, data, i', p) == Mapped(g, data, i, p) && ByteAt(g, data, i', p) == ByteAt(g, data, i, p)
    {
    }
  }

  lemma NextChunk(g: Geometry, pos: nat, c: nat)
    requires 1024 <= g.bs < U16 && BlockNum(g, pos) < MaxBlocks(g) && OffsetIn(g, pos) + c <= g.bs
    ensures pos + c <= MaxBlocks(g) * g.bs && BlockNum(g, pos + c) < U32
  {
    DivMod(pos, g.bs);
    MulGap(pos / g.bs, MaxBlocks(g), g.bs);
    DivBelow(pos + c, g.bs, MaxBlocks(g) + 1);
  }

  lemma MapFits(g: Geometry)
    requires 1024 <= g.bs < U16
    ensures MaxBlocks(g) * g.bs < U32
  {
    MulMono(MaxBlocks(g), 16396, g.bs);
  }

  /** The state while write is under way, w bytes done. */
  ghost predicate Writing(g: Geometry, v0: Volume, p0: map<nat, Inode>, t0: Tree, v: Volume, p: map<nat, Inode>,
                          t: Tree, n: nat, offset: nat, done: seq<byte>)
    requires 0 < g.bs
  {
    && OnlyFile(g, v0, p0, t0, v, p, t, n) && v.inodes == v0.inodes
    && Stored(g, v0.data, p0[n], v.data, p[n], offset, done)
    && p[n] == p0[n].(block := p[n].block, blocks := p[n].blocks)
    && (done == [] || offset + |done| <= MaxBlocks(g) * g.bs)
  }

  lemma WritingMore(g: Geometry, v0: Volume, p0: map<nat, Inode>, t0: Tree, v1: Volume, p1: map<nat, Inode>, t1: Tree,
                    v2: Volume, p2: map<nat, Inode>, t2: Tree, n: nat, offset: nat, a: seq<byte>, b: seq<byte>)
    requires 1024 <= g.bs < U16 && Writing(g, v0, p0, t0, v1, p1, t1, n, offset, a)
    requires OnlyFile(g, v1, p1, t1, v2, p2, t2, n) && v2.inodes == v1.inodes
    requires p2[n] == p1[n].(block := p2[n].block, blocks := p2[n].blocks)
    requires Stored(g, v1.data, p1[n], v2.data, p2[n], offset + |a|, b)
    requires b != [] ==> OffsetIn(g, offset + |a|) + |b| <= g.bs && BlockNum(g, offset + |a|) < MaxBlocks(g)
    ensures Writing(g, v0, p0, t0, v2, p2, t2, n, offset, a + b)
    ensures b != [] ==> BlockNum(g, offset + |a + b|) < U32
  {
    hide Stored; hide OthersKept; hide DirsOf; hide BlockNum; hide OffsetIn; hide Current;
    OnlyFileTwice(g, v0, p0, t0, v1, p1, t1, v2, p2, t2, n);
    StoredTwice(g, v0.data, p0[n], v1.data, p1[n], v2.data, p2[n], offset, a, b);
    if b != [] { NextChunk(g, offset + |a|, |b|); }
    if a + b == [] { assert b == []; }
  }

  lemma WritingNothing(g: Geometry, v: Volume, p: map<nat, Inode>, t: Tree, n: nat, offset: nat)
    requires 0 < g.bs && FsInv(g, v, p, t) && n in p
    ensures Writing(g, v, p, t, v, p, t, n, offset, [])
  {
    hide TreeOk; hide DirOk; hide Contents; hide MapsOk; hide FileKept; hide Stored; hide Extends;
    OpenCurrent(g, v, p, t, n);
    ExtendsNot(g, v, t.owner, Current(v, p, t.live), n);
    NothingKept(g, v, t.owner, Current(v, p, t.live));
    StoredNothing(g, v.data, p[n], offset);
    assert p == p[n := p[n]];
  }

  /** The loop of write, one block at a time. */
  method WriteChunks(fs: FsInstance, n: nat, offset: nat, buf: seq<byte>) returns (k: nat)
    requires Inv(fs) && n in fs.open && 0 < fs.g.bs
    modifies fs
    ensures Inv(fs) && n in fs.open && k <= |buf| && 1024 <= fs.g.bs < U16
    ensures Writing(fs.g, old(fs.Vol()), old(fs.open), old(fs.tree), fs.Vol(), fs.open, fs.tree, n,
                    Wrapped(fs.g, offset), buf[..k])
    ensures k < |buf| ==> BlockNum(fs.g, offset + k) % U32 >= MaxBlocks(fs.g) || Full(fs.g, fs.Vol())
    ensures k > 0 ==> BlockNum(fs.g, offset) % U32 < MaxBlocks(fs.g)
  {
    hide ImageOk; hide Meaning; hide FsInv; hide OnlyFile; hide Stored; hide Full; hide BlockNum; hide OffsetIn;
    hide Writing; hide Wrapped; hide Geometry.SizesOk; hide Sized;
    ghost var v, t, open := fs.Vol(), fs.tree, fs.open;
    ghost var place := Wrapped(fs.g, offset);
    ValidSizes(fs);
    BlockSizes(fs.g);
    WrappedPlace(fs.g, offset);
    WritingNothing(fs.g, v, open, t, n, place);
    k := 0;
    assert buf[..0] == [];
    while k < |buf|
      invariant k <= |buf| && Inv(fs) && n in fs.open && Wrapped(fs.g, offset + k) == place + k
      invariant Writing(fs.g, v, open, t, fs.Vol(), fs.open, fs.tree, n, place, buf[..k])
      invariant k > 0 ==> BlockNum(fs.g, offset) % U32 < MaxBlocks(fs.g)
    {
      var pos := offset + k;
      var room := fs.g.bs - OffsetIn(fs.g, pos);
      var size := if room > |buf| - k then |buf| - k else room;
      var chunk := buf[k..k + size];
      ghost var v1, t1, open1 := fs.Vol(), fs.tree, fs.open;
      var ok := WriteChunk(fs, n, pos, chunk);
      WrappedPlace(fs.g, pos);
      WritingMore(fs.g, v, open, t, v1, open1, t1, fs.Vol(), fs.open, fs.tree, n,
                  place, buf[..k], if ok then chunk else []);
      if !ok {
        assert buf[..k] + [] == buf[..k];
        break;
      }
      MapFits(fs.g);
      WrappedNext(fs.g, pos, size);
      assert buf[..k] + chunk == buf[..k + size];
      k := k + size;
    }
  }

  /** What write does. After it returns k, the file holds buf[..k] at the wrapped offset, which is the offset itself
      below 2^32 blocks; every other mapped byte of it is as before, no other file and no directory has changed, and
      the handle and the inode table agree. Fewer bytes than asked are written only when the volume is full or the map
      ends. The size becomes the end of the write modulo 2^32 if that end lies beyond it. */
  ghost predicate WriteDid(g: Geometry, v: Volume, p: map<nat, Inode>, t: Tree, v': Volume, p': map<nat, Inode>,
                           t': Tree, n: nat, offset: nat, buf: seq<byte>, k: nat)
    requires 0 < g.bs
  {
    && OnlyFile(g, v, p, t, v', p', t', n) && n in p && n in p' && k <= |buf|
    && Stored(g, v.data, p[n], v'.data, p'[n], Wrapped(g, offset), buf[..k])
    && (Stored(g, v.data, p[n], v'.data, p'[n], offset, buf[..k]) <==> k == 0 || BlockNum(g, offset) < U32)
    && (k < |buf| ==> BlockNum(g, offset + k) % U32 >= MaxBlocks(g) || Full(g, v'))
    && n in v'.inodes && v'.inodes[n] == p'[n]
    && p'[n].size == (if offset + k > p[n].size then (offset + k) % U32 else p[n].size)
    && (k > 0 ==> Wrapped(g, offset) + k < U32) && (k > 0 && BlockNum(g, offset) < U32 ==> offset + k < U32)
    && (BlockNum(g, offset) % U32 >= MaxBlocks(g) ==> k == 0)
  }

  /** write through the handle of inode n. */
  method Write(fs: FsInstance, n: nat, offset: nat, buf: seq<byte>) returns (k: nat)
    requires Inv(fs) && n in fs.open && 0 < fs.g.bs
    modifies fs
    ensures Inv(fs) && n in fs.open
    ensures WriteDid(fs.g, old(fs.Vol()), old(fs.open), old(fs.tree), fs.Vol(), fs.open, fs.tree, n, offset, buf, k)
  {
    hide ImageOk; hide Meaning; hide FsInv; hide OnlyFile; hide Stored; hide Full; hide BlockNum; hide OffsetIn;
    hide Writing; hide Wrapped;
    ghost var v, t, open := fs.Vol(), fs.tree, fs.open;
    k := WriteChunks(fs, n, offset, buf);
    Finish(fs, n, offset, k, buf[..k], v, open, t);
    StoredAtOffset(fs.g, v.data, open[n], fs.Vol().data, fs.open[n], offset, buf[..k]);
    WrappedPlace(fs.g, offset);
  }

  /** The end of write: a larger size, then writeInode. */
  method Finish(fs: FsInstance, n: nat, offset: nat, k: nat, ghost done: seq<byte>, ghost v: Volume,
                ghost open: map<nat, Inode>, ghost t: Tree)
    requires Inv(fs) && n in fs.open && 1024 <= fs.g.bs < U16 && |done| == k
    requires Writing(fs.g, v, open, t, fs.Vol(), fs.open, fs.tree, n, Wrapped(fs.g, offset), done)
    modifies fs
    ensures Inv(fs) && n in fs.open && n in open && OnlyFile(fs.g, v, open, t, fs.Vol(), fs.open, fs.tree, n)
    ensures Stored(fs.g, v.data, open[n], fs.Vol().data, fs.open[n], Wrapped(fs.g, offset), done)
    ensures n in fs.Vol().inodes && fs.Vol().inodes[n] == fs.open[n]
    ensures fs.open[n].size == if offset + k > open[n].size then (offset + k) % U32 else open[n].size
    ensures k > 0 ==> Wrapped(fs.g, offset) + k < U32
    ensures Full(fs.g, old(fs.Vol())) ==> Full(fs.g, fs.Vol())
  {
    hide ImageOk; hide Meaning; hide FsInv; hide OnlyFile; hide Stored; hide Wrapped;
    ghost var v1, t1, open1 := fs.Vol(), fs.tree, fs.open;
    MapFits(fs.g);
    OpenCurrent(fs.g, v1, open1, t1, n);
    WritingOpen(fs.g, v, open, t, v1, open1, t1, n);
    var i: Inode := fs.open[n];
    if offset + k > i.size { i := i.(size := (offset + k) % U32); }
    SyncInode(fs.g, v1, open1, t1, n, i);
    fs.open := fs.open[n := i];
    var ok := WriteInode(fs, n, i);
    OnlyFileTwice(fs.g, v, open, t, v1, open1, t1, fs.Vol(), fs.open, fs.tree, n);
    BytesSeeBlocks(fs.g, v.data, open[n], v1.data, open1[n], i, Wrapped(fs.g, offset), done);
  }

  /** What is stored at the wrapped offset is stored at the offset exactly when that is the same, or nothing is
      stored. */
  lemma StoredAtOffset(g: Geometry, data: Blocks, i: Inode, data': Blocks, i': Inode, offset: nat, bytes: seq<byte>)
    requires 1024 <= g.bs < U16 && Stored(g, data, i, data', i', Wrapped(g, offset), bytes)
    ensures Stored(g, data, i, data', i', offset, bytes) <==> bytes == [] || BlockNum(g, offset) < U32
  {
    hide ByteAt; hide Mapped; hide Wrapped; hide BlockNum;
    WrappedPlace(g, offset);
    MapFits(g);
    if bytes != [] && BlockNum(g, offset) >= U32 { Unmapped(g, data', i', offset); }
  }

  lemma Unmapped(g: Geometry, data: Blocks, i: Inode, pos: nat)
    requires 1024 <= g.bs < U16 && BlockNum(g, pos) >= U32
    ensures !Mapped(g, data, i, pos)
  {
    hide BlockNum;
  }

  lemma WritingOpen(g: Geometry, v0: Volume, p0: map<nat, Inode>, t0: Tree, v: Volume, p: map<nat, Inode>, t: Tree,
                    n: nat)
    requires OnlyFile(g, v0, p0, t0, v, p, t, n)
    ensures n in p0 && n in p
  {
    hide OthersKept; hide DirsOf;
  }
}
