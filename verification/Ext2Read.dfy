/** read through a handle, which allocates where the file has holes. */
module Ext2Read {
  import opened Bytes
  import opened Arithmetic
  import opened Ext2Layout
  import opened Ext2Volume
  import opened Ext2Store
  import opened Ext2BlockMap
  import opened Ext2Fs
  import opened Ext2File

  /** The bytes returned for pos are the mapped ones of the file. */
  ghost predicate Fetched(g: Geometry, data: Blocks, i: Inode, pos: nat, bytes: seq<byte>)
    requires 0 < g.bs
  {
    forall p: nat :: pos <= p < pos + |bytes| && Mapped(g, data, i, p) ==> bytes[p - pos] == ByteAt(g, data, i, p)
  }

  /** The bytes are all that the file shows at pos: its mapped bytes, and 0 where nothing is mapped. */
  ghost predicate Shows(g: Geometry, data: Blocks, i: Inode, pos: nat, bytes: seq<byte>)
    requires 0 < g.bs
  {
    forall p: nat :: pos <= p < pos + |bytes| ==> bytes[p - pos] == ByteAt(g, data, i, p)
  }

  /** The range has no hole below the end of the map. */
  ghost predicate NoHole(g: Geometry, data: Blocks, i: Inode, pos: nat, count: nat)
    requires 0 < g.bs
  {
    forall p: nat :: pos <= p < pos + count && BlockNum(g, p) < MaxBlocks(g) ==> Mapped(g, data, i, p)
  }

  /** Every block that the file now maps holds what it held before, when it was mapped or when it was free. */
  ghost predicate SameContents(g: Geometry, data: Blocks, i: Inode, data': Blocks, i': Inode) {
    forall k: nat :: k < MaxBlocks(g) ==>
      && (BlockAt(g, data, i, k) != 0 ==> BlockAt(g, data', i', k) == BlockAt(g, data, i, k))
      && SameBlock(data, data', BlockAt(g, data', i', k))
  }

  /** Only blocks of the range have been newly mapped. */
  ghost predicate OnlyNear(g: Geometry, data: Blocks, i: Inode, data': Blocks, i': Inode, pos: nat, count: nat)
    requires 0 < g.bs
  {
    forall k: nat :: k < MaxBlocks(g) && BlockAt(g, data', i', k) != BlockAt(g, data, i, k) ==>
      count > 0 && BlockNum(g, pos) <= k <= BlockNum(g, pos + count - 1)
  }

  /** What a read has done with the file: holes of the range are filled until the volume is full, and the blocks that
      fill them show what they held while they were free. */
  ghost predicate HolesFilled(g: Geometry, v: Volume, i: Inode, v': Volume, i': Inode, pos: nat, count: nat)
    requires 0 < g.bs
  {
    && SameContents(g, v.data, i, v'.data, i') && OnlyNear(g, v.data, i, v'.data, i', pos, count)
    && (Full(g, v') || NoHole(g, v'.data, i', pos, count))
  }

  /** Whether a read takes blocks. */
  ghost predicate TakesNothing(g: Geometry, v: Volume, i: Inode, pos: nat, count: nat)
    requires 0 < g.bs
  {
    Full(g, v) || NoHole(g, v.data, i, pos, count)
  }

  /** The state while read is under way. It has taken blocks exactly if there was a hole and a block to be had; if it
      has taken none, nothing at all has changed. */
  ghost predicate Reading(g: Geometry, v0: Volume, p0: map<nat, Inode>, t0: Tree, v: Volume, p: map<nat, Inode>,
                          t: Tree, n: nat, offset: nat, done: seq<byte>)
    requires 0 < g.bs
  {
    && OnlyFile(g, v0, p0, t0, v, p, t, n) && v.inodes == v0.inodes && p[n].size == p0[n].size
    && Fetched(g, v0.data, p0[n], offset, done) && Shows(g, v.data, p[n], offset, done)
    && HolesFilled(g, v0, p0[n], v, p[n], offset, |done|)
    && (v.used == v0.used <==> TakesNothing(g, v0, p0[n], offset, |done|))
    && (v.used == v0.used ==> v == v0 && p == p0 && t == t0)
  }

  // ---------- one chunk of a read ----------

  lemma ChunkBlocks(g: Geometry, pos: nat, c: nat)
    requires 0 < g.bs && 0 < c && OffsetIn(g, pos) + c <= g.bs
    ensures forall p: nat :: pos <= p < pos + c ==> BlockNum(g, p) == BlockNum(g, pos)
    ensures forall p: nat :: pos <= p < pos + c ==> OffsetIn(g, p) == OffsetIn(g, pos) + (p - pos)
  {
    hide BlockNum; hide OffsetIn;
    forall p: nat | pos <= p < pos + c
      ensures BlockNum(g, p) == BlockNum(g, pos) && OffsetIn(g, p) == OffsetIn(g, pos) + (p - pos)
    {
      SameChunkBlock(g, pos, p);
    }
  }

  lemma ChunkShows(g: Geometry, data: Blocks, i: Inode, pos: nat, bytes: seq<byte>)
    requires 0 < g.bs && 0 < |bytes| && OffsetIn(g, pos) + |bytes| <= g.bs
    requires var b := BlockAt(g, data, i, BlockNum(g, pos));
      if b == 0 then bytes == Zeros(|bytes|)
      else b in data && |data[b]| == g.bs && bytes == data[b][OffsetIn(g, pos)..OffsetIn(g, pos) + |bytes|]
    ensures Shows(g, data, i, pos, bytes)
  {
    hide BlockAt; hide BlockNum; hide OffsetIn;
    ChunkBlocks(g, pos, |bytes|);
  }

  lemma ShownIsFetched(g: Geometry, data: Blocks, i: Inode, data': Blocks, i': Inode, pos: nat, bytes: seq<byte>)
    requires 0 < g.bs && SameContents(g, data, i, data', i') && Shows(g, data', i', pos, bytes)
    ensures Fetched(g, data, i, pos, bytes)
  {
    hide Mapped; hide ByteAt; hide SameContents;
    forall p: nat | pos <= p < pos + |bytes| && Mapped(g, data, i, p) ensures bytes[p - pos] == ByteAt(g, data, i, p) {
      SameByte(g, data, i, data', i', p);
    }
  }

  lemma SameByte(g: Geometry, data: Blocks, i: Inode, data': Blocks, i': Inode, p: nat)
    requires 0 < g.bs && SameContents(g, data, i, data', i') && Mapped(g, data, i, p)
    ensures Mapped(g, data', i', p) && ByteAt(g, data', i', p) == ByteAt(g, data, i, p)
  {
    hide BlockAt; hide BlockNum; hide OffsetIn;
    MappedBelow(g, data, i, p);
  }

  lemma FoundContents(g: Geometry, v: Volume, owner: Owners, v': Volume, owner': Owners, eff: map<nat, Inode>, n: nat,
                      i': Inode, k: nat, b: nat)
    requires MapsOk(g, v, owner, eff) && n in eff && Found(g, v, owner, v', owner', eff, n, i', k, b)
    ensures SameContents(g, v.data, eff[n], v'.data, i')
  {
    hide MapsOk; hide BlockAt; hide Full; hide Extends; hide Behind; hide OthersKept;
    if BlockAt(g, v.data, eff[n], k) != 0 && k < MaxBlocks(g) { MappedOwned(g, v, owner, eff, n, k); }
  }

  lemma FoundNear(g: Geometry, v: Volume, owner: Owners, v': Volume, owner': Owners, eff: map<nat, Inode>, n: nat,
                  i': Inode, b: nat, pos: nat, c: nat)
    requires 0 < g.bs && 0 < c && OffsetIn(g, pos) + c <= g.bs
    requires n in eff && Found(g, v, owner, v', owner', eff, n, i', BlockNum(g, pos), b)
    ensures OnlyNear(g, v.data, eff[n], v'.data, i', pos, c)
    ensures Full(g, v') || NoHole(g, v'.data, i', pos, c)
    ensures v'.used == v.used <==> TakesNothing(g, v, eff[n], pos, c)
    ensures v'.used == v.used ==> v' == v && owner' == owner && i' == eff[n]
  {
    hide MapsOk; hide BlockAt; hide Full; hide Behind; hide OthersKept; hide BlockNum; hide OffsetIn; hide AllSlots;
    hide Slot;
    ChunkBlocks(g, pos, c);
    assert BlockNum(g, pos + c - 1) == BlockNum(g, pos);
    if TakesNothing(g, v, eff[n], pos, c) {
      assert Full(g, v) || BlockNum(g, pos) >= MaxBlocks(g) || Mapped(g, v.data, eff[n], pos);
    } else {
      HoleTakes(g, v, owner, v', owner', eff, n, i', BlockNum(g, pos), b);
    }
  }

  /** Looking up a hole takes a block whenever there is one to take. */
  lemma HoleTakes(g: Geometry, v: Volume, owner: Owners, v': Volume, owner': Owners, eff: map<nat, Inode>, n: nat,
                  i': Inode, k: nat, b: nat)
    requires n in eff && Found(g, v, owner, v', owner', eff, n, i', k, b)
    requires BlockAt(g, v.data, eff[n], k) == 0 && k < MaxBlocks(g) && !Full(g, v)
    ensures v'.used != v.used
  {
    hide MapsOk; hide BlockAt; hide Extends; hide Behind; hide OthersKept; hide KeptBut;
  }

  lemma ChunkRead(g: Geometry, v: Volume, p: map<nat, Inode>, t: Tree, v': Volume, p': map<nat, Inode>, t': Tree,
                  n: nat, pos: nat, bytes: seq<byte>, b: nat)
    requires 0 < g.bs && 0 < |bytes| && OffsetIn(g, pos) + |bytes| <= g.bs && FsInv(g, v, p, t) && n in p
    requires OnlyFile(g, v, p, t, v', p', t', n) && n in Current(v, p, t.live)
    requires Found(g, v, t.owner, v', t'.owner, Current(v, p, t.live), n, p'[n], BlockNum(g, pos), b)
    requires b == 0 ==> bytes == Zeros(|bytes|)
    requires b != 0 ==> b in v'.data && |v'.data[b]| == g.bs
    requires b != 0 ==> bytes == v'.data[b][OffsetIn(g, pos)..OffsetIn(g, pos) + |bytes|]
    ensures Reading(g, v, p, t, v', p', t', n, pos, bytes)
  {
    hide MapsOk; hide Current; hide DirsOf; hide FsInv; hide OnlyFile; hide BlockAt; hide Found; hide KeptBut;
    hide Full; hide Fetched; hide Shows; hide BlockNum; hide OffsetIn; hide SameContents; hide OnlyNear;
    hide NoHole; hide TakesNothing;
    var eff := Current(v, p, t.live);
    OpenCurrent(g, v, p, t, n);
    FileOpen(g, v, p, t, v', p', t', n);
    FoundGrown(g, v, t.owner, v', t'.owner, eff, n, p'[n], BlockNum(g, pos), b);
    FoundShape(g, v, t.owner, v', t'.owner, eff, n, p'[n], BlockNum(g, pos), b);
    FoundContents(g, v, t.owner, v', t'.owner, eff, n, p'[n], BlockNum(g, pos), b);
    FoundNear(g, v, t.owner, v', t'.owner, eff, n, p'[n], b, pos, |bytes|);
    ChunkShows(g, v'.data, p'[n], pos, bytes);
    ShownIsFetched(g, v.data, p[n], v'.data, p'[n], pos, bytes);
  }

  /** One round of read's loop. The lookup allocates in a hole; it leaves a mapped block alone. */
  method ReadChunk(fs: FsInstance, n: nat, pos: nat, c: nat) returns (bytes: seq<byte>)
    requires Inv(fs) && n in fs.open && 0 < fs.g.bs && BlockNum(fs.g, pos) < U32
    requires 0 < c && OffsetIn(fs.g, pos) + c <= fs.g.bs
    modifies fs
    ensures Inv(fs) && n in fs.open && |bytes| == c
    ensures Reading(fs.g, old(fs.Vol()), old(fs.open), old(fs.tree), fs.Vol(), fs.open, fs.tree, n, pos, bytes)
  {
    hide ImageOk; hide Meaning; hide MapsOk; hide Current; hide DirsOf; hide FsInv; hide OnlyFile; hide BlockAt;
    hide Found; hide KeptBut; hide Reading; hide Full; hide BlockNum; hide OffsetIn;
    ghost var v, t, open := fs.Vol(), fs.tree, fs.open;
    var logical := BlockNum(fs.g, pos) % U32;
    var phys := BlockFor(fs, n, logical);
    FoundGrown(fs.g, v, t.owner, fs.Vol(), fs.tree.owner, Current(v, open, t.live), n, fs.open[n], logical, phys);
    if phys == 0 {
      bytes := Zeros(c);
    } else {
      MappedData(fs, n, logical);
      var block := ReadBlock(fs, phys);
      bytes := block[OffsetIn(fs.g, pos)..OffsetIn(fs.g, pos) + c];
    }
    ChunkRead(fs.g, v, open, t, fs.Vol(), fs.open, fs.tree, n, pos, bytes, phys);
  }

  lemma FileOpen(g: Geometry, v: Volume, p: map<nat, Inode>, t: Tree, v': Volume, p': map<nat, Inode>, t': Tree, n: nat)
    requires OnlyFile(g, v, p, t, v', p', t', n)
    ensures n in p && n in p' && p' == p[n := p'[n]] && (p'[n] == p[n] ==> p' == p) && (t'.owner == t.owner ==> t' == t)
  {
    hide OthersKept; hide DirsOf; hide Extends;
  }

  // ---------- one chunk after another ----------

  lemma ContentsTwice(g: Geometry, v0: Volume, i0: Inode, v1: Volume, i1: Inode, v2: Volume, i2: Inode)
    requires Extends(g, v0, i0, v1, i1) && Extends(g, v1, i1, v2, i2)
    requires SameContents(g, v0.data, i0, v1.data, i1) && SameContents(g, v1.data, i1, v2.data, i2)
    ensures SameContents(g, v0.data, i0, v2.data, i2)
  {
    hide BlockAt; hide AllSlots;
    forall k: nat | k < MaxBlocks(g) ensures SameBlock(v0.data, v2.data, BlockAt(g, v2.data, i2, k)) {
      assert Slot(g, v1.data, i1, k) == BlockAt(g, v1.data, i1, k);
      assert Slot(g, v2.data, i2, k) == BlockAt(g, v2.data, i2, k);
    }
  }

  lemma BlocksAhead(g: Geometry, a: nat, b: nat)
    requires 0 < g.bs && a <= b
    ensures BlockNum(g, a) <= BlockNum(g, b)
  {
    DivMod(a, g.bs);
    DivMod(b, g.bs);
    if b / g.bs < a / g.bs { MulGap(b / g.bs, a / g.bs, g.bs); }
  }

  lemma NearTwice(g: Geometry, d0: Blocks, i0: Inode, d1: Blocks, i1: Inode, d2: Blocks, i2: Inode, pos: nat, a: nat,
                  b: nat)
    requires 0 < g.bs && OnlyNear(g, d0, i0, d1, i1, pos, a) && OnlyNear(g, d1, i1, d2, i2, pos + a, b)
    ensures OnlyNear(g, d0, i0, d2, i2, pos, a + b)
  {
    hide BlockAt; hide BlockNum;
    BlocksAhead(g, pos, pos + a);
    if a > 0 { BlocksAhead(g, pos + a - 1, pos + a + b - 1); }
  }

  lemma NoHoleJoin(g: Geometry, data: Blocks, i: Inode, pos: nat, a: nat, b: nat)
    requires 0 < g.bs
    ensures NoHole(g, data, i, pos, a + b) <==> NoHole(g, data, i, pos, a) && NoHole(g, data, i, pos + a, b)
  {
    hide Mapped; hide BlockNum;
  }

  lemma NoHoleStays(g: Geometry, data: Blocks, i: Inode, data': Blocks, i': Inode, pos: nat, count: nat)
    requires 0 < g.bs && SameContents(g, data, i, data', i') && NoHole(g, data, i, pos, count)
    ensures NoHole(g, data', i', pos, count)
  {
    hide Mapped; hide BlockNum; hide SameContents; hide ByteAt;
    forall p: nat | pos <= p < pos + count && BlockNum(g, p) < MaxBlocks(g) ensures Mapped(g, data', i', p) {
      SameByte(g, data, i, data', i', p);
    }
  }

  /** Bytes once shown are still shown: their blocks stay, and where there were none there are none to come. */
  lemma ShownStays(g: Geometry, data: Blocks, i: Inode, data': Blocks, i': Inode, pos: nat, bytes: seq<byte>)
    requires 0 < g.bs && SameContents(g, data, i, data', i') && Shows(g, data, i, pos, bytes)
    requires NoHole(g, data, i, pos, |bytes|)
    ensures Shows(g, data', i', pos, bytes)
  {
    hide SameContents; hide BlockNum; hide OffsetIn;
    forall p: nat | pos <= p < pos + |bytes| ensures bytes[p - pos] == ByteAt(g, data', i', p) {
      if BlockNum(g, p) < MaxBlocks(g) {
        SameByte(g, data, i, data', i', p);
      } else {
        BeyondByte(g, data, i, p);
        BeyondByte(g, data', i', p);
      }
    }
  }

  lemma BeyondByte(g: Geometry, data: Blocks, i: Inode, p: nat)
    requires 0 < g.bs && BlockNum(g, p) >= MaxBlocks(g)
    ensures ByteAt(g, data, i, p) == 0
  {
  }

  lemma ShowsJoin(g: Geometry, data: Blocks, i: Inode, pos: nat, a: seq<byte>, b: seq<byte>)
    requires 0 < g.bs && Shows(g, data, i, pos, a) && Shows(g, data, i, pos + |a|, b)
    ensures Shows(g, data, i, pos, a + b)
  {
    hide ByteAt;
  }

  lemma FilledTwice(g: Geometry, v0: Volume, i0: Inode, v1: Volume, i1: Inode, v2: Volume, i2: Inode, pos: nat, a: nat,
                    b: nat)
    requires 0 < g.bs && Extends(g, v0, i0, v1, i1) && Extends(g, v1, i1, v2, i2)
    requires HolesFilled(g, v0, i0, v1, i1, pos, a) && HolesFilled(g, v1, i1, v2, i2, pos + a, b)
    requires Full(g, v1) ==> v2 == v1
    ensures HolesFilled(g, v0, i0, v2, i2, pos, a + b)
  {
    hide Extends; hide SameContents; hide OnlyNear; hide NoHole; hide Full;
    ContentsTwice(g, v0, i0, v1, i1, v2, i2);
    NearTwice(g, v0.data, i0, v1.data, i1, v2.data, i2, pos, a, b);
    if NoHole(g, v1.data, i1, pos, a) { NoHoleStays(g, v1.data, i1, v2.data, i2, pos, a); }
    NoHoleJoin(g, v2.data, i2, pos, a, b);
  }

  lemma ReadingMore(g: Geometry, v0: Volume, p0: map<nat, Inode>, t0: Tree, v1: Volume, p1: map<nat, Inode>, t1: Tree,
                    v2: Volume, p2: map<nat, Inode>, t2: Tree, n: nat, offset: nat, a: seq<byte>, b: seq<byte>)
    requires 0 < g.bs && Reading(g, v0, p0, t0, v1, p1, t1, n, offset, a)
    requires Reading(g, v1, p1, t1, v2, p2, t2, n, offset + |a|, b)
    ensures Reading(g, v0, p0, t0, v2, p2, t2, n, offset, a + b)
  {
    hide OnlyFile; hide Fetched; hide Shows; hide SameContents; hide OnlyNear; hide NoHole; hide Full; hide Extends;
    OnlyFileTwice(g, v0, p0, t0, v1, p1, t1, v2, p2, t2, n);
    FileExtends(g, v0, p0, t0, v1, p1, t1, n);
    FileExtends(g, v1, p1, t1, v2, p2, t2, n);
    FilledTwice(g, v0, p0[n], v1, p1[n], v2, p2[n], offset, |a|, |b|);
    if !Full(g, v1) { ShownStays(g, v1.data, p1[n], v2.data, p2[n], offset, a); }
    ShowsJoin(g, v2.data, p2[n], offset, a, b);
    ShownIsFetched(g, v0.data, p0[n], v2.data, p2[n], offset, a + b);
    NoHoleJoin(g, v0.data, p0[n], offset, |a|, |b|);
  }

  lemma FileExtends(g: Geometry, v: Volume, p: map<nat, Inode>, t: Tree, v': Volume, p': map<nat, Inode>, t': Tree,
                    n: nat)
    requires OnlyFile(g, v, p, t, v', p', t', n)
    ensures n in p && n in p' && Extends(g, v, p[n], v', p'[n]) && Behind(p[n], p'[n]) && v.used <= v'.used
  {
    hide OthersKept; hide DirsOf; hide AllSlots; hide Slot;
  }

  lemma ReadingNothing(g: Geometry, v: Volume, p: map<nat, Inode>, t: Tree, n: nat, offset: nat)
    requires 0 < g.bs && FsInv(g, v, p, t) && n in p
    ensures Reading(g, v, p, t, v, p, t, n, offset, [])
  {
    hide FsInv; hide OnlyFile; hide Full; hide BlockAt;
    WritingNothing(g, v, p, t, n, offset);
    OpenCurrent(g, v, p, t, n);
    OwnContents(g, v, t.owner, Current(v, p, t.live), n);
  }

  lemma OwnContents(g: Geometry, v: Volume, owner: Owners, eff: map<nat, Inode>, n: nat)
    requires MapsOk(g, v, owner, eff) && n in eff
    ensures SameContents(g, v.data, eff[n], v.data, eff[n])
  {
    hide MapsOk; hide BlockAt;
    forall k: nat | k < MaxBlocks(g) ensures SameBlock(v.data, v.data, BlockAt(g, v.data, eff[n], k)) {
      if BlockAt(g, v.data, eff[n], k) != 0 { MappedOwned(g, v, owner, eff, n, k); }
    }
  }

  /** How many bytes a read of count bytes gives. */
  function ReadLength(size: nat, offset: nat, count: nat): nat {
    if offset >= size then 0 else if offset + count > size then size - offset else count
  }

  /** What read does: as many bytes as the size allows, the mapped ones exact and the others as the file then
      shows them; no mapped byte changes, and blocks are taken exactly if there is a hole in the range and a
      block to be had. */
  ghost predicate ReadDid(g: Geometry, v: Volume, p: map<nat, Inode>, t: Tree, v': Volume, p': map<nat, Inode>,
                          t': Tree, n: nat, offset: nat, count: nat, bytes: seq<byte>)
    requires 0 < g.bs
  {
    && Reading(g, v, p, t, v', p', t', n, offset, bytes) && n in p && n in p'
    && |bytes| == ReadLength(p[n].size, offset, count)
    && Stored(g, v.data, p[n], v'.data, p'[n], offset, [])
  }

  lemma ContentsStored(g: Geometry, data: Blocks, i: Inode, data': Blocks, i': Inode, pos: nat)
    requires 0 < g.bs && SameContents(g, data, i, data', i')
    ensures Stored(g, data, i, data', i', pos, [])
  {
    hide Mapped; hide ByteAt; hide SameContents;
    forall p: nat | Mapped(g, data, i, p)
      ensures Mapped(g, data', i', p) && ByteAt(g, data', i', p) == ByteAt(g, data, i, p)
    {
      SameByte(g, data, i, data', i', p);
    }
  }

  lemma ReadingDid(g: Geometry, v: Volume, p: map<nat, Inode>, t: Tree, v': Volume, p': map<nat, Inode>, t': Tree,
                   n: nat, offset: nat, count: nat, bytes: seq<byte>)
    requires 0 < g.bs && Reading(g, v, p, t, v', p', t', n, offset, bytes) && n in p
    requires |bytes| == ReadLength(p[n].size, offset, count)
    ensures ReadDid(g, v, p, t, v', p', t', n, offset, count, bytes)
  {
    hide OnlyFile; hide Fetched; hide Shows; hide SameContents; hide OnlyNear; hide NoHole; hide Full; hide Stored;
    FileExtends(g, v, p, t, v', p', t', n);
    ContentsStored(g, v.data, p[n], v'.data, p'[n], offset);
  }

  /** read through the handle of inode n. */
  method Read(fs: FsInstance, n: nat, offset: nat, count: nat) returns (bytes: seq<byte>)
    requires Inv(fs) && n in fs.open && 0 < fs.g.bs
    modifies fs
    ensures Inv(fs) && n in fs.open
    ensures ReadDid(fs.g, old(fs.Vol()), old(fs.open), old(fs.tree), fs.Vol(), fs.open, fs.tree, n, offset, count,
                    bytes)
  {
    hide ImageOk; hide Meaning; hide FsInv; hide Reading; hide BlockNum; hide OffsetIn; hide ReadDid;
    ghost var v, t, open := fs.Vol(), fs.tree, fs.open;
    ReadingNothing(fs.g, v, open, t, n, offset);
    bytes := [];
    var size := fs.open[n].size;
    if offset >= size {
      ReadingDid(fs.g, v, open, t, v, open, t, n, offset, count, []);
      return;
    }
    var total := if offset + count > size then size - offset else count;
    while |bytes| < total
      invariant |bytes| <= total && Inv(fs) && n in fs.open
      invariant Reading(fs.g, v, open, t, fs.Vol(), fs.open, fs.tree, n, offset, bytes)
    {
      var pos := offset + |bytes|;
      var room := fs.g.bs - OffsetIn(fs.g, pos);
      var chunk := if room > total - |bytes| then total - |bytes| else room;
      SmallBlockNum(fs.g, pos);
      ghost var v1, t1, open1 := fs.Vol(), fs.tree, fs.open;
      var more := ReadChunk(fs, n, pos, chunk);
      ReadingMore(fs.g, v, open, t, v1, open1, t1, fs.Vol(), fs.open, fs.tree, n, offset, bytes, more);
      bytes := bytes + more;
    }
    ReadingDid(fs.g, v, open, t, fs.Vol(), fs.open, fs.tree, n, offset, count, bytes);
  }

  lemma SmallBlockNum(g: Geometry, pos: nat)
    requires 0 < g.bs && pos < U32
    ensures BlockNum(g, pos) < U32
  {
    DivMod(pos, g.bs);
    MulMono(1, g.bs, pos / g.bs);
  }

  // ---------- what was written is read ----------

  /** A read of bytes that have just been stored returns them and changes nothing. */
  lemma ReadBack(g: Geometry, d0: Blocks, i0: Inode, v: Volume, p: map<nat, Inode>, t: Tree, v': Volume,
                 p': map<nat, Inode>, t': Tree, n: nat, pos: nat, buf: seq<byte>, bytes: seq<byte>)
    requires 0 < g.bs && n in p && Stored(g, d0, i0, v.data, p[n], pos, buf) && |bytes| <= |buf|
    requires Reading(g, v, p, t, v', p', t', n, pos, bytes)
    ensures bytes == buf[..|bytes|] && v' == v && p' == p && t' == t
  {
    hide Mapped; hide ByteAt; hide OnlyFile; hide Shows; hide HolesFilled; hide BlockNum;
    FileExtends(g, v, p, t, v', p', t', n);
    forall k | 0 <= k < |bytes| ensures bytes[k] == buf[k] {
      assert Mapped(g, v.data, p[n], pos + k);
      assert bytes[pos + k - pos] == ByteAt(g, v.data, p[n], pos + k) == buf[pos + k - pos];
    }
  }

  /** Reading back what a write has just stored returns exactly those bytes below 2^32 blocks, and nothing beyond. */
  method WriteThenRead(fs: FsInstance, n: nat, offset: nat, buf: seq<byte>) returns (k: nat, bytes: seq<byte>)
    requires Inv(fs) && n in fs.open && 0 < fs.g.bs
    modifies fs
    ensures Inv(fs) && n in fs.open && bytes == if BlockNum(fs.g, offset) < U32 && k <= |buf| then buf[..k] else []
    ensures WriteDid(fs.g, old(fs.Vol()), old(fs.open), old(fs.tree), fs.Vol(), fs.open, fs.tree, n, offset, buf, k)
  {
    hide ImageOk; hide Meaning; hide FsInv; hide OnlyFile; hide Stored; hide Reading; hide BlockNum; hide Full;
    hide Wrapped;
    ghost var d0, i0 := fs.Vol().data, fs.open[n];
    ValidSizes(fs);
    k := Write(fs, n, offset, buf);
    ghost var v, p, t := fs.Vol(), fs.open, fs.tree;
    bytes := Read(fs, n, offset, k);
    if BlockNum(fs.g, offset) < U32 {
      ReadBack(fs.g, d0, i0, v, p, t, fs.Vol(), fs.open, fs.tree, n, offset, buf[..k], bytes);
    } else {
      FarOffset(fs.g, offset);
      StoredNothing(fs.g, v.data, p[n], offset);
      ReadBack(fs.g, v.data, p[n], v, p, t, fs.Vol(), fs.open, fs.tree, n, offset, [], bytes);
    }
  }

  lemma FarOffset(g: Geometry, pos: nat)
    requires 1024 <= g.bs && BlockNum(g, pos) >= U32
    ensures pos >= U32
  {
    DivMod(pos, g.bs);
    MulMono(U32, BlockNum(g, pos), g.bs);
  }

  /** An offset at 2^32 bytes lies beyond every block map: nothing is written, the size becomes 0, and nothing that the
      file held can be read any more. */
  method WriteAtFourGigabytes(fs: FsInstance, n: nat, buf: seq<byte>, count: nat) returns (k: nat, bytes: seq<byte>)
    requires Inv(fs) && n in fs.open
    modifies fs
    ensures Inv(fs) && n in fs.open && k == 0 && fs.open[n].size == 0 && bytes == []
  {
    hide ImageOk; hide Meaning; hide FsInv; hide OnlyFile; hide Stored; hide Fetched; hide Shows; hide HolesFilled;
    hide TakesNothing; hide Full;
    ValidSizes(fs);
    FarBlock(fs.g);
    k := Write(fs, n, U32, buf);
    bytes := Read(fs, n, 0, count);
  }

  lemma FarBlock(g: Geometry)
    requires 1024 <= g.bs < U16
    ensures MaxBlocks(g) <= BlockNum(g, U32) < U32 && Wrapped(g, U32) == U32
  {
    MapFits(g);
    DivBelow(U32, g.bs, MaxBlocks(g));
    DivBelow(U32, g.bs, U32);
    WrappedPlace(g, U32);
  }
}
