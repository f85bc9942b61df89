/** A directory: the entries of all its blocks, read by lookup and edited by insert and remove. */
module Ext2Dir {
  import opened Bytes
  import opened Arithmetic
  import opened Ext2Layout
  import opened Ext2Volume
  import opened Ext2Store
  import opened Ext2BlockMap
  import opened Ext2DirBlock

  function DirBlocks(g: Geometry, i: Inode): nat
    requires 0 < g.bs
  {
    i.size / g.bs
  }

  ghost predicate DirBlockOk(g: Geometry, data: Blocks, i: Inode, k: nat) {
    var b := BlockAt(g, data, i, k);
    b != 0 && b in data && |data[b]| == g.bs && Tiled(data[b], 0)
  }

  /** Every block of the directory is there and is tiled by records. */
  ghost predicate DirOk(g: Geometry, data: Blocks, i: Inode) {
    && 0 < g.bs && IsDir(i) && i.size % g.bs == 0 && DirBlocks(g, i) <= MaxBlocks(g)
    && (forall k: nat :: k < DirBlocks(g, i) ==> DirBlockOk(g, data, i, k))
  }

  ghost predicate BlocksOk(g: Geometry, data: Blocks, i: Inode, k: nat) {
    forall j: nat :: j < k ==> DirBlockOk(g, data, i, j)
  }

  ghost function BlockEntries(g: Geometry, data: Blocks, i: Inode, k: nat): seq<Entry>
    requires DirBlockOk(g, data, i, k)
  {
    Entries(data[BlockAt(g, data, i, k)], 0)
  }

  /** The entries of the first k blocks. */
  ghost function Listing(g: Geometry, data: Blocks, i: Inode, k: nat): seq<Entry>
    requires BlocksOk(g, data, i, k)
  {
    if k == 0 then [] else Listing(g, data, i, k - 1) + BlockEntries(g, data, i, k - 1)
  }

  ghost function Contents(g: Geometry, data: Blocks, i: Inode): seq<Entry>
    requires DirOk(g, data, i)
  {
    Listing(g, data, i, DirBlocks(g, i))
  }

  // ---------- what does not touch a directory does not change it ----------

  lemma {:induction false} ListingSame(g: Geometry, data: Blocks, i: Inode, data': Blocks, i': Inode, k: nat)
    requires BlocksOk(g, data, i, k)
    requires forall j: nat ::
      j < k ==> BlockAt(g, data', i', j) == BlockAt(g, data, i, j) && SameBlock(data, data', BlockAt(g, data, i, j))
    ensures BlocksOk(g, data', i', k) && Listing(g, data', i', k) == Listing(g, data, i, k)
  {
    hide BlockAt; hide Entries; hide Tiled;
    if k > 0 {
      ListingSame(g, data, i, data', i', k - 1);
      assert DirBlockOk(g, data, i, k - 1);
    }
  }

  lemma DirKept(g: Geometry, data: Blocks, i: Inode, data': Blocks, i': Inode)
    requires DirOk(g, data, i) && FileKept(g, data, i, data', i') && i'.size == i.size && i'.mode == i.mode
    ensures DirOk(g, data', i') && Contents(g, data', i') == Contents(g, data, i)
  {
    hide BlockAt; hide Listing; hide DirBlockOk;
    ListingSame(g, data, i, data', i', DirBlocks(g, i));
  }

  // ---------- lifting a change of one block to the whole directory ----------

  lemma InsertedRight(a: seq<Entry>, b: seq<Entry>, b': seq<Entry>, e: Entry)
    requires Inserted(b, b', e)
    ensures Inserted(a + b, a + b', e)
  {
    var k :| 0 <= k <= |b| && b' == InsertAt(b, k, e);
    assert (a + b)[..|a| + k] == a + b[..k] && (a + b)[|a| + k..] == b[k..];
    assert a + b' == InsertAt(a + b, |a| + k, e);
  }

  lemma InsertedLeft(a: seq<Entry>, a': seq<Entry>, b: seq<Entry>, e: Entry)
    requires Inserted(a, a', e)
    ensures Inserted(a + b, a' + b, e)
  {
    var k :| 0 <= k <= |a| && a' == InsertAt(a, k, e);
    assert (a + b)[..k] == a[..k] && (a + b)[k..] == a[k..] + b;
    assert a' + b == InsertAt(a + b, k, e);
  }

  lemma RemovedRight(a: seq<Entry>, b: seq<Entry>, b': seq<Entry>, name: Name)
    requires Removed(b, b', name) && NoName(a, name)
    ensures Removed(a + b, a + b', name)
  {
    hide RemoveAt; hide NoName;
    var k :| 0 <= k < |b| && b[k].name == name && NoName(b[..k], name) && b' == RemoveAt(b, k);
    RemoveAtRight(a, b, k);
    NoNameConcat(a, b[..k], name);
  }

  lemma RemoveAtRight(a: seq<Entry>, b: seq<Entry>, k: nat)
    requires k < |b|
    ensures (a + b)[..|a| + k] == a + b[..k] && (a + b)[|a| + k] == b[k]
    ensures RemoveAt(a + b, |a| + k) == a + RemoveAt(b, k)
  {
    assert (a + b)[|a| + k + 1..] == b[k + 1..];
  }

  lemma RemovedLeft(a: seq<Entry>, a': seq<Entry>, b: seq<Entry>, name: Name)
    requires Removed(a, a', name)
    ensures Removed(a + b, a' + b, name)
  {
    hide NoName; hide RemoveAt;
    var k :| 0 <= k < |a| && a[k].name == name && NoName(a[..k], name) && a' == RemoveAt(a, k);
    RemoveAtLeft(a, b, k);
  }

  lemma RemoveAtLeft(a: seq<Entry>, b: seq<Entry>, k: nat)
    requires k < |a|
    ensures (a + b)[..k] == a[..k] && (a + b)[k] == a[k] && RemoveAt(a + b, k) == RemoveAt(a, k) + b
  {
    assert (a + b)[k + 1..] == a[k + 1..] + b;
  }

  /** Block k alone differs, and stays tiled. */
  ghost predicate BlockEdited(g: Geometry, data: Blocks, data': Blocks, i: Inode, k: nat, n: nat) {
    && k < n && BlocksOk(g, data, i, n) && DirBlockOk(g, data', i, k)
    && (forall j: nat :: j < n && j != k ==>
          BlockAt(g, data', i, j) == BlockAt(g, data, i, j) && SameBlock(data, data', BlockAt(g, data, i, j)))
  }

  lemma EditedOk(g: Geometry, data: Blocks, data': Blocks, i: Inode, k: nat, n: nat)
    requires BlockEdited(g, data, data', i, k, n)
    ensures BlocksOk(g, data', i, n)
  {
    hide BlockAt; hide Tiled;
    forall j: nat | j < n ensures DirBlockOk(g, data', i, j) {
      if j != k { assert DirBlockOk(g, data, i, j); }
    }
  }

  lemma {:induction false} ListingInserted(g: Geometry, data: Blocks, data': Blocks, i: Inode, k: nat, n: nat, e: Entry)
    requires BlockEdited(g, data, data', i, k, n) && BlocksOk(g, data', i, n)
    requires Inserted(BlockEntries(g, data, i, k), BlockEntries(g, data', i, k), e)
    ensures Inserted(Listing(g, data, i, n), Listing(g, data', i, n), e)
  {
    hide BlockAt; hide Inserted; hide Tiled; hide Entries;
    if n == k + 1 {
      ListingSame(g, data, i, data', i, k);
      InsertedRight(Listing(g, data, i, k), BlockEntries(g, data, i, k), BlockEntries(g, data', i, k), e);
    } else {
      ListingInserted(g, data, data', i, k, n - 1, e);
      assert DirBlockOk(g, data, i, n - 1);
      assert BlockEntries(g, data', i, n - 1) == BlockEntries(g, data, i, n - 1);
      InsertedLeft(Listing(g, data, i, n - 1), Listing(g, data', i, n - 1), BlockEntries(g, data, i, n - 1), e);
    }
  }

  lemma {:induction false} ListingRemoved(g: Geometry, data: Blocks, data': Blocks, i: Inode, k: nat, n: nat,
                                          name: Name)
    requires BlockEdited(g, data, data', i, k, n) && BlocksOk(g, data', i, n)
    requires Removed(BlockEntries(g, data, i, k), BlockEntries(g, data', i, k), name)
    requires NoName(Listing(g, data, i, k), name)
    ensures Removed(Listing(g, data, i, n), Listing(g, data', i, n), name)
  {
    hide BlockAt; hide Removed; hide Tiled; hide Entries; hide NoName;
    if n == k + 1 {
      ListingSame(g, data, i, data', i, k);
      RemovedRight(Listing(g, data, i, k), BlockEntries(g, data, i, k), BlockEntries(g, data', i, k), name);
    } else {
      ListingRemoved(g, data, data', i, k, n - 1, name);
      assert DirBlockOk(g, data, i, n - 1);
      assert BlockEntries(g, data', i, n - 1) == BlockEntries(g, data, i, n - 1);
      RemovedLeft(Listing(g, data, i, n - 1), Listing(g, data', i, n - 1), BlockEntries(g, data, i, n - 1), name);
    }
  }

  /** Once a name is met, later blocks do not matter. */
  lemma {:induction false} FindSettled(g: Geometry, data: Blocks, i: Inode, k: nat, n: nat, name: Name)
    requires k <= n && BlocksOk(g, data, i, n) && !NoName(Listing(g, data, i, k), name)
    ensures Find(Listing(g, data, i, n), name) == Find(Listing(g, data, i, k), name)
    ensures !NoName(Listing(g, data, i, n), name)
  {
    hide BlockAt; hide DirBlockOk; hide NoName; hide Find;
    if k < n {
      FindSettled(g, data, i, k, n - 1, name);
      FindFirst(Listing(g, data, i, n - 1), BlockEntries(g, data, i, n - 1), name);
      NoNameConcat(Listing(g, data, i, n - 1), BlockEntries(g, data, i, n - 1), name);
    }
  }

  lemma {:induction false} FindFirst(a: seq<Entry>, b: seq<Entry>, name: Name)
    requires !NoName(a, name)
    ensures Find(a + b, name) == Find(a, name)
  {
    if a[0].name != name {
      assert (a + b)[1..] == a[1..] + b;
      var k :| 0 <= k < |a| && a[k].name == name;
      assert a[1..][k - 1].name == name;
      FindFirst(a[1..], b, name);
    }
  }

  // ---------- the driver's operations ----------

  /** num_blocks as the driver computes it. */
  lemma BlockCount(g: Geometry, i: Inode)
    requires 0 < g.bs && i.size % g.bs == 0
    ensures (i.size + g.bs - 1) / g.bs == DirBlocks(g, i)
    ensures i.size == DirBlocks(g, i) * g.bs
  {
    DivMod(i.size, g.bs);
    DivModUnique(g.bs, i.size / g.bs, g.bs - 1);
  }

  method LookupInDir(fs: FsInstance, i: Inode, name: Name) returns (r: nat)
    requires fs.Valid() && (IsDir(i) ==> DirOk(fs.g, fs.Vol().data, i))
    requires i.block[DIRECT] == 0 || i.block[DIRECT] in fs.Vol().data
    ensures !IsDir(i) ==> r == 0
    ensures IsDir(i) ==> r == Find(Contents(fs.g, fs.Vol().data, i), name)
    ensures IsDir(i) ==> (r == 0 <==> NoName(Contents(fs.g, fs.Vol().data, i), name))
  {
    hide ImageOk; hide Meaning; hide BlockAt; hide Listing; hide Find; hide NoName; hide Tiled; hide Entries;
    hide IsDir;
    if !IsDir(i) { return 0; }
    ghost var data := fs.Vol().data;
    BlockCount(fs.g, i);
    var num := (i.size + fs.g.bs - 1) / fs.g.bs;
    var b := 0;
    r := 0;
    ListingEmpty(fs.g, data, i, name);
    while b < num && r == 0
      invariant b <= num == DirBlocks(fs.g, i)
      invariant BlocksOk(fs.g, data, i, b)
      invariant r == Find(Listing(fs.g, data, i, b), name)
      invariant r == 0 <==> NoName(Listing(fs.g, data, i, b), name)
    {
      assert DirBlockOk(fs.g, data, i, b);
      var phys := InodeBlockAt(fs, i, b);
      var block := ReadBlock(fs, phys);
      r := LookupInBlock(block, name);
      FindNext(fs.g, data, i, b, name);
      b := b + 1;
    }
    if r != 0 {
      FindSettled(fs.g, data, i, b, num, name);
    }
  }

  lemma ListingEmpty(g: Geometry, data: Blocks, i: Inode, name: Name)
    ensures BlocksOk(g, data, i, 0) && Listing(g, data, i, 0) == [] && NoName([], name) && Find([], name) == 0
  {
  }

  lemma FindNext(g: Geometry, data: Blocks, i: Inode, k: nat, name: Name)
    requires BlocksOk(g, data, i, k) && DirBlockOk(g, data, i, k) && NoName(Listing(g, data, i, k), name)
    ensures BlocksOk(g, data, i, k + 1)
    ensures Find(Listing(g, data, i, k + 1), name) == Find(BlockEntries(g, data, i, k), name)
    ensures NoName(Listing(g, data, i, k + 1), name) <==> NoName(BlockEntries(g, data, i, k), name)
  {
    hide BlockAt; hide Find; hide NoName; hide Tiled; hide Entries;
    FindConcat(Listing(g, data, i, k), BlockEntries(g, data, i, k), name);
    NoNameConcat(Listing(g, data, i, k), BlockEntries(g, data, i, k), name);
  }

  /** An edit of directory n that touches nothing outside it. */
  ghost predicate DirUpdated(g: Geometry, v: Volume, v': Volume, owner': Owners, eff: map<nat, Inode>, n: nat,
                             i': Inode)
    requires n in eff
  {
    && MapsOk(g, v', owner', eff[n := i'])
    && v'.iused == v.iused && v'.inodes == v.inodes && v'.data.Keys == v.data.Keys
    && OthersKept(g, v.data, v'.data, eff, n)
    && i' == eff[n].(block := i'.block, blocks := i'.blocks, size := i'.size)
    && Extends(g, v, eff[n], v', i')
  }

  lemma GrownUpdates(g: Geometry, v: Volume, owner: Owners, v': Volume, owner': Owners, eff: map<nat, Inode>, n: nat,
                     i': Inode, k: nat)
    requires n in eff && Grown(g, v, owner, v', owner', eff, n, i', k)
    ensures DirUpdated(g, v, v', owner', eff, n, i')
  {
    hide MapsOk; hide OthersKept; hide Extends;
  }

  /** Writing an edited block of the directory back. */
  method WriteDirBlock(fs: FsInstance, i: Inode, k: nat, phys: nat, block: seq<byte>, ghost n: nat,
                       ghost eff: map<nat, Inode>)
    requires fs.Valid() && n in eff && eff[n] == i && MapsOk(fs.g, fs.Vol(), fs.tree.owner, eff)
    requires DirOk(fs.g, fs.Vol().data, i) && k < DirBlocks(fs.g, i) && phys == BlockAt(fs.g, fs.Vol().data, i, k)
    requires |block| == fs.g.bs && Tiled(block, 0)
    modifies fs
    ensures fs.Valid() && fs.open == old(fs.open) && fs.tree == old(fs.tree)
    ensures DirUpdated(fs.g, old(fs.Vol()), fs.Vol(), fs.tree.owner, eff, n, i) && fs.Vol().used == old(fs.Vol().used)
    ensures DirBlockOk(fs.g, fs.Vol().data, i, k) && BlockEntries(fs.g, fs.Vol().data, i, k) == Entries(block, 0)
    ensures BlockEdited(fs.g, old(fs.Vol().data), fs.Vol().data, i, k, DirBlocks(fs.g, i))
    ensures DirOk(fs.g, fs.Vol().data, i)
  {
    hide ImageOk; hide Meaning; hide BlockAt; hide Tiled; hide Entries; hide MapsOk; hide Grown;
    ghost var v, owner := fs.Vol(), fs.tree.owner;
    assert DirBlockOk(fs.g, v.data, i, k);
    WriteOwned(fs.g, v, owner, eff, n, k, block);
    WriteBlock(fs, phys, block);
    GrownUpdates(fs.g, v, owner, fs.Vol(), owner, eff, n, i, k);
    EditedFrom(fs.g, v, owner, fs.Vol(), eff, n, i, k);
    EditedOk(fs.g, v.data, fs.Vol().data, i, k, DirBlocks(fs.g, i));
  }

  lemma EditedFrom(g: Geometry, v: Volume, owner: Owners, v': Volume, eff: map<nat, Inode>, n: nat, i: Inode, k: nat)
    requires n in eff && eff[n] == i && Grown(g, v, owner, v', owner, eff, n, i, k)
    requires DirOk(g, v.data, i) && k < DirBlocks(g, i) && DirBlockOk(g, v'.data, i, k)
    ensures BlockEdited(g, v.data, v'.data, i, k, DirBlocks(g, i))
  {
    hide MapsOk; hide BlockAt; hide Tiled;
  }

  method RemoveDirEntry(fs: FsInstance, i: Inode, name: Name, ghost n: nat, ghost eff: map<nat, Inode>)
    returns (ok: bool)
    requires fs.Valid() && n in eff && eff[n] == i && MapsOk(fs.g, fs.Vol(), fs.tree.owner, eff)
    requires DirOk(fs.g, fs.Vol().data, i)
    modifies fs
    ensures fs.Valid() && fs.open == old(fs.open) && fs.tree == old(fs.tree)
    ensures ok <==> !NoName(Contents(fs.g, old(fs.Vol().data), i), name)
    ensures !ok ==> fs.Vol() == old(fs.Vol())
    ensures ok ==>
      DirUpdated(fs.g, old(fs.Vol()), fs.Vol(), fs.tree.owner, eff, n, i) && fs.Vol().used == old(fs.Vol().used)
    ensures ok ==> DirOk(fs.g, fs.Vol().data, i)
    ensures ok ==> Removed(Contents(fs.g, old(fs.Vol().data), i), Contents(fs.g, fs.Vol().data, i), name)
  {
    hide ImageOk; hide Meaning; hide BlockAt; hide Tiled; hide Entries; hide MapsOk; hide Listing; hide NoName;
    hide Removed; hide DirUpdated;
    ghost var data := fs.Vol().data;
    ValidSizes(fs);
    IndirectThere(fs, n, eff);
    BlockCount(fs.g, i);
    var num := (i.size + fs.g.bs - 1) / fs.g.bs;
    var b := 0;
    ListingEmpty(fs.g, data, i, name);
    while b < num
      invariant b <= num == DirBlocks(fs.g, i)
      invariant fs.Valid() && fs.open == old(fs.open) && fs.tree == old(fs.tree) && fs.Vol() == old(fs.Vol())
      invariant BlocksOk(fs.g, data, i, b)
      invariant NoName(Listing(fs.g, data, i, b), name)
    {
      assert DirBlockOk(fs.g, data, i, b);
      var phys := InodeBlockAt(fs, i, b);
      var block := ReadBlock(fs, phys);
      var done, block' := RemoveInBlock(block, name);
      FindNext(fs.g, data, i, b, name);
      if done {
        WriteDirBlock(fs, i, b, phys, block', n, eff);
        FindSettled(fs.g, data, i, b + 1, num, name);
        ListingRemoved(fs.g, data, fs.Vol().data, i, b, num, name);
        return true;
      }
      b := b + 1;
    }
    return false;
  }

  lemma IndirectThere(fs: FsInstance, n: nat, eff: map<nat, Inode>)
    requires fs.Valid() && n in eff && MapsOk(fs.g, fs.Vol(), fs.tree.owner, eff)
    ensures eff[n].block[DIRECT] == 0 || eff[n].block[DIRECT] in fs.Vol().data
  {
    hide ImageOk; hide Meaning; hide MapsOk;
    LastSlotsEmpty(fs.g, fs.Vol(), fs.tree.owner, eff, n);
  }

  /** The edit could not be made; the directory as it was is still sound. */
  ghost predicate DirDropped(g: Geometry, v: Volume, v': Volume, owner': Owners, eff: map<nat, Inode>, n: nat)
    requires n in eff
  {
    && MapsOk(g, v', owner', eff)
    && v'.iused == v.iused && v'.inodes == v.inodes && v'.data.Keys == v.data.Keys
    && (forall m :: m in eff ==> FileKept(g, v.data, eff[m], v'.data, eff[m]))
    && OneMoreAtMost(v, v') && (Full(g, v') || (0 < g.bs && DirBlocks(g, eff[n]) == MaxBlocks(g)))
  }

  lemma FoundNothing(g: Geometry, v: Volume, owner: Owners, v': Volume, owner': Owners, eff: map<nat, Inode>, n: nat,
                     i': Inode, k: nat)
    requires n in eff && Found(g, v, owner, v', owner', eff, n, i', k, 0)
    requires 0 < g.bs && k == DirBlocks(g, eff[n]) <= MaxBlocks(g)
    ensures DirDropped(g, v, v', owner', eff, n)
  {
    hide MapsOk; hide KeptBut; hide BlockAt;
  }

  function WithSize(i: Inode, size: nat): (i': Inode)
    requires size < U32
  {
    i.(size := size)
  }

  lemma SizeFits(g: Geometry, i: Inode)
    requires 1024 <= g.bs < U16 && i.size % g.bs == 0 && DirBlocks(g, i) < MaxBlocks(g)
    ensures i.size + g.bs < U32
    ensures (i.size + g.bs) % g.bs == 0 && (i.size + g.bs) / g.bs == DirBlocks(g, i) + 1
  {
    BlockCount(g, i);
    var nb := DirBlocks(g, i);
    assert i.size + g.bs == (nb + 1) * g.bs;
    MulMono(nb + 1, 16396, g.bs);
    DivModUnique(g.bs, nb + 1, 0);
  }

  /** The ownership invariant looks at an inode's block numbers and sector count only. */
  lemma FieldsUnseen(g: Geometry, v: Volume, owner: Owners, eff: map<nat, Inode>, n: nat, i': Inode)
    requires n in eff && MapsOk(g, v, owner, eff) && i'.block == eff[n].block && i'.blocks == eff[n].blocks
    ensures MapsOk(g, v, owner, eff[n := i'])
  {
    assert forall s: nat :: Slot(g, v.data, i', s) == Slot(g, v.data, eff[n], s);
    OwnedSame(g, v.data, eff[n], v.data, i', MaxBlocks(g) + 1);
  }

  /** The directory after its new last block was written. */
  lemma Appended(g: Geometry, data: Blocks, i: Inode, data': Blocks, i': Inode, block: seq<byte>, e: Entry)
    requires 1024 <= g.bs < U16 && DirOk(g, data, i) && DirBlocks(g, i) < MaxBlocks(g)
    requires KeptBut(g, data, i, data', i', DirBlocks(g, i))
    requires i'.mode == i.mode && i.size + g.bs < U32 && i'.size == i.size + g.bs
    requires var b := BlockAt(g, data', i', DirBlocks(g, i));
      b != 0 && b in data' && data'[b] == block && |block| == g.bs && Tiled(block, 0) && Entries(block, 0) == [e]
    ensures DirOk(g, data', i') && Inserted(Contents(g, data, i), Contents(g, data', i'), e)
  {
    hide BlockAt; hide Tiled; hide Entries;
    var nb := DirBlocks(g, i);
    SizeFits(g, i);
    ListingSame(g, data, i, data', i', nb);
    assert DirBlockOk(g, data', i', nb);
    assert BlocksOk(g, data', i', nb + 1);
    var es := Contents(g, data, i);
    assert Contents(g, data', i') == es + [e];
    assert es[..|es|] == es && es[|es|..] == [];
    assert es + [e] == InsertAt(es, |es|, e);
  }

  method AppendDirBlock(fs: FsInstance, i: Inode, e: Entry, ghost n: nat, ghost eff: map<nat, Inode>)
    returns (ok: bool, i': Inode)
    requires fs.Valid() && n in eff && eff[n] == i && MapsOk(fs.g, fs.Vol(), fs.tree.owner, eff)
    requires DirOk(fs.g, fs.Vol().data, i) && EntryOk(e)
    modifies fs
    ensures fs.Valid() && fs.open == old(fs.open) && SameTree(old(fs.tree), fs.tree)
    ensures !ok ==> DirDropped(fs.g, old(fs.Vol()), fs.Vol(), fs.tree.owner, eff, n)
    ensures ok ==> DirUpdated(fs.g, old(fs.Vol()), fs.Vol(), fs.tree.owner, eff, n, i')
    ensures ok ==> DirOk(fs.g, fs.Vol().data, i')
    ensures ok ==> Inserted(Contents(fs.g, old(fs.Vol().data), i), Contents(fs.g, fs.Vol().data, i'), e)
  {
    hide ImageOk; hide Meaning; hide BlockAt; hide Tiled; hide Entries; hide MapsOk; hide Grown; hide Found;
    hide DirOk; hide Listing; hide Contents; hide Inserted; hide PutRecord; hide DirDropped; hide DirUpdated;
    hide KeptBut;
    ghost var v, owner := fs.Vol(), fs.tree.owner;
    DirShape(fs, i);
    var num := (i.size + fs.g.bs - 1) / fs.g.bs;
    var phys, j := InodeBlockAtOrAlloc(fs, i, num, n, eff);
    if phys == 0 {
      FoundNothing(fs.g, v, owner, fs.Vol(), fs.tree.owner, eff, n, j, num);
      return false, i;
    }
    ghost var v1, o1 := fs.Vol(), fs.tree.owner;
    FoundSomething(fs.g, v, owner, v1, o1, eff, n, j, num, phys);
    SizeFits(fs.g, i);
    var block := PutRecord(Zeros(fs.g.bs), 0, e, fs.g.bs);
    OneRecord(fs.g.bs, e);
    WriteOwned(fs.g, v1, o1, eff[n := j], n, num, block);
    WriteBlock(fs, phys, block);
    GrownThenWritten(fs.g, v, owner, v1, o1, fs.Vol(), eff, n, j, num);
    i' := WithSize(j, i.size + fs.g.bs);
    AppendUpdates(fs.g, v, owner, fs.Vol(), fs.tree.owner, eff, n, j, num, i.size + fs.g.bs);
    Appended(fs.g, v.data, i, fs.Vol().data, i', block, e);
    ok := true;
  }

  lemma DirShape(fs: FsInstance, i: Inode)
    requires fs.Valid() && DirOk(fs.g, fs.Vol().data, i)
    ensures 1024 <= fs.g.bs < U16 && fs.g.bs % 4 == 0 && i.size % fs.g.bs == 0
    ensures (i.size + fs.g.bs - 1) / fs.g.bs == DirBlocks(fs.g, i) <= MaxBlocks(fs.g)
  {
    hide ImageOk; hide Meaning; hide DirBlockOk; hide Sized; hide Geometry.SizesOk;
    ValidSizes(fs);
    BlockSizes(fs.g);
    BlockCount(fs.g, i);
  }

  lemma FoundSomething(g: Geometry, v: Volume, owner: Owners, v': Volume, owner': Owners, eff: map<nat, Inode>, n: nat,
                       i': Inode, k: nat, b: nat)
    requires n in eff && Found(g, v, owner, v', owner', eff, n, i', k, b) && b != 0
    ensures k < MaxBlocks(g) && BlockAt(g, v'.data, i', k) == b
    ensures Grown(g, v, owner, v', owner', eff, n, i', k) && MapsOk(g, v', owner', eff[n := i'])
    ensures i' == eff[n].(block := i'.block, blocks := i'.blocks)
  {
    hide MapsOk; hide KeptBut;
  }

  lemma KeptBothBut(g: Geometry, d0: Blocks, i0: Inode, d1: Blocks, i1: Inode, d2: Blocks, i2: Inode, skip: nat)
    requires KeptBut(g, d0, i0, d1, i1, skip) && KeptBut(g, d1, i1, d2, i2, skip)
    ensures KeptBut(g, d0, i0, d2, i2, skip)
  {
    hide BlockAt;
  }

  /** Extending a map at k and then rewriting block k is one change at k. */
  lemma GrownThenWritten(g: Geometry, v0: Volume, o0: Owners, v1: Volume, o1: Owners, v2: Volume, eff: map<nat, Inode>,
                         n: nat, i1: Inode, k: nat)
    requires n in eff && Grown(g, v0, o0, v1, o1, eff, n, i1, k)
    requires Grown(g, v1, o1, v2, o1, eff[n := i1], n, i1, k)
    ensures Grown(g, v0, o0, v2, o1, eff, n, i1, k)
  {
    hide KeptBut; hide MapsOk; hide Extends;
    assert eff[n := i1][n := i1] == eff[n := i1];
    ExtendsTwice(g, v0, eff[n], v1, i1, v2, i1);
    KeptBothBut(g, v0.data, eff[n], v1.data, i1, v2.data, i1, k);
    forall m | m in eff && m != n ensures FileKept(g, v0.data, eff[m], v2.data, eff[m]) {
      assert FileKept(g, v1.data, eff[n := i1][m], v2.data, eff[n := i1][m]);
      KeptTransitive(g, v0.data, eff[m], v1.data, eff[m], v2.data, eff[m], MaxBlocks(g));
    }
  }

  lemma AppendUpdates(g: Geometry, v: Volume, owner: Owners, v': Volume, owner': Owners, eff: map<nat, Inode>, n: nat,
                      j: Inode, k: nat, size: nat)
    requires n in eff && Grown(g, v, owner, v', owner', eff, n, j, k) && size < U32
    ensures DirUpdated(g, v, v', owner', eff, n, WithSize(j, size))
    ensures KeptBut(g, v.data, eff[n], v'.data, WithSize(j, size), k)
    ensures BlockAt(g, v'.data, WithSize(j, size), k) == BlockAt(g, v'.data, j, k)
  {
    hide MapsOk; hide Slot; hide Extends;
    ExtendsFields(g, v, eff[n], v', j, WithSize(j, size));
    FieldsUnseen(g, v', owner', eff[n := j], n, WithSize(j, size));
    assert eff[n := j][n := WithSize(j, size)] == eff[n := WithSize(j, size)];
  }

  method InsertDirEntry(fs: FsInstance, i: Inode, e: Entry, ghost n: nat, ghost eff: map<nat, Inode>)
    returns (ok: bool, i': Inode)
    requires fs.Valid() && n in eff && eff[n] == i && MapsOk(fs.g, fs.Vol(), fs.tree.owner, eff)
    requires DirOk(fs.g, fs.Vol().data, i) && EntryOk(e)
    modifies fs
    ensures fs.Valid() && fs.open == old(fs.open) && SameTree(old(fs.tree), fs.tree)
    ensures !ok ==> DirDropped(fs.g, old(fs.Vol()), fs.Vol(), fs.tree.owner, eff, n)
    ensures ok ==> DirUpdated(fs.g, old(fs.Vol()), fs.Vol(), fs.tree.owner, eff, n, i')
    ensures ok ==> DirOk(fs.g, fs.Vol().data, i')
    ensures ok ==> Inserted(Contents(fs.g, old(fs.Vol().data), i), Contents(fs.g, fs.Vol().data, i'), e)
  {
    hide ImageOk; hide Meaning; hide BlockAt; hide Tiled; hide Entries; hide MapsOk; hide Listing; hide Inserted;
    hide DirUpdated; hide DirDropped; hide Crowded; hide EntryOk;
    ghost var data := fs.Vol().data;
    DirShape(fs, i);
    IndirectThere(fs, n, eff);
    var num := (i.size + fs.g.bs - 1) / fs.g.bs;
    var b := 0;
    while b < num
      invariant b <= num == DirBlocks(fs.g, i)
      invariant fs.Valid() && fs.open == old(fs.open) && fs.tree == old(fs.tree) && fs.Vol() == old(fs.Vol())
    {
      assert DirBlockOk(fs.g, data, i, b);
      var phys := InodeBlockAt(fs, i, b);
      var block := ReadBlock(fs, phys);
      var done, block' := InsertInBlock(block, e);
      if done {
        WriteDirBlock(fs, i, b, phys, block', n, eff);
        ListingInserted(fs.g, data, fs.Vol().data, i, b, num, e);
        return true, i;
      }
      b := b + 1;
    }
    ok, i' := AppendDirBlock(fs, i, e, n, eff);
  }
}
