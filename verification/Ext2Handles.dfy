/** open and close: a handle is a private copy of an inode, and close drops what only the copy had. */
module Ext2Handles {
  import opened Bytes
  import opened Arithmetic
  import opened Ext2Layout
  import opened Ext2Volume
  import opened Ext2Store
  import opened Ext2BlockMap
  import opened Ext2Dir
  import opened Ext2Tree
  import opened Ext2Fs
  import opened Ext2File
  import opened Ext2Read

  method Open(fs: FsInstance, path: seq<byte>) returns (ok: bool, n: nat)
    requires Inv(fs)
    requires var r := Resolve(fs.g, fs.Vol(), fs.tree, path);
      r !in fs.open && r !in DirsOf(fs.g, fs.Vol(), fs.tree.live)
    modifies fs`open
    ensures Inv(fs) && n == Resolve(fs.g, fs.Vol(), fs.tree, path) && (ok <==> n != 0)
    ensures ok ==> n in fs.Vol().inodes && fs.open == old(fs.open)[n := fs.Vol().inodes[n]]
    ensures !ok ==> fs.open == old(fs.open)
  {
    hide ImageOk; hide Meaning; hide FsInv; hide Walk; hide DirsOf; hide Components;
    n := ResolvePathToInode(fs, path);
    if n == 0 { return false, 0; }
    LiveInode(fs.g, fs.Vol(), fs.open, fs.tree, n);
    var i;
    ok, i := ReadInode(fs, n);
    OpenKeepsInv(fs.g, fs.Vol(), fs.open, fs.tree, n);
    fs.open := fs.open[n := i];
  }

  lemma OpenKeepsInv(g: Geometry, v: Volume, open: map<nat, Inode>, t: Tree, n: nat)
    requires FsInv(g, v, open, t) && n in t.live && n !in open && n in v.inodes && !IsDir(v.inodes[n])
    ensures FsInv(g, v, open[n := v.inodes[n]], t)
  {
    hide TreeOk; hide DirOk; hide MapsOk; hide DirsOf; hide HandleOk;
    assert Current(v, open[n := v.inodes[n]], t.live) == Current(v, open, t.live);
    OwnHandle(g, v, t.owner, Current(v, open, t.live), n);
  }

  // ---------- close ----------

  /** How many of the first k pointers of the record differ from those of the copy. */
  function Differing(i: Inode, h: Inode, k: nat): nat
    requires k <= 15
  {
    if k == 0 then 0 else Differing(i, h, k - 1) + if i.block[k - 1] != h.block[k - 1] then 1 else 0
  }

  /** What can be seen on the two records: all that the copy counts beyond the table's record hangs on direct pointers
      that the record lacks, or the record has no indirect block through which it could see more. */
  predicate CountsAgree(g: Geometry, i: Inode, h: Inode) {
    i.block[DIRECT] == 0 || h.blocks == i.blocks + Differing(i, h, DIRECT) * Sectors(g)
  }

  /** A record with an indirect block has all the slots of a copy ahead of it but those of the differing pointers. */
  lemma {:induction false} OwnedAhead(g: Geometry, data: Blocks, i: Inode, h: Inode, s: nat)
    requires Behind(i, h) && i.block[DIRECT] != 0 && s <= MaxBlocks(g) + 1
    ensures Owned(g, data, h, s) == Owned(g, data, i, s) + Differing(i, h, if s < DIRECT then s else DIRECT)
  {
    hide Slot;
    if s > 0 {
      OwnedAhead(g, data, i, h, s - 1);
      BehindSlots(g, data, i, h, s - 1);
      if s - 1 < DIRECT { DirectSlots(g, data, i, h, s - 1); }
    }
  }

  lemma DirectSlots(g: Geometry, data: Blocks, i: Inode, h: Inode, k: nat)
    requires k < DIRECT
    ensures Slot(g, data, i, k) == i.block[k] && Slot(g, data, h, k) == h.block[k]
  {
  }

  /** The record that a closed handle leaves behind counts its sectors exactly if and only if the two records agree. */
  lemma CloseExact(g: Geometry, data: Blocks, stale: set<nat>, n: nat, i: Inode, h: Inode)
    requires HandleOk(g, data, stale, n, i, h) && n !in stale && SectorsOk(g, data, h)
    ensures SectorsOk(g, data, i) <==> CountsAgree(g, i, h)
  {
    hide Owned; hide Slot; hide Sectors; hide Behind; hide Differing; hide AtMost;
    if i.block[DIRECT] != 0 {
      HandleBehind(g, data, stale, n, i, h);
      OwnedAhead(g, data, i, h, MaxBlocks(g) + 1);
      var a, d, c := Owned(g, data, i, MaxBlocks(g) + 1), Differing(i, h, DIRECT), Sectors(g);
      assert (a + d) * c == a * c + d * c;
    }
  }

  lemma HandleBehind(g: Geometry, data: Blocks, stale: set<nat>, n: nat, i: Inode, h: Inode)
    requires HandleOk(g, data, stale, n, i, h)
    ensures Behind(i, h)
  {
  }

  lemma {:induction false} NoneDiffer(i: Inode, i': Inode, k: nat)
    requires k <= 15 && forall j :: 0 <= j < k ==> i'.block[j] == i.block[j]
    ensures Differing(i, i', k) == 0
  {
    if k > 0 { NoneDiffer(i, i', k - 1); }
  }

  /** The books after closing the handle of n. */
  ghost function Closed(g: Geometry, v: Volume, open: map<nat, Inode>, t: Tree, n: nat): Tree
    requires n in open && n in v.inodes
  {
    if n in t.owner.stale || CountsAgree(g, v.inodes[n], open[n]) then t
    else t.(owner := t.owner.(stale := t.owner.stale + {n}))
  }

  lemma RecordOwns(g: Geometry, data: Blocks, owner: Owners, owner': Owners, n: nat, i: Inode, h: Inode)
    requires Owns(g, data, owner, n, h) && Behind(i, h) && owner'.slot == owner.slot
    ensures Owns(g, data, owner', n, i)
  {
    hide Slot;
    forall s: nat | s <= MaxBlocks(g) && Slot(g, data, i, s) != 0
      ensures Slot(g, data, i, s) in owner.slot && owner.slot[Slot(g, data, i, s)] == (n, s)
    {
      BehindSlots(g, data, i, h, s);
    }
  }

  /** One inode's record may be replaced by one that is sound itself. */
  lemma SwapRecord(g: Geometry, v: Volume, owner: Owners, owner': Owners, eff: map<nat, Inode>, n: nat, i: Inode)
    requires MapsOk(g, v, owner, eff) && owner'.slot == owner.slot
    requires forall m :: m in eff && m != n ==> (m in owner.stale <==> m in owner'.stale)
    requires Owns(g, v.data, owner', n, i) && Counted(g, v.data, owner'.stale, n, i)
    ensures MapsOk(g, v, owner', eff[n := i])
  {
    hide Owns; hide SectorsOk; hide AtMost;
    var eff' := eff[n := i];
    forall m | m in eff' ensures Owns(g, v.data, owner', m, eff'[m]) && Counted(g, v.data, owner'.stale, m, eff'[m]) {
      if m != n {
        assert Counted(g, v.data, owner.stale, m, eff[m]);
        OwnsAlike(g, v.data, owner, owner', m, eff[m]);
      }
    }
  }

  lemma CloseMaps(g: Geometry, v: Volume, owner: Owners, owner': Owners, eff: map<nat, Inode>, n: nat, i: Inode)
    requires MapsOk(g, v, owner, eff) && n in eff && HandleOk(g, v.data, owner.stale, n, i, eff[n])
    requires owner' == if n in owner.stale || CountsAgree(g, i, eff[n]) then owner
                       else owner.(stale := owner.stale + {n})
    ensures MapsOk(g, v, owner', eff[n := i])
    ensures n !in owner.stale && !CountsAgree(g, i, eff[n]) ==> !SectorsOk(g, v.data, i)
  {
    hide Slot; hide Owned; hide CountsAgree; hide Behind; hide MapsOk;
    HandleBehind(g, v.data, owner.stale, n, i, eff[n]);
    MapsAt(g, v, owner, eff, n);
    RecordOwns(g, v.data, owner, owner', n, i, eff[n]);
    if n !in owner.stale { CloseExact(g, v.data, owner.stale, n, i, eff[n]); }
    SwapRecord(g, v, owner, owner', eff, n, i);
  }

  lemma MapsAt(g: Geometry, v: Volume, owner: Owners, eff: map<nat, Inode>, n: nat)
    requires MapsOk(g, v, owner, eff) && n in eff
    ensures Owns(g, v.data, owner, n, eff[n]) && Counted(g, v.data, owner.stale, n, eff[n])
  {
    hide Owns; hide Counted;
  }

  lemma OwnsAlike(g: Geometry, data: Blocks, owner: Owners, owner': Owners, n: nat, i: Inode)
    requires owner'.slot == owner.slot
    ensures Owns(g, data, owner, n, i) ==> Owns(g, data, owner', n, i)
  {
    hide Slot;
  }

  /** Closing keeps the invariant with the books of Closed, and with the former books exactly when the records agree. */
  lemma CloseKeepsInv(g: Geometry, v: Volume, open: map<nat, Inode>, t: Tree, n: nat)
    requires FsInv(g, v, open, t) && n in open && n in v.inodes
    ensures FsInv(g, v, open - {n}, Closed(g, v, open, t, n))
    ensures n !in t.owner.stale ==> (FsInv(g, v, open - {n}, t) <==> CountsAgree(g, v.inodes[n], open[n]))
  {
    hide TreeOk; hide DirOk; hide MapsOk; hide DirsOf; hide HandleOk; hide CountsAgree;
    var eff, t' := Current(v, open, t.live), Closed(g, v, open, t, n);
    OpenCurrent(g, v, open, t, n);
    CloseMaps(g, v, t.owner, t'.owner, eff, n, v.inodes[n]);
    assert Current(v, open - {n}, t.live) == eff[n := v.inodes[n]];
    OwnerUnseen(t, DirsOf(g, v, t.live), t'.owner);
    ClosedHandles(g, v, open, t, n);
    if n !in t.owner.stale && FsInv(g, v, open - {n}, t) { CountedThere(g, v, t.owner, eff[n := v.inodes[n]], n); }
  }

  lemma CountedThere(g: Geometry, v: Volume, owner: Owners, eff: map<nat, Inode>, n: nat)
    requires MapsOk(g, v, owner, eff) && n in eff && n !in owner.stale
    ensures SectorsOk(g, v.data, eff[n])
  {
    hide Owns; hide SectorsOk;
    assert Counted(g, v.data, owner.stale, n, eff[n]);
  }

  lemma ClosedHandles(g: Geometry, v: Volume, open: map<nat, Inode>, t: Tree, n: nat)
    requires HandlesOk(g, v, open, t.owner.stale) && n in open && n in v.inodes
    ensures HandlesOk(g, v, open - {n}, Closed(g, v, open, t, n).owner.stale)
  {
    hide CountsAgree; hide SectorsOk; hide AtMost; hide Behind;
    var stale' := Closed(g, v, open, t, n).owner.stale;
    forall m | m in open - {n} ensures HandleOk(g, v.data, stale', m, v.inodes[m], open[m]) {
      assert HandleOk(g, v.data, t.owner.stale, m, v.inodes[m], open[m]);
    }
  }

  // ---------- what a close loses ----------

  /** Block b is in a slot of one of these inodes. */
  ghost predicate InSomeSlot(g: Geometry, data: Blocks, eff: map<nat, Inode>, b: nat) {
    b != 0 && exists m, s: nat :: m in eff && s <= MaxBlocks(g) && Slot(g, data, eff[m], s) == b
  }

  lemma SomeSlot(g: Geometry, data: Blocks, eff: map<nat, Inode>, m: nat, b: nat)
    requires m in eff && b in AllSlots(g, data, eff[m])
    ensures InSomeSlot(g, data, eff, b)
  {
    hide Slot; hide SlotSet;
    SlotSetIs(g, data, eff[m], MaxBlocks(g) + 1, b);
  }

  /** The blocks of the copy h that the record i does not have. */
  ghost function Lost(g: Geometry, data: Blocks, i: Inode, h: Inode): set<nat> {
    AllSlots(g, data, h) - AllSlots(g, data, i)
  }

  lemma LostExactly(g: Geometry, v: Volume, owner: Owners, eff: map<nat, Inode>, n: nat, i: Inode, b: nat)
    requires MapsOk(g, v, owner, eff) && n in eff
    ensures b in Lost(g, v.data, i, eff[n]) <==>
      InSomeSlot(g, v.data, eff, b) && !InSomeSlot(g, v.data, eff[n := i], b)
    ensures b in Lost(g, v.data, i, eff[n]) ==> b in v.used
  {
    hide MapsOk; hide Slot; hide SlotSet;
    SlotSetIs(g, v.data, eff[n], MaxBlocks(g) + 1, b);
    SlotSetIs(g, v.data, i, MaxBlocks(g) + 1, b);
    var eff' := eff[n := i];
    if b in Lost(g, v.data, i, eff[n]) {
      SomeSlot(g, v.data, eff, n, b);
      OwnSlotsUsed(g, v, owner, eff, n);
      LostForGood(g, v, owner, eff, n, i, b);
    } else if InSomeSlot(g, v.data, eff, b) {
      var m, s: nat :| m in eff && s <= MaxBlocks(g) && Slot(g, v.data, eff[m], s) == b;
      if m != n {
        assert m in eff' && Slot(g, v.data, eff'[m], s) == b;
      } else {
        InAllSlots(g, v.data, eff[n], s);
        SomeSlot(g, v.data, eff', n, b);
      }
    }
  }

  lemma LostForGood(g: Geometry, v: Volume, owner: Owners, eff: map<nat, Inode>, n: nat, i: Inode, b: nat)
    requires MapsOk(g, v, owner, eff) && n in eff && b in Lost(g, v.data, i, eff[n])
    ensures !InSomeSlot(g, v.data, eff[n := i], b)
  {
    hide MapsOk; hide Slot; hide SlotSet;
    var eff' := eff[n := i];
    forall m, s: nat | m in eff' && s <= MaxBlocks(g) && b != 0 ensures Slot(g, v.data, eff'[m], s) != b {
      if Slot(g, v.data, eff'[m], s) == b {
        if m == n {
          InAllSlots(g, v.data, i, s);
        } else {
          SlotSetIs(g, v.data, eff[n], MaxBlocks(g) + 1, b);
          var r: nat :| r < MaxBlocks(g) + 1 && Slot(g, v.data, eff[n], r) == b;
          NoSharing(g, v, owner, eff, n, r, m, s);
        }
      }
    }
  }

  /** A close loses no block exactly when the two records have the same pointers. */
  lemma LosesNothing(g: Geometry, data: Blocks, owner: Owners, n: nat, i: Inode, h: Inode)
    requires Owns(g, data, owner, n, h) && Behind(i, h)
    ensures Lost(g, data, i, h) == {} <==> h.block == i.block
  {
    hide SlotSet; hide Slot;
    if h.block == i.block {
      SamePointers(g, data, i, h);
      SlotsAlike(g, data, i, data, h, {});
    } else {
      var k :| 0 <= k < 15 && h.block[k] != i.block[k];
      var s := if k < DIRECT then k else MaxBlocks(g);
      PointerSlot(g, data, h, k);
      PointerSlot(g, data, i, k);
      InAllSlots(g, data, h, s);
      SlotSetIs(g, data, i, MaxBlocks(g) + 1, h.block[k]);
      forall r: nat | r <= MaxBlocks(g) ensures Slot(g, data, i, r) != h.block[k] {
        BehindSlots(g, data, i, h, r);
      }
      assert h.block[k] in Lost(g, data, i, h);
    }
  }

  lemma SamePointers(g: Geometry, data: Blocks, i: Inode, h: Inode)
    requires h.block == i.block
    ensures forall s: nat :: Slot(g, data, h, s) == Slot(g, data, i, s)
  {
  }

  lemma PointerSlot(g: Geometry, data: Blocks, i: Inode, k: nat)
    requires k <= DIRECT
    ensures Slot(g, data, i, if k < DIRECT then k else MaxBlocks(g)) == i.block[k]
  {
  }

  lemma CloseLoses(g: Geometry, v: Volume, open: map<nat, Inode>, t: Tree, n: nat)
    requires FsInv(g, v, open, t) && n in open && n in v.inodes
    ensures forall b: nat :: b in Lost(g, v.data, v.inodes[n], open[n]) <==>
      && InSomeSlot(g, v.data, Current(v, open, t.live), b)
      && !InSomeSlot(g, v.data, Current(v, open - {n}, t.live), b)
    ensures Lost(g, v.data, v.inodes[n], open[n]) <= v.used
    ensures Lost(g, v.data, v.inodes[n], open[n]) == {} <==> open[n].block == v.inodes[n].block
  {
    hide FsInv; hide MapsOk; hide Lost; hide InSomeSlot; hide Current;
    var eff, i := Current(v, open, t.live), v.inodes[n];
    OpenCurrent(g, v, open, t, n);
    ClosedCurrent(v, open, t.live, n);
    MapsAt(g, v, t.owner, eff, n);
    OpenBehind(g, v, open, t, n);
    LosesNothing(g, v.data, t.owner, n, i, open[n]);
    forall b: nat
      ensures b in Lost(g, v.data, i, open[n]) <==>
        InSomeSlot(g, v.data, eff, b) && !InSomeSlot(g, v.data, eff[n := i], b)
      ensures b in Lost(g, v.data, i, open[n]) ==> b in v.used
    {
      LostExactly(g, v, t.owner, eff, n, i, b);
    }
  }

  lemma ClosedCurrent(v: Volume, open: map<nat, Inode>, live: set<nat>, n: nat)
    requires n in live && n in v.inodes
    ensures Current(v, open - {n}, live) == Current(v, open, live)[n := v.inodes[n]]
  {
  }

  lemma OpenBehind(g: Geometry, v: Volume, open: map<nat, Inode>, t: Tree, n: nat)
    requires FsInv(g, v, open, t) && n in open && n in v.inodes
    ensures HandleOk(g, v.data, t.owner.stale, n, v.inodes[n], open[n]) && Behind(v.inodes[n], open[n])
  {
    hide TreeOk; hide MapsOk; hide LiveOk; hide AtMost; hide SectorsOk;
  }

  /** close forgets the private inode. Everything but the sector count of the record stays sound; that count falls
      behind exactly when the two records do not agree. The blocks that were in a slot and are in none any more, though
      still in use, are those that only the copy had; there are none exactly when the two have the same pointers. */
  method Close(fs: FsInstance, n: nat)
    requires Inv(fs) && n in fs.open
    modifies fs`open, fs`tree
    ensures Inv(fs) && fs.open == old(fs.open) - {n} && n in fs.Vol().inodes
    ensures fs.tree == Closed(fs.g, fs.Vol(), old(fs.open), old(fs.tree), n)
    ensures n !in old(fs.tree.owner.stale) ==>
      (FsInv(fs.g, fs.Vol(), fs.open, old(fs.tree)) <==> CountsAgree(fs.g, fs.Vol().inodes[n], old(fs.open)[n]))
    ensures var lost := Lost(fs.g, fs.Vol().data, fs.Vol().inodes[n], old(fs.open)[n]);
      && lost <= fs.Vol().used && (lost == {} <==> old(fs.open)[n].block == fs.Vol().inodes[n].block)
      && forall b: nat :: b in lost <==>
           && InSomeSlot(fs.g, fs.Vol().data, Current(fs.Vol(), old(fs.open), fs.tree.live), b)
           && !InSomeSlot(fs.g, fs.Vol().data, Current(fs.Vol(), fs.open, fs.tree.live), b)
  {
    hide ImageOk; hide Meaning; hide FsInv; hide DirsOf; hide CountsAgree; hide Lost; hide InSomeSlot; hide Current;
    OpenCurrent(fs.g, fs.Vol(), fs.open, fs.tree, n);
    CloseKeepsInv(fs.g, fs.Vol(), fs.open, fs.tree, n);
    CloseLoses(fs.g, fs.Vol(), fs.open, fs.tree, n);
    fs.tree := Closed(fs.g, fs.Vol(), fs.open, fs.tree, n);
    fs.open := fs.open - {n};
  }

  // ---------- a read into a hole, then close ----------

  /** The handle of n is as it was opened, and offset lies in a hole that a block can be found for. */
  ghost predicate AtHole(g: Geometry, v: Volume, p: map<nat, Inode>, t: Tree, n: nat, offset: nat)
    requires 0 < g.bs
  {
    && n in p && n in v.inodes && p[n] == v.inodes[n] && n !in t.owner.stale
    && BlockNum(g, offset) < MaxBlocks(g) && !Mapped(g, v.data, p[n], offset) && !Full(g, v)
  }

  /** The hole lies behind an indirect block that is there. */
  ghost predicate BehindIndirect(g: Geometry, i: Inode, offset: nat)
    requires 0 < g.bs
  {
    BlockNum(g, offset) >= DIRECT && i.block[DIRECT] != 0
  }

  lemma {:induction false} OwnedGrew(g: Geometry, data: Blocks, i: Inode, data': Blocks, i': Inode, k: nat, s: nat)
    requires SlotsStay(g, data, i, data', i') && s <= MaxBlocks(g) + 1 && k <= MaxBlocks(g)
    requires Slot(g, data, i, k) == 0 && Slot(g, data', i', k) != 0
    ensures Owned(g, data', i', s) >= Owned(g, data, i, s) + if k < s then 1 else 0
  {
    hide Slot;
    if s > 0 { OwnedGrew(g, data, i, data', i', k, s - 1); }
  }

  /** One byte read at a hole: no other logical block changes, and unless the indirect block is missing too the block
      taken is mapped there. */
  lemma OneHole(g: Geometry, v: Volume, p: map<nat, Inode>, t: Tree, v': Volume, p': map<nat, Inode>, t': Tree, n: nat,
                offset: nat, bytes: seq<byte>)
    requires 0 < g.bs && AtHole(g, v, p, t, n, offset) && |bytes| == 1
    requires Reading(g, v, p, t, v', p', t', n, offset, bytes)
    ensures n in p' && v'.inodes == v.inodes && Behind(p[n], p'[n]) && Extends(g, v, p[n], v', p'[n])
    ensures t'.owner.stale == t.owner.stale && v'.used != v.used
    ensures forall k: nat :: k < MaxBlocks(g) && k != BlockNum(g, offset) ==>
      BlockAt(g, v'.data, p'[n], k) == BlockAt(g, v.data, p[n], k)
  {
    hide Mapped; hide BlockAt; hide BlockNum; hide Full; hide Extends; hide Behind; hide OthersKept; hide DirsOf;
    hide Fetched; hide Shows; hide SameContents; hide Current;
    assert offset + |bytes| - 1 == offset;
  }

  lemma HoleMapped(g: Geometry, v: Volume, i: Inode, v': Volume, h: Inode, k: nat)
    requires Behind(i, h) && Extends(g, v, i, v', h) && v'.used != v.used && DIRECT <= k < MaxBlocks(g)
    requires i.block[DIRECT] != 0 && AllSlots(g, v.data, i) <= v.used
    requires forall j: nat :: j < MaxBlocks(g) && j != k ==> BlockAt(g, v'.data, h, j) == BlockAt(g, v.data, i, j)
    ensures Slot(g, v'.data, h, k) != Slot(g, v.data, i, k) && BlockAt(g, v'.data, i, k) == BlockAt(g, v'.data, h, k)
  {
    hide AllSlots;
    if Slot(g, v'.data, h, k) == Slot(g, v.data, i, k) {
      SlotsAlike(g, v.data, i, v'.data, h, {});
    }
  }

  /** Behind an indirect block the pointer is on disk at once and the count only in the copy, so the records do not
      agree. */
  lemma HoleBehindIndirect(g: Geometry, v: Volume, p: map<nat, Inode>, t: Tree, v': Volume, p': map<nat, Inode>,
                           t': Tree, n: nat, offset: nat, bytes: seq<byte>)
    requires 512 <= g.bs && AtHole(g, v, p, t, n, offset) && BehindIndirect(g, p[n], offset) && |bytes| == 1
    requires Reading(g, v, p, t, v', p', t', n, offset, bytes) && FsInv(g, v, p, t) && FsInv(g, v', p', t')
    ensures n in p' && n in v'.inodes && n !in t'.owner.stale
    ensures Mapped(g, v'.data, v'.inodes[n], offset) && !CountsAgree(g, v'.inodes[n], p'[n])
  {
    hide Reading; hide FsInv; hide Full; hide Extends; hide Slot; hide Owned; hide Current; hide AllSlots;
    hide BlockNum;
    var i, k := p[n], BlockNum(g, offset);
    OneHole(g, v, p, t, v', p', t', n, offset, bytes);
    var h := p'[n];
    OpenSlots(g, v, p, t, n);
    OpenSlots(g, v', p', t', n);
    HoleMapped(g, v, i, v', h, k);
    ExtendsStay(g, v, i, v', h);
    LogicalSlot(g, v.data, i, k);
    LogicalSlot(g, v'.data, h, k);
    OwnedGrew(g, v.data, i, v'.data, h, k, MaxBlocks(g) + 1);
    MulGap(Owned(g, v.data, i, MaxBlocks(g) + 1), Owned(g, v'.data, h, MaxBlocks(g) + 1), Sectors(g));
    forall j | 0 <= j < DIRECT ensures h.block[j] == i.block[j] {
      assert BlockAt(g, v'.data, h, j) == h.block[j] && BlockAt(g, v.data, i, j) == i.block[j];
    }
    NoneDiffer(i, h, DIRECT);
  }

  lemma LogicalSlot(g: Geometry, data: Blocks, i: Inode, k: nat)
    requires k < MaxBlocks(g)
    ensures Slot(g, data, i, k) == BlockAt(g, data, i, k)
  {
  }

  lemma OpenSlots(g: Geometry, v: Volume, p: map<nat, Inode>, t: Tree, n: nat)
    requires FsInv(g, v, p, t) && n in p
    ensures AllSlots(g, v.data, p[n]) <= v.used && n in v.inodes
    ensures n !in t.owner.stale ==> SectorsOk(g, v.data, p[n])
    ensures HandleOk(g, v.data, t.owner.stale, n, v.inodes[n], p[n])
  {
    hide FsInv; hide MapsOk; hide AllSlots; hide Current; hide SectorsOk; hide HandleOk;
    OpenCurrent(g, v, p, t, n);
    OwnSlotsUsed(g, v, t.owner, Current(v, p, t.live), n);
    OpenBehind(g, v, p, t, n);
    if n !in t.owner.stale { CountedThere(g, v, t.owner, Current(v, p, t.live), n); }
  }

  /** In any other hole the record on disk sees nothing of the block. */
  lemma RecordUnmoved(g: Geometry, data: Blocks, i: Inode, data': Blocks, h: Inode, k: nat)
    requires Behind(i, h) && (k < DIRECT || i.block[DIRECT] == 0)
    requires forall j: nat :: j < MaxBlocks(g) && j != k ==> BlockAt(g, data', h, j) == BlockAt(g, data, i, j)
    ensures forall s: nat :: s <= MaxBlocks(g) ==> Slot(g, data', i, s) == Slot(g, data, i, s)
  {
    forall s: nat | s <= MaxBlocks(g) ensures Slot(g, data', i, s) == Slot(g, data, i, s) {
      if DIRECT <= s < MaxBlocks(g) && i.block[DIRECT] != 0 {
        assert BlockAt(g, data', h, s) == BlockAt(g, data, i, s);
      }
    }
  }

  /** So what the read took is lost when the handle is closed, and the record's count stays exact. */
  lemma HoleNotOnDisk(g: Geometry, v: Volume, p: map<nat, Inode>, t: Tree, v': Volume, p': map<nat, Inode>, t': Tree,
                      n: nat, offset: nat, bytes: seq<byte>)
    requires 0 < g.bs && AtHole(g, v, p, t, n, offset) && !BehindIndirect(g, p[n], offset) && |bytes| == 1
    requires Reading(g, v, p, t, v', p', t', n, offset, bytes) && FsInv(g, v, p, t) && FsInv(g, v', p', t')
    ensures n in p' && n in v'.inodes && n !in t'.owner.stale
    ensures !Mapped(g, v'.data, v'.inodes[n], offset) && CountsAgree(g, v'.inodes[n], p'[n])
    ensures v'.used == v.used + Lost(g, v'.data, v'.inodes[n], p'[n]) && v'.used != v.used
  {
    hide Reading; hide FsInv; hide Full; hide Slot; hide Owned; hide Current; hide AllSlots; hide BlockNum;
    hide BlockAt; hide CountsAgree;
    var i, k := p[n], BlockNum(g, offset);
    OneHole(g, v, p, t, v', p', t', n, offset, bytes);
    OpenSlots(g, v, p, t, n);
    OpenSlots(g, v', p', t', n);
    RecordUnmoved(g, v.data, i, v'.data, p'[n], k);
    SlotsAlike(g, v.data, i, v'.data, i, {});
    LogicalSlot(g, v.data, i, k);
    LogicalSlot(g, v'.data, i, k);
    OwnedSame(g, v.data, i, v'.data, i, MaxBlocks(g) + 1);
    CloseExact(g, v'.data, t'.owner.stale, n, i, p'[n]);
  }

  /** The two as calls. Reading one byte of a hole and closing the handle leaves the record as it was. Behind an
      indirect block the hole is filled on disk and the record counts too few sectors; anywhere else the hole is still
      there, and the blocks taken for it are in use and in no slot of any inode. */
  method ReadHoleThenClose(fs: FsInstance, n: nat, offset: nat)
    requires Inv(fs) && n in fs.open && 0 < fs.g.bs && offset < fs.open[n].size
    requires AtHole(fs.g, fs.Vol(), fs.open, fs.tree, n, offset)
    modifies fs
    ensures Inv(fs) && fs.open == old(fs.open) - {n} && fs.Vol().inodes == old(fs.Vol().inodes)
    ensures n in fs.Vol().inodes
    ensures old(BehindIndirect(fs.g, fs.open[n], offset)) ==>
      && Mapped(fs.g, fs.Vol().data, fs.Vol().inodes[n], offset)
      && n in fs.tree.owner.stale && !SectorsOk(fs.g, fs.Vol().data, fs.Vol().inodes[n])
    ensures !old(BehindIndirect(fs.g, fs.open[n], offset)) ==>
      && !Mapped(fs.g, fs.Vol().data, fs.Vol().inodes[n], offset) && n !in fs.tree.owner.stale
      && fs.Vol().used != old(fs.Vol().used)
      && forall b: nat :: b in fs.Vol().used && b !in old(fs.Vol().used) ==>
           !InSomeSlot(fs.g, fs.Vol().data, Current(fs.Vol(), fs.open, fs.tree.live), b)
  {
    hide ImageOk; hide Meaning; hide FsInv; hide Reading; hide Mapped; hide CountsAgree; hide Lost; hide InSomeSlot;
    hide Current; hide SectorsOk; hide Full; hide BlockNum; hide ReadDid; hide AtHole; hide BehindIndirect;
    hide Geometry.SizesOk; hide Sized;
    ghost var v, p, t := fs.Vol(), fs.open, fs.tree;
    ValidSizes(fs);
    BlockSizes(fs.g);
    var bytes := Read(fs, n, offset, 1);
    HoleRead(fs.g, v, p, t, fs.Vol(), fs.open, fs.tree, n, offset, bytes);
    Close(fs, n);
  }

  lemma HoleRead(g: Geometry, v: Volume, p: map<nat, Inode>, t: Tree, v': Volume, p': map<nat, Inode>, t': Tree, n: nat,
                 offset: nat, bytes: seq<byte>)
    requires 512 <= g.bs && AtHole(g, v, p, t, n, offset) && offset < p[n].size
    requires ReadDid(g, v, p, t, v', p', t', n, offset, 1, bytes) && FsInv(g, v, p, t) && FsInv(g, v', p', t')
    ensures n in p' && n in v'.inodes && v'.inodes == v.inodes && p' == p[n := p'[n]] && n !in t'.owner.stale
    ensures Mapped(g, v'.data, v'.inodes[n], offset) <==> BehindIndirect(g, p[n], offset)
    ensures CountsAgree(g, v'.inodes[n], p'[n]) <==> !BehindIndirect(g, p[n], offset)
    ensures SectorsOk(g, v'.data, v'.inodes[n]) <==> !BehindIndirect(g, p[n], offset)
    ensures v'.used != v.used
    ensures !BehindIndirect(g, p[n], offset) ==> v'.used == v.used + Lost(g, v'.data, v'.inodes[n], p'[n])
  {
    hide Reading; hide FsInv; hide Mapped; hide CountsAgree; hide Lost; hide SectorsOk; hide Full; hide BlockNum;
    hide Stored; hide HandleOk; hide Extends; hide Behind; hide BehindIndirect; hide AllSlots; hide BlockAt;
    OneHole(g, v, p, t, v', p', t', n, offset, bytes);
    ReadingFile(g, v, p, t, v', p', t', n, offset, bytes);
    if BehindIndirect(g, p[n], offset) {
      HoleBehindIndirect(g, v, p, t, v', p', t', n, offset, bytes);
    } else {
      HoleNotOnDisk(g, v, p, t, v', p', t', n, offset, bytes);
    }
    OpenSlots(g, v', p', t', n);
    CloseExact(g, v'.data, t'.owner.stale, n, v'.inodes[n], p'[n]);
  }

  lemma ReadingFile(g: Geometry, v: Volume, p: map<nat, Inode>, t: Tree, v': Volume, p': map<nat, Inode>, t': Tree,
                    n: nat, offset: nat, bytes: seq<byte>)
    requires 0 < g.bs && Reading(g, v, p, t, v', p', t', n, offset, bytes)
    ensures OnlyFile(g, v, p, t, v', p', t', n) && n in p' && p' == p[n := p'[n]]
  {
    hide Fetched; hide Shows; hide HolesFilled; hide TakesNothing; hide OthersKept; hide DirsOf; hide Extends;
    hide Behind; hide Current;
  }
}
