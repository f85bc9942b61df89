/** The block map of an inode: twelve direct slots and one single-indirect block. Each block
    in use by an inode is owned by exactly one slot of one inode. */
module Ext2BlockMap {
  import opened Bytes
  import opened Arithmetic
  import opened Ext2Layout
  import opened Ext2Volume
  import opened Ext2Store

  type Blocks = map<nat, seq<byte>>

  ghost predicate Sized(g: Geometry, data: Blocks) {
    forall b :: b in data ==> |data[b]| == g.bs
  }

  function MaxBlocks(g: Geometry): nat { DIRECT + g.Ptrs() }

  function PointerIn(data: Blocks, b: nat, k: nat): (p: nat)
    ensures p < U32
  {
    if b in data && 4 * k + 4 <= |data[b]| then Get32(data[b], 4 * k) else 0
  }

  /** inodeBlockAt: the block that holds logical block k, or 0. */
  function BlockAt(g: Geometry, data: Blocks, i: Inode, k: nat): (b: nat)
    ensures b < U32
  {
    if k < DIRECT then i.block[k]
    else if k - DIRECT >= g.Ptrs() || i.block[DIRECT] == 0 then 0
    else PointerIn(data, i.block[DIRECT], k - DIRECT)
  }

  /** All the slots of an inode: its logical blocks, then the indirect block itself. */
  function Slot(g: Geometry, data: Blocks, i: Inode, s: nat): (b: nat) {
    if s == MaxBlocks(g) then i.block[DIRECT] else BlockAt(g, data, i, s)
  }

  ghost predicate Owns(g: Geometry, data: Blocks, owner: Owners, n: nat, i: Inode) {
    && (forall s: nat :: s <= MaxBlocks(g) && Slot(g, data, i, s) != 0 ==>
          Slot(g, data, i, s) in owner.slot && owner.slot[Slot(g, data, i, s)] == (n, s))
    && i.block[13] == 0 && i.block[14] == 0
  }

  /** How many of the first s slots hold a block. */
  function Owned(g: Geometry, data: Blocks, i: Inode, s: nat): (c: nat)
    ensures c <= s
  {
    if s == 0 then 0 else Owned(g, data, i, s - 1) + (if Slot(g, data, i, s - 1) != 0 then 1 else 0)
  }

  /** inode.blocks counts 512-byte sectors, the indirect block included. */
  ghost predicate SectorsOk(g: Geometry, data: Blocks, i: Inode) {
    i.blocks == Owned(g, data, i, MaxBlocks(g) + 1) * Sectors(g)
  }

  ghost predicate AtMost(g: Geometry, data: Blocks, i: Inode) {
    i.blocks <= Owned(g, data, i, MaxBlocks(g) + 1) * Sectors(g)
  }

  /** The count is exact, or for a stale inode not too high. */
  ghost predicate Counted(g: Geometry, data: Blocks, stale: set<nat>, n: nat, i: Inode) {
    if n in stale then AtMost(g, data, i) else SectorsOk(g, data, i)
  }

  function Assigned(owner: Owners, b: nat, n: nat, s: nat): Owners { owner.(slot := owner.slot[b := (n, s)]) }

  function Released(owner: Owners, b: nat): Owners { owner.(slot := owner.slot - {b}) }

  ghost predicate OwnersUsed(v: Volume, owner: Owners) {
    forall b :: b in owner.slot ==> b in v.used && b in v.data
  }

  /** The ownership invariant, over the current inode of every inode in the tree. */
  ghost predicate MapsOk(g: Geometry, v: Volume, owner: Owners, eff: map<nat, Inode>) {
    && Sized(g, v.data)
    && OwnersUsed(v, owner)
    && (forall n :: n in eff ==> Owns(g, v.data, owner, n, eff[n]) && Counted(g, v.data, owner.stale, n, eff[n]))
  }

  /** Two inodes map the same logical blocks, with the same contents, but perhaps for block skip. */
  ghost predicate KeptBut(g: Geometry, data: Blocks, i: Inode, data': Blocks, i': Inode, skip: nat) {
    forall k: nat :: k < MaxBlocks(g) && k != skip ==>
      BlockAt(g, data', i', k) == BlockAt(g, data, i, k) && SameBlock(data, data', BlockAt(g, data, i, k))
  }

  ghost predicate SameBlock(data: Blocks, data': Blocks, b: nat) {
    b != 0 ==> b in data && b in data' && data'[b] == data[b]
  }

  ghost predicate FileKept(g: Geometry, data: Blocks, i: Inode, data': Blocks, i': Inode) {
    KeptBut(g, data, i, data', i', MaxBlocks(g))
  }

  ghost predicate OthersKept(g: Geometry, data: Blocks, data': Blocks, eff: map<nat, Inode>, n: nat) {
    forall m :: m in eff && m != n ==> FileKept(g, data, eff[m], data', eff[m])
  }

  // ---------- no block has two owners ----------

  lemma NoSharing(g: Geometry, v: Volume, owner: Owners, eff: map<nat, Inode>, n: nat, s: nat, m: nat, t: nat)
    requires MapsOk(g, v, owner, eff) && n in eff && m in eff && s <= MaxBlocks(g) && t <= MaxBlocks(g)
    requires Slot(g, v.data, eff[n], s) == Slot(g, v.data, eff[m], t) != 0
    ensures n == m && s == t
    ensures Slot(g, v.data, eff[n], s) in v.used && Slot(g, v.data, eff[n], s) in v.data
  {
    hide Slot; hide Counted;
    assert Owns(g, v.data, owner, n, eff[n]) && Owns(g, v.data, owner, m, eff[m]);
  }

  // ---------- filling one slot with a fresh block ----------

  /** Slot s of n goes from empty to b; every other slot of every inode stays. */
  ghost predicate SlotFilled(g: Geometry, data: Blocks, data': Blocks, eff: map<nat, Inode>, n: nat, i': Inode, s: nat,
                             b: nat)
    requires n in eff
  {
    && Slot(g, data, eff[n], s) == 0 && Slot(g, data', i', s) == b
    && (forall t: nat :: t <= MaxBlocks(g) && t != s ==> Slot(g, data', i', t) == Slot(g, data, eff[n], t))
    && (forall m, t: nat :: m in eff && m != n && t <= MaxBlocks(g) ==>
          Slot(g, data', eff[m], t) == Slot(g, data, eff[m], t))
    && i'.block[13..] == eff[n].block[13..]
    && i'.blocks == (eff[n].blocks + Sectors(g)) % U32
  }

  lemma {:induction false} OwnedSame(g: Geometry, data: Blocks, i: Inode, data': Blocks, i': Inode, s: nat)
    requires forall t: nat :: t < s ==> Slot(g, data', i', t) == Slot(g, data, i, t)
    ensures Owned(g, data', i', s) == Owned(g, data, i, s)
  {
    hide Slot;
    if s > 0 { OwnedSame(g, data, i, data', i', s - 1); }
  }

  lemma {:induction false} OwnedOneMore(g: Geometry, data: Blocks, i: Inode, data': Blocks, i': Inode, s: nat, k: nat)
    requires forall t: nat :: t < s && t != k ==> Slot(g, data', i', t) == Slot(g, data, i, t)
    requires k < s && Slot(g, data, i, k) == 0 && Slot(g, data', i', k) != 0
    ensures Owned(g, data', i', s) == Owned(g, data, i, s) + 1
  {
    hide Slot;
    if k == s - 1 {
      OwnedSame(g, data, i, data', i', s - 1);
    } else {
      OwnedOneMore(g, data, i, data', i', s - 1, k);
    }
  }

  function Sectors(g: Geometry): nat { g.bs / 512 }

  lemma SectorsFit(g: Geometry, c: nat)
    requires g.bs < U16 && c <= MaxBlocks(g) + 1
    ensures (c * Sectors(g) + Sectors(g)) % U32 == (c + 1) * Sectors(g) == c * Sectors(g) + Sectors(g)
  {
    var p := Sectors(g);
    MulMono(p, 128, c + 1);
    assert (c + 1) * p == p * (c + 1);
    assert (c + 1) * p == c * p + p;
  }

  lemma FillSectors(g: Geometry, data: Blocks, data': Blocks, stale: set<nat>, eff: map<nat, Inode>, n: nat, i': Inode,
                    s: nat, b: nat)
    requires g.bs < U16 && n in eff && s <= MaxBlocks(g) && b != 0
    requires SlotFilled(g, data, data', eff, n, i', s, b) && Counted(g, data, stale, n, eff[n])
    ensures Counted(g, data', stale, n, i')
  {
    hide Slot; hide Sectors; hide Owned;
    OwnedOneMore(g, data, eff[n], data', i', MaxBlocks(g) + 1, s);
    var c := Owned(g, data, eff[n], MaxBlocks(g) + 1);
    SectorsFit(g, c);
    OneMoreSector(eff[n].blocks, c * Sectors(g), Sectors(g));
  }

  lemma OneMoreSector(x: nat, y: nat, s: nat)
    requires x <= y
    ensures (y + s) % U32 == y + s ==> (x + s) % U32 == x + s
  {
  }

  lemma OtherSectors(g: Geometry, data: Blocks, data': Blocks, stale: set<nat>, n: nat, i: Inode)
    requires forall t: nat :: t <= MaxBlocks(g) ==> Slot(g, data', i, t) == Slot(g, data, i, t)
    requires Counted(g, data, stale, n, i)
    ensures Counted(g, data', stale, n, i)
  {
    hide Slot;
    OwnedSame(g, data, i, data', i, MaxBlocks(g) + 1);
  }

  /** Filling a slot with a block that nobody used keeps the ownership invariant. */
  lemma FillKeepsMaps(g: Geometry, v: Volume, v': Volume, owner: Owners, eff: map<nat, Inode>, n: nat, i': Inode,
                      s: nat, b: nat)
    requires MapsOk(g, v, owner, eff) && n in eff && s <= MaxBlocks(g) && g.bs < U16
    requires b != 0 && b !in v.used && b in v'.data && v'.used == v.used + {b}
    requires Sized(g, v'.data) && v'.data.Keys == v.data.Keys
    requires SlotFilled(g, v.data, v'.data, eff, n, i', s, b)
    ensures MapsOk(g, v', Assigned(owner, b, n, s), eff[n := i'])
  {
    hide Slot; hide Counted;
    var eff' := eff[n := i'];
    var owner' := Assigned(owner, b, n, s);
    assert b !in owner.slot;
    assert i'.block[13] == i'.block[13..][0] && i'.block[14] == i'.block[13..][1];
    assert eff[n].block[13] == eff[n].block[13..][0] && eff[n].block[14] == eff[n].block[13..][1];
    forall m | m in eff' ensures Owns(g, v'.data, owner', m, eff'[m]) && Counted(g, v'.data, owner'.stale, m, eff'[m]) {
      assert Owns(g, v.data, owner, m, eff[m]);
      if m == n {
        FillSectors(g, v.data, v'.data, owner.stale, eff, n, i', s, b);
      } else {
        OtherSectors(g, v.data, v'.data, owner.stale, m, eff[m]);
      }
    }
  }

  // ---------- the three ways inodeBlockAtOrAlloc fills a slot ----------

  function WithBlock(g: Geometry, i: Inode, k: nat, b: nat): (i': Inode)
    requires k < 15 && b < U32
  {
    i.(block := i.block[k := b], blocks := (i.blocks + Sectors(g)) % U32)
  }

  lemma FillDirect(g: Geometry, v: Volume, owner: Owners, eff: map<nat, Inode>, n: nat, k: nat, b: nat)
    requires MapsOk(g, v, owner, eff) && n in eff && k < DIRECT && 0 < b < U32 && eff[n].block[k] == 0
    ensures SlotFilled(g, v.data, v.data, eff, n, WithBlock(g, eff[n], k, b), k, b)
  {
  }

  lemma FillIndirect(g: Geometry, v: Volume, owner: Owners, eff: map<nat, Inode>, n: nat, b: nat)
    requires MapsOk(g, v, owner, eff) && n in eff && 0 < b < U32 && b !in owner.slot && eff[n].block[DIRECT] == 0
    ensures SlotFilled(g, v.data, v.data[b := Zeros(g.bs)], eff, n, WithBlock(g, eff[n], DIRECT, b), MaxBlocks(g), b)
  {
    hide Counted;
    var data' := v.data[b := Zeros(g.bs)];
    forall m, t: nat | m in eff && m != n && t <= MaxBlocks(g)
      ensures Slot(g, data', eff[m], t) == Slot(g, v.data, eff[m], t)
    {
      assert Owns(g, v.data, owner, m, eff[m]);
      assert Slot(g, v.data, eff[m], MaxBlocks(g)) == eff[m].block[DIRECT];
    }
  }

  lemma IndirectOwned(g: Geometry, v: Volume, owner: Owners, eff: map<nat, Inode>, n: nat)
    requires MapsOk(g, v, owner, eff) && n in eff && eff[n].block[DIRECT] != 0
    ensures var x := eff[n].block[DIRECT];
      x in owner.slot && owner.slot[x] == (n, MaxBlocks(g)) && x in v.used && x in v.data && |v.data[x]| == g.bs
  {
    hide Counted;
    assert Slot(g, v.data, eff[n], MaxBlocks(g)) == eff[n].block[DIRECT];
  }

  function WithPointer(g: Geometry, i: Inode): (i': Inode) {
    i.(blocks := (i.blocks + Sectors(g)) % U32)
  }

  lemma FillPointer(g: Geometry, v: Volume, owner: Owners, eff: map<nat, Inode>, n: nat, k: nat, b: nat)
    requires MapsOk(g, v, owner, eff) && n in eff && k < g.Ptrs() && 0 < b < U32
    requires eff[n].block[DIRECT] != 0 && BlockAt(g, v.data, eff[n], DIRECT + k) == 0
    ensures var x := eff[n].block[DIRECT]; x in v.data && 4 * k + 4 <= |v.data[x]|
    ensures var x := eff[n].block[DIRECT];
      SlotFilled(g, v.data, v.data[x := Splice(v.data[x], 4 * k, Le32(b))], eff, n,
                 WithPointer(g, eff[n]), DIRECT + k, b)
  {
    hide Counted; hide Get32; hide Le32; hide Splice;
    var i := eff[n];
    var x := i.block[DIRECT];
    IndirectOwned(g, v, owner, eff, n);
    Splice32(v.data[x], 4 * k, b);
    var data' := v.data[x := Splice(v.data[x], 4 * k, Le32(b))];
    forall m, t: nat | m in eff && m != n && t <= MaxBlocks(g)
      ensures Slot(g, data', eff[m], t) == Slot(g, v.data, eff[m], t)
    {
      if eff[m].block[DIRECT] != 0 { IndirectOwned(g, v, owner, eff, m); }
    }
    forall t: nat | t <= MaxBlocks(g) && t != DIRECT + k
      ensures Slot(g, data', WithPointer(g, i), t) == Slot(g, v.data, i, t)
    {
      if DIRECT <= t < MaxBlocks(g) {
        assert 4 * (t - DIRECT) + 4 <= 4 * k || 4 * k + 4 <= 4 * (t - DIRECT);
      }
    }
  }

  /** Overwriting a block that is no file's data leaves every file's contents alone. */
  lemma ContentsKept(g: Geometry, v: Volume, owner: Owners, n: nat, i: Inode, data': Blocks, i': Inode, x: nat,
                     skip: nat)
    requires OwnersUsed(v, owner) && Owns(g, v.data, owner, n, i)
    requires x !in owner.slot || owner.slot[x].1 == MaxBlocks(g)
    requires data'.Keys == v.data.Keys && forall b :: b in v.data && b != x ==> data'[b] == v.data[b]
    requires forall k: nat :: k < MaxBlocks(g) && k != skip ==> Slot(g, data', i', k) == Slot(g, v.data, i, k)
    ensures KeptBut(g, v.data, i, data', i', skip)
  {
    hide BlockAt;
    forall k: nat | k < MaxBlocks(g) && k != skip
      ensures BlockAt(g, data', i', k) == BlockAt(g, v.data, i, k) && SameBlock(v.data, data', BlockAt(g, v.data, i, k))
    {
      assert Slot(g, v.data, i, k) == BlockAt(g, v.data, i, k);
      assert Slot(g, data', i', k) == BlockAt(g, data', i', k);
    }
  }

  lemma FillKeepsContents(g: Geometry, v: Volume, owner: Owners, eff: map<nat, Inode>, n: nat, data': Blocks, i': Inode,
                          s: nat, b: nat, x: nat)
    requires MapsOk(g, v, owner, eff) && n in eff && s <= MaxBlocks(g)
    requires SlotFilled(g, v.data, data', eff, n, i', s, b)
    requires x !in owner.slot || owner.slot[x].1 == MaxBlocks(g)
    requires data'.Keys == v.data.Keys && forall c :: c in v.data && c != x ==> data'[c] == v.data[c]
    ensures OthersKept(g, v.data, data', eff, n) && KeptBut(g, v.data, eff[n], data', i', s)
  {
    hide Slot; hide Counted; hide KeptBut;
    ContentsKept(g, v, owner, n, eff[n], data', i', x, s);
    forall m | m in eff && m != n ensures FileKept(g, v.data, eff[m], data', eff[m]) {
      ContentsKept(g, v, owner, m, eff[m], data', eff[m], x, MaxBlocks(g));
    }
  }

  ghost predicate OwnersGrow(owner: Owners, owner': Owners) {
    owner'.stale == owner.stale && forall b :: b in owner.slot ==> b in owner'.slot && owner'.slot[b] == owner.slot[b]
  }

  /** Pointers may have been added, but none changed or dropped. */
  ghost predicate Behind(i: Inode, i': Inode) {
    forall k :: 0 <= k < 15 ==> i.block[k] == 0 || i'.block[k] == i.block[k]
  }

  /** From (v, i) to (v', i') a map grows: each slot keeps its block or goes from empty to a block that was free, the
      blocks in use grow by exactly the blocks in those slots, and blocks that are still free keep their contents. */
  ghost predicate Extends(g: Geometry, v: Volume, i: Inode, v': Volume, i': Inode) {
    && (forall s: nat :: s <= MaxBlocks(g) ==>
          || Slot(g, v'.data, i', s) == Slot(g, v.data, i, s)
          || (Slot(g, v.data, i, s) == 0 && Slot(g, v'.data, i', s) !in v.used))
    && v'.used == v.used + AllSlots(g, v'.data, i') && v'.data.Keys == v.data.Keys
    && (forall b :: b in v.data && b !in v'.used ==> v'.data[b] == v.data[b])
  }

  lemma ExtendsStay(g: Geometry, v: Volume, i: Inode, v': Volume, i': Inode)
    requires Extends(g, v, i, v', i')
    ensures SlotsStay(g, v.data, i, v'.data, i')
  {
    hide Slot; hide AllSlots;
  }

  lemma InAllSlots(g: Geometry, data: Blocks, i: Inode, s: nat)
    requires s <= MaxBlocks(g) && Slot(g, data, i, s) != 0
    ensures Slot(g, data, i, s) in AllSlots(g, data, i)
  {
    hide Slot; hide SlotSet;
    SlotSetIs(g, data, i, MaxBlocks(g) + 1, Slot(g, data, i, s));
  }

  lemma OwnSlotsUsed(g: Geometry, v: Volume, owner: Owners, eff: map<nat, Inode>, n: nat)
    requires MapsOk(g, v, owner, eff) && n in eff
    ensures AllSlots(g, v.data, eff[n]) <= v.used
  {
    hide Slot; hide Counted; hide SlotSet;
    forall b | b in AllSlots(g, v.data, eff[n]) ensures b in v.used {
      SlotSetIs(g, v.data, eff[n], MaxBlocks(g) + 1, b);
    }
  }

  /** Slots that agree hold the same blocks. */
  lemma SlotsAlike(g: Geometry, data: Blocks, i: Inode, data': Blocks, i': Inode, extra: set<nat>)
    requires forall t: nat :: t <= MaxBlocks(g) && Slot(g, data', i', t) != Slot(g, data, i, t) ==>
      Slot(g, data, i, t) == 0 && Slot(g, data', i', t) in extra
    ensures AllSlots(g, data, i) <= AllSlots(g, data', i') <= AllSlots(g, data, i) + extra
  {
    hide Slot; hide SlotSet;
    forall b ensures b in AllSlots(g, data, i) ==> b in AllSlots(g, data', i')
      ensures b in AllSlots(g, data', i') ==> b in AllSlots(g, data, i) + extra
    {
      SlotSetIs(g, data, i, MaxBlocks(g) + 1, b);
      SlotSetIs(g, data', i', MaxBlocks(g) + 1, b);
    }
  }

  /** A file that is kept has the same blocks. */
  lemma KeptSlots(g: Geometry, data: Blocks, data': Blocks, i: Inode)
    requires FileKept(g, data, i, data', i)
    ensures forall s: nat :: s <= MaxBlocks(g) ==> Slot(g, data', i, s) == Slot(g, data, i, s)
    ensures AllSlots(g, data', i) == AllSlots(g, data, i)
  {
    hide BlockAt; hide AllSlots;
    SlotsAlike(g, data, i, data', i, {});
  }

  lemma ExtendsNot(g: Geometry, v: Volume, owner: Owners, eff: map<nat, Inode>, n: nat)
    requires MapsOk(g, v, owner, eff) && n in eff
    ensures Extends(g, v, eff[n], v, eff[n])
  {
    hide Slot; hide MapsOk; hide AllSlots;
    OwnSlotsUsed(g, v, owner, eff, n);
  }

  /** The same slots over other contents, of blocks in use only. */
  lemma ExtendsInPlace(g: Geometry, v: Volume, owner: Owners, eff: map<nat, Inode>, n: nat, b: nat, block: seq<byte>)
    requires MapsOk(g, v, owner, eff) && n in eff && b in v.used && b in v.data
    requires forall t: nat :: t <= MaxBlocks(g) ==> Slot(g, v.data[b := block], eff[n], t) == Slot(g, v.data, eff[n], t)
    ensures Extends(g, v, eff[n], v.(data := v.data[b := block]), eff[n])
  {
    hide Slot; hide MapsOk; hide AllSlots;
    OwnSlotsUsed(g, v, owner, eff, n);
    SlotsAlike(g, v.data, eff[n], v.data[b := block], eff[n], {});
  }

  lemma FilledExtends(g: Geometry, v: Volume, owner: Owners, v': Volume, eff: map<nat, Inode>, n: nat, i': Inode,
                      s: nat, b: nat, x: nat)
    requires MapsOk(g, v, owner, eff) && n in eff && s <= MaxBlocks(g)
    requires SlotFilled(g, v.data, v'.data, eff, n, i', s, b)
    requires b != 0 && b !in v.used && v'.used == v.used + {b} && v'.data.Keys == v.data.Keys
    requires (x == b || x in v.used) && forall c :: c in v.data && c != x ==> v'.data[c] == v.data[c]
    ensures Extends(g, v, eff[n], v', i')
  {
    hide Slot; hide MapsOk; hide AllSlots;
    OwnSlotsUsed(g, v, owner, eff, n);
    SlotsAlike(g, v.data, eff[n], v'.data, i', {b});
    InAllSlots(g, v'.data, i', s);
  }

  lemma ExtendsTwice(g: Geometry, v0: Volume, i0: Inode, v1: Volume, i1: Inode, v2: Volume, i2: Inode)
    requires Extends(g, v0, i0, v1, i1) && Extends(g, v1, i1, v2, i2)
    ensures Extends(g, v0, i0, v2, i2)
  {
    hide Slot; hide AllSlots;
    forall t: nat | t <= MaxBlocks(g) && Slot(g, v2.data, i2, t) != Slot(g, v1.data, i1, t)
      ensures Slot(g, v2.data, i2, t) in AllSlots(g, v2.data, i2)
    {
      InAllSlots(g, v2.data, i2, t);
    }
    SlotsAlike(g, v1.data, i1, v2.data, i2, AllSlots(g, v2.data, i2));
  }

  lemma ExtendsFields(g: Geometry, v: Volume, i: Inode, v': Volume, i': Inode, j: Inode)
    requires Extends(g, v, i, v', i') && j.block == i'.block
    ensures Extends(g, v, i, v', j)
  {
    hide AllSlots;
    assert forall s: nat :: Slot(g, v'.data, j, s) == Slot(g, v'.data, i', s);
    SlotsAlike(g, v'.data, i', v'.data, j, {});
  }

  /** Where no block was taken, all slots are as they were. */
  lemma ExtendsNothing(g: Geometry, v: Volume, i: Inode, v': Volume, i': Inode)
    requires Extends(g, v, i, v', i') && v'.used == v.used
    ensures forall s: nat :: s <= MaxBlocks(g) ==> Slot(g, v'.data, i', s) == Slot(g, v.data, i, s)
  {
    hide Slot; hide AllSlots;
    forall s: nat | s <= MaxBlocks(g) ensures Slot(g, v'.data, i', s) == Slot(g, v.data, i, s) {
      if Slot(g, v'.data, i', s) != 0 { InAllSlots(g, v'.data, i', s); }
    }
  }

  /** No slot that held a block has lost it. */
  ghost predicate SlotsStay(g: Geometry, data: Blocks, i: Inode, data': Blocks, i': Inode) {
    forall s: nat :: s <= MaxBlocks(g) && Slot(g, data, i, s) != 0 ==> Slot(g, data', i', s) == Slot(g, data, i, s)
  }

  lemma FilledBehind(g: Geometry, data: Blocks, data': Blocks, eff: map<nat, Inode>, n: nat, i': Inode, s: nat, b: nat)
    requires n in eff && SlotFilled(g, data, data', eff, n, i', s, b) && s <= MaxBlocks(g)
    ensures Behind(eff[n], i')
  {
    hide SlotFilled;
    forall k | 0 <= k < 15 ensures eff[n].block[k] == 0 || i'.block[k] == eff[n].block[k] {
      FilledPointer(g, data, data', eff, n, i', s, b, k);
    }
  }

  lemma FilledPointer(g: Geometry, data: Blocks, data': Blocks, eff: map<nat, Inode>, n: nat, i': Inode, s: nat, b: nat,
                      k: nat)
    requires n in eff && SlotFilled(g, data, data', eff, n, i', s, b) && s <= MaxBlocks(g) && k < 15
    ensures eff[n].block[k] == 0 || i'.block[k] == eff[n].block[k]
  {
    if k < DIRECT {
      assert Slot(g, data, eff[n], k) == eff[n].block[k] && Slot(g, data', i', k) == i'.block[k];
    } else if k == DIRECT {
      assert Slot(g, data, eff[n], MaxBlocks(g)) == eff[n].block[k] && Slot(g, data', i', MaxBlocks(g)) == i'.block[k];
    } else {
      assert i'.block[k] == i'.block[13..][k - 13] && eff[n].block[k] == eff[n].block[13..][k - 13];
    }
  }

  /** What extending inode n's map, at logical block k at most, may change. */
  ghost predicate Grown(g: Geometry, v: Volume, owner: Owners, v': Volume, owner': Owners, eff: map<nat, Inode>, n: nat,
                        i': Inode, k: nat)
    requires n in eff
  {
    && MapsOk(g, v', owner', eff[n := i'])
    && OwnersGrow(owner, owner')
    && v'.iused == v.iused && v'.inodes == v.inodes && v.used <= v'.used && v'.data.Keys == v.data.Keys
    && OthersKept(g, v.data, v'.data, eff, n)
    && KeptBut(g, v.data, eff[n], v'.data, i', k)
    && i' == eff[n].(block := i'.block, blocks := i'.blocks)
    && Behind(eff[n], i') && Extends(g, v, eff[n], v', i')
  }

  lemma FillGrows(g: Geometry, v: Volume, v': Volume, owner: Owners, eff: map<nat, Inode>, n: nat, i': Inode, s: nat,
                  b: nat, x: nat)
    requires MapsOk(g, v, owner, eff) && n in eff && s <= MaxBlocks(g) && g.bs < U16
    requires b != 0 && b !in v.used && b in v.data && v' == v.(used := v.used + {b}, data := v'.data)
    requires Sized(g, v'.data) && v'.data.Keys == v.data.Keys
    requires SlotFilled(g, v.data, v'.data, eff, n, i', s, b)
    requires (x !in owner.slot || owner.slot[x].1 == MaxBlocks(g)) && (x == b || x in v.used)
    requires forall c :: c in v.data && c != x ==> v'.data[c] == v.data[c]
    requires i' == eff[n].(block := i'.block, blocks := i'.blocks)
    ensures Grown(g, v, owner, v', Assigned(owner, b, n, s), eff, n, i', s)
  {
    hide Slot; hide MapsOk; hide KeptBut; hide SlotFilled; hide OthersKept; hide Extends;
    FillKeepsMaps(g, v, v', owner, eff, n, i', s, b);
    FillKeepsContents(g, v, owner, eff, n, v'.data, i', s, b, x);
    NotOwned(g, v, owner, eff, b);
    FilledBehind(g, v.data, v'.data, eff, n, i', s, b);
    FilledExtends(g, v, owner, v', eff, n, i', s, b, x);
  }

  lemma NotOwned(g: Geometry, v: Volume, owner: Owners, eff: map<nat, Inode>, b: nat)
    requires MapsOk(g, v, owner, eff) && b !in v.used
    ensures b !in owner.slot
  {
  }

  lemma KeptTransitive(g: Geometry, d0: Blocks, i0: Inode, d1: Blocks, i1: Inode, d2: Blocks, i2: Inode, skip: nat)
    requires FileKept(g, d0, i0, d1, i1) && KeptBut(g, d1, i1, d2, i2, skip)
    ensures KeptBut(g, d0, i0, d2, i2, skip)
  {
    hide BlockAt;
  }

  lemma GrownTwice(g: Geometry, v0: Volume, o0: Owners, v1: Volume, o1: Owners, v2: Volume, o2: Owners,
                   eff: map<nat, Inode>, n: nat, i1: Inode, i2: Inode, k: nat)
    requires n in eff && Grown(g, v0, o0, v1, o1, eff, n, i1, MaxBlocks(g))
    requires Grown(g, v1, o1, v2, o2, eff[n := i1], n, i2, k)
    ensures Grown(g, v0, o0, v2, o2, eff, n, i2, k)
  {
    hide KeptBut; hide MapsOk; hide Extends;
    assert eff[n := i1][n := i2] == eff[n := i2];
    ExtendsTwice(g, v0, eff[n], v1, i1, v2, i2);
    KeptTransitive(g, v0.data, eff[n], v1.data, i1, v2.data, i2, k);
    forall m | m in eff && m != n ensures FileKept(g, v0.data, eff[m], v2.data, eff[m]) {
      assert FileKept(g, v1.data, eff[n := i1][m], v2.data, eff[n := i1][m]);
      KeptTransitive(g, v0.data, eff[m], v1.data, eff[m], v2.data, eff[m], MaxBlocks(g));
    }
  }

  lemma NotGrown(g: Geometry, v: Volume, owner: Owners, eff: map<nat, Inode>, n: nat, k: nat)
    requires n in eff && MapsOk(g, v, owner, eff)
    ensures Grown(g, v, owner, v, owner, eff, n, eff[n], k)
  {
    hide Slot; hide Counted; hide KeptBut; hide Extends;
    assert eff[n := eff[n]] == eff;
    ExtendsNot(g, v, owner, eff, n);
    forall m | m in eff
      ensures FileKept(g, v.data, eff[m], v.data, eff[m]) && KeptBut(g, v.data, eff[m], v.data, eff[m], k)
    {
      KeptSelf(g, v, owner, m, eff[m], k);
      KeptSelf(g, v, owner, m, eff[m], MaxBlocks(g));
    }
  }

  lemma KeptSelf(g: Geometry, v: Volume, owner: Owners, n: nat, i: Inode, k: nat)
    requires OwnersUsed(v, owner) && Owns(g, v.data, owner, n, i)
    ensures KeptBut(g, v.data, i, v.data, i, k)
  {
    hide BlockAt;
    forall j: nat | j < MaxBlocks(g) && j != k ensures SameBlock(v.data, v.data, BlockAt(g, v.data, i, j)) {
      assert Slot(g, v.data, i, j) == BlockAt(g, v.data, i, j);
    }
  }

  // ---------- the driver's operations ----------

  lemma BlockSizes(g: Geometry)
    requires g.SizesOk() && g.bs < U16
    ensures 1024 <= g.bs < U16 && g.bs % 4 == 0
  {
    hide Geometry.CountsOk;
  }

  lemma ValidSizes(fs: FsInstance)
    requires fs.Valid()
    ensures fs.g.SizesOk() && fs.g.bs < U16 && Sized(fs.g, fs.Vol().data)
    ensures forall b :: b in fs.Vol().data ==> 0 < b < fs.g.blocksCount < U32
  {
    hide CountsOk; hide MetaUsed; hide Used; hide UsedInodes; hide Inodes; hide Geometry.IsMeta; hide Geometry.CountsOk;
    ZeroIsMeta(fs.g);
  }

  method InodeBlockAt(fs: FsInstance, i: Inode, k: nat) returns (b: nat)
    requires fs.Valid()
    requires i.block[DIRECT] == 0 || i.block[DIRECT] in fs.Vol().data
    ensures b == BlockAt(fs.g, fs.Vol().data, i, k)
  {
    hide CountsOk; hide MetaUsed; hide Used; hide UsedInodes; hide Inodes; hide Data; hide Get32;
    ValidSizes(fs);
    if k < DIRECT { return i.block[k]; }
    var index := k - DIRECT;
    if index >= fs.g.Ptrs() || i.block[DIRECT] == 0 { return 0; }
    var indirect := ReadBlock(fs, i.block[DIRECT]);
    b := Get32(indirect, 4 * index);
  }

  /** Under the new volume and owners the inode as it was before is still sound and keeps its
      contents: a caller may drop the extended copy. */
  ghost predicate Untouched(g: Geometry, v: Volume, v': Volume, owner': Owners, eff: map<nat, Inode>, n: nat)
    requires n in eff
  {
    MapsOk(g, v', owner', eff) && FileKept(g, v.data, eff[n], v'.data, eff[n])
  }

  lemma NothingTouched(g: Geometry, v: Volume, owner: Owners, eff: map<nat, Inode>, n: nat)
    requires n in eff && MapsOk(g, v, owner, eff)
    ensures Untouched(g, v, v, owner, eff, n)
  {
    hide Slot; hide Counted; hide KeptBut;
    KeptSelf(g, v, owner, n, eff[n], MaxBlocks(g));
  }

  /** An indirect block that the old inode does not name is invisible to it. */
  lemma IndirectUnseen(g: Geometry, v: Volume, v': Volume, owner: Owners, eff: map<nat, Inode>, n: nat, b: nat)
    requires MapsOk(g, v, owner, eff) && n in eff && 0 < b < U32 && b !in v.used && b in v.data
    requires eff[n].block[DIRECT] == 0
    requires v' == v.(used := v.used + {b}, data := v.data[b := Zeros(g.bs)])
    ensures Untouched(g, v, v', Assigned(owner, b, n, MaxBlocks(g)), eff, n)
  {
    hide Counted; hide KeptBut; hide BlockAt; hide SlotFilled; hide Slot;
    var owner' := Assigned(owner, b, n, MaxBlocks(g));
    NotOwned(g, v, owner, eff, b);
    FillIndirect(g, v, owner, eff, n, b);
    forall m | m in eff
      ensures Owns(g, v'.data, owner', m, eff[m]) && Counted(g, v'.data, owner'.stale, m, eff[m])
    {
      OldSlots(g, v, owner, eff, n, b, m);
      OtherSectors(g, v.data, v'.data, owner.stale, m, eff[m]);
      OwnsSame(g, v.data, v'.data, owner, m, eff[m]);
    }
    OldSlots(g, v, owner, eff, n, b, n);
    ContentsKept(g, v, owner, n, eff[n], v'.data, eff[n], b, MaxBlocks(g));
  }

  lemma OldSlots(g: Geometry, v: Volume, owner: Owners, eff: map<nat, Inode>, n: nat, b: nat, m: nat)
    requires MapsOk(g, v, owner, eff) && n in eff && m in eff && 0 < b < U32 && b !in owner.slot
    requires eff[n].block[DIRECT] == 0
    ensures forall t: nat ::
      t <= MaxBlocks(g) ==> Slot(g, v.data[b := Zeros(g.bs)], eff[m], t) == Slot(g, v.data, eff[m], t)
  {
    hide Counted;
    if eff[m].block[DIRECT] != 0 { IndirectOwned(g, v, owner, eff, m); }
  }

  /** Gives the inode an indirect block if it has none. */
  method EnsureIndirect(fs: FsInstance, i: Inode, ghost n: nat, ghost eff: map<nat, Inode>)
    returns (ok: bool, i': Inode)
    requires fs.Valid() && n in eff && eff[n] == i && MapsOk(fs.g, fs.Vol(), fs.tree.owner, eff)
    modifies fs
    ensures fs.Valid() && fs.open == old(fs.open) && SameTree(old(fs.tree), fs.tree)
    ensures Grown(fs.g, old(fs.Vol()), old(fs.tree.owner), fs.Vol(), fs.tree.owner, eff, n, i', MaxBlocks(fs.g))
    ensures ok <==> i'.block[DIRECT] != 0
    ensures !ok ==> Full(fs.g, old(fs.Vol()))
    ensures i.block[DIRECT] != 0 || Full(fs.g, old(fs.Vol())) ==>
      i' == i && fs.Vol() == old(fs.Vol()) && fs.tree == old(fs.tree)
    ensures OneMoreAtMost(old(fs.Vol()), fs.Vol())
    ensures Untouched(fs.g, old(fs.Vol()), fs.Vol(), fs.tree.owner, eff, n)
  {
    hide OneMoreAtMost; hide ImageOk; hide Meaning; hide MapsOk; hide Grown; hide Untouched; hide SlotFilled;
    hide Sized;
    ghost var v, owner := fs.Vol(), fs.tree.owner;
    NotGrown(fs.g, v, owner, eff, n, MaxBlocks(fs.g));
    NothingTouched(fs.g, v, owner, eff, n);
    TookNone(v, v);
    if i.block[DIRECT] != 0 { return true, i; }
    ValidSizes(fs);
    var b := AllocBlock(fs);
    if b == 0 { return false, i; }
    WriteBlock(fs, b, Zeros(fs.g.bs));
    TookOne(v, fs.Vol(), b);
    ValidSizes(fs);
    NotOwned(fs.g, v, owner, eff, b);
    i' := WithBlock(fs.g, i, DIRECT, b);
    FillIndirect(fs.g, v, owner, eff, n, b);
    FillGrows(fs.g, v, fs.Vol(), owner, eff, n, i', MaxBlocks(fs.g), b, b);
    IndirectUnseen(fs.g, v, fs.Vol(), owner, eff, n, b);
    fs.tree := fs.tree.(owner := Assigned(owner, b, n, MaxBlocks(fs.g)));
    ok := true;
  }

  /** At most one block has been taken. */
  ghost predicate OneMoreAtMost(v: Volume, v': Volume) {
    v.used <= v'.used && |v'.used - v.used| <= 1
  }

  lemma TookOne(v: Volume, v': Volume, b: nat)
    requires v'.used == v.used + {b}
    ensures OneMoreAtMost(v, v')
  {
    if b in v.used {
      assert v'.used - v.used == {};
    } else {
      assert v'.used - v.used == {b};
    }
  }

  lemma TookNone(v: Volume, v': Volume)
    requires v'.used == v.used
    ensures OneMoreAtMost(v, v')
  {
    assert v'.used - v.used == {};
  }

  /** The result b of looking logical block k up, allocating when it is missing. */
  ghost predicate Found(g: Geometry, v: Volume, owner: Owners, v': Volume, owner': Owners, eff: map<nat, Inode>, n: nat,
                        i': Inode, k: nat, b: nat)
    requires n in eff
  {
    && Grown(g, v, owner, v', owner', eff, n, i', k)
    && BlockAt(g, v'.data, i', k) == b
    && (BlockAt(g, v.data, eff[n], k) != 0 || k >= MaxBlocks(g) || Full(g, v) ==>
          v' == v && owner' == owner && i' == eff[n])
    && (BlockAt(g, v.data, eff[n], k) == 0 && b != 0 ==> b !in v.used && b in v'.used && SameBlock(v.data, v'.data, b))
    && (b == 0 ==> Untouched(g, v, v', owner', eff, n) && OneMoreAtMost(v, v') && (k < MaxBlocks(g) ==> Full(g, v')))
  }

  /** Nothing to allocate, or nothing to be had. */
  lemma FoundAsIs(g: Geometry, v: Volume, owner: Owners, eff: map<nat, Inode>, n: nat, k: nat, b: nat)
    requires MapsOk(g, v, owner, eff) && n in eff && b == BlockAt(g, v.data, eff[n], k)
    requires b != 0 || k >= MaxBlocks(g) || Full(g, v)
    ensures Found(g, v, owner, v, owner, eff, n, eff[n], k, b)
  {
    hide MapsOk; hide Grown; hide Untouched; hide OneMoreAtMost; hide BlockAt; hide Full;
    NotGrown(g, v, owner, eff, n, k);
    NothingTouched(g, v, owner, eff, n);
    TookNone(v, v);
  }

  /** A fresh block in slot s, which is logical block s. */
  lemma FoundFresh(g: Geometry, v: Volume, owner: Owners, v': Volume, owner': Owners, eff: map<nat, Inode>, n: nat,
                   i': Inode, k: nat, b: nat)
    requires n in eff && k < MaxBlocks(g) && Grown(g, v, owner, v', owner', eff, n, i', k)
    requires SlotFilled(g, v.data, v'.data, eff, n, i', k, b)
    requires b != 0 && b !in v.used && b in v'.used && SameBlock(v.data, v'.data, b) && !Full(g, v)
    ensures Found(g, v, owner, v', owner', eff, n, i', k, b)
  {
    hide Grown; hide Untouched; hide OneMoreAtMost; hide BlockAt; hide Full; hide SlotFilled;
    SlotIsBlock(g, v.data, v'.data, eff, n, i', k, b);
  }

  /** The lookup after an indirect block has been hung. */
  lemma FoundBehind(g: Geometry, v: Volume, owner: Owners, v1: Volume, o1: Owners, v2: Volume, o2: Owners,
                    eff: map<nat, Inode>, n: nat, j: Inode, i': Inode, k: nat, b: nat)
    requires n in eff && k < MaxBlocks(g) && MapsOk(g, v, owner, eff)
    requires Grown(g, v, owner, v1, o1, eff, n, j, MaxBlocks(g)) && Untouched(g, v, v1, o1, eff, n)
    requires OneMoreAtMost(v, v1)
    requires Found(g, v1, o1, v2, o2, eff[n := j], n, i', k, b) && (b == 0 ==> v2 == v1 && o2 == o1)
    requires eff[n].block[DIRECT] != 0 || Full(g, v) ==> v1 == v && o1 == owner && j == eff[n]
    requires eff[n].block[DIRECT] == 0 ==> BlockAt(g, v.data, eff[n], k) == 0
    ensures Found(g, v, owner, v2, o2, eff, n, i', k, b)
  {
    hide MapsOk; hide KeptBut; hide Untouched; hide OneMoreAtMost; hide BlockAt; hide Full; hide OthersKept;
    hide Slot; hide AllSlots; hide Behind;
    GrownTwice(g, v, owner, v1, o1, v2, o2, eff, n, j, i', k);
    GrownEqual(g, v, owner, v1, o1, eff, n, j, k);
    assert eff[n := j][n := i'] == eff[n := i'];
    if eff[n].block[DIRECT] != 0 || Full(g, v) { assert eff[n := j] == eff; }
  }

  lemma PointerFound(g: Geometry, v: Volume, v': Volume, owner: Owners, eff: map<nat, Inode>, n: nat, k: nat, b: nat)
    requires MapsOk(g, v, owner, eff) && n in eff && k < g.Ptrs() && 0 < b < U32 && g.bs < U16 && !Full(g, v)
    requires eff[n].block[DIRECT] != 0 && BlockAt(g, v.data, eff[n], DIRECT + k) == 0 && b !in v.used && b in v.data
    requires eff[n].block[DIRECT] in v.data && 4 * k + 4 <= |v.data[eff[n].block[DIRECT]]|
    requires var x := eff[n].block[DIRECT];
      v' == v.(used := v.used + {b}, data := v.data[x := Splice(v.data[x], 4 * k, Le32(b))])
    requires Sized(g, v'.data)
    ensures Found(g, v, owner, v', Assigned(owner, b, n, DIRECT + k), eff, n, WithPointer(g, eff[n]), DIRECT + k, b)
  {
    hide MapsOk; hide Grown; hide SlotFilled; hide Found; hide Full; hide Sized; hide Le32; hide Splice; hide BlockAt;
    var x := eff[n].block[DIRECT];
    IndirectOwned(g, v, owner, eff, n);
    FillPointer(g, v, owner, eff, n, k, b);
    FillGrows(g, v, v', owner, eff, n, WithPointer(g, eff[n]), DIRECT + k, b, x);
    FoundFresh(g, v, owner, v', Assigned(owner, b, n, DIRECT + k), eff, n, WithPointer(g, eff[n]), DIRECT + k, b);
  }

  /** The part of the lookup that goes through an indirect block that is there. */
  method PointerOrAlloc(fs: FsInstance, i: Inode, k: nat, ghost n: nat, ghost eff: map<nat, Inode>)
    returns (b: nat, i': Inode)
    requires fs.Valid() && n in eff && eff[n] == i && MapsOk(fs.g, fs.Vol(), fs.tree.owner, eff)
    requires i.block[DIRECT] != 0 && k < fs.g.Ptrs()
    modifies fs
    ensures fs.Valid() && fs.open == old(fs.open) && SameTree(old(fs.tree), fs.tree)
    ensures Found(fs.g, old(fs.Vol()), old(fs.tree.owner), fs.Vol(), fs.tree.owner, eff, n, i', DIRECT + k, b)
    ensures b == 0 ==> fs.Vol() == old(fs.Vol()) && fs.tree == old(fs.tree)
  {
    hide ImageOk; hide Meaning; hide MapsOk; hide Grown; hide SlotFilled; hide Found; hide Full; hide Sized;
    hide Get32; hide Le32; hide Splice;
    ghost var v, owner := fs.Vol(), fs.tree.owner;
    ValidSizes(fs);
    var x := i.block[DIRECT];
    IndirectOwned(fs.g, v, owner, eff, n);
    var indirect := ReadBlock(fs, x);
    b := Get32(indirect, 4 * k);
    if b != 0 {
      FoundAsIs(fs.g, v, owner, eff, n, DIRECT + k, b);
      return b, i;
    }
    b := AllocBlock(fs);
    if b == 0 {
      FoundAsIs(fs.g, v, owner, eff, n, DIRECT + k, 0);
      return 0, i;
    }
    WriteBlock(fs, x, Splice(indirect, 4 * k, Le32(b)));
    ValidSizes(fs);
    i' := WithPointer(fs.g, i);
    PointerFound(fs.g, v, fs.Vol(), owner, eff, n, k, b);
    fs.tree := fs.tree.(owner := Assigned(owner, b, n, DIRECT + k));
  }

  lemma SlotIsBlock(g: Geometry, data: Blocks, data': Blocks, eff: map<nat, Inode>, n: nat, i': Inode, k: nat, b: nat)
    requires n in eff && k < MaxBlocks(g) && SlotFilled(g, data, data', eff, n, i', k, b)
    ensures BlockAt(g, data', i', k) == b && BlockAt(g, data, eff[n], k) == 0
  {
  }

  method DirectOrAlloc(fs: FsInstance, i: Inode, k: nat, ghost n: nat, ghost eff: map<nat, Inode>)
    returns (b: nat, i': Inode)
    requires fs.Valid() && n in eff && eff[n] == i && MapsOk(fs.g, fs.Vol(), fs.tree.owner, eff) && k < DIRECT
    modifies fs
    ensures fs.Valid() && fs.open == old(fs.open) && SameTree(old(fs.tree), fs.tree)
    ensures Found(fs.g, old(fs.Vol()), old(fs.tree.owner), fs.Vol(), fs.tree.owner, eff, n, i', k, b)
  {
    hide ImageOk; hide Meaning; hide MapsOk; hide Grown; hide SlotFilled; hide Found; hide Full; hide Sized;
    ghost var v, owner := fs.Vol(), fs.tree.owner;
    ValidSizes(fs);
    if i.block[k] != 0 {
      FoundAsIs(fs.g, v, owner, eff, n, k, i.block[k]);
      return i.block[k], i;
    }
    b := AllocBlock(fs);
    if b == 0 {
      FoundAsIs(fs.g, v, owner, eff, n, k, 0);
      return 0, i;
    }
    ValidSizes(fs);
    i' := WithBlock(fs.g, i, k, b);
    NotOwned(fs.g, v, owner, eff, b);
    FillDirect(fs.g, v, owner, eff, n, k, b);
    FillGrows(fs.g, v, fs.Vol(), owner, eff, n, i', k, b, b);
    FoundFresh(fs.g, v, owner, fs.Vol(), Assigned(owner, b, n, k), eff, n, i', k, b);
    fs.tree := fs.tree.(owner := Assigned(owner, b, n, k));
  }

  method InodeBlockAtOrAlloc(fs: FsInstance, i: Inode, k: nat, ghost n: nat, ghost eff: map<nat, Inode>)
    returns (b: nat, i': Inode)
    requires fs.Valid() && n in eff && eff[n] == i && MapsOk(fs.g, fs.Vol(), fs.tree.owner, eff)
    modifies fs
    ensures fs.Valid() && fs.open == old(fs.open) && SameTree(old(fs.tree), fs.tree)
    ensures Found(fs.g, old(fs.Vol()), old(fs.tree.owner), fs.Vol(), fs.tree.owner, eff, n, i', k, b)
  {
    hide OneMoreAtMost; hide ImageOk; hide Meaning; hide MapsOk; hide Grown; hide Untouched; hide BlockAt;
    hide Found; hide Full;
    if k < DIRECT {
      b, i' := DirectOrAlloc(fs, i, k, n, eff);
      return;
    }
    ghost var v, owner := fs.Vol(), fs.tree.owner;
    BeyondMap(fs.g, v.data, i, k);
    if k - DIRECT >= fs.g.Ptrs() {
      FoundAsIs(fs.g, v, owner, eff, n, k, 0);
      return 0, i;
    }
    var ok, j := EnsureIndirect(fs, i, n, eff);
    if !ok {
      FoundAsIs(fs.g, v, owner, eff, n, k, 0);
      return 0, j;
    }
    ghost var v1, o1 := fs.Vol(), fs.tree.owner;
    GrownEqual(fs.g, v, owner, v1, o1, eff, n, j, k);
    b, i' := PointerOrAlloc(fs, j, k - DIRECT, n, eff[n := j]);
    FoundBehind(fs.g, v, owner, v1, o1, fs.Vol(), fs.tree.owner, eff, n, j, i', k, b);
  }

  lemma BeyondMap(g: Geometry, data: Blocks, i: Inode, k: nat)
    requires k >= DIRECT
    ensures k - DIRECT >= g.Ptrs() || i.block[DIRECT] == 0 ==> BlockAt(g, data, i, k) == 0
  {
  }

  lemma GrownEqual(g: Geometry, v: Volume, owner: Owners, v': Volume, owner': Owners, eff: map<nat, Inode>, n: nat,
                   i': Inode, k: nat)
    requires n in eff && Grown(g, v, owner, v', owner', eff, n, i', MaxBlocks(g)) && k < MaxBlocks(g)
    ensures BlockAt(g, v'.data, i', k) == BlockAt(g, v.data, eff[n], k)
    ensures MapsOk(g, v', owner', eff[n := i']) && Grown(g, v, owner, v', owner', eff, n, i', k)
  {
    hide BlockAt; hide MapsOk;
  }

  // ---------- writing a file's own block ----------

  /** Rewriting the block behind logical block k of n changes that block of n and nothing else. */
  lemma WriteOwned(g: Geometry, v: Volume, owner: Owners, eff: map<nat, Inode>, n: nat, k: nat, block: seq<byte>)
    requires MapsOk(g, v, owner, eff) && n in eff && k < MaxBlocks(g) && |block| == g.bs
    requires BlockAt(g, v.data, eff[n], k) != 0
    ensures var b := BlockAt(g, v.data, eff[n], k); var v' := v.(data := v.data[b := block]);
      && b in v.data && b in owner.slot && owner.slot[b] == (n, k)
      && Grown(g, v, owner, v', owner, eff, n, eff[n], k)
      && BlockAt(g, v'.data, eff[n], k) == b
  {
    hide Counted; hide BlockAt; hide KeptBut; hide Extends;
    var b := BlockAt(g, v.data, eff[n], k);
    assert Slot(g, v.data, eff[n], k) == b;
    assert Owns(g, v.data, owner, n, eff[n]);
    var v' := v.(data := v.data[b := block]);
    assert eff[n := eff[n]] == eff;
    SlotsUntouched(g, v, owner, eff, n, k, b, block, n);
    ExtendsInPlace(g, v, owner, eff, n, b, block);
    forall m | m in eff
      ensures Owns(g, v'.data, owner, m, eff[m]) && Counted(g, v'.data, owner.stale, m, eff[m])
      ensures KeptBut(g, v.data, eff[m], v'.data, eff[m], if m == n then k else MaxBlocks(g))
      ensures BlockAt(g, v'.data, eff[m], k) == BlockAt(g, v.data, eff[m], k)
    {
      SlotsUntouched(g, v, owner, eff, n, k, b, block, m);
      OtherSectors(g, v.data, v'.data, owner.stale, m, eff[m]);
      WriteKeeps(g, v, owner, eff, n, k, b, block, m);
    }
  }

  lemma SlotsUntouched(g: Geometry, v: Volume, owner: Owners, eff: map<nat, Inode>, n: nat, k: nat, b: nat,
                       block: seq<byte>, m: nat)
    requires MapsOk(g, v, owner, eff) && m in eff && b in owner.slot && owner.slot[b] == (n, k) && k < MaxBlocks(g)
    ensures forall t: nat :: t <= MaxBlocks(g) ==> Slot(g, v.data[b := block], eff[m], t) == Slot(g, v.data, eff[m], t)
    ensures forall t: nat ::
      t < MaxBlocks(g) ==> BlockAt(g, v.data[b := block], eff[m], t) == BlockAt(g, v.data, eff[m], t)
    ensures Owns(g, v.data[b := block], owner, m, eff[m])
  {
    hide Counted; hide Get32; hide Owns;
    if eff[m].block[DIRECT] != 0 { IndirectOwned(g, v, owner, eff, m); }
    OwnsSame(g, v.data, v.data[b := block], owner, m, eff[m]);
  }

  lemma OwnsSame(g: Geometry, data: Blocks, data': Blocks, owner: Owners, n: nat, i: Inode)
    requires forall t: nat :: t <= MaxBlocks(g) ==> Slot(g, data', i, t) == Slot(g, data, i, t)
    requires Owns(g, data, owner, n, i)
    ensures Owns(g, data', owner, n, i)
  {
    hide Slot;
  }

  lemma WriteKeeps(g: Geometry, v: Volume, owner: Owners, eff: map<nat, Inode>, n: nat, k: nat, b: nat,
                   block: seq<byte>, m: nat)
    requires MapsOk(g, v, owner, eff) && m in eff && b in owner.slot && owner.slot[b] == (n, k) && k < MaxBlocks(g)
    requires forall t: nat ::
      t < MaxBlocks(g) ==> BlockAt(g, v.data[b := block], eff[m], t) == BlockAt(g, v.data, eff[m], t)
    ensures KeptBut(g, v.data, eff[m], v.data[b := block], eff[m], if m == n then k else MaxBlocks(g))
  {
    hide Counted; hide BlockAt;
    var data', skip := v.data[b := block], if m == n then k else MaxBlocks(g);
    assert Owns(g, v.data, owner, m, eff[m]);
    forall t: nat | t < MaxBlocks(g) && t != skip ensures SameBlock(v.data, data', BlockAt(g, v.data, eff[m], t)) {
      assert Slot(g, v.data, eff[m], t) == BlockAt(g, v.data, eff[m], t);
    }
  }

  // ---------- giving every block of an inode back ----------

  /** Ownership of the slots from s on; the earlier ones have been given back. */
  ghost predicate OwnsFrom(g: Geometry, data: Blocks, owner: Owners, n: nat, i: Inode, s: nat) {
    forall t: nat :: s <= t <= MaxBlocks(g) && Slot(g, data, i, t) != 0 ==>
      Slot(g, data, i, t) in owner.slot && owner.slot[Slot(g, data, i, t)] == (n, t)
  }

  /** The blocks in the first s slots. */
  function SlotSet(g: Geometry, data: Blocks, i: Inode, s: nat): set<nat> {
    if s == 0 then {}
    else SlotSet(g, data, i, s - 1) + (if Slot(g, data, i, s - 1) != 0 then {Slot(g, data, i, s - 1)} else {})
  }

  /** All the blocks of an inode: data blocks and the indirect block. */
  function AllSlots(g: Geometry, data: Blocks, i: Inode): set<nat> { SlotSet(g, data, i, MaxBlocks(g) + 1) }

  lemma {:induction false} SlotSetIs(g: Geometry, data: Blocks, i: Inode, s: nat, b: nat)
    ensures b in SlotSet(g, data, i, s) <==> exists t: nat :: t < s && Slot(g, data, i, t) == b != 0
  {
    hide Slot;
    if s > 0 {
      SlotSetIs(g, data, i, s - 1, b);
      assert Slot(g, data, i, s - 1) == b != 0 ==> exists t: nat :: t < s && Slot(g, data, i, t) == b != 0;
    }
  }

  /** The state while inode n's blocks are given back: exactly the blocks in slots below s are free. */
  ghost predicate Freeing(g: Geometry, v0: Volume, o0: Owners, v: Volume, owner: Owners, eff: map<nat, Inode>, n: nat,
                          i: Inode, s: nat) {
    && v == v0.(used := v0.used - SlotSet(g, v0.data, i, s))
    && MapsOk(g, v, owner, eff - {n})
    && OwnsFrom(g, v.data, owner, n, i, s)
    && OwnersGrow(owner, o0)
    && (forall b :: b in o0.slot && o0.slot[b].0 != n ==> b in owner.slot)
  }

  lemma FreeingStarts(g: Geometry, v: Volume, owner: Owners, eff: map<nat, Inode>, n: nat)
    requires MapsOk(g, v, owner, eff) && n in eff
    ensures Freeing(g, v, owner, v, owner, eff, n, eff[n], 0)
  {
    hide Slot; hide Counted;
  }

  lemma FreeingSkips(g: Geometry, v0: Volume, o0: Owners, v: Volume, owner: Owners, eff: map<nat, Inode>, n: nat,
                     i: Inode, s: nat)
    requires Freeing(g, v0, o0, v, owner, eff, n, i, s) && Slot(g, v.data, i, s) == 0
    ensures Freeing(g, v0, o0, v, owner, eff, n, i, s + 1)
  {
    hide Slot; hide MapsOk;
  }

  lemma FreeingOne(g: Geometry, v0: Volume, o0: Owners, v: Volume, owner: Owners, eff: map<nat, Inode>, n: nat,
                   i: Inode, s: nat)
    requires Freeing(g, v0, o0, v, owner, eff, n, i, s) && s <= MaxBlocks(g) && Slot(g, v.data, i, s) != 0
    ensures var b := Slot(g, v.data, i, s);
      && b in v.used && b in v.data
      && Freeing(g, v0, o0, v.(used := v.used - {b}), Released(owner, b), eff, n, i, s + 1)
  {
    hide Slot; hide Counted;
    var b := Slot(g, v.data, i, s);
    assert owner.slot[b] == (n, s);
    var v', owner', rest := v.(used := v.used - {b}), Released(owner, b), eff - {n};
    forall m | m in rest ensures Owns(g, v.data, owner', m, rest[m]) {
      assert Owns(g, v.data, owner, m, rest[m]);
    }
  }

  lemma FreeingDone(g: Geometry, v0: Volume, o0: Owners, v: Volume, owner: Owners, eff: map<nat, Inode>, n: nat,
                    i: Inode, i': Inode)
    requires n in eff && MapsOk(g, v0, o0, eff) && eff[n] == i
    requires Freeing(g, v0, o0, v, owner, eff, n, i, MaxBlocks(g) + 1)
    requires i'.blocks == 0 && forall k :: 0 <= k < 15 ==> i'.block[k] == 0
    ensures MapsOk(g, v, owner, eff[n := i'])
  {
    hide Slot; hide Counted;
    NoSlots(g, v.data, i', MaxBlocks(g) + 1);
    EmptySectors(g, v.data, owner.stale, n, i');
    var eff' := eff[n := i'];
    forall m | m in eff' ensures Owns(g, v.data, owner, m, eff'[m]) && Counted(g, v.data, owner.stale, m, eff'[m]) {
      if m != n { assert m in eff - {n}; }
    }
  }

  lemma {:induction false} NoSlots(g: Geometry, data: Blocks, i: Inode, s: nat)
    requires forall k :: 0 <= k < 15 ==> i.block[k] == 0
    ensures Owned(g, data, i, s) == 0
    ensures forall t: nat :: t < s ==> Slot(g, data, i, t) == 0
  {
    if s > 0 { NoSlots(g, data, i, s - 1); }
  }

  lemma EmptySectors(g: Geometry, data: Blocks, stale: set<nat>, n: nat, i: Inode)
    requires i.blocks == 0 && Owned(g, data, i, MaxBlocks(g) + 1) == 0
    ensures Counted(g, data, stale, n, i)
  {
  }

  /** Gives back the block in slot s, if there is one. */
  method FreeSlot(fs: FsInstance, b: nat, ghost v0: Volume, ghost o0: Owners, ghost eff: map<nat, Inode>, ghost n: nat,
                  ghost i: Inode, ghost s: nat)
    requires fs.Valid() && Freeing(fs.g, v0, o0, fs.Vol(), fs.tree.owner, eff, n, i, s)
    requires s <= MaxBlocks(fs.g) && b == Slot(fs.g, fs.Vol().data, i, s)
    modifies fs
    ensures fs.Valid() && fs.open == old(fs.open) && SameTree(old(fs.tree), fs.tree)
    ensures fs.Vol().data == old(fs.Vol().data)
    ensures Freeing(fs.g, v0, o0, fs.Vol(), fs.tree.owner, eff, n, i, s + 1)
  {
    hide ImageOk; hide Meaning; hide Freeing; hide Slot;
    if b != 0 {
      FreeingOne(fs.g, v0, o0, fs.Vol(), fs.tree.owner, eff, n, i, s);
      var freed := FreeBlock(fs, b);
      fs.tree := fs.tree.(owner := Released(fs.tree.owner, b));
    } else {
      FreeingSkips(fs.g, v0, o0, fs.Vol(), fs.tree.owner, eff, n, i, s);
    }
  }

  method FreeAllInodeBlocks(fs: FsInstance, i: Inode, ghost n: nat, ghost eff: map<nat, Inode>) returns (i': Inode)
    requires fs.Valid() && n in eff && eff[n] == i && MapsOk(fs.g, fs.Vol(), fs.tree.owner, eff)
    modifies fs
    ensures fs.Valid() && fs.open == old(fs.open) && SameTree(old(fs.tree), fs.tree)
    ensures Freeing(fs.g, old(fs.Vol()), old(fs.tree.owner), fs.Vol(), fs.tree.owner, eff, n, i, MaxBlocks(fs.g) + 1)
    ensures MapsOk(fs.g, fs.Vol(), fs.tree.owner, eff[n := i'])
    ensures i' == i.(block := i'.block, size := 0, blocks := 0)
    ensures forall k :: 0 <= k < 15 ==> i'.block[k] == 0
  {
    hide ImageOk; hide Meaning; hide Freeing; hide MapsOk; hide Get32; hide Sized;
    ghost var v0, o0 := fs.Vol(), fs.tree.owner;
    FreeingStarts(fs.g, v0, o0, eff, n);
    ValidSizes(fs);
    LastSlotsEmpty(fs.g, v0, o0, eff, n);
    i' := i;
    var k := 0;
    while k < DIRECT
      invariant k <= DIRECT
      invariant fs.Valid() && fs.open == old(fs.open) && SameTree(old(fs.tree), fs.tree)
      invariant fs.Vol().data == v0.data
      invariant Freeing(fs.g, v0, o0, fs.Vol(), fs.tree.owner, eff, n, i, k)
      invariant i' == i.(block := i'.block)
      invariant forall j :: 0 <= j < 15 ==> i'.block[j] == if j < k then 0 else i.block[j]
    {
      FreeSlot(fs, i'.block[k], v0, o0, eff, n, i, k);
      i' := i'.(block := i'.block[k := 0]);
      k := k + 1;
    }
    FreeIndirect(fs, i, v0, o0, n, eff);
    i' := i'.(block := i'.block[DIRECT := 0], size := 0, blocks := 0);
    FreeingDone(fs.g, v0, o0, fs.Vol(), fs.tree.owner, eff, n, i, i');
  }

  lemma LastSlotsEmpty(g: Geometry, v: Volume, owner: Owners, eff: map<nat, Inode>, n: nat)
    requires MapsOk(g, v, owner, eff) && n in eff
    ensures eff[n].block[13] == 0 && eff[n].block[14] == 0
    ensures eff[n].block[DIRECT] != 0 ==> eff[n].block[DIRECT] in v.data && |v.data[eff[n].block[DIRECT]]| == g.bs
  {
    hide Counted; hide Slot;
    if eff[n].block[DIRECT] != 0 { IndirectOwned(g, v, owner, eff, n); }
  }

  method FreeIndirect(fs: FsInstance, i: Inode, ghost v0: Volume, ghost o0: Owners, ghost n: nat,
                      ghost eff: map<nat, Inode>)
    requires fs.Valid() && Freeing(fs.g, v0, o0, fs.Vol(), fs.tree.owner, eff, n, i, DIRECT)
    requires i.block[DIRECT] != 0 ==> i.block[DIRECT] in v0.data && |v0.data[i.block[DIRECT]]| == fs.g.bs
    requires fs.Vol().data == v0.data
    modifies fs
    ensures fs.Valid() && fs.open == old(fs.open) && SameTree(old(fs.tree), fs.tree)
    ensures Freeing(fs.g, v0, o0, fs.Vol(), fs.tree.owner, eff, n, i, MaxBlocks(fs.g) + 1)
  {
    hide ImageOk; hide Meaning; hide Freeing; hide Get32;
    var x := i.block[DIRECT];
    if x == 0 {
      NoPointers(fs.g, v0, o0, fs.Vol(), fs.tree.owner, eff, n, i, MaxBlocks(fs.g) + 1);
      return;
    }
    var indirect := ReadBlock(fs, x);
    var k := 0;
    while k < fs.g.Ptrs()
      invariant k <= fs.g.Ptrs()
      invariant fs.Valid() && fs.open == old(fs.open) && SameTree(old(fs.tree), fs.tree)
      invariant fs.Vol().data == v0.data
      invariant Freeing(fs.g, v0, o0, fs.Vol(), fs.tree.owner, eff, n, i, DIRECT + k)
    {
      FreeSlot(fs, Get32(indirect, 4 * k), v0, o0, eff, n, i, DIRECT + k);
      k := k + 1;
    }
    FreeSlot(fs, x, v0, o0, eff, n, i, MaxBlocks(fs.g));
  }

  lemma {:induction false} NoPointers(g: Geometry, v0: Volume, o0: Owners, v: Volume, owner: Owners,
                                      eff: map<nat, Inode>, n: nat, i: Inode, s: nat)
    requires Freeing(g, v0, o0, v, owner, eff, n, i, DIRECT) && i.block[DIRECT] == 0 && s >= DIRECT
    ensures Freeing(g, v0, o0, v, owner, eff, n, i, s)
  {
    hide Freeing;
    if s > DIRECT {
      NoPointers(g, v0, o0, v, owner, eff, n, i, s - 1);
      FreeingSkips(g, v0, o0, v, owner, eff, n, i, s - 1);
    }
  }
}
