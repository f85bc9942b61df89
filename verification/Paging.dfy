/** Four-level paging: the hardware walk of a virtual address through tables of 512 entries
    (section 4.5 of the Intel SDM, volume 3A). */
module Paging {
  import opened Arithmetic

  const ENTRIES: nat := 512
  const PAGE: nat := 4096
  const PRESENT: bv12 := 1
  const WRITABLE: bv12 := 2
  const RIGHTS: bv12 := 7
  const CACHE: bv12 := 0x18
  const LARGE: bv12 := 0x80

  /** A table entry: bits 51..12, a frame number, and bits 11..0. */
  datatype Entry = Entry(frame: nat, flags: bv12)

  /** A 64-bit word of physical memory, by frame and index. */
  datatype Word = Word(frame: nat, index: nat)

  type Memory = map<Word, Entry>

  function Load(mem: Memory, f: nat, i: nat): Entry {
    if Word(f, i) in mem then mem[Word(f, i)] else Entry(0, 0)
  }

  predicate Present(e: Entry) { e.flags & PRESENT != 0 }
  predicate Large(e: Entry) { e.flags & LARGE != 0 }
  predicate Link(e: Entry) { Present(e) && !Large(e) }

  function Index4(va: nat): (i: nat) ensures i < ENTRIES { va / 0x80_0000_0000 % 512 }
  function Index3(va: nat): (i: nat) ensures i < ENTRIES { va / 0x4000_0000 % 512 }
  function Index2(va: nat): (i: nat) ensures i < ENTRIES { va / 0x20_0000 % 512 }
  function Index1(va: nat): (i: nat) ensures i < ENTRIES { va / 0x1000 % 512 }

  /** A translated page: its frame, the present/writable/user rights that hold on every level, and the
      caching bits of the last entry. */
  datatype Page = NoPage | Page(frame: nat, rights: bv12, cache: bv12)

  /** The processor's walk: present at every level, a large page at level 3 or 2 ends it early. */
  function HardwareWalk(mem: Memory, root: nat, va: nat): Page {
    var e4 := Load(mem, root, Index4(va));
    if !Present(e4) then NoPage else
    var e3 := Load(mem, e4.frame, Index3(va));
    if !Present(e3) then NoPage else
    if Large(e3) then
      Page(e3.frame / 0x4_0000 * 0x4_0000 + Index2(va) * 512 + Index1(va),
           e4.flags & e3.flags & RIGHTS, e3.flags & CACHE) else
    var e2 := Load(mem, e3.frame, Index2(va));
    if !Present(e2) then NoPage else
    if Large(e2) then
      Page(e2.frame / 512 * 512 + Index1(va), e4.flags & e3.flags & e2.flags & RIGHTS, e2.flags & CACHE) else
    var e1 := Load(mem, e2.frame, Index1(va));
    if !Present(e1) then NoPage else
    Page(e1.frame, e4.flags & e3.flags & e2.flags & e1.flags & RIGHTS, e1.flags & CACHE)
  }

  // ---------- the table that a path of indices leads to ----------

  type Path = seq<nat>

  datatype Node = NoNode | Node(frame: nat, flags: bv12)

  function Descend(mem: Memory, root: nat, path: Path): Node
    decreases |path|
  {
    if path == [] then Node(root, 0xFFF)
    else match Descend(mem, root, path[..|path| - 1])
      case NoNode => NoNode
      case Node(f, flags) =>
        var e := Load(mem, f, path[|path| - 1]);
        if Link(e) then Node(e.frame, flags & e.flags) else NoNode
  }

  lemma DescendStep(mem: Memory, root: nat, path: Path, i: nat)
    ensures Descend(mem, root, path + [i]) ==
      match Descend(mem, root, path)
      case NoNode => NoNode
      case Node(f, flags) => var e := Load(mem, f, i); if Link(e) then Node(e.frame, flags & e.flags) else NoNode
  {
    assert (path + [i])[..|path|] == path;
  }

  /** The page at index i of the table, or inside the large page, that the three-level path leads to. */
  function PageAt(mem: Memory, root: nat, i4: nat, i3: nat, i2: nat, i1: nat): Page {
    match Descend(mem, root, [i4, i3, i2])
    case Node(f, flags) =>
      var e := Load(mem, f, i1);
      if Present(e) then Page(e.frame, flags & e.flags & RIGHTS, e.flags & CACHE) else NoPage
    case NoNode =>
      match Descend(mem, root, [i4, i3])
      case NoNode => NoPage
      case Node(f, flags) =>
        var e := Load(mem, f, i2);
        if Present(e) && Large(e) then Page(e.frame / 512 * 512 + i1, flags & e.flags & RIGHTS, e.flags & CACHE)
        else NoPage
  }

  /** No entry of a top-level or second-level table reached from root is large. */
  ghost predicate NoLarge(mem: Memory, root: nat) {
    && (forall i :: 0 <= i < ENTRIES ==> !Large(Load(mem, root, i)))
    && (forall i, j :: 0 <= i < ENTRIES && 0 <= j < ENTRIES && Present(Load(mem, root, i)) ==>
          !Large(Load(mem, Load(mem, root, i).frame, j)))
  }

  lemma Descend1(mem: Memory, root: nat, i4: nat)
    ensures Descend(mem, root, [i4]) == var e := Load(mem, root, i4); if Link(e) then Node(e.frame, 0xFFF & e.flags)
                                                                      else NoNode
  {
    DescendStep(mem, root, [], i4);
    assert [] + [i4] == [i4];
  }

  lemma Descend2(mem: Memory, root: nat, i4: nat, i3: nat)
    ensures Descend(mem, root, [i4, i3]) ==
      match Descend(mem, root, [i4])
      case NoNode => NoNode
      case Node(f, flags) => var e := Load(mem, f, i3); if Link(e) then Node(e.frame, flags & e.flags) else NoNode
  {
    DescendStep(mem, root, [i4], i3);
    assert [i4] + [i3] == [i4, i3];
  }

  lemma Descend3(mem: Memory, root: nat, i4: nat, i3: nat, i2: nat)
    ensures Descend(mem, root, [i4, i3, i2]) ==
      match Descend(mem, root, [i4, i3])
      case NoNode => NoNode
      case Node(f, flags) => var e := Load(mem, f, i2); if Link(e) then Node(e.frame, flags & e.flags) else NoNode
  {
    DescendStep(mem, root, [i4, i3], i2);
    assert [i4, i3] + [i2] == [i4, i3, i2];
  }

  lemma FlagsChain(a: bv12, b: bv12, c: bv12, d: bv12)
    ensures 0xFFF & a & b & c & d & RIGHTS == a & b & c & d & RIGHTS
    ensures 0xFFF & a & b & c & RIGHTS == a & b & c & RIGHTS
  {
  }

  /** The walk by paths is the hardware's walk. */
  lemma WalkIsPageAt(mem: Memory, root: nat, va: nat)
    requires NoLarge(mem, root)
    ensures HardwareWalk(mem, root, va) == PageAt(mem, root, Index4(va), Index3(va), Index2(va), Index1(va))
  {
    hide Index4; hide Index3; hide Index2; hide Index1; hide Descend;
    var i4, i3, i2, i1 := Index4(va), Index3(va), Index2(va), Index1(va);
    Descend1(mem, root, i4);
    Descend2(mem, root, i4, i3);
    Descend3(mem, root, i4, i3, i2);
    var e4 := Load(mem, root, i4);
    assert !Large(e4);
    if Present(e4) {
      var e3 := Load(mem, e4.frame, i3);
      assert !Large(e3);
      if Present(e3) {
        var e2 := Load(mem, e3.frame, i2);
        var e1 := Load(mem, e2.frame, i1);
        FlagsChain(e4.flags, e3.flags, e2.flags, e1.flags);
      }
    }
  }

  // ---------- reaching the tables through slot 510 ----------

  const RECURSIVE: nat := 510

  /** Sign extension of bit 47. */
  function Canonicalize(a: nat): nat
    requires a < 0x1_0000_0000_0000
  {
    if a >= 0x8000_0000_0000 then a + 0xFFFF_0000_0000_0000 else a
  }

  function Compose(i4: nat, i3: nat, i2: nat, i1: nat): (a: nat)
    requires i4 < 512 && i3 < 512 && i2 < 512 && i1 < 512
    ensures a < 0x1_0000_0000_0000
  {
    i4 * 0x80_0000_0000 + i3 * 0x4000_0000 + i2 * 0x20_0000 + i1 * 0x1000
  }

  /** The address at which the driver sees the table of a path: 510 for every missing leading index. */
  function TableVirt(path: Path): nat
    requires |path| <= 3 && forall k :: 0 <= k < |path| ==> path[k] < 512
  {
    Canonicalize(
      if |path| == 0 then Compose(510, 510, 510, 510)
      else if |path| == 1 then Compose(510, 510, 510, path[0])
      else if |path| == 2 then Compose(510, 510, path[0], path[1])
      else Compose(510, path[0], path[1], path[2]))
  }

  lemma ComposedIndices(i3: nat, i2: nat, i1: nat, k: nat)
    requires i3 < 512 && i2 < 512 && i1 < 512 && k < 512
    ensures var va := Canonicalize(Compose(510, i3, i2, i1)) + 8 * k;
      Index4(va) == 510 && Index3(va) == i3 && Index2(va) == i2 && Index1(va) == i1 && va % PAGE / 8 == k
  {
    var va := Canonicalize(Compose(510, i3, i2, i1)) + 8 * k;
    var q1 := 0xF_FFFF_F000_0000 + i3 * 0x4_0000 + i2 * 0x200 + i1;
    var q2 := 0x7FF_FFF8_0000 + i3 * 0x200 + i2;
    var q3 := 0x3_FFFF_FC00 + i3;
    ComposedAddress(i3, i2, i1);
    DivModUnique(0x1000, q1, 8 * k);
    DivModUnique(8, k, 0);
    DivModUnique(0x20_0000, q2, i1 * 0x1000 + 8 * k);
    DivModUnique(0x4000_0000, q3, i2 * 0x20_0000 + i1 * 0x1000 + 8 * k);
    DivModUnique(0x80_0000_0000, 0x1FF_FFFE, i3 * 0x4000_0000 + i2 * 0x20_0000 + i1 * 0x1000 + 8 * k);
    DivModUnique(512, q2, i1);
    DivModUnique(512, q3, i2);
    DivModUnique(512, 0x1FF_FFFE, i3);
  }

  lemma ComposedAddress(i3: nat, i2: nat, i1: nat)
    requires i3 < 512 && i2 < 512 && i1 < 512
    ensures Canonicalize(Compose(510, i3, i2, i1)) ==
      0xFFFF_FF00_0000_0000 + i3 * 0x4000_0000 + i2 * 0x20_0000 + i1 * 0x1000
  {
  }

  /** The word of physical memory behind a virtual address. */
  function WordAt(mem: Memory, root: nat, va: nat): Word
    requires HardwareWalk(mem, root, va).Page?
  {
    Word(HardwareWalk(mem, root, va).frame, va % PAGE / 8)
  }

  ghost predicate SelfMapped(mem: Memory, root: nat) {
    Load(mem, root, RECURSIVE).frame == root && Link(Load(mem, root, RECURSIVE))
  }

  /** Entry k of the table of a path, addressed through slot 510, is exactly word k of that table's frame. */
  lemma TableVirtReaches(mem: Memory, root: nat, path: Path, k: nat)
    requires SelfMapped(mem, root) && k < ENTRIES
    requires |path| <= 3 && (forall j :: 0 <= j < |path| ==> path[j] < 512) && Descend(mem, root, path).Node?
    ensures var va := TableVirt(path) + 8 * k;
      HardwareWalk(mem, root, va).Page? && WordAt(mem, root, va) == Word(Descend(mem, root, path).frame, k)
  {
    hide Index4; hide Index3; hide Index2; hide Index1; hide Canonicalize; hide Compose; hide Descend;
    hide HardwareWalk; hide Present; hide Large;
    var va := TableVirt(path) + 8 * k;
    if |path| == 0 {
      assert path == [];
      DescendRoot(mem, root);
      ComposedIndices(510, 510, 510, k);
      ThroughSlot(mem, root, va);
    } else if |path| == 1 {
      assert path == [path[0]];
      Descend1(mem, root, path[0]);
      ComposedIndices(510, 510, path[0], k);
      ThroughSlot(mem, root, va);
    } else if |path| == 2 {
      assert path == [path[0], path[1]];
      Descend1(mem, root, path[0]);
      Descend2(mem, root, path[0], path[1]);
      ComposedIndices(510, path[0], path[1], k);
      ThroughSlot(mem, root, va);
    } else {
      assert path == [path[0], path[1], path[2]];
      Descend1(mem, root, path[0]);
      Descend2(mem, root, path[0], path[1]);
      Descend3(mem, root, path[0], path[1], path[2]);
      ComposedIndices(path[0], path[1], path[2], k);
      ThroughSlot(mem, root, va);
    }
  }

  /** A walk that enters slot 510 spends its first step on the top-level table itself. */
  lemma ThroughSlot(mem: Memory, root: nat, va: nat)
    requires SelfMapped(mem, root) && Index4(va) == RECURSIVE
    requires Link(Load(mem, root, Index3(va))) && Link(Load(mem, Load(mem, root, Index3(va)).frame, Index2(va)))
    requires Present(Load(mem, Load(mem, Load(mem, root, Index3(va)).frame, Index2(va)).frame, Index1(va)))
    ensures HardwareWalk(mem, root, va).Page?
    ensures HardwareWalk(mem, root, va).frame ==
      Load(mem, Load(mem, Load(mem, root, Index3(va)).frame, Index2(va)).frame, Index1(va)).frame
  {
    hide Index4; hide Index3; hide Index2; hide Index1; hide Present; hide Large;
  }

  lemma DescendRoot(mem: Memory, root: nat)
    ensures Descend(mem, root, []) == Node(root, 0xFFF)
  {
  }
}
