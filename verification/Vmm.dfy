/** The virtual memory manager: page tables edited through slot 510, frames from the frame allocator. */
module Vmm {
  import opened Paging
  import opened AddressSpaces
  import opened Pmm

  const SCRATCH: nat := 0xFFFF_FFFF_C600_0000
  const HUGE_2MB: nat := 0x20_0000
  const HUGE_1GB: nat := 0x4000_0000

  function PathOf(va: nat): (p: Path)
    ensures |p| == 3
  {
    [Index4(va), Index3(va), Index2(va)]
  }

  /** Two addresses, each in its space, whose translations are one and the same entry. */
  ghost predicate SamePage(r: nat, va: nat, r': nat, va': nat) {
    Key(r, PathOf(va)) == Key(r', PathOf(va')) && Index1(va) == Index1(va')
  }

  /** No address outside the recursive window translates differently, in any space. */
  ghost predicate WalksKept(mem: Memory, mem': Memory, roots: set<nat>) {
    forall r, va: nat :: r in roots && Index4(va) != RECURSIVE ==> HardwareWalk(mem', r, va) == HardwareWalk(mem, r, va)
  }

  /** The page of va in space r0 is now entry e; every other page of every space is as before. */
  ghost predicate Mapped(mem: Memory, mem': Memory, roots: set<nat>, r0: nat, va0: nat, e: Entry) {
    forall r, va: nat :: r in roots && Index4(va) != RECURSIVE ==>
      HardwareWalk(mem', r, va) ==
        if SamePage(r, va, r0, va0) then LeafPage(FlagsOf(Descend(mem', r, PathOf(va))), e)
        else HardwareWalk(mem, r, va)
  }

  lemma AddressGood(va: nat)
    requires Index4(va) != RECURSIVE
    ensures GoodPath(PathOf(va)) && GoodPath([Index4(va), Index3(va)]) && GoodPath([Index4(va)])
    ensures GoodPage(Index4(va), Index3(va), Index2(va), Index1(va))
  {
    hide Index4; hide Index3; hide Index2; hide Index1;
  }

  lemma WalkOf(mem: Memory, roots: set<nat>, owner: map<nat, Id>, r: nat, va: nat)
    requires Coherent(mem, roots, owner) && r in roots
    ensures HardwareWalk(mem, r, va) == PageAt(mem, r, Index4(va), Index3(va), Index2(va), Index1(va))
  {
    hide Coherent; hide HardwareWalk; hide PageAt; hide Index4; hide Index3; hide Index2; hide Index1;
    SelfEntry(mem, roots, owner, r);
    WalkIsPageAt(mem, r, va);
  }

  lemma WalksFromPages(mem: Memory, mem': Memory, roots: set<nat>, owner: map<nat, Id>, owner': map<nat, Id>)
    requires Coherent(mem, roots, owner) && Coherent(mem', roots, owner') && SamePages(mem, mem', roots)
    ensures WalksKept(mem, mem', roots)
  {
    hide Coherent; hide HardwareWalk; hide PageAt; hide Index4; hide Index3; hide Index2; hide Index1; hide GoodPage;
    forall r, va: nat | r in roots && Index4(va) != RECURSIVE
      ensures HardwareWalk(mem', r, va) == HardwareWalk(mem, r, va)
    {
      AddressGood(va);
      WalkOf(mem, roots, owner, r, va);
      WalkOf(mem', roots, owner', r, va);
    }
  }

  lemma MappedFromPages(mem: Memory, mem': Memory, roots: set<nat>, owner: map<nat, Id>, owner': map<nat, Id>, r0: nat,
                        va0: nat, e: Entry)
    requires Coherent(mem, roots, owner) && Coherent(mem', roots, owner')
    requires OnePageChanged(mem, mem', roots, r0, PathOf(va0), Index1(va0), e)
    ensures Mapped(mem, mem', roots, r0, va0, e)
  {
    hide Coherent; hide HardwareWalk; hide PageAt; hide Index4; hide Index3; hide Index2; hide Index1;
    hide GoodPage; hide Key; hide Descend; hide LeafPage;
    forall r, va: nat | r in roots && Index4(va) != RECURSIVE
      ensures HardwareWalk(mem', r, va) ==
        if SamePage(r, va, r0, va0) then LeafPage(FlagsOf(Descend(mem', r, PathOf(va))), e)
        else HardwareWalk(mem, r, va)
    {
      AddressGood(va);
      WalkOf(mem, roots, owner, r, va);
      WalkOf(mem', roots, owner', r, va);
    }
  }

  /** Table frames are only added, and only frames that nobody held. */
  ghost predicate Grows(owner: map<nat, Id>, owner': map<nat, Id>, held: set<nat>, held': set<nat>) {
    && held <= held'
    && (forall f :: f in owner ==> f in owner' && owner'[f] == owner[f])
    && (forall f :: f in owner' && f !in owner ==> f !in held)
  }

  /** No word of any frame changes but those of the tables, old and new. */
  ghost predicate DataKept(mem: Memory, mem': Memory, owner: map<nat, Id>) {
    forall f, j :: f !in owner ==> Load(mem', f, j) == Load(mem, f, j)
  }

  lemma DataTrans(a: Memory, b: Memory, c: Memory, owner: map<nat, Id>, owner': map<nat, Id>, held: set<nat>,
                  held': set<nat>)
    requires DataKept(a, b, owner) && DataKept(b, c, owner') && Grows(owner, owner', held, held')
    ensures DataKept(a, c, owner')
  {
  }

  lemma HungData(mem: Memory, roots: set<nat>, owner: map<nat, Id>, r: nat, p: Path, i: nat, c: nat, mem': Memory)
    requires Coherent(mem, roots, owner) && FreeSlot(mem, roots, r, p, i)
    requires Hung(mem, mem', Descend(mem, r, p).frame, i, c)
    ensures DataKept(mem, mem', owner[c := Key(r, p + [i])])
  {
    hide Coherent; hide Descend; hide Key; hide GoodPath;
    PathBounds(mem, roots, r, p, i);
    OwnerOf(mem, roots, owner, r, p);
  }

  lemma StoredData(mem: Memory, m: Memory, roots: set<nat>, owner: map<nat, Id>, r: nat, p: Path, i: nat, e: Entry)
    requires Coherent(m, roots, owner) && r in roots && GoodPath(p) && Descend(m, r, p).Node?
    requires DataKept(mem, m, owner)
    ensures DataKept(mem, Store(m, Descend(m, r, p).frame, i, e), owner)
  {
    hide Coherent; hide Descend; hide GoodPath; hide Store;
    OwnerOf(m, roots, owner, r, p);
  }

  ghost predicate Childless(mem: Memory, r: nat, p: Path) {
    forall j :: 0 <= j < ENTRIES ==> Descend(mem, r, p + [j]) == NoNode
  }

  lemma EmptyChildless(mem: Memory, r: nat, p: Path, c: nat)
    requires Descend(mem, r, p).Node? && Descend(mem, r, p).frame == c && Empty(mem, c)
    ensures Childless(mem, r, p)
  {
    hide Descend;
    forall j | 0 <= j < ENTRIES ensures Descend(mem, r, p + [j]) == NoNode {
      DescendStep(mem, r, p, j);
      LinkIsSmall(c);
      assert Load(mem, c, j) == Entry(0, 0);
    }
  }

  lemma PagesRefl(mem: Memory, roots: set<nat>)
    ensures SamePages(mem, mem, roots)
  {
  }

  lemma SlotBounds(p: Path, i: nat)
    requires GoodPath(p) && GoodPath(p + [i])
    ensures |p| <= 2 && i < ENTRIES && (forall k :: 0 <= k < |p| ==> p[k] < 512)
    ensures forall k :: 0 <= k <= |p| ==> (p + [i])[k] < 512
  {
    assert (p + [i])[|p|] == i;
  }

  lemma PathBounds(mem: Memory, roots: set<nat>, r: nat, p: Path, i: nat)
    requires FreeSlot(mem, roots, r, p, i)
    ensures |p| <= 2 && i < ENTRIES && (forall k :: 0 <= k < |p| ==> p[k] < 512)
    ensures forall k :: 0 <= k <= |p| ==> (p + [i])[k] < 512
    ensures GoodPath(p) && r in roots
  {
    SlotBounds(p, i);
  }

  lemma LargeEntryAligned(mem: Memory, roots: set<nat>, owner: map<nat, Id>, r: nat, p: Path, i: nat)
    requires Coherent(mem, roots, owner) && FreeSlot(mem, roots, r, p, i) && |p| == 2
    ensures AlignedEntry(Load(mem, Descend(mem, r, p).frame, i))
  {
    hide Coherent; hide Descend; hide AlignedEntry;
    SlotBounds(p, i);
    assert p == [p[0], p[1]];
    AlignedAt(mem, roots, owner, r, p[0], p[1], i);
  }

  /** A large entry is met only in a page directory. */
  lemma LargeAtTwo(mem: Memory, roots: set<nat>, owner: map<nat, Id>, r: nat, p: Path, i: nat)
    requires Coherent(mem, roots, owner) && r in roots && GoodPath(p) && GoodPath(p + [i]) && Descend(mem, r, p).Node?
    requires Large(Load(mem, Descend(mem, r, p).frame, i))
    ensures |p| == 2
  {
    hide Coherent; hide Descend; hide Large; hide Present;
    SlotBounds(p, i);
    if |p| == 0 {
      assert p == [];
      DescendRoot(mem, r);
      NotLarge(mem, roots, owner, r, i);
    } else if |p| == 1 {
      assert p == [p[0]];
      Descend1(mem, r, p[0]);
      NotLarge(mem, roots, owner, r, p[0]);
    }
  }

  /** The tables that mapPage has to add for va. */
  ghost function TablesNeeded(mem: Memory, r: nat, va: nat): nat {
    if Descend(mem, r, [Index4(va)]).NoNode? then 3
    else if Descend(mem, r, [Index4(va), Index3(va)]).NoNode? then 2
    else if Descend(mem, r, PathOf(va)).NoNode? then 1 else 0
  }

  /** Outside the kernel slots, the tables themselves withhold no right. */
  ghost predicate Open(mem: Memory, roots: set<nat>) {
    forall r, path ::
      r in roots && GoodPath(path) && (path != [] ==> !KernelSlot(path[0])) && Descend(mem, r, path).Node? ==>
      Descend(mem, r, path).flags & RIGHTS == RIGHTS
  }

  lemma OpenAt(mem: Memory, roots: set<nat>, r: nat, path: Path)
    requires Open(mem, roots) && r in roots && GoodPath(path) && (path != [] ==> !KernelSlot(path[0]))
    requires Descend(mem, r, path).Node?
    ensures Descend(mem, r, path).flags & RIGHTS == RIGHTS
  {
    hide Descend;
  }

  lemma HungOpen(mem: Memory, roots: set<nat>, owner: map<nat, Id>, r0: nat, p: Path, i: nat, c: nat, mem': Memory)
    requires Coherent(mem, roots, owner) && FreeSlot(mem, roots, r0, p, i) && c !in owner && Open(mem, roots)
    requires Hung(mem, mem', Descend(mem, r0, p).frame, i, c) && (|p| < 2 ==> Empty(mem', c))
    ensures Open(mem', roots)
  {
    hide Coherent; hide Descend; hide FreeSlot; hide Hung; hide Empty; hide Key; hide GoodPath;
    forall r, path | r in roots && GoodPath(path) && (path != [] ==> !KernelSlot(path[0])) &&
      Descend(mem', r, path).Node?
      ensures Descend(mem', r, path).flags & RIGHTS == RIGHTS
    {
      HungDescend(mem, roots, owner, r0, p, i, c, mem', r, path);
      if Key(r, path) == Key(r0, p + [i]) {
        Split(path);
        var q := path[..|path| - 1];
        assert q != [] ==> q[0] == path[0];
        OpenAt(mem, roots, r, q);
        RightsOfLink(Descend(mem, r, q).flags);
      }
    }
  }

  lemma RightsOfLink(a: bv12)
    requires a & RIGHTS == RIGHTS
    ensures (a & LINK) & RIGHTS == RIGHTS
  {
  }

  lemma Paths(i4: nat, i3: nat, i2: nat)
    ensures [] + [i4] == [i4] && [i4] + [i3] == [i4, i3] && [i4, i3] + [i2] == [i4, i3, i2]
    ensures GoodPath([])
  {
  }

  lemma PagesTrans(a: Memory, b: Memory, c: Memory, roots: set<nat>)
    requires SamePages(a, b, roots) && SamePages(b, c, roots)
    ensures SamePages(a, c, roots)
  {
    hide PageAt; hide GoodPage;
  }

  lemma MaskedIndices(va: nat)
    ensures var v := va / PAGE * PAGE;
      Index4(v) == Index4(va) && Index3(v) == Index3(va) && Index2(v) == Index2(va) && Index1(v) == Index1(va)
  {
    var v := va / PAGE * PAGE;
    assert v / 0x1000 == va / 0x1000;
    MaskedQuotient(va, 0x200);
    MaskedQuotient(va, 0x4_0000);
    MaskedQuotient(va, 0x800_0000);
  }

  /** Clearing the offset within a page does not change the quotient by a multiple of the page size. */
  lemma MaskedQuotient(va: nat, n: nat)
    requires n in {0x200, 0x4_0000, 0x800_0000}
    ensures var v := va / PAGE * PAGE; v / (PAGE * n) == va / (PAGE * n)
  {
    var q := va / (PAGE * n);
    assert q * n <= va / PAGE < (q + 1) * n;
  }

  lemma Bounds3(va: nat)
    ensures forall k :: 0 <= k < 3 ==> PathOf(va)[k] < 512
  {
    hide Index4; hide Index3; hide Index2;
  }

  /** Storing an entry into a last-level table, after steps that changed no page, remaps exactly one page. */
  lemma LeafStored(mem: Memory, m: Memory, roots: set<nat>, owner: map<nat, Id>, owner': map<nat, Id>, r0: nat, va: nat,
                   e: Entry)
    requires Coherent(mem, roots, owner) && Coherent(m, roots, owner') && Open(m, roots) && r0 in roots
    requires Index4(va) != RECURSIVE
    requires SamePages(mem, m, roots) && Descend(m, r0, PathOf(va)).Node?
    ensures var mem' := Store(m, Descend(m, r0, PathOf(va)).frame, Index1(va), e);
      && Coherent(mem', roots, owner') && Mapped(mem, mem', roots, r0, va, e) && Open(mem', roots)
      && Descend(mem', r0, PathOf(va)) == Descend(m, r0, PathOf(va))
  {
    hide Coherent; hide Open; hide Descend; hide SamePages; hide OnePageChanged; hide Mapped; hide Store;
    hide Index4; hide Index3; hide Index2; hide Index1; hide GoodPath;
    AddressGood(va);
    var p, i := PathOf(va), Index1(va);
    var mem' := Store(m, Descend(m, r0, p).frame, i, e);
    LeafCoherent(m, roots, owner', r0, p, i, e);
    LeafPages(m, roots, owner', r0, p, i, e);
    LeafDescend(m, roots, owner', r0, p, i, e, r0, p);
    LeafOpen(m, roots, owner', r0, p, i, e);
    ChangedAfterSame(mem, m, mem', roots, r0, p, i, e);
    MappedFromPages(mem, mem', roots, owner, owner', r0, va, e);
  }

  lemma ChangedAfterSame(mem: Memory, m: Memory, mem': Memory, roots: set<nat>, r0: nat, p: Path, i: nat, e: Entry)
    requires SamePages(mem, m, roots) && OnePageChanged(m, mem', roots, r0, p, i, e)
    ensures OnePageChanged(mem, mem', roots, r0, p, i, e)
  {
    hide PageAt; hide GoodPage; hide Key; hide Descend; hide LeafPage;
  }

  lemma LeafOpen(mem: Memory, roots: set<nat>, owner: map<nat, Id>, r0: nat, p: Path, i: nat, e: Entry)
    requires Coherent(mem, roots, owner) && LeafSlot(mem, roots, r0, p, i) && Open(mem, roots)
    ensures Open(Store(mem, Descend(mem, r0, p).frame, i, e), roots)
  {
    hide Coherent; hide Descend; hide GoodPath; hide Store;
    var mem' := Store(mem, Descend(mem, r0, p).frame, i, e);
    forall r, path | r in roots && GoodPath(path) && (path != [] ==> !KernelSlot(path[0])) &&
      Descend(mem', r, path).Node?
      ensures Descend(mem', r, path).flags & RIGHTS == RIGHTS
    {
      LeafDescend(mem, roots, owner, r0, p, i, e, r, path);
    }
  }

  /** Below a user slot a mapped page has exactly the rights asked for. */
  lemma MappedPage(mem: Memory, mem': Memory, roots: set<nat>, owner: map<nat, Id>, r: nat, va: nat, frame: nat,
                   flags: bv12)
    requires Coherent(mem', roots, owner) && Open(mem', roots) && r in roots && Index4(va) != RECURSIVE
    requires Descend(mem', r, PathOf(va)).Node?
    requires Mapped(mem, mem', roots, r, va, Entry(frame, flags | PRESENT))
    ensures !KernelSlot(Index4(va)) ==>
      HardwareWalk(mem', r, va) == Page(frame, (flags | PRESENT) & RIGHTS, flags & CACHE)
  {
    hide Coherent; hide Open; hide Descend; hide HardwareWalk; hide Index4; hide Index3; hide Index2; hide Index1;
    hide GoodPath; hide Key;
    if !KernelSlot(Index4(va)) {
      AddressGood(va);
      OpenAt(mem', roots, r, PathOf(va));
      OpenRights(Descend(mem', r, PathOf(va)).flags, flags);
      assert SamePage(r, va, r, va);
    }
  }

  lemma OpenRights(a: bv12, flags: bv12)
    requires a & RIGHTS == RIGHTS
    ensures a & (flags | PRESENT) & RIGHTS == (flags | PRESENT) & RIGHTS && (flags | PRESENT) & PRESENT != 0
    ensures (flags | PRESENT) & CACHE == flags & CACHE
  {
  }

  /** va lies in a 2 MB page. */
  predicate InLargePage(mem: Memory, r: nat, va: nat) {
    var n := Descend(mem, r, [Index4(va), Index3(va)]);
    n.Node? && var e := Load(mem, n.frame, Index2(va)); Present(e) && Large(e)
  }

  function LargeBase(mem: Memory, r: nat, va: nat): nat
    requires InLargePage(mem, r, va)
  {
    Load(mem, Descend(mem, r, [Index4(va), Index3(va)]).frame, Index2(va)).frame
  }

  /** The word at which the last-level entry of va is addressed: in a large page, a word of that page. */
  lemma EntryReaches(mem: Memory, roots: set<nat>, owner: map<nat, Id>, r: nat, va: nat)
    requires Coherent(mem, roots, owner) && r in roots && Index4(va) != RECURSIVE
    requires Descend(mem, r, [Index4(va), Index3(va)]).Node?
    requires Present(Load(mem, Descend(mem, r, [Index4(va), Index3(va)]).frame, Index2(va)))
    ensures forall k :: 0 <= k < 3 ==> PathOf(va)[k] < 512
    ensures HardwareWalk(mem, r, TableVirt(PathOf(va)) + 8 * Index1(va)).Page?
    ensures var a := TableVirt(PathOf(va)) + 8 * Index1(va);
      WordAt(mem, r, a) ==
      Word(Load(mem, Descend(mem, r, [Index4(va), Index3(va)]).frame, Index2(va)).frame, Index1(va))
  {
    hide Coherent; hide Descend; hide GoodPath; hide Index4; hide Index3; hide Index2; hide Index1;
    hide HardwareWalk; hide Present; hide Large; hide Compose; hide Canonicalize;
    Bounds3(va);
    SelfEntry(mem, roots, owner, r);
    Descend1(mem, r, Index4(va));
    Descend2(mem, r, Index4(va), Index3(va));
    ComposedIndices(Index4(va), Index3(va), Index2(va), Index1(va));
    ThroughSlot(mem, r, TableVirt(PathOf(va)) + 8 * Index1(va));
  }

  /** Where no table leads to va there is nothing to unmap, in any space that shares the path. */
  lemma NothingThere(mem: Memory, roots: set<nat>, owner: map<nat, Id>, r0: nat, va0: nat)
    requires Coherent(mem, roots, owner) && r0 in roots && Index4(va0) != RECURSIVE
    requires Descend(mem, r0, PathOf(va0)).NoNode? && !InLargePage(mem, r0, va0)
    ensures Mapped(mem, mem, roots, r0, va0, Entry(0, 0))
  {
    hide Coherent; hide Descend; hide GoodPath; hide Index4; hide Index3; hide Index2; hide Index1;
    hide HardwareWalk; hide Key; hide Present; hide Large;
    forall r, va: nat | r in roots && Index4(va) != RECURSIVE && SamePage(r, va, r0, va0)
      ensures HardwareWalk(mem, r, va) == LeafPage(FlagsOf(Descend(mem, r, PathOf(va))), Entry(0, 0))
    {
      LinkIsSmall(0);
      AddressGood(va);
      AddressGood(va0);
      WalkOf(mem, roots, owner, r, va);
      SameKeySameTable(mem, roots, owner, r, PathOf(va), r0, PathOf(va0));
      SameKeySameDirectory(mem, roots, owner, r, va, r0, va0);
    }
  }

  lemma SameKeySameDirectory(mem: Memory, roots: set<nat>, owner: map<nat, Id>, r: nat, va: nat, r0: nat, va0: nat)
    requires Coherent(mem, roots, owner) && r in roots && r0 in roots && Index4(va) != RECURSIVE
    requires Index4(va0) != RECURSIVE
    requires Key(r, PathOf(va)) == Key(r0, PathOf(va0))
    ensures Index2(va) == Index2(va0)
    ensures SameTable(Descend(mem, r, [Index4(va), Index3(va)]), Descend(mem, r0, [Index4(va0), Index3(va0)]))
  {
    hide Coherent; hide Descend; hide GoodPath; hide Index4; hide Index3; hide Index2; hide Index1; hide Key;
    hide Canon;
    AddressGood(va);
    AddressGood(va0);
    Paths(Index4(va), Index3(va), Index2(va));
    Paths(Index4(va0), Index3(va0), Index2(va0));
    ThreeIsNotTwin(PathOf(va));
    KeyShorter(r, [Index4(va), Index3(va)], Index2(va), r0, [Index4(va0), Index3(va0)], Index2(va0));
    SameKeySameTable(mem, roots, owner, r, [Index4(va), Index3(va)], r0, [Index4(va0), Index3(va0)]);
  }

  lemma ThreeIsNotTwin(p: Path)
    requires |p| == 3
    ensures Canon(p) != [0, 0]
  {
  }

  /** Unmapping inside a large page whose first frame is no table leaves the address mapped as before. */
  lemma LargeStaysMapped(mem: Memory, roots: set<nat>, owner: map<nat, Id>, r: nat, va: nat)
    requires Coherent(mem, roots, owner) && r in roots && Index4(va) != RECURSIVE && InLargePage(mem, r, va)
    requires LargeBase(mem, r, va) !in owner
    ensures var mem' := Store(mem, LargeBase(mem, r, va), Index1(va), Entry(0, 0));
      Coherent(mem', roots, owner) && WalksKept(mem, mem', roots) && HardwareWalk(mem', r, va).Page?
  {
    hide Coherent; hide Descend; hide GoodPath; hide Index4; hide Index3; hide Index2; hide Index1;
    hide HardwareWalk; hide Key; hide Present; hide Large; hide Store; hide SamePages;
    var c := LargeBase(mem, r, va);
    var mem' := Store(mem, c, Index1(va), Entry(0, 0));
    BesideCoherent(mem, roots, owner, c, mem');
    BesidePages(mem, roots, owner, c, mem');
    WalksFromPages(mem, mem', roots, owner, owner);
    WalkOf(mem, roots, owner, r, va);
    Descend3(mem, r, Index4(va), Index3(va), Index2(va));
  }

  /** Word i of frame f is one of the three entries that the walk of va reads on its way to a large page. */
  predicate OnWalk(mem: Memory, r: nat, va: nat, f: nat, i: nat) {
    var e4 := Load(mem, r, Index4(va));
    var e3 := Load(mem, e4.frame, Index3(va));
    (f == r && i == Index4(va)) || (f == e4.frame && i == Index3(va)) || (f == e3.frame && i == Index2(va))
  }

  predicate SameLargePage(va: nat, a: nat) {
    Index4(a) == Index4(va) && Index3(a) == Index3(va) && Index2(a) == Index2(va)
  }

  /** What unmapping va does to the addresses of its large page: they all stay, or, if the page begins with a table on
      their own walk and the word cleared is the one they pass through there, they all go. */
  lemma LargePageStays(mem: Memory, r: nat, va: nat, a: nat)
    requires InLargePage(mem, r, va) && SameLargePage(va, a)
    ensures HardwareWalk(mem, r, a).Page?
    ensures var c := LargeBase(mem, r, va);
      HardwareWalk(Store(mem, c, Index1(va), Entry(0, 0)), r, a) ==
      if OnWalk(mem, r, va, c, Index1(va)) then NoPage else HardwareWalk(mem, r, a)
  {
    hide Descend; hide Index4; hide Index3; hide Index2; hide Index1; hide Store; hide Large;
    Descend1(mem, r, Index4(va));
    Descend2(mem, r, Index4(va), Index3(va));
  }

  /** Another page of the same large page. */
  lemma Neighbour(va: nat) returns (a: nat)
    ensures SameLargePage(va, a) && Index1(a) != Index1(va)
  {
    a := if Index1(va) == 0 then va + PAGE else va - PAGE;
    UpperIndices(va, a);
  }

  lemma UpperIndices(va: nat, a: nat)
    requires a == if Index1(va) == 0 then va + PAGE else va - PAGE
    ensures SameLargePage(va, a) && Index1(a) != Index1(va)
  {
    var q := va / PAGE;
    assert a / PAGE == if q % 512 == 0 then q + 1 else q - 1;
    assert a / PAGE / 512 == q / 512;
    PageQuotients(va);
    PageQuotients(a);
  }

  lemma PageQuotients(va: nat)
    ensures Index1(va) == va / PAGE % 512 && Index2(va) == va / PAGE / 512 % 512
    ensures Index3(va) == va / PAGE / 512 / 512 % 512 && Index4(va) == va / PAGE / 512 / 512 / 512 % 512
  {
    assert va / 0x20_0000 == va / PAGE / 512;
    assert va / 0x4000_0000 == va / 0x20_0000 / 512;
    assert va / 0x80_0000_0000 == va / 0x4000_0000 / 512;
  }

  /** Inside a large page unmapping never does what it is for: va stays mapped, or a neighbour is lost with it. */
  lemma LargeNotUnmapped(mem: Memory, roots: set<nat>, r: nat, va: nat)
    requires r in roots && Index4(va) != RECURSIVE && InLargePage(mem, r, va)
    ensures !Mapped(mem, Store(mem, LargeBase(mem, r, va), Index1(va), Entry(0, 0)), roots, r, va, Entry(0, 0))
  {
    hide Descend; hide Index4; hide Index3; hide Index2; hide Index1; hide Store; hide Large; hide HardwareWalk;
    hide Key; hide InLargePage; hide LargeBase; hide OnWalk;
    var mem' := Store(mem, LargeBase(mem, r, va), Index1(va), Entry(0, 0));
    var a := Neighbour(va);
    LargePageStays(mem, r, va, va);
    LargePageStays(mem, r, va, a);
    assert SamePage(r, va, r, va) && !SamePage(r, a, r, va);
    LinkIsSmall(0);
  }

  // ---------- the scratch page of createAddressSpace ----------

  lemma ScratchIndices(k: nat)
    requires k < ENTRIES
    ensures var va := SCRATCH + 8 * k;
      Index4(va) == 511 && Index3(va) == 511 && Index2(va) == 48 && Index1(va) == 0 && va % PAGE / 8 == k
  {
    var va := SCRATCH + 8 * k;
    assert va / 0x1000 == 0xF_FFFF_FFFC_6000;
    assert va / 0x20_0000 == 0x7FF_FFFF_FE30;
    assert va / 0x4000_0000 == 0x3_FFFF_FFFF;
    assert va / 0x80_0000_0000 == 0x1FF_FFFF;
  }

  lemma ScratchReaches(m: Memory, mem: Memory, roots: set<nat>, owner: map<nat, Id>, r: nat, c: nat, k: nat)
    requires Coherent(m, roots, owner) && r in roots && c !in owner && Beside(m, mem, c) && k < ENTRIES
    requires HardwareWalk(m, r, SCRATCH).Page? && HardwareWalk(m, r, SCRATCH).frame == c
    ensures HardwareWalk(mem, r, SCRATCH + 8 * k).Page? && WordAt(mem, r, SCRATCH + 8 * k) == Word(c, k)
  {
    hide Coherent; hide HardwareWalk; hide Index4; hide Index3; hide Index2; hide Index1; hide PageAt; hide Beside;
    hide GoodPage;
    ScratchIndices(0);
    ScratchIndices(k);
    BesideCoherent(m, roots, owner, c, mem);
    BesidePages(m, roots, owner, c, mem);
    WalkOf(m, roots, owner, r, SCRATCH);
    WalkOf(mem, roots, owner, r, SCRATCH + 8 * k);
    AddressGood(SCRATCH);
  }

  lemma CurrentReaches(m: Memory, mem: Memory, roots: set<nat>, owner: map<nat, Id>, r: nat, c: nat, k: nat)
    requires Coherent(m, roots, owner) && r in roots && c !in owner && Beside(m, mem, c) && k < ENTRIES
    ensures HardwareWalk(mem, r, TableVirt([]) + 8 * k).Page? && WordAt(mem, r, TableVirt([]) + 8 * k) == Word(r, k)
    ensures Load(mem, r, k) == Load(m, r, k)
  {
    hide Coherent; hide HardwareWalk; hide Descend; hide TableVirt;
    BesideCoherent(m, roots, owner, c, mem);
    SelfEntry(mem, roots, owner, r);
    RootOwned(m, roots, owner, r);
    DescendRoot(mem, r);
    TableVirtReaches(mem, r, [], k);
  }

  lemma ScratchMapped(mem: Memory, m: Memory, roots: set<nat>, r: nat, c: nat)
    requires r in roots && Mapped(mem, m, roots, r, SCRATCH, Entry(c, WRITABLE | PRESENT))
    ensures HardwareWalk(m, r, SCRATCH).Page? && HardwareWalk(m, r, SCRATCH).frame == c
  {
    hide HardwareWalk; hide Descend; hide Index4; hide Index3; hide Index2; hide Index1; hide Key;
    ScratchIndices(0);
    assert SamePage(r, SCRATCH, r, SCRATCH);
    OpenRights(7, WRITABLE);
  }

  lemma ForkedOpen(mem: Memory, roots: set<nat>, owner: map<nat, Id>, r0: nat, c: nat, mem': Memory)
    requires Coherent(mem, roots, owner) && c !in owner && Forked(mem, mem', r0, c) && r0 in roots && Open(mem, roots)
    ensures Open(mem', roots + {c})
  {
    hide Coherent; hide Descend; hide GoodPath;
    forall r, path | r in roots + {c} && GoodPath(path) && (path != [] ==> !KernelSlot(path[0])) &&
      Descend(mem', r, path).Node?
      ensures Descend(mem', r, path).flags & RIGHTS == RIGHTS
    {
      if path == [] {
        DescendRoot(mem', r);
      } else if r in roots {
        OldSpaces(mem, roots, owner, c, mem', r, path);
      } else {
        NewSpace(mem, roots, owner, r0, c, mem', path);
      }
    }
  }

  lemma ScratchTable(m: Memory, roots: set<nat>, owner: map<nat, Id>, r: nat, c: nat, m': Memory)
    requires Coherent(m, roots, owner) && c !in owner && Forked(m, m', r, c) && r in roots
    requires Descend(m, r, PathOf(SCRATCH)).Node?
    ensures !InLargePage(m', r, SCRATCH)
  {
    hide Coherent; hide Descend; hide GoodPath; hide Index4; hide Index3; hide Index2; hide Index1;
    ScratchIndices(0);
    AddressGood(SCRATCH);
    OldSpaces(m, roots, owner, c, m', r, PathOf(SCRATCH));
    Descend3(m', r, Index4(SCRATCH), Index3(SCRATCH), Index2(SCRATCH));
  }

  /** The new space has the kernel's pages only, every old one keeps its pages, and nobody has the scratch page. */
  ghost predicate Spawned(mem: Memory, mem': Memory, roots: set<nat>, r0: nat, c: nat) {
    && (forall r, va: nat :: r in roots && Index4(va) != RECURSIVE ==>
      HardwareWalk(mem', r, va) == if SamePage(r, va, r0, SCRATCH) then NoPage else HardwareWalk(mem, r, va))
    && (forall va: nat :: Index4(va) != RECURSIVE ==>
      HardwareWalk(mem', c, va) == if KernelSlot(Index4(va)) then HardwareWalk(mem', r0, va) else NoPage)
  }

  /** All spaces translate the kernel's addresses alike. */
  lemma KernelAgrees(mem: Memory, roots: set<nat>, owner: map<nat, Id>, r: nat, s: nat, va: nat)
    requires Coherent(mem, roots, owner) && r in roots && s in roots && KernelSlot(Index4(va))
    ensures HardwareWalk(mem, r, va) == HardwareWalk(mem, s, va)
  {
    hide Descend; hide Index4; hide Index3; hide Index2; hide Index1; hide NoLarge; hide LargeAligned;
    hide OwnersOk; hide SelfMapped; hide Anchored; hide Present; hide Large;
    assert Load(mem, r, Index4(va)) == Load(mem, s, Index4(va));
  }

  lemma KernelAgreesAll(mem: Memory, roots: set<nat>, owner: map<nat, Id>, r: nat, s: nat)
    requires Coherent(mem, roots, owner) && r in roots && s in roots
    ensures forall va: nat :: KernelSlot(Index4(va)) ==> HardwareWalk(mem, r, va) == HardwareWalk(mem, s, va)
  {
    hide Coherent; hide HardwareWalk; hide Index4;
    forall va: nat | KernelSlot(Index4(va)) ensures HardwareWalk(mem, r, va) == HardwareWalk(mem, s, va) {
      KernelAgrees(mem, roots, owner, r, s, va);
    }
  }

  lemma ForkedSpawns(mem: Memory, m: Memory, m': Memory, mem': Memory, roots: set<nat>, owner: map<nat, Id>,
                     o: map<nat, Id>, r0: nat, c: nat)
    requires Coherent(mem, roots, owner) && Coherent(m, roots, o) && c !in o && Forked(m, m', r0, c) && r0 in roots
    requires Coherent(m', roots + {c}, o[c := User(c, [])]) && Coherent(mem', roots + {c}, o[c := User(c, [])])
    requires Mapped(mem, m, roots, r0, SCRATCH, Entry(c, WRITABLE | PRESENT))
    requires Mapped(m', mem', roots + {c}, r0, SCRATCH, Entry(0, 0))
    ensures Spawned(mem, mem', roots, r0, c)
  {
    hide Coherent; hide HardwareWalk; hide Index4; hide Index3; hide Index2; hide Index1; hide Forked; hide Descend;
    hide SamePage;
    LinkIsSmall(0);
    KernelAgreesAll(mem', roots + {c}, o[c := User(c, [])], c, r0);
    ForkedWalks(m, roots, o, r0, c, m');
    forall va: nat | Index4(va) != RECURSIVE && !KernelSlot(Index4(va)) ensures HardwareWalk(mem', c, va) == NoPage {
      assert HardwareWalk(m', c, va) == NoPage;
    }
  }

  lemma ForkedWalks(m: Memory, roots: set<nat>, owner: map<nat, Id>, r0: nat, c: nat, m': Memory)
    requires Coherent(m, roots, owner) && c !in owner && Forked(m, m', r0, c) && r0 in roots
    ensures WalksKept(m, m', roots)
    ensures forall va: nat :: Index4(va) != RECURSIVE && !KernelSlot(Index4(va)) ==> HardwareWalk(m', c, va) == NoPage
  {
    hide Coherent; hide HardwareWalk; hide Index4; hide Index3; hide Index2; hide Index1; hide Forked; hide Descend;
    hide PageAt; hide GoodPage;
    ForkedCoherent(m, roots, owner, r0, c, m');
    ForkedPages(m, roots, owner, r0, c, m');
    forall r, va: nat | r in roots && Index4(va) != RECURSIVE
      ensures HardwareWalk(m', r, va) == HardwareWalk(m, r, va)
    {
      AddressGood(va);
      WalkOf(m, roots, owner, r, va);
      WalkOf(m', roots + {c}, owner[c := User(c, [])], r, va);
    }
    forall va: nat | Index4(va) != RECURSIVE && !KernelSlot(Index4(va)) ensures HardwareWalk(m', c, va) == NoPage {
      AddressGood(va);
      WalkOf(m', roots + {c}, owner[c := User(c, [])], c, va);
    }
  }

  lemma ForkedData(mem: Memory, m: Memory, m': Memory, o: map<nat, Id>, r0: nat, c: nat)
    requires DataKept(mem, m, o) && Forked(m, m', r0, c)
    ensures DataKept(mem, m', o[c := User(c, [])])
  {
  }

  class AddressTranslator {
    const pmm: PhysicalMemoryManager
    var mem: Memory
    var cr3: nat
    // The top-level tables of all spaces, and the path that each table frame serves.
    ghost var roots: set<nat>
    ghost var owner: map<nat, Id>

    constructor (pmm: PhysicalMemoryManager, mem: Memory, root: nat, ghost owner: map<nat, Id>)
      requires pmm.Valid() && Coherent(mem, {root}, owner) && Open(mem, {root}) && owner.Keys <= pmm.HeldFrames()
      ensures Valid() && this.pmm == pmm && this.mem == mem && cr3 == root && roots == {root} && this.owner == owner
    {
      this.pmm, this.mem, cr3, roots, this.owner := pmm, mem, root, {root}, owner;
    }

    ghost predicate Valid()
      reads this, pmm, pmm.bitmap
    {
      pmm.Valid() && Coherent(mem, roots, owner) && Open(mem, roots) && cr3 in roots && owner.Keys <= pmm.HeldFrames()
    }

    /** A load through the page tables. */
    method ReadVirt(va: nat) returns (e: Entry)
      requires HardwareWalk(mem, cr3, va).Page?
      ensures e == var w := WordAt(mem, cr3, va); Load(mem, w.frame, w.index)
    {
      var w := WordAt(mem, cr3, va);
      e := Load(mem, w.frame, w.index);
    }

    /** A store through the page tables. */
    method WriteVirt(va: nat, e: Entry)
      requires HardwareWalk(mem, cr3, va).Page?
      modifies this`mem
      ensures mem == var w := WordAt(old(mem), cr3, va); Store(old(mem), w.frame, w.index, e)
    {
      var w := WordAt(mem, cr3, va);
      mem := Store(mem, w.frame, w.index, e);
    }

    /** g_pmm.allocFrame() where the caller does not look for exhaustion. */
    method NewFrame() returns (c: nat)
      requires Valid() && pmm.used < pmm.total
      modifies pmm`used, pmm`hint, pmm`owned, pmm.bitmap
      ensures Valid() && c !in owner && pmm.used == old(pmm.used) + 1
      ensures c in pmm.HeldFrames() && c !in old(pmm.HeldFrames()) && old(pmm.HeldFrames()) <= pmm.HeldFrames()
    {
      hide PhysicalMemoryManager.Valid; hide PhysicalMemoryManager.HeldFrames; hide Coherent;
      var phys := pmm.AllocFrame();
      c := phys / FRAME_SIZE;
    }

    /** zeroPage: the 512 words behind virt, here those of the table of p + [i], just linked to frame c. */
    method ZeroPage(virt: nat, ghost base: Memory, ghost p: Path, ghost i: nat, ghost c: nat)
      requires Coherent(base, roots, owner) && FreeSlot(base, roots, cr3, p, i) && c !in owner
      requires Hung(base, mem, Descend(base, cr3, p).frame, i, c) && virt == TableVirt(p + [i])
      modifies this`mem
      ensures Hung(base, mem, Descend(base, cr3, p).frame, i, c) && Empty(mem, c)
    {
      hide Coherent; hide FreeSlot; hide Descend; hide TableVirt; hide HardwareWalk; hide GoodPath; hide Store;
      FreeSlotEmpty(base, roots, cr3, p, i);
      PathBounds(base, roots, cr3, p, i);
      ghost var f := Descend(base, cr3, p).frame;
      var k := 0;
      while k < ENTRIES
        invariant k <= ENTRIES && Hung(base, mem, f, i, c)
        invariant forall j :: 0 <= j < k ==> Load(mem, c, j) == Entry(0, 0)
      {
        HungReaches(base, roots, owner, cr3, p, i, c, mem);
        TableVirtReaches(mem, cr3, p + [i], k);
        WriteVirt(virt + 8 * k, Entry(0, 0));
        k := k + 1;
      }
    }

    /** The loop of splitHugePage: the pieces of the large page e, one per word. */
    method WritePieces(virt: nat, hugeSize: nat, e: Entry, ghost base: Memory, ghost p: Path, ghost i: nat,
                       ghost c: nat)
      requires Coherent(base, roots, owner) && FreeSlot(base, roots, cr3, p, i) && c !in owner && hugeSize == HUGE_2MB
      requires Hung(base, mem, Descend(base, cr3, p).frame, i, c) && virt == TableVirt(p + [i])
      modifies this`mem
      ensures Hung(base, mem, Descend(base, cr3, p).frame, i, c) && Pieces(mem, c, e)
    {
      hide Coherent; hide FreeSlot; hide Descend; hide TableVirt; hide HardwareWalk; hide GoodPath; hide Store;
      FreeSlotEmpty(base, roots, cr3, p, i);
      PathBounds(base, roots, cr3, p, i);
      ghost var f := Descend(base, cr3, p).frame;
      var k := 0;
      while k < hugeSize / PAGE
        invariant k <= ENTRIES && Hung(base, mem, f, i, c)
        invariant forall j :: 0 <= j < k ==> Load(mem, c, j) == Entry(e.frame + j, e.flags & KEPT)
      {
        HungReaches(base, roots, owner, cr3, p, i, c, mem);
        TableVirtReaches(mem, cr3, p + [i], k);
        WriteVirt(virt + 8 * k, Entry(e.frame + k, e.flags & KEPT));
        k := k + 1;
      }
    }

    /** Writes the link to a new frame into the slot. */
    method HangTable(parentVirt: nat, index: nat, ghost p: Path) returns (c: nat)
      requires Valid() && pmm.used < pmm.total && FreeSlot(mem, roots, cr3, p, index) && parentVirt == TableVirt(p)
      modifies this`mem, pmm`used, pmm`hint, pmm`owned, pmm.bitmap
      ensures pmm.Valid() && c !in owner && Hung(old(mem), mem, Descend(old(mem), cr3, p).frame, index, c)
      ensures pmm.used == old(pmm.used) + 1 && owner.Keys + {c} <= pmm.HeldFrames()
      ensures c !in old(pmm.HeldFrames()) && old(pmm.HeldFrames()) <= pmm.HeldFrames()
    {
      hide Coherent; hide FreeSlot; hide Descend; hide TableVirt; hide HardwareWalk; hide GoodPath; hide Store;
      hide PhysicalMemoryManager.Valid; hide PhysicalMemoryManager.HeldFrames;
      FreeSlotEmpty(mem, roots, cr3, p, index);
      PathBounds(mem, roots, cr3, p, index);
      OwnerOf(mem, roots, owner, cr3, p);
      SelfEntry(mem, roots, owner, cr3);
      TableVirtReaches(mem, cr3, p, index);
      c := NewFrame();
      WriteVirt(parentVirt + 8 * index, Entry(c, LINK));
    }

    method SplitHugePage(parentVirt: nat, index: nat, childVirt: nat, hugeSize: nat, ghost p: Path)
      requires Valid() && pmm.used < pmm.total && FreeSlot(mem, roots, cr3, p, index) && |p| == 2
      requires parentVirt == TableVirt(p) && childVirt == TableVirt(p + [index]) && hugeSize == HUGE_2MB
      requires var e := Load(mem, Descend(mem, cr3, p).frame, index); Present(e) && Large(e)
      modifies this`mem, this`owner, pmm`used, pmm`hint, pmm`owned, pmm.bitmap
      ensures Valid() && Descend(mem, cr3, p + [index]).Node? && WalksKept(old(mem), mem, roots)
      ensures SamePages(old(mem), mem, roots) && DataKept(old(mem), mem, owner)
      ensures pmm.used == old(pmm.used) + 1 && Grows(old(owner), owner, old(pmm.HeldFrames()), pmm.HeldFrames())
    {
      hide Coherent; hide Descend; hide TableVirt; hide HardwareWalk; hide Store; hide Open; hide Pieces; hide Hung;
      hide DataKept; hide Empty; hide SamePages; hide WalksKept; hide Key; hide FreeSlot; hide Present; hide Large;
      hide PhysicalMemoryManager.Valid; hide PhysicalMemoryManager.HeldFrames;
      FreeSlotEmpty(mem, roots, cr3, p, index);
      PathBounds(mem, roots, cr3, p, index);
      SelfEntry(mem, roots, owner, cr3);
      TableVirtReaches(mem, cr3, p, index);
      LargeEntryAligned(mem, roots, owner, cr3, p, index);
      var e := ReadVirt(parentVirt + 8 * index);
      var c := HangTable(parentVirt, index, p);
      ZeroPage(childVirt, old(mem), p, index, c);
      WritePieces(childVirt, hugeSize, e, old(mem), p, index, c);
      HungCoherent(old(mem), roots, owner, cr3, p, index, c, mem);
      HungReaches(old(mem), roots, owner, cr3, p, index, c, mem);
      SplitPages(old(mem), roots, owner, cr3, p, index, c, mem);
      HungOpen(old(mem), roots, owner, cr3, p, index, c, mem);
      HungData(old(mem), roots, owner, cr3, p, index, c, mem);
      owner := owner[c := Key(cr3, p + [index])];
      WalksFromPages(old(mem), mem, roots, old(owner), owner);
    }

    /** ensureTable for the slot of the table of p: afterwards there is a table, and no page has changed. */
    method EnsureTable(parentVirt: nat, index: nat, childVirt: nat, hugeSize: nat, ghost p: Path)
      requires Valid() && |p| <= 2 && GoodPath(p + [index]) && GoodPath(p) && Descend(mem, cr3, p).Node?
      requires parentVirt == TableVirt(p) && childVirt == TableVirt(p + [index]) && (|p| == 2 ==> hugeSize == HUGE_2MB)
      requires Descend(mem, cr3, p + [index]).Node? || pmm.used < pmm.total
      modifies this`mem, this`owner, pmm`used, pmm`hint, pmm`owned, pmm.bitmap
      ensures Valid() && Descend(mem, cr3, p + [index]).Node? && SamePages(old(mem), mem, roots)
      ensures old(Descend(mem, cr3, p + [index])).Node? ==> mem == old(mem) && pmm.used == old(pmm.used)
      ensures old(Descend(mem, cr3, p + [index])).NoNode? ==>
        pmm.used == old(pmm.used) + 1 && (|p| < 2 ==> Childless(mem, cr3, p + [index]))
      ensures Grows(old(owner), owner, old(pmm.HeldFrames()), pmm.HeldFrames()) && DataKept(old(mem), mem, owner)
    {
      hide Coherent; hide Descend; hide TableVirt; hide HardwareWalk; hide Store; hide Open; hide Hung; hide Empty;
      hide SamePages; hide Key; hide Present; hide Large; hide GoodPath; hide PhysicalMemoryManager.Valid;
      hide PhysicalMemoryManager.HeldFrames;
      SlotBounds(p, index);
      SelfEntry(mem, roots, owner, cr3);
      TableVirtReaches(mem, cr3, p, index);
      DescendStep(mem, cr3, p, index);
      var e := ReadVirt(parentVirt + 8 * index);
      if Present(e) {
        if Large(e) {
          LargeAtTwo(mem, roots, owner, cr3, p, index);
          SplitHugePage(parentVirt, index, childVirt, hugeSize, p);
        } else {
          PagesRefl(mem, roots);
        }
      } else {
        var c := HangTable(parentVirt, index, p);
        ZeroPage(childVirt, old(mem), p, index, c);
        HungCoherent(old(mem), roots, owner, cr3, p, index, c, mem);
        HungReaches(old(mem), roots, owner, cr3, p, index, c, mem);
        EmptyTablePages(old(mem), roots, owner, cr3, p, index, c, mem);
        EmptyChildless(mem, cr3, p + [index], c);
        HungOpen(old(mem), roots, owner, cr3, p, index, c, mem);
        HungData(old(mem), roots, owner, cr3, p, index, c, mem);
        owner := owner[c := Key(cr3, p + [index])];
      }
    }

    /** The three calls of ensureTable at the head of mapPage. */
    method EnsurePath(idx4: nat, idx3: nat, idx2: nat, ghost va: nat)
      requires Valid() && idx4 == Index4(va) && idx3 == Index3(va) && idx2 == Index2(va) && idx4 != RECURSIVE
      requires pmm.used + TablesNeeded(mem, cr3, va) <= pmm.total
      modifies this`mem, this`owner, pmm`used, pmm`hint, pmm`owned, pmm.bitmap
      ensures Valid() && Descend(mem, cr3, PathOf(va)).Node? && SamePages(old(mem), mem, roots)
      ensures pmm.used == old(pmm.used) + old(TablesNeeded(mem, cr3, va))
      ensures Grows(old(owner), owner, old(pmm.HeldFrames()), pmm.HeldFrames()) && DataKept(old(mem), mem, owner)
    {
      hide Coherent; hide Open; hide Descend; hide TableVirt; hide SamePages; hide GoodPath; hide Index4;
      hide Index3; hide Index2; hide Index1; hide DataKept; hide PhysicalMemoryManager.Valid;
      hide PhysicalMemoryManager.HeldFrames;
      AddressGood(va);
      Paths(idx4, idx3, idx2);
      DescendRoot(mem, cr3);
      EnsureTable(TableVirt([]), idx4, TableVirt([idx4]), 0, []);
      ghost var m1, o1, h1 := mem, owner, pmm.HeldFrames();
      EnsureTable(TableVirt([idx4]), idx3, TableVirt([idx4, idx3]), HUGE_1GB, [idx4]);
      PagesTrans(old(mem), m1, mem, roots);
      DataTrans(old(mem), m1, mem, o1, owner, h1, pmm.HeldFrames());
      ghost var m2, o2, h2 := mem, owner, pmm.HeldFrames();
      EnsureTable(TableVirt([idx4, idx3]), idx2, TableVirt([idx4, idx3, idx2]), HUGE_2MB, [idx4, idx3]);
      PagesTrans(old(mem), m2, mem, roots);
      DataTrans(old(mem), m2, mem, o2, owner, h2, pmm.HeldFrames());
    }

    /** mapPage: va translates to the frame of pa, and nothing else changes in any space. */
    method MapPage(va: nat, pa: nat, flags: bv12)
      requires Valid() && Index4(va) != RECURSIVE && pmm.used + TablesNeeded(mem, cr3, va) <= pmm.total
      modifies this`mem, this`owner, pmm`used, pmm`hint, pmm`owned, pmm.bitmap
      ensures Valid() && Mapped(old(mem), mem, roots, cr3, va, Entry(pa / PAGE, flags | PRESENT))
      ensures Descend(mem, cr3, PathOf(va)).Node?
      ensures !KernelSlot(Index4(va)) ==>
        HardwareWalk(mem, cr3, va) == Page(pa / PAGE, (flags | PRESENT) & RIGHTS, flags & CACHE)
      ensures pmm.used == old(pmm.used) + old(TablesNeeded(mem, cr3, va))
      ensures Grows(old(owner), owner, old(pmm.HeldFrames()), pmm.HeldFrames()) && DataKept(old(mem), mem, owner)
    {
      hide Coherent; hide Open; hide Descend; hide TableVirt; hide SamePages; hide GoodPath; hide Index4;
      hide Index3; hide Index2; hide Index1; hide OnePageChanged; hide Mapped; hide HardwareWalk; hide Store;
      hide DataKept; hide GoodPage; hide TablesNeeded; hide Grows; hide PhysicalMemoryManager.Valid;
      hide PhysicalMemoryManager.HeldFrames;
      MaskedIndices(va);
      var v, pp := va / PAGE * PAGE, pa / PAGE * PAGE;
      var idx4, idx3, idx2, idx1 := Index4(v), Index3(v), Index2(v), Index1(v);
      EnsurePath(idx4, idx3, idx2, va);
      ghost var m := mem;
      AddressGood(va);
      Bounds3(va);
      SelfEntry(mem, roots, owner, cr3);
      TableVirtReaches(mem, cr3, PathOf(va), idx1);
      WriteVirt(TableVirt([idx4, idx3, idx2]) + 8 * idx1, Entry(pp / PAGE, flags | PRESENT));
      LeafStored(old(mem), m, roots, old(owner), owner, cr3, va, Entry(pa / PAGE, flags | PRESENT));
      StoredData(old(mem), m, roots, owner, cr3, PathOf(va), idx1, Entry(pa / PAGE, flags | PRESENT));
      MappedPage(old(mem), mem, roots, owner, cr3, va, pa / PAGE, flags);
    }

    /** unmapPage: va translates to nothing and nothing else changes, exactly outside large pages. Inside one it stores
        into that page instead. */
    method UnmapPage(va: nat)
      requires Valid() && Index4(va) != RECURSIVE
      modifies this`mem
      ensures Mapped(old(mem), mem, roots, cr3, va, Entry(0, 0)) <==> !InLargePage(old(mem), cr3, va)
      ensures !InLargePage(old(mem), cr3, va) ==> Valid() && DataKept(old(mem), mem, owner)
      ensures InLargePage(old(mem), cr3, va) ==>
        mem == Store(old(mem), LargeBase(old(mem), cr3, va), Index1(va), Entry(0, 0))
    {
      hide Coherent; hide Open; hide Descend; hide TableVirt; hide GoodPath; hide Index4; hide Index3; hide Index2;
      hide Index1; hide Mapped; hide HardwareWalk; hide Store; hide GoodPage; hide Present; hide Large;
      hide PhysicalMemoryManager.Valid; hide PhysicalMemoryManager.HeldFrames;
      MaskedIndices(va);
      var v := va / PAGE * PAGE;
      var idx4, idx3, idx2, idx1 := Index4(v), Index3(v), Index2(v), Index1(v);
      AddressGood(va);
      Bounds3(va);
      SelfEntry(mem, roots, owner, cr3);
      DescendRoot(mem, cr3);
      Descend1(mem, cr3, idx4);
      Descend2(mem, cr3, idx4, idx3);
      Descend3(mem, cr3, idx4, idx3, idx2);
      TableVirtReaches(mem, cr3, [], idx4);
      var e4 := ReadVirt(TableVirt([]) + 8 * idx4);
      if !Present(e4) { NothingThere(mem, roots, owner, cr3, va); return; }
      NotLarge(mem, roots, owner, cr3, idx4);
      TableVirtReaches(mem, cr3, [idx4], idx3);
      var e3 := ReadVirt(TableVirt([idx4]) + 8 * idx3);
      if !Present(e3) { NothingThere(mem, roots, owner, cr3, va); return; }
      TableVirtReaches(mem, cr3, [idx4, idx3], idx2);
      var e2 := ReadVirt(TableVirt([idx4, idx3]) + 8 * idx2);
      if !Present(e2) { NothingThere(mem, roots, owner, cr3, va); return; }
      EntryReaches(mem, roots, owner, cr3, va);
      WriteVirt(TableVirt([idx4, idx3, idx2]) + 8 * idx1, Entry(0, 0));
      if !Large(e2) {
        PagesRefl(old(mem), roots);
        LeafStored(old(mem), old(mem), roots, owner, owner, cr3, va, Entry(0, 0));
        StoredData(old(mem), old(mem), roots, owner, cr3, PathOf(va), idx1, Entry(0, 0));
      } else {
        LargeNotUnmapped(old(mem), roots, cr3, va);
      }
    }

    /** allocAndMapPage: c is the frame taken, when there is one. */
    method AllocAndMapPage(va: nat, flags: bv12) returns (ok: bool, ghost c: nat)
      requires Valid() && Index4(va) != RECURSIVE
      requires (pmm.used == pmm.total || pmm.used + 1 + TablesNeeded(mem, cr3, va) <= pmm.total)
      modifies this`mem, this`owner, pmm`used, pmm`hint, pmm`owned, pmm.bitmap
      ensures Valid() && (ok <==> old(pmm.used) < pmm.total)
      ensures !ok ==> mem == old(mem) && pmm.used == old(pmm.used)
      ensures ok ==> c !in old(pmm.HeldFrames()) && c in pmm.HeldFrames() && c !in owner
      ensures ok ==> Mapped(old(mem), mem, roots, cr3, va, Entry(c, flags | PRESENT)) && DataKept(old(mem), mem, owner)
      ensures ok ==> pmm.used == old(pmm.used) + 1 + old(TablesNeeded(mem, cr3, va))
    {
      hide Coherent; hide Open; hide Descend; hide Index4; hide TablesNeeded; hide Mapped;
      hide PhysicalMemoryManager.Valid; hide PhysicalMemoryManager.HeldFrames;
      var frame := pmm.AllocFrame();
      c := 0;
      if frame == NO_FRAME { return false, c; }
      c := frame / PAGE;
      MapPage(va, frame, flags);
      ok := true;
    }

    /** switchAddressSpace, to a space that createAddressSpace returned or that boot left. */
    method SwitchAddressSpace(phys: nat)
      requires Valid() && phys / PAGE in roots
      modifies this`cr3
      ensures Valid() && cr3 == phys / PAGE
    {
      cr3 := phys / PAGE;
    }

    /** A store into the frame that is mapped at the scratch address. */
    method WriteScratch(k: nat, e: Entry, ghost base: Memory, ghost c: nat)
      requires Coherent(base, roots, owner) && cr3 in roots && c !in owner && Beside(base, mem, c) && k < ENTRIES
      requires HardwareWalk(base, cr3, SCRATCH).Page? && HardwareWalk(base, cr3, SCRATCH).frame == c
      modifies this`mem
      ensures Beside(base, mem, c) && forall j :: Load(mem, c, j) == if j == k then e else Load(old(mem), c, j)
    {
      hide Coherent; hide HardwareWalk; hide Store;
      ScratchReaches(base, mem, roots, owner, cr3, c, k);
      WriteVirt(SCRATCH + 8 * k, e);
    }

    /** The loop that clears the new top-level table. */
    method ZeroScratch(ghost base: Memory, ghost c: nat)
      requires Coherent(base, roots, owner) && cr3 in roots && c !in owner && Beside(base, mem, c)
      requires HardwareWalk(base, cr3, SCRATCH).Page? && HardwareWalk(base, cr3, SCRATCH).frame == c
      modifies this`mem
      ensures Beside(base, mem, c) && Empty(mem, c)
    {
      hide Coherent; hide HardwareWalk; hide Beside;
      var k := 0;
      while k < ENTRIES
        invariant k <= ENTRIES && Beside(base, mem, c) && forall j :: 0 <= j < k ==> Load(mem, c, j) == Entry(0, 0)
      {
        WriteScratch(k, Entry(0, 0), base, c);
        k := k + 1;
      }
    }

    /** The three entries of the new table: slots 0 and 511 of the current one, and itself in slot 510. */
    method FillScratch(phys: nat, ghost base: Memory)
      requires Coherent(base, roots, owner) && cr3 in roots && phys / PAGE !in owner && Beside(base, mem, phys / PAGE)
      requires Empty(mem, phys / PAGE)
      requires HardwareWalk(base, cr3, SCRATCH).Page? && HardwareWalk(base, cr3, SCRATCH).frame == phys / PAGE
      modifies this`mem
      ensures Forked(base, mem, cr3, phys / PAGE)
    {
      hide Coherent; hide HardwareWalk; hide Beside; hide TableVirt;
      CurrentReaches(base, mem, roots, owner, cr3, phys / PAGE, 0);
      var e0 := ReadVirt(TableVirt([]) + 8 * 0);
      WriteScratch(0, e0, base, phys / PAGE);
      WriteScratch(RECURSIVE, Entry(phys / PAGE, PRESENT | WRITABLE), base, phys / PAGE);
      CurrentReaches(base, mem, roots, owner, cr3, phys / PAGE, 511);
      var e511 := ReadVirt(TableVirt([]) + 8 * 511);
      WriteScratch(511, e511, base, phys / PAGE);
    }

    /** createAddressSpace: a space with the kernel's pages and no others; existing spaces lose only the scratch
        page. */
    method CreateAddressSpace() returns (phys: nat)
      requires Valid() && (pmm.used == pmm.total || pmm.used + 1 + TablesNeeded(mem, cr3, SCRATCH) <= pmm.total)
      modifies this`mem, this`owner, this`roots, pmm`used, pmm`hint, pmm`owned, pmm.bitmap
      ensures Valid()
      ensures old(pmm.used) == pmm.total ==>
        phys == 0 && mem == old(mem) && roots == old(roots) && pmm.used == old(pmm.used)
      ensures old(pmm.used) < pmm.total ==> phys / PAGE !in old(pmm.HeldFrames()) && roots == old(roots) + {phys / PAGE}
      ensures old(pmm.used) < pmm.total ==> Spawned(old(mem), mem, old(roots), cr3, phys / PAGE)
      ensures Grows(old(owner), owner, old(pmm.HeldFrames()), pmm.HeldFrames()) && DataKept(old(mem), mem, owner)
      ensures old(pmm.used) < pmm.total ==> pmm.used == old(pmm.used) + 1 + old(TablesNeeded(mem, cr3, SCRATCH))
    {
      hide Coherent; hide Open; hide Descend; hide Index4; hide Index3; hide Index2; hide Index1; hide TablesNeeded;
      hide Mapped; hide HardwareWalk; hide Forked; hide Empty; hide Spawned; hide InLargePage; hide Store;
      hide PhysicalMemoryManager.Valid; hide PhysicalMemoryManager.HeldFrames;
      phys := pmm.AllocFrame();
      if phys == NO_FRAME { return 0; }
      ghost var c := phys / PAGE;
      ScratchIndices(0);
      MapPage(SCRATCH, phys, WRITABLE);
      assert c !in owner;
      ghost var m, o := mem, owner;
      ScratchMapped(old(mem), m, roots, cr3, c);
      ZeroScratch(m, c);
      FillScratch(phys, m);
      ghost var m' := mem;
      ForkedCoherent(m, roots, o, cr3, c, m');
      ForkedOpen(m, roots, o, cr3, c, m');
      ScratchTable(m, roots, o, cr3, c, m');
      roots, owner := roots + {c}, owner[c := User(c, [])];
      assert Valid();
      ForkedData(old(mem), m, m', o, cr3, c);
      UnmapPage(SCRATCH);
      ForkedSpawns(old(mem), m, m', mem, old(roots), old(owner), o, cr3, c);
    }
  }
}
