/** Which table frame serves which part of which address space. All spaces share the tables below
    slots 0 and 511 of the top level; boot also hangs one page directory under two paths. */
module AddressSpaces {
  import opened Paging

  /** The tables of a path: shared by all spaces below a kernel slot, private to one otherwise. */
  datatype Id = Kernel(path: Path) | User(root: nat, path: Path)

  predicate KernelSlot(i: nat) { i == 0 || i == 511 }

  /** Boot's page directory is reached by 511, 510 and by 0, 0. */
  function Canon(path: Path): (p: Path)
    ensures |p| == |path|
  {
    if |path| >= 2 && path[0] == 511 && path[1] == 510 then [0, 0] + path[2..] else path
  }

  function Key(root: nat, path: Path): Id {
    if path != [] && KernelSlot(path[0]) then Kernel(Canon(path)) else User(root, path)
  }

  ghost predicate GoodPath(path: Path) {
    |path| <= 3 && (forall k :: 0 <= k < |path| ==> path[k] < ENTRIES) && (path != [] ==> path[0] != RECURSIVE)
  }

  /** Every table reached along a path serves that path, so no table serves two. */
  ghost predicate OwnersOk(mem: Memory, roots: set<nat>, owner: map<nat, Id>) {
    forall r, path :: r in roots && GoodPath(path) && Descend(mem, r, path).Node? ==>
      Descend(mem, r, path).frame in owner && owner[Descend(mem, r, path).frame] == Key(r, path)
  }

  /** All spaces hold the same entries in the kernel slots. */
  ghost predicate KernelShared(mem: Memory, roots: set<nat>) {
    forall r, s :: r in roots && s in roots ==>
      Load(mem, r, 0) == Load(mem, s, 0) && Load(mem, r, 511) == Load(mem, s, 511)
  }

  /** The kernel slots are filled, and the doubly hung directory hangs where boot put it. */
  ghost predicate Anchored(mem: Memory, r: nat) {
    && Descend(mem, r, [0, 0]).Node? && Descend(mem, r, [511, 510]).Node?
    && Descend(mem, r, [0, 0]).frame == Descend(mem, r, [511, 510]).frame
  }

  /** Large pages are 2 MB aligned. */
  ghost predicate LargeAligned(mem: Memory, r: nat) {
    forall i4, i3, i2 :: GoodPath([i4, i3]) && 0 <= i2 < ENTRIES && Descend(mem, r, [i4, i3]).Node? ==>
      AlignedEntry(Load(mem, Descend(mem, r, [i4, i3]).frame, i2))
  }

  predicate AlignedEntry(e: Entry) {
    Present(e) && Large(e) ==> e.frame % 512 == 0
  }

  ghost predicate Coherent(mem: Memory, roots: set<nat>, owner: map<nat, Id>) {
    && (forall r :: r in roots ==> SelfMapped(mem, r) && NoLarge(mem, r) && Anchored(mem, r) && LargeAligned(mem, r))
    && OwnersOk(mem, roots, owner) && KernelShared(mem, roots)
  }

  // ---------- keys ----------

  lemma KeyShorter(root: nat, p: Path, i: nat, root': nat, p': Path, i': nat)
    requires Key(root, p + [i]) == Key(root', p' + [i'])
    requires Canon(p + [i]) != [0, 0]
    ensures i == i' && |p| == |p'|
    ensures p != [] ==> Key(root, p) == Key(root', p')
    ensures p == [] ==> root == root' || KernelSlot(i)
  {
    var q, q' := p + [i], p' + [i'];
    assert |q| == |q'|;
    assert q[|p|] == i && q'[|p|] == i';
    if p == [] {
      assert q == [i] && q' == [i'];
    } else {
      assert q[0] == p[0] && q'[0] == p'[0];
      assert q[..|p|] == p && q'[..|p|] == p';
      CanonPrefix(p, i);
      CanonPrefix(p', i');
    }
  }

  lemma CanonPrefix(p: Path, i: nat)
    requires p != []
    ensures |p| >= 2 ==> Canon(p + [i]) == Canon(p) + [i]
    ensures |p| == 1 && Canon(p + [i]) != [0, 0] ==> Canon(p + [i]) == p + [i]
  {
    var q := p + [i];
    assert |p| >= 2 ==> q[0] == p[0] && q[1] == p[1] && q[2..] == p[2..] + [i];
    if |p| == 1 && q[0] == 511 && q[1] == 510 {
      assert q[2..] == [];
    }
  }

  lemma KeyLonger(root: nat, p: Path, root': nat, p': Path, i: nat)
    requires Key(root, p) == Key(root', p')
    ensures Key(root, p + [i]) == Key(root', p' + [i])
  {
    if p == [] {
      assert p + [i] == p' + [i];
    } else {
      assert (p + [i])[0] == p[0] && (p' + [i])[0] == p'[0];
      if KernelSlot(p[0]) { CanonLonger(p, p', i); }
    }
  }

  lemma CanonLonger(p: Path, p': Path, i: nat)
    requires p != [] && KernelSlot(p[0]) && p' != [] && KernelSlot(p'[0]) && Canon(p) == Canon(p')
    ensures Canon(p + [i]) == Canon(p' + [i])
  {
    if |p| >= 2 {
      CanonPrefix(p, i);
      CanonPrefix(p', i);
    } else {
      assert p == p';
    }
  }

  lemma Split(path: Path)
    requires path != [] && GoodPath(path)
    ensures var q, i := path[..|path| - 1], path[|path| - 1]; path == q + [i] && GoodPath(q) && i < ENTRIES
  {
  }

  /** Two nodes lead to the same table. */
  predicate SameTable(a: Node, b: Node) {
    a.Node? == b.Node? && (a.Node? ==> a.frame == b.frame)
  }

  /** One path for one key: paths with the same key lead to the same table, in every space. */
  lemma {:induction false} SameKeySameTable(mem: Memory, roots: set<nat>, owner: map<nat, Id>, r: nat, p: Path, r': nat,
                                            p': Path)
    requires Coherent(mem, roots, owner) && r in roots && r' in roots && GoodPath(p) && GoodPath(p')
    requires Key(r, p) == Key(r', p')
    ensures SameTable(Descend(mem, r, p), Descend(mem, r', p'))
    decreases |p|
  {
    hide Descend; hide Coherent; hide Canon; hide Key; hide GoodPath;
    KeyLength(r, p, r', p');
    if Twin(p) {
      TwinKey(r, p, r', p');
      AnchorsAgree(mem, roots, owner, r, r');
    } else if p != [] {
      Split(p);
      Split(p');
      var q, i, q', i' := p[..|p| - 1], p[|p| - 1], p'[..|p'| - 1], p'[|p'| - 1];
      if |p| == 1 {
        OneIndex(mem, roots, owner, r, i, r', i');
      } else {
        TwinKey(r, p, r', p');
        KeyShorter(r, q, i, r', q', i');
        SameKeySameTable(mem, roots, owner, r, q, r', q');
        DescendStep(mem, r, q, i);
        DescendStep(mem, r', q', i');
      }
    } else {
      SameRoot(r, r');
    }
  }

  lemma SameRoot(r: nat, r': nat)
    ensures Key(r, []) == Key(r', []) ==> r == r'
  {
  }

  predicate Twin(p: Path) { p == [0, 0] || p == [511, 510] }

  lemma TwinKey(r: nat, p: Path, r': nat, p': Path)
    requires Key(r, p) == Key(r', p')
    ensures Twin(p) <==> Canon(p) == [0, 0]
    ensures Twin(p) <==> Twin(p')
  {
    if Canon(p) == [0, 0] { TwinPaths(p); }
    if Canon(p') == [0, 0] { TwinPaths(p'); }
    assert Canon([0, 0]) == [0, 0] && Canon([511, 510]) == [0, 0];
  }

  lemma OneIndex(mem: Memory, roots: set<nat>, owner: map<nat, Id>, r: nat, i: nat, r': nat, i': nat)
    requires Coherent(mem, roots, owner) && r in roots && r' in roots && Key(r, [i]) == Key(r', [i'])
    ensures SameTable(Descend(mem, r, [i]), Descend(mem, r', [i']))
  {
    hide Descend; hide NoLarge; hide LargeAligned; hide OwnersOk; hide SelfMapped; hide Anchored;
    Descend1(mem, r, i);
    Descend1(mem, r', i');
  }

  lemma TwinPaths(p: Path)
    requires Canon(p) == [0, 0]
    ensures Twin(p)
  {
    if |p| >= 2 && p[0] == 511 && p[1] == 510 {
      assert p == [511, 510];
    }
  }

  lemma AnchorsAgree(mem: Memory, roots: set<nat>, owner: map<nat, Id>, r: nat, r': nat)
    requires Coherent(mem, roots, owner) && r in roots && r' in roots
    ensures forall p, p' :: Twin(p) && Twin(p') ==>
      SameTable(Descend(mem, r, p), Descend(mem, r', p'))
  {
    hide Descend; hide NoLarge; hide LargeAligned; hide OwnersOk; hide SelfMapped;
    Descend1(mem, r, 0);
    Descend1(mem, r', 0);
    Descend2(mem, r, 0, 0);
    Descend2(mem, r', 0, 0);
    assert Anchored(mem, r) && Anchored(mem, r');
  }

  // ---------- hanging a new table into an empty slot ----------

  const LINK: bv12 := 7

  /** The slot of the table of p, in space r0, that holds no table yet. */
  ghost predicate FreeSlot(mem: Memory, roots: set<nat>, r0: nat, p: Path, i: nat) {
    && r0 in roots && |p| <= 2 && GoodPath(p) && GoodPath(p + [i])
    && Descend(mem, r0, p).Node? && !Link(Load(mem, Descend(mem, r0, p).frame, i))
  }

  /** Slot i of frame f now links to frame c, whose contents are new; all other frames are as before. */
  ghost predicate Hung(mem: Memory, mem': Memory, f: nat, i: nat, c: nat) {
    && Load(mem', f, i) == Entry(c, LINK) && f != c
    && (forall g, j :: g != c && !(g == f && j == i) ==> Load(mem', g, j) == Load(mem, g, j))
  }

  ghost predicate Empty(mem: Memory, c: nat) {
    forall j :: 0 <= j < ENTRIES ==> Load(mem, c, j) == Entry(0, 0)
  }

  lemma KernelSlotsLinked(mem: Memory, roots: set<nat>, owner: map<nat, Id>, r: nat, i: nat)
    requires Coherent(mem, roots, owner) && r in roots && KernelSlot(i)
    ensures Link(Load(mem, r, i))
  {
    hide Descend; hide NoLarge; hide LargeAligned; hide OwnersOk; hide SelfMapped;
    assert Anchored(mem, r);
    Descend1(mem, r, 0);
    Descend2(mem, r, 0, 0);
    Descend1(mem, r, 511);
    Descend2(mem, r, 511, 510);
  }

  /** A free slot is never one of boot's twin slots, nor a kernel slot of the top level. */
  lemma FreeSlotKey(mem: Memory, roots: set<nat>, owner: map<nat, Id>, r0: nat, p: Path, i: nat)
    requires Coherent(mem, roots, owner) && FreeSlot(mem, roots, r0, p, i)
    ensures Descend(mem, r0, p + [i]) == NoNode
    ensures Canon(p + [i]) != [0, 0] && (p == [] ==> !KernelSlot(i))
  {
    hide NoLarge; hide LargeAligned; hide OwnersOk; hide SelfMapped; hide Descend;
    DescendStep(mem, r0, p, i);
    assert Anchored(mem, r0);
    if Canon(p + [i]) == [0, 0] { TwinPaths(p + [i]); }
    if p == [] && KernelSlot(i) {
      DescendRoot(mem, r0);
      KernelSlotsLinked(mem, roots, owner, r0, i);
    }
  }

  /** Keys tell slots apart: a slot with the key of the free slot is that slot. */
  lemma SlotOfKey(mem: Memory, roots: set<nat>, owner: map<nat, Id>, r0: nat, p: Path, i: nat, r: nat, q: Path, j: nat)
    requires Coherent(mem, roots, owner) && FreeSlot(mem, roots, r0, p, i)
    requires r in roots && GoodPath(q) && Key(r, q + [j]) == Key(r0, p + [i])
    ensures j == i && |q| == |p| && SameTable(Descend(mem, r, q), Descend(mem, r0, p))
  {
    hide Coherent; hide Descend; hide Canon;
    FreeSlotKey(mem, roots, owner, r0, p, i);
    KeyShorter(r0, p, i, r, q, j);
    if p != [] {
      SameKeySameTable(mem, roots, owner, r, q, r0, p);
    } else {
      assert q == [];
    }
  }

  lemma OwnerOf(mem: Memory, roots: set<nat>, owner: map<nat, Id>, r: nat, path: Path)
    requires Coherent(mem, roots, owner) && r in roots && GoodPath(path) && Descend(mem, r, path).Node?
    ensures Descend(mem, r, path).frame in owner && owner[Descend(mem, r, path).frame] == Key(r, path)
  {
    hide Descend; hide NoLarge; hide LargeAligned; hide SelfMapped; hide Anchored;
  }

  /** After a table is hung, the paths of its key lead to it and all others lead where they did. */
  lemma {:induction false} HungDescend(mem: Memory, roots: set<nat>, owner: map<nat, Id>, r0: nat, p: Path, i: nat,
                                       c: nat, mem': Memory, r: nat, path: Path)
    requires Coherent(mem, roots, owner) && FreeSlot(mem, roots, r0, p, i) && c !in owner
    requires Hung(mem, mem', Descend(mem, r0, p).frame, i, c) && (|p| < 2 ==> Empty(mem', c))
    requires r in roots && GoodPath(path)
    ensures Key(r, path) != Key(r0, p + [i]) ==> Descend(mem', r, path) == Descend(mem, r, path)
    ensures Key(r, path) == Key(r0, p + [i]) ==>
      path != [] && Descend(mem, r, path) == NoNode && Descend(mem, r, path[..|path| - 1]).Node?
    ensures Key(r, path) == Key(r0, p + [i]) ==>
      Descend(mem', r, path) == Node(c, Descend(mem, r, path[..|path| - 1]).flags & LINK)
    decreases |path|
  {
    hide Descend; hide Coherent; hide Canon; hide Key;
    var t, f0 := Key(r0, p + [i]), Descend(mem, r0, p).frame;
    KeyLength(r, path, r0, p + [i]);
    if path == [] {
      DescendRoot(mem, r);
      DescendRoot(mem', r);
    } else {
      Split(path);
      var q, j := path[..|path| - 1], path[|path| - 1];
      HungDescend(mem, roots, owner, r0, p, i, c, mem', r, q);
      DescendStep(mem, r, q, j);
      DescendStep(mem', r, q, j);
      if Key(r, q) == t {
        KeyLength(r, q, r0, p + [i]);
        assert Load(mem', c, j) == Entry(0, 0);
      } else if Key(r, path) == t {
        SlotOfKey(mem, roots, owner, r0, p, i, r, q, j);
        FreeSlotEmpty(mem, roots, r0, p, i);
      } else if Descend(mem, r, q).Node? {
        OwnerOf(mem, roots, owner, r, q);
        if Descend(mem, r, q).frame == f0 && j == i {
          OwnerOf(mem, roots, owner, r0, p);
          KeyLonger(r, q, r0, p, i);
        }
      }
    }
  }

  lemma FreeSlotEmpty(mem: Memory, roots: set<nat>, r0: nat, p: Path, i: nat)
    requires FreeSlot(mem, roots, r0, p, i)
    ensures !Link(Load(mem, Descend(mem, r0, p).frame, i)) && Descend(mem, r0, p).Node?
  {
  }

  lemma KeyLength(r: nat, p: Path, r': nat, p': Path)
    ensures Key(r, p) == Key(r', p') ==> |p| == |p'|
  {
  }

  /** Tables above the slot are not disturbed by it. */
  lemma {:induction false} AboveSlot(mem: Memory, roots: set<nat>, owner: map<nat, Id>, r0: nat, p: Path, i: nat,
                                     c: nat, mem': Memory, r: nat, path: Path)
    requires Coherent(mem, roots, owner) && FreeSlot(mem, roots, r0, p, i) && c !in owner
    requires Hung(mem, mem', Descend(mem, r0, p).frame, i, c)
    requires r in roots && GoodPath(path) && |path| <= |p|
    ensures Descend(mem', r, path) == Descend(mem, r, path)
    decreases |path|
  {
    hide Descend; hide Coherent; hide Canon; hide Key;
    if path == [] {
      DescendRoot(mem, r);
      DescendRoot(mem', r);
    } else {
      Split(path);
      var q, j := path[..|path| - 1], path[|path| - 1];
      AboveSlot(mem, roots, owner, r0, p, i, c, mem', r, q);
      DescendStep(mem, r, q, j);
      DescendStep(mem', r, q, j);
      if Descend(mem, r, q).Node? {
        OwnerOf(mem, roots, owner, r, q);
        OwnerOf(mem, roots, owner, r0, p);
        KeyLength(r, q, r0, p);
      }
    }
  }

  /** A top-level table is touched only in the slot, and only when the slot is in it. */
  lemma RootEntries(mem: Memory, roots: set<nat>, owner: map<nat, Id>, r0: nat, p: Path, i: nat, c: nat, mem': Memory,
                    r: nat, j: nat)
    requires Coherent(mem, roots, owner) && FreeSlot(mem, roots, r0, p, i) && c !in owner
    requires Hung(mem, mem', Descend(mem, r0, p).frame, i, c) && r in roots
    ensures r != c
    ensures (Load(mem', r, j) == Load(mem, r, j) ||
            (p == [] && r == r0 && j == i && Load(mem', r, j) == Entry(c, LINK)))
  {
    hide Descend; hide Coherent; hide Canon;
    DescendRoot(mem, r);
    assert GoodPath([]);
    OwnerOf(mem, roots, owner, r, []);
    OwnerOf(mem, roots, owner, r0, p);
    if Descend(mem, r0, p).frame == r {
      KeyLength(r, [], r0, p);
      DescendRoot(mem, r0);
    }
  }

  /** As soon as the link is written, the new table can be addressed through slot 510. */
  lemma HungReaches(mem: Memory, roots: set<nat>, owner: map<nat, Id>, r0: nat, p: Path, i: nat, c: nat, mem': Memory)
    requires Coherent(mem, roots, owner) && FreeSlot(mem, roots, r0, p, i) && c !in owner
    requires Hung(mem, mem', Descend(mem, r0, p).frame, i, c)
    ensures SelfMapped(mem', r0) && Descend(mem', r0, p) == Descend(mem, r0, p)
    ensures Descend(mem', r0, p + [i]).Node? && Descend(mem', r0, p + [i]).frame == c
  {
    hide Descend; hide NoLarge; hide LargeAligned; hide OwnersOk; hide Anchored; hide Canon; hide KernelShared;
    AboveSlot(mem, roots, owner, r0, p, i, c, mem', r0, p);
    DescendStep(mem', r0, p, i);
    RootEntries(mem, roots, owner, r0, p, i, c, mem', r0, RECURSIVE);
    assert p == [] ==> (p + [i])[0] == i;
  }

  // ---------- hanging a table changes no page and keeps coherence ----------

  lemma HungOwners(mem: Memory, roots: set<nat>, owner: map<nat, Id>, r0: nat, p: Path, i: nat, c: nat, mem': Memory)
    requires Coherent(mem, roots, owner) && FreeSlot(mem, roots, r0, p, i) && c !in owner
    requires Hung(mem, mem', Descend(mem, r0, p).frame, i, c) && (|p| < 2 ==> Empty(mem', c))
    ensures OwnersOk(mem', roots, owner[c := Key(r0, p + [i])])
  {
    hide Descend; hide Coherent; hide Canon; hide Key;
    var owner' := owner[c := Key(r0, p + [i])];
    forall r, path | r in roots && GoodPath(path) && Descend(mem', r, path).Node?
      ensures Descend(mem', r, path).frame in owner' && owner'[Descend(mem', r, path).frame] == Key(r, path)
    {
      HungDescend(mem, roots, owner, r0, p, i, c, mem', r, path);
      if Key(r, path) != Key(r0, p + [i]) { OwnerOf(mem, roots, owner, r, path); }
    }
  }

  lemma HungRoots(mem: Memory, roots: set<nat>, owner: map<nat, Id>, r0: nat, p: Path, i: nat, c: nat, mem': Memory)
    requires Coherent(mem, roots, owner) && FreeSlot(mem, roots, r0, p, i) && c !in owner
    requires Hung(mem, mem', Descend(mem, r0, p).frame, i, c) && (|p| < 2 ==> Empty(mem', c))
    ensures KernelShared(mem', roots) && forall r :: r in roots ==> SelfMapped(mem', r) && Anchored(mem', r)
  {
    hide Descend; hide NoLarge; hide LargeAligned; hide OwnersOk; hide Canon; hide Key;
    FreeSlotKey(mem, roots, owner, r0, p, i);
    assert p == [] ==> (p + [i])[0] == i;
    forall r | r in roots
      ensures Load(mem', r, RECURSIVE) == Load(mem, r, RECURSIVE) && Load(mem', r, 0) == Load(mem, r, 0)
      ensures Load(mem', r, 511) == Load(mem, r, 511)
      ensures Anchored(mem', r)
    {
      RootEntries(mem, roots, owner, r0, p, i, c, mem', r, RECURSIVE);
      RootEntries(mem, roots, owner, r0, p, i, c, mem', r, 0);
      RootEntries(mem, roots, owner, r0, p, i, c, mem', r, 511);
      assert Anchored(mem, r);
      assert GoodPath([0, 0]) && GoodPath([511, 510]);
      HungDescend(mem, roots, owner, r0, p, i, c, mem', r, [0, 0]);
      HungDescend(mem, roots, owner, r0, p, i, c, mem', r, [511, 510]);
    }
  }

  lemma LinkIsSmall(c: nat)
    ensures Link(Entry(c, LINK)) && !Large(Entry(c, LINK)) && !Large(Entry(0, 0)) && !Present(Entry(0, 0))
  {
  }

  lemma NotLarge(mem: Memory, roots: set<nat>, owner: map<nat, Id>, r: nat, i: nat)
    requires Coherent(mem, roots, owner) && r in roots && i < ENTRIES
    ensures !Large(Load(mem, r, i))
    ensures Present(Load(mem, r, i)) ==> forall j :: 0 <= j < ENTRIES ==> !Large(Load(mem, Load(mem, r, i).frame, j))
  {
    hide Descend; hide LargeAligned; hide OwnersOk; hide SelfMapped; hide Anchored; hide Present; hide Large;
    assert NoLarge(mem, r);
  }

  lemma HungNoLarge(mem: Memory, roots: set<nat>, owner: map<nat, Id>, r0: nat, p: Path, i: nat, c: nat, mem': Memory,
                    r: nat)
    requires Coherent(mem, roots, owner) && FreeSlot(mem, roots, r0, p, i) && c !in owner && r in roots
    requires Hung(mem, mem', Descend(mem, r0, p).frame, i, c) && (|p| < 2 ==> Empty(mem', c))
    ensures NoLarge(mem', r)
  {
    hide Descend; hide Coherent; hide Canon; hide Key; hide Large; hide Present;
    forall k | 0 <= k < ENTRIES ensures !Large(Load(mem', r, k)) {
      LinkIsSmall(c);
      NotLarge(mem, roots, owner, r, k);
      RootEntries(mem, roots, owner, r0, p, i, c, mem', r, k);
    }
    forall k, j | 0 <= k < ENTRIES && 0 <= j < ENTRIES && Present(Load(mem', r, k))
      ensures !Large(Load(mem', Load(mem', r, k).frame, j))
    {
      if k == RECURSIVE {
        HungSelf(mem, roots, owner, r0, p, i, c, mem', r);
      } else {
        SecondLevel(mem, roots, owner, r0, p, i, c, mem', r, k, j);
      }
    }
  }

  lemma HungSelf(mem: Memory, roots: set<nat>, owner: map<nat, Id>, r0: nat, p: Path, i: nat, c: nat, mem': Memory,
                 r: nat)
    requires Coherent(mem, roots, owner) && FreeSlot(mem, roots, r0, p, i) && c !in owner && r in roots
    requires Hung(mem, mem', Descend(mem, r0, p).frame, i, c) && (|p| < 2 ==> Empty(mem', c))
    ensures Load(mem', r, RECURSIVE).frame == r
  {
    hide Descend; hide Coherent; hide Canon; hide Key;
    HungRoots(mem, roots, owner, r0, p, i, c, mem');
  }

  lemma SecondLevel(mem: Memory, roots: set<nat>, owner: map<nat, Id>, r0: nat, p: Path, i: nat, c: nat, mem': Memory,
                    r: nat, k: nat, j: nat)
    requires Coherent(mem, roots, owner) && FreeSlot(mem, roots, r0, p, i) && c !in owner && r in roots
    requires Hung(mem, mem', Descend(mem, r0, p).frame, i, c) && (|p| < 2 ==> Empty(mem', c))
    requires k < ENTRIES && j < ENTRIES && k != RECURSIVE && Present(Load(mem', r, k)) && !Large(Load(mem', r, k))
    ensures !Large(Load(mem', Load(mem', r, k).frame, j))
  {
    hide Descend; hide Coherent; hide Canon; hide Key; hide Large; hide Present;
    assert GoodPath([k]);
    Descend1(mem', r, k);
    Descend1(mem, r, k);
    HungDescend(mem, roots, owner, r0, p, i, c, mem', r, [k]);
    LinkIsSmall(c);
    if Key(r, [k]) == Key(r0, p + [i]) {
      KeyLength(r, [k], r0, p + [i]);
    } else {
      OwnerOf(mem, roots, owner, r, [k]);
      NotLarge(mem, roots, owner, r, k);
    }
  }

  lemma AlignedAt(mem: Memory, roots: set<nat>, owner: map<nat, Id>, r: nat, i4: nat, i3: nat, i2: nat)
    requires Coherent(mem, roots, owner) && r in roots && GoodPath([i4, i3]) && i2 < ENTRIES
    requires Descend(mem, r, [i4, i3]).Node?
    ensures AlignedEntry(Load(mem, Descend(mem, r, [i4, i3]).frame, i2))
  {
    hide Descend; hide NoLarge; hide OwnersOk; hide SelfMapped; hide Anchored; hide AlignedEntry;
    assert LargeAligned(mem, r);
  }

  lemma HungAligned(mem: Memory, roots: set<nat>, owner: map<nat, Id>, r0: nat, p: Path, i: nat, c: nat, mem': Memory,
                    r: nat)
    requires Coherent(mem, roots, owner) && FreeSlot(mem, roots, r0, p, i) && c !in owner && r in roots
    requires Hung(mem, mem', Descend(mem, r0, p).frame, i, c) && (|p| < 2 ==> Empty(mem', c))
    ensures LargeAligned(mem', r)
  {
    hide Descend; hide Coherent; hide Canon; hide Key; hide AlignedEntry;
    LinkAligned(c);
    forall i4, i3, i2 | GoodPath([i4, i3]) && 0 <= i2 < ENTRIES && Descend(mem', r, [i4, i3]).Node?
      ensures AlignedEntry(Load(mem', Descend(mem', r, [i4, i3]).frame, i2))
    {
      HungDescend(mem, roots, owner, r0, p, i, c, mem', r, [i4, i3]);
      if Key(r, [i4, i3]) == Key(r0, p + [i]) {
        KeyLength(r, [i4, i3], r0, p + [i]);
      } else {
        OwnerOf(mem, roots, owner, r, [i4, i3]);
        AlignedAt(mem, roots, owner, r, i4, i3, i2);
      }
    }
  }

  lemma LinkAligned(c: nat)
    ensures AlignedEntry(Entry(c, LINK)) && AlignedEntry(Entry(0, 0))
  {
  }

  lemma HungCoherent(mem: Memory, roots: set<nat>, owner: map<nat, Id>, r0: nat, p: Path, i: nat, c: nat, mem': Memory)
    requires Coherent(mem, roots, owner) && FreeSlot(mem, roots, r0, p, i) && c !in owner
    requires Hung(mem, mem', Descend(mem, r0, p).frame, i, c) && (|p| < 2 ==> Empty(mem', c))
    ensures Coherent(mem', roots, owner[c := Key(r0, p + [i])])
  {
    hide Descend; hide NoLarge; hide LargeAligned; hide OwnersOk; hide SelfMapped; hide Anchored; hide KernelShared;
    hide Hung; hide Key;
    HungOwners(mem, roots, owner, r0, p, i, c, mem');
    HungRoots(mem, roots, owner, r0, p, i, c, mem');
    forall r | r in roots ensures NoLarge(mem', r) && LargeAligned(mem', r) {
      HungNoLarge(mem, roots, owner, r0, p, i, c, mem', r);
      HungAligned(mem, roots, owner, r0, p, i, c, mem', r);
    }
  }

  // ---------- pages ----------

  ghost predicate GoodPage(i4: nat, i3: nat, i2: nat, i1: nat) {
    GoodPath([i4, i3, i2]) && GoodPath([i4, i3]) && i1 < ENTRIES
  }

  ghost predicate SamePages(mem: Memory, mem': Memory, roots: set<nat>) {
    forall r, i4, i3, i2, i1 :: r in roots && GoodPage(i4, i3, i2, i1) ==>
      PageAt(mem', r, i4, i3, i2, i1) == PageAt(mem, r, i4, i3, i2, i1)
  }

  lemma PageElsewhere(mem: Memory, roots: set<nat>, owner: map<nat, Id>, r0: nat, p: Path, i: nat, c: nat, mem': Memory,
                      r: nat, i4: nat, i3: nat, i2: nat, i1: nat)
    requires Coherent(mem, roots, owner) && FreeSlot(mem, roots, r0, p, i) && c !in owner && r in roots
    requires GoodPage(i4, i3, i2, i1)
    requires Hung(mem, mem', Descend(mem, r0, p).frame, i, c) && (|p| < 2 ==> Empty(mem', c))
    requires Key(r, [i4, i3, i2]) != Key(r0, p + [i]) && Key(r, [i4, i3]) != Key(r0, p + [i])
    ensures PageAt(mem', r, i4, i3, i2, i1) == PageAt(mem, r, i4, i3, i2, i1)
  {
    hide Descend; hide Coherent; hide Canon; hide Key; hide Large; hide Present; hide GoodPath;
    assert [i4, i3] + [i2] == [i4, i3, i2];
    HungDescend(mem, roots, owner, r0, p, i, c, mem', r, [i4, i3, i2]);
    HungDescend(mem, roots, owner, r0, p, i, c, mem', r, [i4, i3]);
    OwnerOf(mem, roots, owner, r0, p);
    if Descend(mem, r, [i4, i3, i2]).Node? {
      OwnerOf(mem, roots, owner, r, [i4, i3, i2]);
      KeyLength(r, [i4, i3, i2], r0, p);
    } else if Descend(mem, r, [i4, i3]).Node? {
      OwnerOf(mem, roots, owner, r, [i4, i3]);
      if Descend(mem, r, [i4, i3]).frame == Descend(mem, r0, p).frame && i2 == i {
        KeyLonger(r, [i4, i3], r0, p, i);
      }
    }
  }

  /** The slot seen from a path of three with its key. */
  lemma SlotAt3(mem: Memory, roots: set<nat>, owner: map<nat, Id>, r0: nat, p: Path, i: nat, c: nat, mem': Memory,
                r: nat, i4: nat, i3: nat, i2: nat)
    requires Coherent(mem, roots, owner) && FreeSlot(mem, roots, r0, p, i) && c !in owner && r in roots
    requires GoodPath([i4, i3, i2])
    requires Hung(mem, mem', Descend(mem, r0, p).frame, i, c) && (|p| < 2 ==> Empty(mem', c))
    requires Key(r, [i4, i3, i2]) == Key(r0, p + [i])
    ensures i2 == i && Descend(mem, r, [i4, i3]).Node? && Descend(mem, r, [i4, i3]).frame == Descend(mem, r0, p).frame
    ensures Descend(mem, r, [i4, i3, i2]) == NoNode
    ensures Descend(mem', r, [i4, i3, i2]) == Node(c, Descend(mem, r, [i4, i3]).flags & LINK)
  {
    hide Descend; hide Coherent; hide Canon; hide Key;
    assert [i4, i3] + [i2] == [i4, i3, i2];
    HungDescend(mem, roots, owner, r0, p, i, c, mem', r, [i4, i3, i2]);
    assert [i4, i3, i2][..2] == [i4, i3];
    SlotOfKey(mem, roots, owner, r0, p, i, r, [i4, i3], i2);
  }

  /** An empty table in an empty slot maps nothing, as before. */
  lemma EmptyTablePages(mem: Memory, roots: set<nat>, owner: map<nat, Id>, r0: nat, p: Path, i: nat, c: nat,
                        mem': Memory)
    requires Coherent(mem, roots, owner) && FreeSlot(mem, roots, r0, p, i) && c !in owner
    requires Hung(mem, mem', Descend(mem, r0, p).frame, i, c) && Empty(mem', c)
    requires !Present(Load(mem, Descend(mem, r0, p).frame, i))
    ensures SamePages(mem, mem', roots)
  {
    hide Descend; hide Coherent; hide Canon; hide Key; hide Large; hide Present; hide FreeSlot;
    LinkIsSmall(c);
    FreeSlotEmpty(mem, roots, r0, p, i);
    forall r, i4, i3, i2, i1 | r in roots && GoodPage(i4, i3, i2, i1)
      ensures PageAt(mem', r, i4, i3, i2, i1) == PageAt(mem, r, i4, i3, i2, i1)
    {
      if Key(r, [i4, i3, i2]) == Key(r0, p + [i]) {
        SlotAt3(mem, roots, owner, r0, p, i, c, mem', r, i4, i3, i2);
      } else if Key(r, [i4, i3]) == Key(r0, p + [i]) {
        HungDescend(mem, roots, owner, r0, p, i, c, mem', r, [i4, i3]);
        HungDescend(mem, roots, owner, r0, p, i, c, mem', r, [i4, i3, i2]);
        Descend3(mem, r, i4, i3, i2);
        assert [i4, i3, i2][2] == i2;
      } else {
        PageElsewhere(mem, roots, owner, r0, p, i, c, mem', r, i4, i3, i2, i1);
      }
    }
  }

  const KEPT: bv12 := 0x1F

  /** The table c repeats the large page e piece by piece. */
  ghost predicate Pieces(mem: Memory, c: nat, e: Entry) {
    forall j :: 0 <= j < ENTRIES ==> Load(mem, c, j) == Entry(e.frame + j, e.flags & KEPT)
  }

  lemma PieceFlags(a: bv12, b: bv12)
    ensures (a & LINK) & (b & KEPT) & RIGHTS == a & b & RIGHTS
    ensures (b & KEPT) & CACHE == b & CACHE
    ensures (b & KEPT) & PRESENT == b & PRESENT
  {
  }

  /** A 2 MB page split into 512 pages translates every address as before, with the same rights. */
  lemma SplitPages(mem: Memory, roots: set<nat>, owner: map<nat, Id>, r0: nat, p: Path, i: nat, c: nat, mem': Memory)
    requires Coherent(mem, roots, owner) && FreeSlot(mem, roots, r0, p, i) && c !in owner && |p| == 2
    requires Hung(mem, mem', Descend(mem, r0, p).frame, i, c)
    requires var e := Load(mem, Descend(mem, r0, p).frame, i);
      Present(e) && Large(e) && e.frame % 512 == 0 && Pieces(mem', c, e)
    ensures SamePages(mem, mem', roots)
  {
    hide Descend; hide Coherent; hide Canon; hide Key; hide Large; hide FreeSlot;
    FreeSlotEmpty(mem, roots, r0, p, i);
    var e := Load(mem, Descend(mem, r0, p).frame, i);
    forall r, i4, i3, i2, i1 | r in roots && GoodPage(i4, i3, i2, i1)
      ensures PageAt(mem', r, i4, i3, i2, i1) == PageAt(mem, r, i4, i3, i2, i1)
    {
      KeyLength(r, [i4, i3], r0, p + [i]);
      if Key(r, [i4, i3, i2]) == Key(r0, p + [i]) {
        SlotAt3(mem, roots, owner, r0, p, i, c, mem', r, i4, i3, i2);
        PieceFlags(Descend(mem, r, [i4, i3]).flags, e.flags);
        assert Load(mem', c, i1) == Entry(e.frame + i1, e.flags & KEPT);
      } else {
        PageElsewhere(mem, roots, owner, r0, p, i, c, mem', r, i4, i3, i2, i1);
      }
    }
  }

  // ---------- writing one entry of a last-level table ----------

  ghost predicate LeafSlot(mem: Memory, roots: set<nat>, r0: nat, p: Path, i: nat) {
    r0 in roots && |p| == 3 && GoodPath(p) && i < ENTRIES && Descend(mem, r0, p).Node?
  }

  function Store(mem: Memory, f: nat, i: nat, e: Entry): (mem': Memory)
    ensures forall g, j :: Load(mem', g, j) == if g == f && j == i then e else Load(mem, g, j)
  {
    mem[Word(f, i) := e]
  }

  lemma {:induction false} LeafDescend(mem: Memory, roots: set<nat>, owner: map<nat, Id>, r0: nat, p: Path, i: nat,
                                       e: Entry, r: nat, path: Path)
    requires Coherent(mem, roots, owner) && LeafSlot(mem, roots, r0, p, i) && r in roots && GoodPath(path)
    ensures Descend(Store(mem, Descend(mem, r0, p).frame, i, e), r, path) == Descend(mem, r, path)
    decreases |path|
  {
    hide Descend; hide Coherent; hide Canon; hide Key; hide Store;
    var mem' := Store(mem, Descend(mem, r0, p).frame, i, e);
    if path == [] {
      DescendRoot(mem, r);
      DescendRoot(mem', r);
    } else {
      Split(path);
      var q, j := path[..|path| - 1], path[|path| - 1];
      LeafDescend(mem, roots, owner, r0, p, i, e, r, q);
      DescendStep(mem, r, q, j);
      DescendStep(mem', r, q, j);
      if Descend(mem, r, q).Node? { LeafFrame(mem, roots, owner, r0, p, i, r, q); }
    }
  }

  /** The frame of a last-level table serves at no higher level. */
  lemma LeafFrame(mem: Memory, roots: set<nat>, owner: map<nat, Id>, r0: nat, p: Path, i: nat, r: nat, q: Path)
    requires Coherent(mem, roots, owner) && LeafSlot(mem, roots, r0, p, i) && r in roots && GoodPath(q) && |q| <= 2
    requires Descend(mem, r, q).Node?
    ensures Descend(mem, r, q).frame != Descend(mem, r0, p).frame
  {
    hide Descend; hide Coherent; hide Canon; hide Key;
    OwnerOf(mem, roots, owner, r, q);
    OwnerOf(mem, roots, owner, r0, p);
    KeyLength(r, q, r0, p);
  }

  lemma LeafRoots(mem: Memory, roots: set<nat>, owner: map<nat, Id>, r0: nat, p: Path, i: nat, e: Entry, r: nat)
    requires Coherent(mem, roots, owner) && LeafSlot(mem, roots, r0, p, i) && r in roots
    ensures var mem' := Store(mem, Descend(mem, r0, p).frame, i, e); forall j :: Load(mem', r, j) == Load(mem, r, j)
    ensures var mem' := Store(mem, Descend(mem, r0, p).frame, i, e);
      forall k, j :: 0 <= k < ENTRIES && Present(Load(mem, r, k)) ==>
        Load(mem', Load(mem, r, k).frame, j) == Load(mem, Load(mem, r, k).frame, j)
  {
    hide Descend; hide Coherent; hide Canon; hide Key; hide Present; hide Large;
    DescendRoot(mem, r);
    assert GoodPath([]);
    LeafFrame(mem, roots, owner, r0, p, i, r, []);
    forall k | 0 <= k < ENTRIES && Present(Load(mem, r, k)) ensures Load(mem, r, k).frame != Descend(mem, r0, p).frame {
      if k == RECURSIVE {
        SelfEntry(mem, roots, owner, r);
      } else {
        assert GoodPath([k]);
        NotLarge(mem, roots, owner, r, k);
        Descend1(mem, r, k);
        LeafFrame(mem, roots, owner, r0, p, i, r, [k]);
      }
    }
  }

  lemma SelfEntry(mem: Memory, roots: set<nat>, owner: map<nat, Id>, r: nat)
    requires Coherent(mem, roots, owner) && r in roots
    ensures Load(mem, r, RECURSIVE).frame == r && SelfMapped(mem, r) && NoLarge(mem, r)
  {
    hide Descend; hide NoLarge; hide LargeAligned; hide OwnersOk; hide Anchored;
  }

  lemma LeafCoherent(mem: Memory, roots: set<nat>, owner: map<nat, Id>, r0: nat, p: Path, i: nat, e: Entry)
    requires Coherent(mem, roots, owner) && LeafSlot(mem, roots, r0, p, i)
    ensures Coherent(Store(mem, Descend(mem, r0, p).frame, i, e), roots, owner)
  {
    hide Descend; hide Canon; hide Key; hide Present; hide Large; hide Store; hide AlignedEntry;
    var mem' := Store(mem, Descend(mem, r0, p).frame, i, e);
    forall r, path | r in roots && GoodPath(path) ensures Descend(mem', r, path) == Descend(mem, r, path) {
      LeafDescend(mem, roots, owner, r0, p, i, e, r, path);
    }
    forall r | r in roots
      ensures (forall j :: Load(mem', r, j) == Load(mem, r, j)) && NoLarge(mem', r) && Anchored(mem', r)
      ensures LargeAligned(mem', r)
    {
      assert NoLarge(mem, r) && Anchored(mem, r);
      LeafRoots(mem, roots, owner, r0, p, i, e, r);
      assert GoodPath([0, 0]) && GoodPath([511, 510]);
      LeafDescend(mem, roots, owner, r0, p, i, e, r, [0, 0]);
      LeafDescend(mem, roots, owner, r0, p, i, e, r, [511, 510]);
      LeafAligned(mem, roots, owner, r0, p, i, e, r);
    }
  }

  lemma LeafAligned(mem: Memory, roots: set<nat>, owner: map<nat, Id>, r0: nat, p: Path, i: nat, e: Entry, r: nat)
    requires Coherent(mem, roots, owner) && LeafSlot(mem, roots, r0, p, i) && r in roots
    ensures LargeAligned(Store(mem, Descend(mem, r0, p).frame, i, e), r)
  {
    hide Descend; hide Coherent; hide Canon; hide Key; hide Store; hide AlignedEntry;
    var mem' := Store(mem, Descend(mem, r0, p).frame, i, e);
    forall i4, i3, i2 | GoodPath([i4, i3]) && 0 <= i2 < ENTRIES && Descend(mem', r, [i4, i3]).Node?
      ensures AlignedEntry(Load(mem', Descend(mem', r, [i4, i3]).frame, i2))
    {
      LeafDescend(mem, roots, owner, r0, p, i, e, r, [i4, i3]);
      LeafFrame(mem, roots, owner, r0, p, i, r, [i4, i3]);
      AlignedAt(mem, roots, owner, r, i4, i3, i2);
    }
  }

  /** The page that a last-level entry gives below tables with these flags. */
  function LeafPage(flags: bv12, e: Entry): Page {
    if Present(e) then Page(e.frame, flags & e.flags & RIGHTS, e.flags & CACHE) else NoPage
  }

  function FlagsOf(n: Node): bv12 {
    if n.Node? then n.flags else 0
  }

  /** Writing entry i of the table of p changes the page there, wherever its key is seen, and no other. */
  ghost predicate OnePageChanged(mem: Memory, mem': Memory, roots: set<nat>, r0: nat, p: Path, i: nat, e: Entry) {
    forall r, i4, i3, i2, i1 :: r in roots && GoodPage(i4, i3, i2, i1) ==>
      PageAt(mem', r, i4, i3, i2, i1) ==
        if Key(r, [i4, i3, i2]) == Key(r0, p) && i1 == i then LeafPage(FlagsOf(Descend(mem', r, [i4, i3, i2])), e)
        else PageAt(mem, r, i4, i3, i2, i1)
  }

  lemma LeafPages(mem: Memory, roots: set<nat>, owner: map<nat, Id>, r0: nat, p: Path, i: nat, e: Entry)
    requires Coherent(mem, roots, owner) && LeafSlot(mem, roots, r0, p, i)
    ensures OnePageChanged(mem, Store(mem, Descend(mem, r0, p).frame, i, e), roots, r0, p, i, e)
  {
    hide Descend; hide Coherent; hide Canon; hide Key; hide Present; hide Large; hide Store; hide LeafPage;
    var mem' := Store(mem, Descend(mem, r0, p).frame, i, e);
    forall r, i4, i3, i2, i1 | r in roots && GoodPage(i4, i3, i2, i1)
      ensures PageAt(mem', r, i4, i3, i2, i1) ==
        if Key(r, [i4, i3, i2]) == Key(r0, p) && i1 == i then LeafPage(FlagsOf(Descend(mem', r, [i4, i3, i2])), e)
        else PageAt(mem, r, i4, i3, i2, i1)
    {
      LeafPageAt(mem, roots, owner, r0, p, i, e, r, i4, i3, i2, i1);
    }
  }

  lemma LeafPageAt(mem: Memory, roots: set<nat>, owner: map<nat, Id>, r0: nat, p: Path, i: nat, e: Entry, r: nat,
                   i4: nat, i3: nat, i2: nat, i1: nat)
    requires Coherent(mem, roots, owner) && LeafSlot(mem, roots, r0, p, i) && r in roots && GoodPage(i4, i3, i2, i1)
    ensures var mem' := Store(mem, Descend(mem, r0, p).frame, i, e);
      PageAt(mem', r, i4, i3, i2, i1) ==
        if Key(r, [i4, i3, i2]) == Key(r0, p) && i1 == i then LeafPage(FlagsOf(Descend(mem', r, [i4, i3, i2])), e)
        else PageAt(mem, r, i4, i3, i2, i1)
  {
    hide Descend; hide Coherent; hide Canon; hide Key; hide Present; hide Large; hide Store;
    LeafDescend(mem, roots, owner, r0, p, i, e, r, [i4, i3, i2]);
    LeafDescend(mem, roots, owner, r0, p, i, e, r, [i4, i3]);
    if Key(r, [i4, i3, i2]) == Key(r0, p) {
      SameKeySameTable(mem, roots, owner, r, [i4, i3, i2], r0, p);
    } else if Descend(mem, r, [i4, i3, i2]).Node? {
      OwnerOf(mem, roots, owner, r, [i4, i3, i2]);
      OwnerOf(mem, roots, owner, r0, p);
    } else if Descend(mem, r, [i4, i3]).Node? {
      LeafFrame(mem, roots, owner, r0, p, i, r, [i4, i3]);
    }
  }

  // ---------- a new address space ----------

  /** Frame c has become a top-level table: the kernel slots of r0, itself in slot 510, nothing else. */
  ghost predicate Forked(mem: Memory, mem': Memory, r0: nat, c: nat) {
    && Beside(mem, mem', c)
    && Load(mem', c, 0) == Load(mem, r0, 0) && Load(mem', c, 511) == Load(mem, r0, 511)
    && Load(mem', c, RECURSIVE) == Entry(c, PRESENT | WRITABLE)
    && (forall j :: 0 <= j < ENTRIES && j != 0 && j != 511 && j != RECURSIVE ==> Load(mem', c, j) == Entry(0, 0))
  }

  /** The two memories agree outside frame c. */
  ghost predicate Beside(mem: Memory, mem': Memory, c: nat) {
    forall g, j :: g != c ==> Load(mem', g, j) == Load(mem, g, j)
  }

  lemma {:induction false} OldSpaces(mem: Memory, roots: set<nat>, owner: map<nat, Id>, c: nat, mem': Memory, r: nat,
                                     path: Path)
    requires Coherent(mem, roots, owner) && c !in owner && Beside(mem, mem', c) && r in roots && GoodPath(path)
    ensures Descend(mem', r, path) == Descend(mem, r, path)
    decreases |path|
  {
    hide Descend; hide Coherent; hide Canon; hide Key;
    if path == [] {
      DescendRoot(mem, r);
      DescendRoot(mem', r);
    } else {
      Split(path);
      var q, j := path[..|path| - 1], path[|path| - 1];
      OldSpaces(mem, roots, owner, c, mem', r, q);
      DescendStep(mem, r, q, j);
      DescendStep(mem', r, q, j);
      if Descend(mem, r, q).Node? { OwnerOf(mem, roots, owner, r, q); }
    }
  }

  /** The new space sees the kernel's tables exactly as r0 does, and no others. */
  lemma {:induction false} NewSpace(mem: Memory, roots: set<nat>, owner: map<nat, Id>, r0: nat, c: nat, mem': Memory,
                                    path: Path)
    requires Coherent(mem, roots, owner) && c !in owner && Forked(mem, mem', r0, c) && r0 in roots && GoodPath(path)
    requires path != []
    ensures Descend(mem', c, path) == if KernelSlot(path[0]) then Descend(mem, r0, path) else NoNode
    decreases |path|
  {
    hide Descend; hide Coherent; hide Canon; hide Key;
    Split(path);
    var q, j := path[..|path| - 1], path[|path| - 1];
    if q == [] {
      assert path == [j];
      Descend1(mem', c, j);
      Descend1(mem, r0, j);
      LinkIsSmall(c);
    } else {
      assert q[0] == path[0];
      NewSpace(mem, roots, owner, r0, c, mem', q);
      DescendStep(mem, r0, q, j);
      DescendStep(mem', c, q, j);
      if Descend(mem, r0, q).Node? { OwnerOf(mem, roots, owner, r0, q); }
    }
  }

  lemma ForkedOwners(mem: Memory, roots: set<nat>, owner: map<nat, Id>, r0: nat, c: nat, mem': Memory)
    requires Coherent(mem, roots, owner) && c !in owner && Forked(mem, mem', r0, c) && r0 in roots
    ensures OwnersOk(mem', roots + {c}, owner[c := User(c, [])])
  {
    hide Descend; hide Coherent; hide Canon;
    var owner' := owner[c := User(c, [])];
    forall r, path | r in roots + {c} && GoodPath(path) && Descend(mem', r, path).Node?
      ensures Descend(mem', r, path).frame in owner' && owner'[Descend(mem', r, path).frame] == Key(r, path)
    {
      if r == c {
        DescendRoot(mem', c);
        if path != [] {
          NewSpace(mem, roots, owner, r0, c, mem', path);
          OwnerOf(mem, roots, owner, r0, path);
        }
      } else {
        OldSpaces(mem, roots, owner, c, mem', r, path);
        OwnerOf(mem, roots, owner, r, path);
      }
    }
  }

  lemma RootOwned(mem: Memory, roots: set<nat>, owner: map<nat, Id>, r: nat)
    requires Coherent(mem, roots, owner) && r in roots
    ensures r in owner
  {
    hide Coherent; hide Descend;
    DescendRoot(mem, r);
    assert GoodPath([]);
    OwnerOf(mem, roots, owner, r, []);
  }

  lemma NewRootShape(mem: Memory, roots: set<nat>, owner: map<nat, Id>, r0: nat, c: nat, mem': Memory)
    requires Coherent(mem, roots, owner) && c !in owner && Forked(mem, mem', r0, c) && r0 in roots
    ensures SelfMapped(mem', c) && Anchored(mem', c)
  {
    hide Descend; hide Coherent; hide Canon; hide Key;
    assert GoodPath([0, 0]) && GoodPath([511, 510]);
    NewSpace(mem, roots, owner, r0, c, mem', [0, 0]);
    NewSpace(mem, roots, owner, r0, c, mem', [511, 510]);
    AnchoredAt(mem, roots, owner, r0);
  }

  lemma AnchoredAt(mem: Memory, roots: set<nat>, owner: map<nat, Id>, r: nat)
    requires Coherent(mem, roots, owner) && r in roots
    ensures Anchored(mem, r)
  {
    hide Descend; hide NoLarge; hide LargeAligned; hide OwnersOk; hide Anchored;
  }

  lemma NewRootSmall(mem: Memory, roots: set<nat>, owner: map<nat, Id>, r0: nat, c: nat, mem': Memory)
    requires Coherent(mem, roots, owner) && c !in owner && Forked(mem, mem', r0, c) && r0 in roots
    ensures NoLarge(mem', c)
  {
    hide Descend; hide Coherent; hide Canon; hide Key;
    NotLarge(mem, roots, owner, r0, 0);
    NotLarge(mem, roots, owner, r0, 511);
    forall k | 0 <= k < ENTRIES ensures !Large(Load(mem', c, k)) {}
    forall k, j | 0 <= k < ENTRIES && 0 <= j < ENTRIES && Present(Load(mem', c, k))
      ensures !Large(Load(mem', Load(mem', c, k).frame, j))
    {
      if KernelSlot(k) {
        Descend1(mem, r0, k);
        assert GoodPath([k]);
        OwnerOf(mem, roots, owner, r0, [k]);
      }
    }
  }

  lemma OldRootKept(mem: Memory, roots: set<nat>, owner: map<nat, Id>, c: nat, mem': Memory, r: nat)
    requires Coherent(mem, roots, owner) && c !in owner && Beside(mem, mem', c) && r in roots
    ensures r != c && (forall j :: Load(mem', r, j) == Load(mem, r, j))
    ensures SelfMapped(mem', r) && Anchored(mem', r) && NoLarge(mem', r)
  {
    hide Descend; hide Coherent; hide Canon; hide Key; hide Large; hide Present;
    RootOwned(mem, roots, owner, r);
    assert GoodPath([0, 0]) && GoodPath([511, 510]);
    OldSpaces(mem, roots, owner, c, mem', r, [0, 0]);
    OldSpaces(mem, roots, owner, c, mem', r, [511, 510]);
    AnchoredAt(mem, roots, owner, r);
    SelfEntry(mem, roots, owner, r);
    forall k, j | 0 <= k < ENTRIES && 0 <= j < ENTRIES && Present(Load(mem', r, k))
      ensures !Large(Load(mem', Load(mem', r, k).frame, j))
    {
      NotLarge(mem, roots, owner, r, k);
      if k != RECURSIVE {
        Descend1(mem, r, k);
        assert GoodPath([k]);
        OwnerOf(mem, roots, owner, r, [k]);
      }
    }
  }

  lemma ForkedAligned(mem: Memory, roots: set<nat>, owner: map<nat, Id>, r0: nat, c: nat, mem': Memory, r: nat)
    requires Coherent(mem, roots, owner) && c !in owner && Forked(mem, mem', r0, c) && r0 in roots && r in roots + {c}
    ensures LargeAligned(mem', r)
  {
    hide Descend; hide Coherent; hide Canon; hide Key; hide AlignedEntry;
    forall i4, i3, i2 | GoodPath([i4, i3]) && 0 <= i2 < ENTRIES && Descend(mem', r, [i4, i3]).Node?
      ensures AlignedEntry(Load(mem', Descend(mem', r, [i4, i3]).frame, i2))
    {
      var s := if r == c then r0 else r;
      if r == c {
        NewSpace(mem, roots, owner, r0, c, mem', [i4, i3]);
      } else {
        OldSpaces(mem, roots, owner, c, mem', r, [i4, i3]);
      }
      OwnerOf(mem, roots, owner, s, [i4, i3]);
      AlignedAt(mem, roots, owner, s, i4, i3, i2);
    }
  }

  lemma ForkedCoherent(mem: Memory, roots: set<nat>, owner: map<nat, Id>, r0: nat, c: nat, mem': Memory)
    requires Coherent(mem, roots, owner) && c !in owner && Forked(mem, mem', r0, c) && r0 in roots
    ensures Coherent(mem', roots + {c}, owner[c := User(c, [])])
  {
    hide Descend; hide NoLarge; hide LargeAligned; hide OwnersOk; hide SelfMapped; hide Anchored; hide Key;
    forall r | r in roots + {c}
      ensures SelfMapped(mem', r) && Anchored(mem', r) && NoLarge(mem', r) && LargeAligned(mem', r)
      ensures Load(mem', r, 0) == Load(mem, r0, 0) && Load(mem', r, 511) == Load(mem, r0, 511)
    {
      ForkedAligned(mem, roots, owner, r0, c, mem', r);
      if r == c {
        NewRootShape(mem, roots, owner, r0, c, mem');
        NewRootSmall(mem, roots, owner, r0, c, mem');
      } else {
        OldRootKept(mem, roots, owner, c, mem', r);
        assert Load(mem, r, 0) == Load(mem, r0, 0);
      }
    }
    ForkedOwners(mem, roots, owner, r0, c, mem');
  }

  /** Writing into a frame that is no table leaves every translation alone. */
  lemma BesidePages(mem: Memory, roots: set<nat>, owner: map<nat, Id>, c: nat, mem': Memory)
    requires Coherent(mem, roots, owner) && c !in owner && Beside(mem, mem', c)
    ensures SamePages(mem, mem', roots)
  {
    hide Descend; hide Coherent; hide Canon; hide Key; hide Large; hide Present; hide GoodPath;
    forall r, i4, i3, i2, i1 | r in roots && GoodPage(i4, i3, i2, i1)
      ensures PageAt(mem', r, i4, i3, i2, i1) == PageAt(mem, r, i4, i3, i2, i1)
    {
      OldSpaces(mem, roots, owner, c, mem', r, [i4, i3, i2]);
      OldSpaces(mem, roots, owner, c, mem', r, [i4, i3]);
      if Descend(mem, r, [i4, i3, i2]).Node? { OwnerOf(mem, roots, owner, r, [i4, i3, i2]); }
      if Descend(mem, r, [i4, i3]).Node? { OwnerOf(mem, roots, owner, r, [i4, i3]); }
    }
  }

  lemma BesideCoherent(mem: Memory, roots: set<nat>, owner: map<nat, Id>, c: nat, mem': Memory)
    requires Coherent(mem, roots, owner) && c !in owner && Beside(mem, mem', c)
    ensures Coherent(mem', roots, owner)
  {
    hide Descend; hide NoLarge; hide SelfMapped; hide Anchored; hide Key; hide AlignedEntry;
    forall r, path | r in roots && GoodPath(path) ensures Descend(mem', r, path) == Descend(mem, r, path) {
      OldSpaces(mem, roots, owner, c, mem', r, path);
    }
    forall r | r in roots
      ensures SelfMapped(mem', r) && Anchored(mem', r) && NoLarge(mem', r) && LargeAligned(mem', r)
      ensures forall j :: Load(mem', r, j) == Load(mem, r, j)
    {
      OldRootKept(mem, roots, owner, c, mem', r);
      forall i4, i3, i2 | GoodPath([i4, i3]) && 0 <= i2 < ENTRIES && Descend(mem', r, [i4, i3]).Node?
        ensures AlignedEntry(Load(mem', Descend(mem', r, [i4, i3]).frame, i2))
      {
        OwnerOf(mem, roots, owner, r, [i4, i3]);
        AlignedAt(mem, roots, owner, r, i4, i3, i2);
      }
    }
  }

  /** Existing spaces keep every page; the new one has the kernel's pages and no others. */
  lemma ForkedPages(mem: Memory, roots: set<nat>, owner: map<nat, Id>, r0: nat, c: nat, mem': Memory)
    requires Coherent(mem, roots, owner) && c !in owner && Forked(mem, mem', r0, c) && r0 in roots
    ensures SamePages(mem, mem', roots)
    ensures forall i4, i3, i2, i1 :: GoodPage(i4, i3, i2, i1) ==>
      PageAt(mem', c, i4, i3, i2, i1) == if KernelSlot(i4) then PageAt(mem, r0, i4, i3, i2, i1) else NoPage
  {
    hide Descend; hide Coherent; hide Canon; hide Key; hide Large; hide Present; hide GoodPath;
    BesidePages(mem, roots, owner, c, mem');
    forall i4, i3, i2, i1 | GoodPage(i4, i3, i2, i1)
      ensures PageAt(mem', c, i4, i3, i2, i1) == if KernelSlot(i4) then PageAt(mem, r0, i4, i3, i2, i1) else NoPage
    {
      NewSpace(mem, roots, owner, r0, c, mem', [i4, i3, i2]);
      NewSpace(mem, roots, owner, r0, c, mem', [i4, i3]);
      if Descend(mem, r0, [i4, i3, i2]).Node? { OwnerOf(mem, roots, owner, r0, [i4, i3, i2]); }
      if Descend(mem, r0, [i4, i3]).Node? { OwnerOf(mem, roots, owner, r0, [i4, i3]); }
    }
  }
}
