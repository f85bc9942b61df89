/** The block list of the kernel heap as a sequence, and what splitting, merging and appending do to it. */
module HeapBlocks {

  const HEAP_START: nat := 0xFFFF_FFFF_C000_0000
  const HEAP_INITIAL: nat := 0x1_0000
  const HEAP_LIMIT: nat := HEAP_START + 0x400_0000
  const HEADER: nat := 32
  const ALIGNMENT: nat := 16
  const PAGE: nat := 4096
  const WORD: nat := 0x1_0000_0000_0000_0000

  datatype Block = Block(addr: nat, size: nat, free: bool)

  /** The address after the payload. */
  function End(b: Block): nat { b.addr + HEADER + b.size }

  predicate Sound(b: Block, end: nat) {
    HEAP_START <= b.addr && b.addr % ALIGNMENT == 0 && b.size % ALIGNMENT == 0 && End(b) <= end
  }

  /** Aligned blocks inside the mapped memory, in the order of their addresses and apart from each other. */
  ghost predicate Laid(list: seq<Block>, end: nat) {
    && (forall i :: 0 <= i < |list| ==> Sound(list[i], end))
    && (forall i, j :: 0 <= i < j < |list| ==> End(list[i]) <= list[j].addr)
  }

  ghost predicate NoTwoFree(list: seq<Block>) {
    forall i :: 0 <= i < |list| - 1 ==> !(list[i].free && list[i + 1].free)
  }

  /** The blocks cover start up to end without a gap. */
  ghost predicate Tiled(list: seq<Block>, start: nat, end: nat) {
    if list == [] then start == end
    else list[0].addr == start && Tiled(list[1..], End(list[0]), end)
  }

  function Live(list: seq<Block>): set<Block> { set b | b in list && !b.free }

  // ---------- replacing k blocks by others ----------

  function Replace(list: seq<Block>, i: nat, k: nat, mid: seq<Block>): (r: seq<Block>)
    requires i + k <= |list|
    ensures |r| == |list| - k + |mid|
    ensures forall j :: 0 <= j < i ==> r[j] == list[j]
    ensures forall j :: 0 <= j < |mid| ==> r[i + j] == mid[j]
    ensures forall j :: i + |mid| <= j < |r| ==> r[j] == list[j - |mid| + k]
  {
    list[..i] + mid + list[i + k..]
  }

  /** The replacement keeps to the room of the blocks it replaces. */
  ghost predicate Within(list: seq<Block>, i: nat, k: nat, mid: seq<Block>)
    requires i + k <= |list|
  {
    && (forall j, m :: 0 <= j < i && 0 <= m < |mid| ==> End(list[j]) <= mid[m].addr)
    && (forall j, m :: i + k <= j < |list| && 0 <= m < |mid| ==> End(mid[m]) <= list[j].addr)
  }

  lemma ReplaceLaid(list: seq<Block>, i: nat, k: nat, mid: seq<Block>, end: nat)
    requires i + k <= |list| && Laid(list, end) && Laid(mid, end) && Within(list, i, k, mid)
    ensures Laid(Replace(list, i, k, mid), end)
  {
    hide Sound; hide End; hide Replace;
    var r := Replace(list, i, k, mid);
    forall a, b | 0 <= a < b < |r| ensures End(r[a]) <= r[b].addr {
      if a < i {
        if i <= b < i + |mid| {
          assert r[b] == mid[b - i];
          assert r[i + (b - i)] == r[b];
        }
      } else if a < i + |mid| {
        assert r[i + (a - i)] == mid[a - i];
        if b < i + |mid| { assert r[i + (b - i)] == mid[b - i]; }
      }
    }
    forall a | 0 <= a < |r| ensures Sound(r[a], end) {
      if i <= a < i + |mid| { assert r[i + (a - i)] == mid[a - i]; }
    }
  }

  lemma ReplaceApart(list: seq<Block>, i: nat, k: nat, mid: seq<Block>)
    requires i + k <= |list| && NoTwoFree(list) && NoTwoFree(mid) && mid != []
    requires i > 0 ==> !(list[i - 1].free && mid[0].free)
    requires i + k < |list| ==> !(mid[|mid| - 1].free && list[i + k].free)
    ensures NoTwoFree(Replace(list, i, k, mid))
  {
    hide Replace;
    var r := Replace(list, i, k, mid);
    forall a | 0 <= a < |r| - 1 ensures !(r[a].free && r[a + 1].free) {
      if i <= a < i + |mid| { assert r[i + (a - i)] == mid[a - i]; }
      if i <= a + 1 < i + |mid| { assert r[i + (a + 1 - i)] == mid[a + 1 - i]; }
    }
  }

  lemma ReplaceLive(list: seq<Block>, i: nat, k: nat, mid: seq<Block>)
    requires i + k <= |list|
    ensures Live(Replace(list, i, k, mid)) == Live(list[..i]) + Live(mid) + Live(list[i + k..])
    ensures Live(list) == Live(list[..i]) + Live(list[i..i + k]) + Live(list[i + k..])
  {
    assert list == list[..i] + list[i..i + k] + list[i + k..];
    JoinLive(list[..i], mid, list[i + k..]);
    JoinLive(list[..i], list[i..i + k], list[i + k..]);
  }

  lemma JoinLive(a: seq<Block>, b: seq<Block>, c: seq<Block>)
    ensures Live(a + b + c) == Live(a) + Live(b) + Live(c)
  {
    assert forall x :: x in a + b + c <==> x in a || x in b || x in c;
  }

  lemma {:induction false} TiledJoin(a: seq<Block>, b: seq<Block>, start: nat, mid: nat, end: nat)
    requires Tiled(a, start, mid)
    ensures Tiled(a + b, start, end) <==> Tiled(b, mid, end)
    decreases |a|
  {
    if a == [] {
      assert a + b == b;
    } else {
      assert (a + b)[1..] == a[1..] + b;
      TiledJoin(a[1..], b, End(a[0]), mid, end);
    }
  }

  lemma {:induction false} TiledPrefix(list: seq<Block>, i: nat, start: nat, end: nat) returns (mid: nat)
    requires i <= |list| && Tiled(list, start, end)
    ensures Tiled(list[..i], start, mid) && Tiled(list[i..], mid, end)
    decreases i
  {
    if i == 0 {
      mid := start;
      assert list[..0] == [] && list[0..] == list;
    } else {
      mid := TiledPrefix(list[1..], i - 1, End(list[0]), end);
      assert list[1..][..i - 1] == list[..i][1..] && list[1..][i - 1..] == list[i..];
    }
  }

  /** The replacement covers exactly what the replaced blocks covered. */
  ghost predicate SameSpan(a: seq<Block>, b: seq<Block>) {
    forall start, end :: Tiled(a, start, end) ==> Tiled(b, start, end)
  }

  lemma ReplaceTiled(list: seq<Block>, i: nat, k: nat, mid: seq<Block>, start: nat, end: nat)
    requires i + k <= |list| && Tiled(list, start, end) && SameSpan(list[i..i + k], mid)
    ensures Tiled(Replace(list, i, k, mid), start, end)
  {
    hide Tiled;
    var s := TiledPrefix(list, i, start, end);
    var e := TiledPrefix(list[i..], k, s, end);
    assert list[i..][..k] == list[i..i + k] && list[i..][k..] == list[i + k..];
    TiledJoin(mid, list[i + k..], s, e, end);
    TiledJoin(list[..i], mid + list[i + k..], start, s, end);
    assert list[..i] + mid + list[i + k..] == list[..i] + (mid + list[i + k..]);
  }

  // ---------- the steps of kmalloc and kfree ----------

  /** The halves of block i, the first of n bytes. */
  function Halves(b: Block, n: nat): seq<Block>
    requires n + HEADER <= b.size
  {
    [Block(b.addr, n, b.free), Block(b.addr + HEADER + n, b.size - n - HEADER, true)]
  }

  function SplitAt(list: seq<Block>, i: nat, n: nat): (r: seq<Block>)
    requires i < |list| && n + HEADER <= list[i].size
    ensures |r| == |list| + 1
  {
    Replace(list, i, 1, Halves(list[i], n))
  }

  function Joined(a: Block, b: Block): Block {
    Block(a.addr, a.size + HEADER + b.size, a.free)
  }

  function MergeAt(list: seq<Block>, i: nat): (r: seq<Block>)
    requires i + 1 < |list|
    ensures |r| == |list| - 1
  {
    Replace(list, i, 2, [Joined(list[i], list[i + 1])])
  }

  function Marked(list: seq<Block>, i: nat, free: bool): (r: seq<Block>)
    requires i < |list|
    ensures |r| == |list|
  {
    Replace(list, i, 1, [list[i].(free := free)])
  }

  lemma One(list: seq<Block>, i: nat)
    requires i < |list|
    ensures list[i..i + 1] == [list[i]]
    ensures i + 1 < |list| ==> list[i..i + 2] == [list[i], list[i + 1]]
  {
  }

  lemma SpanOne(b: Block)
    ensures forall s, e :: Tiled([b], s, e) <==> s == b.addr && e == End(b)
  {
    assert [b][1..] == [];
  }

  lemma SpanTwo(a: Block, b: Block)
    ensures forall s, e :: Tiled([a, b], s, e) <==> s == a.addr && End(a) == b.addr && e == End(b)
  {
    assert [a, b][1..] == [b];
    SpanOne(b);
  }

  lemma HalvesLaid(b: Block, n: nat, end: nat)
    requires Sound(b, end) && n + HEADER <= b.size && n % ALIGNMENT == 0
    ensures Laid(Halves(b, n), end)
  {
    var q, s, m := b.addr / 16, b.size / 16, n / 16;
    MultipleOf16(q + 2 + m);
    MultipleOf16(s - m - 2);
  }

  lemma SplitKeeps(list: seq<Block>, i: nat, n: nat, end: nat)
    requires i < |list| && n + HEADER <= list[i].size && n % ALIGNMENT == 0 && list[i].free && Laid(list, end)
    ensures Laid(SplitAt(list, i, n), end) && Live(SplitAt(list, i, n)) == Live(list)
    ensures Tiled(list, HEAP_START, end) ==> Tiled(SplitAt(list, i, n), HEAP_START, end)
  {
    hide Tiled; hide Live; hide Replace; hide Sound;
    var b, mid := list[i], Halves(list[i], n);
    One(list, i);
    assert Sound(b, end);
    HalvesLaid(b, n, end);
    ReplaceLaid(list, i, 1, mid, end);
    ReplaceLive(list, i, 1, mid);
    NoneLive([b]);
    NoneLive(mid);
    SpanOne(b);
    SpanTwo(mid[0], mid[1]);
    if Tiled(list, HEAP_START, end) { ReplaceTiled(list, i, 1, mid, HEAP_START, end); }
  }

  lemma NoneLive(list: seq<Block>)
    requires forall b :: b in list ==> b.free
    ensures Live(list) == {}
  {
  }

  lemma MergeKeeps(list: seq<Block>, i: nat, end: nat)
    requires i + 1 < |list| && list[i].free && list[i + 1].free && Laid(list, end)
    ensures Laid(MergeAt(list, i), end) && Live(MergeAt(list, i)) == Live(list)
    ensures Tiled(list, HEAP_START, end) ==> Tiled(MergeAt(list, i), HEAP_START, end)
  {
    hide Tiled; hide Live; hide Replace;
    var a, b := list[i], list[i + 1];
    var mid := [Joined(a, b)];
    One(list, i);
    assert Sound(a, end) && Sound(b, end) && End(a) <= b.addr;
    assert Laid(mid, end);
    ReplaceLaid(list, i, 2, mid, end);
    ReplaceLive(list, i, 2, mid);
    NoneLive([a, b]);
    NoneLive(mid);
    SpanTwo(a, b);
    SpanOne(mid[0]);
    if Tiled(list, HEAP_START, end) { ReplaceTiled(list, i, 2, mid, HEAP_START, end); }
  }

  lemma MarkKeeps(list: seq<Block>, i: nat, free: bool, end: nat)
    requires i < |list| && Laid(list, end)
    ensures Laid(Marked(list, i, free), end)
    ensures Tiled(list, HEAP_START, end) ==> Tiled(Marked(list, i, free), HEAP_START, end)
  {
    hide Tiled; hide Replace;
    var mid := [list[i].(free := free)];
    One(list, i);
    assert Sound(list[i], end);
    assert Laid(mid, end);
    ReplaceLaid(list, i, 1, mid, end);
    SpanOne(list[i]);
    SpanOne(mid[0]);
    if Tiled(list, HEAP_START, end) { ReplaceTiled(list, i, 1, mid, HEAP_START, end); }
  }

  /** Taking a free block makes exactly that block live. */
  lemma TakeLive(list: seq<Block>, i: nat)
    requires i < |list| && list[i].free
    ensures Live(Marked(list, i, false)) == Live(list) + {list[i].(free := false)}
  {
    hide Live; hide Replace;
    var b := list[i].(free := false);
    One(list, i);
    ReplaceLive(list, i, 1, [b]);
    NoneLive([list[i]]);
    OneLive(b);
  }

  lemma OneLive(b: Block)
    requires !b.free
    ensures Live([b]) == {b}
  {
  }

  /** Giving a live block back takes exactly that block away. */
  lemma GiveLive(list: seq<Block>, i: nat, end: nat)
    requires i < |list| && !list[i].free && Laid(list, end)
    ensures Live(Marked(list, i, true)) == Live(list) - {list[i]}
  {
    hide Replace;
    var b := list[i].(free := true);
    One(list, i);
    ReplaceLive(list, i, 1, [b]);
    NoneLive([b]);
    OneLive(list[i]);
    assert list[i] !in list[..i] && list[i] !in list[i + 1..];
  }

  // ---------- free neighbours ----------

  /** The list after taking n bytes of block i. */
  function Taken(list: seq<Block>, i: nat, n: nat): seq<Block>
    requires i < |list| && n <= list[i].size
  {
    if list[i].size >= n + HEADER + ALIGNMENT then Marked(SplitAt(list, i, n), i, false) else Marked(list, i, false)
  }

  lemma ReplaceMiddle(a: seq<Block>, x: Block, c: seq<Block>, mid: seq<Block>)
    ensures Replace(a + [x] + c, |a|, 1, mid) == a + mid + c
  {
    var list := a + [x] + c;
    assert list[..|a|] == a && list[|a| + 1..] == c;
  }

  /** A block of which n bytes are in use: cut to n bytes with the rest a free block behind it if that leaves at least a
      header and 16 bytes, and whole otherwise. */
  function Cut(b: Block, n: nat): seq<Block> {
    if b.size >= n + 48 then [Block(b.addr, n, false), Block(b.addr + 32 + n, b.size - n - 32, true)]
    else [Block(b.addr, b.size, false)]
  }

  /** What taking means: the blocks before and after the one that is cut are as they were. */
  lemma TakenMeans(before: seq<Block>, b: Block, after: seq<Block>, n: nat)
    requires n <= b.size
    ensures Taken(before + [b] + after, |before|, n) == before + Cut(b, n) + after
  {
    hide Replace;
    var list := before + [b] + after;
    assert list[|before|] == b;
    if b.size >= n + 48 {
      TakenBlock(list, |before|, n);
      ReplaceMiddle(before, b, after, Cut(b, n));
    } else {
      ReplaceMiddle(before, b, after, [b.(free := false)]);
    }
  }

  function TakenSize(b: Block, n: nat): nat { if b.size >= n + HEADER + ALIGNMENT then n else b.size }

  lemma TakenBlock(list: seq<Block>, i: nat, n: nat)
    requires i < |list| && n + HEADER + ALIGNMENT <= list[i].size
    ensures Taken(list, i, n) ==
      Replace(list, i, 1, [Block(list[i].addr, n, false),
                           Block(list[i].addr + HEADER + n, list[i].size - n - HEADER, true)])
  {
    hide Replace;
    var h := Halves(list[i], n);
    assert SplitAt(list, i, n)[i + 0] == h[0];
    ReplaceTwice(list, i, h[0], h[1], h[0].(free := false));
  }

  lemma ReplaceTwice(list: seq<Block>, i: nat, a: Block, b: Block, c: Block)
    requires i < |list|
    ensures Replace(Replace(list, i, 1, [a, b]), i, 1, [c]) == Replace(list, i, 1, [c, b])
  {
    hide Replace;
    var two := Replace(list, i, 1, [a, b]);
    var t, r := Replace(two, i, 1, [c]), Replace(list, i, 1, [c, b]);
    assert two[i + 1] == [a, b][1];
    assert t[i + 0] == [c][0];
    assert r[i + 0] == [c, b][0] && r[i + 1] == [c, b][1];
    forall j | 0 <= j < |r| ensures t[j] == r[j] {
      if j >= i + 2 { assert r[j] == list[j - 1] && two[j] == list[j - 1]; }
    }
  }

  lemma TakenApart(list: seq<Block>, i: nat, n: nat)
    requires i < |list| && n <= list[i].size && list[i].free && NoTwoFree(list)
    ensures NoTwoFree(Taken(list, i, n))
  {
    hide Replace;
    if list[i].size >= n + HEADER + ALIGNMENT {
      TakenBlock(list, i, n);
      ReplaceApart(list, i, 1,
                   [Block(list[i].addr, n, false), Block(list[i].addr + HEADER + n, list[i].size - n - HEADER, true)]);
    } else {
      ReplaceApart(list, i, 1, [list[i].(free := false)]);
    }
  }

  /** The list after giving block i back: marked, merged with a free successor, then into a free predecessor. */
  function Freed(list: seq<Block>, i: nat): seq<Block>
    requires i < |list|
  {
    var one := Marked(list, i, true);
    var two := if i + 1 < |one| && one[i + 1].free then MergeAt(one, i) else one;
    if i > 0 && two[i - 1].free then MergeAt(two, i - 1) else two
  }

  predicate FreeFirst(list: seq<Block>) { list != [] && list[0].free }

  predicate FreeLast(list: seq<Block>) { list != [] && list[|list| - 1].free }

  lemma MergeMiddle(a: seq<Block>, x: Block, y: Block, c: seq<Block>)
    ensures MergeAt(a + [x, y] + c, |a|) == a + [Joined(x, y)] + c
  {
    var list := a + [x, y] + c;
    assert list[..|a|] == a && list[|a|] == x && list[|a| + 1] == y && list[|a| + 2..] == c;
  }

  /** The first half of kfree: marked, and merged with a free successor. */
  lemma FreedFirst(before: seq<Block>, b: Block, after: seq<Block>)
    ensures var one := Marked(before + [b] + after, |before|, true);
      && one == before + [b.(free := true)] + after && |one| == |before| + 1 + |after|
      && (FreeFirst(after) ==>
            && one[|before| + 1] == after[0]
            && MergeAt(one, |before|) == before + [Joined(b.(free := true), after[0])] + after[1..])
  {
    hide Replace; hide MergeAt;
    var list, m := before + [b] + after, b.(free := true);
    assert list[|before|] == b;
    ReplaceMiddle(before, b, after, [m]);
    if FreeFirst(after) {
      assert before + [m] + after == before + [m, after[0]] + after[1..];
      MergeMiddle(before, m, after[0], after[1..]);
    }
  }

  lemma FreedSecond(before: seq<Block>, b: Block, after: seq<Block>)
    requires FreeLast(before)
    ensures var n := |before| - 1;
      && (before + [b] + after)[n] == before[n]
      && MergeAt(before + [b] + after, n) == before[..n] + [Joined(before[n], b)] + after
  {
    hide MergeAt;
    var n := |before| - 1;
    assert before + [b] + after == before[..n] + [before[n], b] + after;
    MergeMiddle(before[..n], before[n], b, after);
  }

  /** What giving back means: block b is free, together with its successor and its predecessor if those are free, the
      headers in between included; every other block is as it was. */
  lemma FreedMeans(before: seq<Block>, b: Block, after: seq<Block>)
    ensures var size := b.size + if FreeFirst(after) then 32 + after[0].size else 0;
      var rest := if FreeFirst(after) then after[1..] else after;
      var n := |before| - 1;
      Freed(before + [b] + after, |before|) ==
      if FreeLast(before) then before[..n] + [Block(before[n].addr, before[n].size + 32 + size, true)] + rest
      else before + [Block(b.addr, size, true)] + rest
  {
    hide MergeAt; hide Marked;
    FreedFirst(before, b, after);
    var m := b.(free := true);
    var joined := if FreeFirst(after) then Joined(m, after[0]) else m;
    var rest := if FreeFirst(after) then after[1..] else after;
    if FreeLast(before) { FreedSecond(before, joined, rest); }
    FreedIs(before + [b] + after, |before|, before + [joined] + rest);
  }

  lemma FreedIs(list: seq<Block>, i: nat, two: seq<Block>)
    requires i < |list|
    requires var one := Marked(list, i, true); two == if i + 1 < |one| && one[i + 1].free then MergeAt(one, i) else one
    ensures Freed(list, i) == if i > 0 && two[i - 1].free then MergeAt(two, i - 1) else two
  {
    hide MergeAt; hide Marked;
  }

  /** Giving back undoes taking, when there are no two free neighbours. */
  lemma FreeUndoesTake(list: seq<Block>, i: nat, n: nat)
    requires i < |list| && list[i].free && n <= list[i].size && NoTwoFree(list)
    ensures |Taken(list, i, n)| > i && Freed(Taken(list, i, n), i) == list
  {
    hide Taken; hide Freed;
    var before, b, after := list[..i], list[i], list[i + 1..];
    assert list == before + [b] + after;
    TakenMeans(before, b, after, n);
    assert !FreeLast(before) && !FreeFirst(after);
    var cut := Cut(b, n);
    assert before + cut + after == before + [cut[0]] + (cut[1..] + after);
    FreedMeans(before, cut[0], cut[1..] + after);
    if |cut| == 2 {
      assert cut[1..] + after == [cut[1]] + after && (cut[1..] + after)[1..] == after;
    } else {
      assert cut[1..] + after == after;
    }
  }

  /** Blocks around i, but not i itself, may be free next to it. */
  ghost predicate ApartBut(list: seq<Block>, i: nat) {
    forall j :: 0 <= j < |list| - 1 && j != i && j + 1 != i ==> !(list[j].free && list[j + 1].free)
  }

  lemma MergeApart(list: seq<Block>, i: nat)
    requires i + 1 < |list| && ApartBut(list, i) && list[i].free && list[i + 1].free
    ensures ApartBut(MergeAt(list, i), i)
    ensures i + 1 < |MergeAt(list, i)| ==> !MergeAt(list, i)[i + 1].free
    ensures i > 0 ==> MergeAt(list, i)[i - 1] == list[i - 1]
    ensures MergeAt(list, i)[i].free
  {
    hide Replace;
    assert i + 2 < |list| ==> !(list[i + 1].free && list[i + 2].free);
    var r := MergeAt(list, i);
    assert r[i + 0] == [Joined(list[i], list[i + 1])][0];
    forall j | 0 <= j < |r| - 1 && j != i && j + 1 != i ensures !(r[j].free && r[j + 1].free) {
      if j > i { assert !(list[j + 1].free && list[j + 2].free); }
    }
  }

  lemma MarkApart(list: seq<Block>, i: nat)
    requires i < |list| && NoTwoFree(list)
    ensures ApartBut(Marked(list, i, true), i) && Marked(list, i, true)[i].free
    ensures forall j :: 0 <= j < |list| && j != i ==> Marked(list, i, true)[j] == list[j]
  {
    hide Replace;
    var r := Marked(list, i, true);
    assert r[i + 0] == [list[i].(free := true)][0];
  }

  lemma FreedApart(list: seq<Block>, i: nat)
    requires i < |list| && !list[i].free && NoTwoFree(list)
    ensures NoTwoFree(Freed(list, i))
  {
    hide Replace; hide MergeAt; hide Marked;
    var one := Marked(list, i, true);
    MarkApart(list, i);
    var two := if i + 1 < |one| && one[i + 1].free then MergeAt(one, i) else one;
    if i + 1 < |one| && one[i + 1].free { MergeApart(one, i); }
    assert ApartBut(two, i) && two[i].free && (i + 1 < |two| ==> !two[i + 1].free);
    if i > 0 && two[i - 1].free {
      MergeBack(two, i - 1);
    }
  }

  /** Merging the freed block into its free predecessor closes the last pair. */
  lemma MergeBack(list: seq<Block>, i: nat)
    requires i + 1 < |list| && ApartBut(list, i + 1) && list[i].free && list[i + 1].free
    requires (i + 2 < |list| ==> !list[i + 2].free)
    ensures NoTwoFree(MergeAt(list, i))
  {
    hide Replace;
    var r := MergeAt(list, i);
    assert r[i + 0] == [Joined(list[i], list[i + 1])][0];
    forall j | 0 <= j < |r| - 1 ensures !(r[j].free && r[j + 1].free) {
      if j > i {
        assert !(list[j + 1].free && list[j + 2].free);
      } else if j < i {
        assert !(list[j].free && list[j + 1].free);
      }
    }
  }

  lemma FreedKeeps(list: seq<Block>, i: nat, end: nat)
    requires i < |list| && !list[i].free && Laid(list, end)
    ensures Laid(Freed(list, i), end) && Live(Freed(list, i)) == Live(list) - {list[i]}
    ensures Tiled(list, HEAP_START, end) ==> Tiled(Freed(list, i), HEAP_START, end)
    ensures Freed(list, i) != []
  {
    hide Replace; hide Tiled; hide Live; hide Laid;
    var one := Marked(list, i, true);
    MarkKeeps(list, i, true, end);
    GiveLive(list, i, end);
    assert one[i].free by { assert one[i + 0] == [list[i].(free := true)][0]; }
    var two := if i + 1 < |one| && one[i + 1].free then MergeAt(one, i) else one;
    if i + 1 < |one| && one[i + 1].free {
      MergeKeeps(one, i, end);
      assert two[i + 0] == [Joined(one[i], one[i + 1])][0];
    }
    if i > 0 && two[i - 1].free { MergeKeeps(two, i - 1, end); }
  }

  lemma TakenKeeps(list: seq<Block>, i: nat, n: nat, end: nat)
    requires i < |list| && n <= list[i].size && list[i].free && n % ALIGNMENT == 0 && Laid(list, end)
    ensures Laid(Taken(list, i, n), end) && Taken(list, i, n) != []
    ensures Tiled(list, HEAP_START, end) ==> Tiled(Taken(list, i, n), HEAP_START, end)
    ensures Live(Taken(list, i, n)) == Live(list) + {Block(list[i].addr, TakenSize(list[i], n), false)}
  {
    hide Replace; hide Tiled; hide Live; hide Laid;
    if list[i].size >= n + HEADER + ALIGNMENT {
      var half := SplitAt(list, i, n);
      SplitKeeps(list, i, n, end);
      assert half[i + 0] == Halves(list[i], n)[0];
      MarkKeeps(half, i, false, end);
      TakeLive(half, i);
      assert Live(Taken(list, i, n)) == Live(list) + {Block(list[i].addr, n, false)};
    } else {
      MarkKeeps(list, i, false, end);
      TakeLive(list, i);
      assert Live(Taken(list, i, n)) == Live(list) + {Block(list[i].addr, list[i].size, false)};
    }
  }

  // ---------- growth ----------

  /** The list with a new free block in front of the new end of the mapped memory. */
  lemma AppendKeeps(list: seq<Block>, end: nat, end': nat)
    requires Laid(list, end) && HEAP_START <= end && end % PAGE == 0 && end' % PAGE == 0 && end + PAGE <= end'
    ensures var b := Block(end, end' - end - HEADER, true);
      && Laid(list + [b], end') && Live(list + [b]) == Live(list)
      && (Tiled(list, HEAP_START, end) ==> Tiled(list + [b], HEAP_START, end'))
  {
    hide Tiled; hide Live; hide Laid; hide Sound;
    var b := Block(end, end' - end - HEADER, true);
    PagesSound(end, end');
    AppendLaid(list, end, b, end');
    JoinLive(list, [b], []);
    assert list + [b] + [] == list + [b];
    NoneLive([b]);
    NoneLive([]);
    SpanOne(b);
    if Tiled(list, HEAP_START, end) { TiledJoin(list, [b], HEAP_START, end, end'); }
  }

  lemma PagesSound(end: nat, end': nat)
    requires HEAP_START <= end && end % PAGE == 0 && end' % PAGE == 0 && end + PAGE <= end'
    ensures Sound(Block(end, end' - end - HEADER, true), end')
  {
    var q, q' := end / PAGE, end' / PAGE;
    MultipleOf16(256 * q);
    MultipleOf16(256 * (q' - q) - 2);
    assert end == 16 * (256 * q) && end' - end - HEADER == 16 * (256 * (q' - q) - 2);
  }

  lemma MultipleOf16(m: int)
    ensures (16 * m) % 16 == 0
  {
  }

  lemma AppendLaid(list: seq<Block>, end: nat, b: Block, end': nat)
    requires Laid(list, end) && Sound(b, end') && end <= b.addr
    ensures Laid(list + [b], end')
  {
    var r := list + [b];
    forall i | 0 <= i < |list| ensures Sound(r[i], end') && End(r[i]) <= end { assert Sound(list[i], end); }
  }

  lemma AppendApart(list: seq<Block>, b: Block, n: nat)
    requires NoTwoFree(list) && b.free && n <= b.size
    ensures NoTwoFree(Taken(list + [b], |list|, n))
  {
    hide Replace;
    var l := list + [b];
    var i := |list|;
    if b.size >= n + HEADER + ALIGNMENT {
      TakenBlock(l, i, n);
      LastTwo(l, i, Block(b.addr, n, false), Block(b.addr + HEADER + n, b.size - n - HEADER, true));
    } else {
      var r := Marked(l, i, false);
      assert r[i + 0] == [b.(free := false)][0];
    }
  }

  lemma LastTwo(l: seq<Block>, i: nat, x: Block, y: Block)
    requires i + 1 == |l| && NoTwoFree(l[..i]) && !x.free
    ensures NoTwoFree(Replace(l, i, 1, [x, y]))
  {
    hide Replace;
    var r := Replace(l, i, 1, [x, y]);
    assert r[i + 0] == [x, y][0] && r[i + 1] == [x, y][1];
    forall j | 0 <= j < |r| - 1 ensures !(r[j].free && r[j + 1].free) {
      if j + 1 < i { assert l[..i][j] == r[j] && l[..i][j + 1] == r[j + 1]; }
    }
  }

  // ---------- what the invariants mean ----------

  /** Live payloads lie in the mapped heap, aligned, and two of them never overlap. */
  lemma LiveApart(list: seq<Block>, end: nat, a: Block, b: Block)
    requires Laid(list, end) && a in Live(list) && b in Live(list)
    ensures HEAP_START <= a.addr + HEADER && (a.addr + HEADER) % ALIGNMENT == 0 && End(a) <= end
    ensures a == b || End(a) <= b.addr || End(b) <= a.addr
  {
    var i :| 0 <= i < |list| && list[i] == a;
    var j :| 0 <= j < |list| && list[j] == b;
    assert Sound(list[i], end);
  }

  function Sum(list: seq<Block>, free: bool): nat {
    if list == [] then 0
    else Sum(list[..|list| - 1], free) + if list[|list| - 1].free == free then list[|list| - 1].size else 0
  }

  /** Nothing is lost: allocated and free bytes and one header for each block make up the tiled range. */
  lemma {:induction false} TotalsExact(list: seq<Block>, start: nat, end: nat)
    requires Tiled(list, start, end)
    ensures Sum(list, true) + Sum(list, false) + HEADER * |list| == end - start
    decreases |list|
  {
    if list != [] {
      var n := |list| - 1;
      var mid := TiledPrefix(list, n, start, end);
      assert list[n..] == [list[n]];
      SpanOne(list[n]);
      TotalsExact(list[..n], start, mid);
    }
  }

  /** The converse: a list laid out from the start whose totals make up the range has no gap. */
  lemma {:induction false} TotalsTile(list: seq<Block>, start: nat, end: nat)
    requires (forall i :: 0 <= i < |list| ==> start <= list[i].addr && End(list[i]) <= end) && start <= end
    requires forall i, j :: 0 <= i < j < |list| ==> End(list[i]) <= list[j].addr
    ensures Sum(list, true) + Sum(list, false) + HEADER * |list| <= end - start
    ensures Sum(list, true) + Sum(list, false) + HEADER * |list| == end - start ==> Tiled(list, start, end)
    decreases |list|
  {
    if list != [] {
      var n := |list| - 1;
      var last := list[n];
      TotalsTile(list[..n], start, last.addr);
      if Sum(list, true) + Sum(list, false) + HEADER * |list| == end - start {
        SpanOne(last);
        TiledJoin(list[..n], [last], start, last.addr, end);
        assert list == list[..n] + [last];
      }
    }
  }

  // ---------- conservation of bytes ----------

  /** The bytes of all blocks, headers included. */
  function Bytes(list: seq<Block>): nat {
    if list == [] then 0 else Bytes(list[..|list| - 1]) + HEADER + list[|list| - 1].size
  }

  lemma {:induction false} BytesAreTotals(list: seq<Block>)
    ensures Bytes(list) == Sum(list, true) + Sum(list, false) + HEADER * |list|
    decreases |list|
  {
    if list != [] { BytesAreTotals(list[..|list| - 1]); }
  }

  lemma {:induction false} BytesJoin(a: seq<Block>, b: seq<Block>)
    ensures Bytes(a + b) == Bytes(a) + Bytes(b)
    decreases |b|
  {
    if b == [] {
      assert a + b == a;
    } else {
      var n := |b| - 1;
      assert (a + b)[..|a| + n] == a + b[..n] && (a + b)[|a| + n] == b[n];
      BytesJoin(a, b[..n]);
    }
  }

  lemma ReplaceBytes(list: seq<Block>, i: nat, k: nat, mid: seq<Block>)
    requires i + k <= |list|
    ensures Bytes(Replace(list, i, k, mid)) + Bytes(list[i..i + k]) == Bytes(list) + Bytes(mid)
  {
    hide Bytes;
    var a, was, c := list[..i], list[i..i + k], list[i + k..];
    assert list == a + was + c;
    BytesJoin(a + was, c);
    BytesJoin(a, was);
    BytesJoin(a + mid, c);
    BytesJoin(a, mid);
  }

  lemma BytesOne(b: Block)
    ensures Bytes([b]) == HEADER + b.size
  {
    assert [b][..0] == [];
  }

  lemma BytesTwo(a: Block, b: Block)
    ensures Bytes([a, b]) == HEADER + a.size + HEADER + b.size
  {
    hide Bytes;
    BytesOne(a);
    BytesOne(b);
    BytesJoin([a], [b]);
    assert [a] + [b] == [a, b];
  }

  lemma ReplaceOne(list: seq<Block>, i: nat, mid: seq<Block>)
    requires i < |list|
    ensures Bytes(Replace(list, i, 1, mid)) + HEADER + list[i].size == Bytes(list) + Bytes(mid)
  {
    hide Bytes; hide Replace;
    ReplaceBytes(list, i, 1, mid);
    BytesOne(list[i]);
    assert list[i..i + 1] == [list[i]];
  }

  lemma MarkBytes(list: seq<Block>, i: nat, free: bool)
    requires i < |list|
    ensures Bytes(Marked(list, i, free)) == Bytes(list)
  {
    hide Bytes; hide Replace;
    ReplaceOne(list, i, [list[i].(free := free)]);
    BytesOne(list[i].(free := free));
  }

  lemma SplitBytes(list: seq<Block>, i: nat, n: nat)
    requires i < |list| && n + HEADER <= list[i].size
    ensures Bytes(SplitAt(list, i, n)) == Bytes(list)
  {
    hide Bytes; hide Replace;
    var h := Halves(list[i], n);
    ReplaceOne(list, i, h);
    BytesTwo(h[0], h[1]);
  }

  lemma MergeBytes(list: seq<Block>, i: nat)
    requires i + 1 < |list|
    ensures Bytes(MergeAt(list, i)) == Bytes(list)
  {
    hide Bytes; hide Replace;
    One(list, i);
    ReplaceBytes(list, i, 2, [Joined(list[i], list[i + 1])]);
    BytesTwo(list[i], list[i + 1]);
    BytesOne(Joined(list[i], list[i + 1]));
  }

  /** Taking and giving back move no byte into or out of the blocks. */
  lemma TakenBytes(list: seq<Block>, i: nat, n: nat)
    requires i < |list| && n <= list[i].size
    ensures Bytes(Taken(list, i, n)) == Bytes(list)
  {
    hide Bytes; hide Replace; hide Marked; hide SplitAt;
    if list[i].size >= n + HEADER + ALIGNMENT {
      SplitBytes(list, i, n);
      MarkBytes(SplitAt(list, i, n), i, false);
    } else {
      MarkBytes(list, i, false);
    }
  }

  lemma FreedBytes(list: seq<Block>, i: nat)
    requires i < |list|
    ensures Bytes(Freed(list, i)) == Bytes(list)
  {
    hide Bytes; hide Replace; hide Marked; hide MergeAt;
    var one := Marked(list, i, true);
    MarkBytes(list, i, true);
    var two := if i + 1 < |one| && one[i + 1].free then MergeAt(one, i) else one;
    if i + 1 < |one| && one[i + 1].free { MergeBytes(one, i); }
    if i > 0 && two[i - 1].free { MergeBytes(two, i - 1); }
  }

  // ---------- 64-bit arithmetic ----------

  function AlignUp(value: nat, align: nat): nat
    requires align == ALIGNMENT || align == PAGE
  {
    (value + align - 1) % WORD / align * align
  }

  /** Rounding up gives the next multiple exactly when it does not wrap around. */
  lemma AlignUpExact(value: nat, align: nat)
    requires value < WORD && (align == ALIGNMENT || align == PAGE)
    ensures AlignUp(value, align) >= value <==> value <= WORD - align
    ensures value <= WORD - align ==> AlignUp(value, align) < value + align
    ensures AlignUp(value, align) % align == 0 && AlignUp(value, align) <= WORD - align
    ensures value % align == 0 ==> AlignUp(value, align) == value
  {
    var v := value + align - 1;
    if value <= WORD - align {
      assert v % WORD == v;
    } else {
      assert v % WORD == v - WORD;
    }
    if align == ALIGNMENT { Floor16(value, v % WORD); } else { Floor4096(value, v % WORD); }
  }

  lemma Floor16(value: nat, w: nat)
    ensures w / 16 * 16 <= w < w / 16 * 16 + 16 && w / 16 * 16 % 16 == 0
    ensures w < WORD ==> w / 16 * 16 <= WORD - 16
    ensures value % 16 == 0 && w == value + 15 ==> w / 16 * 16 == value
  {
  }

  lemma Floor4096(value: nat, w: nat)
    ensures w / 4096 * 4096 <= w < w / 4096 * 4096 + 4096 && w / 4096 * 4096 % 4096 == 0
    ensures w < WORD ==> w / 4096 * 4096 <= WORD - 4096
    ensures value % 4096 == 0 && w == value + 4095 ==> w / 4096 * 4096 == value
  {
  }

  /** growHeap's limit test, in 64-bit arithmetic. */
  predicate OverLimit(mappedEnd: nat, bytes: nat) { (mappedEnd + bytes) % WORD > HEAP_LIMIT }

  /** The limit test answers rightly exactly when the sum does not wrap around. */
  lemma LimitTestExact(mappedEnd: nat, bytes: nat)
    requires mappedEnd <= HEAP_LIMIT && bytes < WORD
    ensures (OverLimit(mappedEnd, bytes) <==> mappedEnd + bytes > HEAP_LIMIT) <==> mappedEnd + bytes < WORD
  {
    if mappedEnd + bytes >= WORD {
      assert (mappedEnd + bytes) % WORD == mappedEnd + bytes - WORD;
    } else {
      assert (mappedEnd + bytes) % WORD == mappedEnd + bytes;
    }
  }
}
