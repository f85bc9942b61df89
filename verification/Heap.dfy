/** The kernel heap: a first-fit allocator over doubly linked block headers. */
module Heap {
  import opened HeapBlocks

  datatype Header = Header(size: nat, free: bool, next: nat, prev: nat)

  type Headers = map<nat, Header>

  function NextOf(list: seq<Block>, i: nat): nat { if i + 1 < |list| then list[i + 1].addr else 0 }

  function PrevOf(list: seq<Block>, i: nat): nat
    requires i <= |list|
  {
    if i > 0 then list[i - 1].addr else 0
  }

  /** The headers in memory are the blocks of the list, linked both ways. */
  ghost predicate Linked(mem: Headers, list: seq<Block>) {
    forall i :: 0 <= i < |list| ==>
      list[i].addr in mem && mem[list[i].addr] == Header(list[i].size, list[i].free, NextOf(list, i), PrevOf(list, i))
  }

  lemma LinkedAt(mem: Headers, list: seq<Block>, i: nat)
    requires Linked(mem, list) && i < |list|
    ensures list[i].addr in mem
    ensures mem[list[i].addr] == Header(list[i].size, list[i].free, NextOf(list, i), PrevOf(list, i))
  {
  }

  lemma Distinct(list: seq<Block>, end: nat, i: nat, j: nat)
    requires Laid(list, end) && i < |list| && j < |list|
    ensures list[i].addr == list[j].addr <==> i == j
    ensures list[i].addr != 0
  {
    assert Sound(list[i], end);
  }

  function SetPrev(mem: Headers, a: nat, p: nat): Headers
    requires a == 0 || a in mem
  {
    if a == 0 then mem else mem[a := mem[a].(prev := p)]
  }

  // ---------- link surgery ----------

  lemma MarkLinked(mem: Headers, list: seq<Block>, end: nat, i: nat, free: bool)
    requires Linked(mem, list) && Laid(list, end) && i < |list|
    ensures list[i].addr in mem && Linked(mem[list[i].addr := mem[list[i].addr].(free := free)], Marked(list, i, free))
  {
    hide Laid; hide Replace;
    LinkedAt(mem, list, i);
    var mem' := mem[list[i].addr := mem[list[i].addr].(free := free)];
    var r := Marked(list, i, free);
    assert r[i + 0] == [list[i].(free := free)][0];
    forall j | 0 <= j < |r|
      ensures r[j].addr in mem' && mem'[r[j].addr] == Header(r[j].size, r[j].free, NextOf(r, j), PrevOf(r, j))
    {
      LinkedAt(mem, list, j);
      Distinct(list, end, i, j);
    }
  }

  /** What kmalloc writes when it splits block a. */
  function SplitHeaders(mem: Headers, a: nat, n: nat): Headers
    requires a in mem && n + HEADER <= mem[a].size && (mem[a].next == 0 || mem[a].next in mem)
  {
    var c := a + HEADER + n;
    var one := mem[c := Header(mem[a].size - n - HEADER, true, mem[a].next, a)];
    var two := SetPrev(one, mem[a].next, c);
    two[a := Header(n, mem[a].free, c, mem[a].prev)]
  }

  lemma SplitLinked(mem: Headers, list: seq<Block>, end: nat, i: nat, n: nat)
    requires Linked(mem, list) && Laid(list, end) && i < |list| && n + HEADER <= list[i].size
    ensures var a := list[i].addr; a in mem && mem[a].size == list[i].size && (mem[a].next == 0 || mem[a].next in mem)
    ensures Linked(SplitHeaders(mem, list[i].addr, n), SplitAt(list, i, n))
  {
    hide Laid; hide Replace;
    LinkedAt(mem, list, i);
    if i + 1 < |list| { LinkedAt(mem, list, i + 1); }
    var a, r := list[i].addr, SplitAt(list, i, n);
    var mem' := SplitHeaders(mem, a, n);
    assert r[i + 0] == Halves(list[i], n)[0] && r[i + 1] == Halves(list[i], n)[1];
    forall j | 0 <= j < |r|
      ensures r[j].addr in mem' && mem'[r[j].addr] == Header(r[j].size, r[j].free, NextOf(r, j), PrevOf(r, j))
    {
      SplitLinkedAt(mem, list, end, i, n, j);
    }
  }

  lemma SplitLinkedAt(mem: Headers, list: seq<Block>, end: nat, i: nat, n: nat, j: nat)
    requires Linked(mem, list) && Laid(list, end) && i < |list| && n + HEADER <= list[i].size && j <= |list|
    requires var a := list[i].addr; a in mem && mem[a].size == list[i].size && (mem[a].next == 0 || mem[a].next in mem)
    ensures var mem', r := SplitHeaders(mem, list[i].addr, n), SplitAt(list, i, n);
      r[j].addr in mem' && mem'[r[j].addr] == Header(r[j].size, r[j].free, NextOf(r, j), PrevOf(r, j))
  {
    hide Laid; hide Replace; hide Linked;
    var r := SplitAt(list, i, n);
    assert r[i + 0] == Halves(list[i], n)[0] && r[i + 1] == Halves(list[i], n)[1];
    LinkedAt(mem, list, i);
    NewAddress(list, end, i, n);
    Distinct(list, end, i, i);
    if i + 1 < |list| { Distinct(list, end, i + 1, i); }
    if j < i {
      LinkedAt(mem, list, j);
      Distinct(list, end, i, j);
      if i + 1 < |list| { Distinct(list, end, i + 1, j); }
    } else if j > i + 1 {
      LinkedAt(mem, list, j - 1);
      Distinct(list, end, i, j - 1);
      Distinct(list, end, i + 1, j - 1);
    }
  }

  /** The second half lies inside the block, so it is no other block's address. */
  lemma NewAddress(list: seq<Block>, end: nat, i: nat, n: nat)
    requires Laid(list, end) && i < |list| && n + HEADER <= list[i].size
    ensures forall j :: 0 <= j < |list| ==> list[j].addr != list[i].addr + HEADER + n
  {
    forall j | 0 <= j < |list| ensures list[j].addr != list[i].addr + HEADER + n {
      if j < i { assert End(list[j]) <= list[i].addr; }
    }
  }

  /** What kfree writes when block a absorbs its successor. */
  function MergeHeaders(mem: Headers, a: nat): Headers
    requires a in mem && mem[a].next in mem && (mem[mem[a].next].next == 0 || mem[mem[a].next].next in mem)
  {
    var next := mem[mem[a].next];
    var one := mem[a := Header(mem[a].size + HEADER + next.size, mem[a].free, next.next, mem[a].prev)];
    SetPrev(one, next.next, a)
  }

  lemma MergeReady(mem: Headers, list: seq<Block>, i: nat)
    requires Linked(mem, list) && i + 1 < |list|
    ensures var a := list[i].addr;
      a in mem && mem[a].next in mem && (mem[mem[a].next].next == 0 || mem[mem[a].next].next in mem)
  {
    LinkedAt(mem, list, i);
    LinkedAt(mem, list, i + 1);
    if i + 2 < |list| { LinkedAt(mem, list, i + 2); }
  }

  lemma MergeLinked(mem: Headers, list: seq<Block>, end: nat, i: nat)
    requires Linked(mem, list) && Laid(list, end) && i + 1 < |list|
    ensures var a := list[i].addr;
      a in mem && mem[a].next in mem && (mem[mem[a].next].next == 0 || mem[mem[a].next].next in mem)
    ensures Linked(MergeHeaders(mem, list[i].addr), MergeAt(list, i))
  {
    hide Laid; hide Replace; hide MergeHeaders;
    MergeReady(mem, list, i);
    var r := MergeAt(list, i);
    var mem' := MergeHeaders(mem, list[i].addr);
    forall j | 0 <= j < |r|
      ensures r[j].addr in mem' && mem'[r[j].addr] == Header(r[j].size, r[j].free, NextOf(r, j), PrevOf(r, j))
    {
      MergeLinkedAt(mem, list, end, i, j);
    }
  }

  lemma MergeLinkedAt(mem: Headers, list: seq<Block>, end: nat, i: nat, j: nat)
    requires Linked(mem, list) && Laid(list, end) && i + 1 < |list| && j < |list| - 1
    requires var a := list[i].addr;
      a in mem && mem[a].next in mem && (mem[mem[a].next].next == 0 || mem[mem[a].next].next in mem)
    ensures var mem', r := MergeHeaders(mem, list[i].addr), MergeAt(list, i);
      r[j].addr in mem' && mem'[r[j].addr] == Header(r[j].size, r[j].free, NextOf(r, j), PrevOf(r, j))
  {
    hide Laid; hide Replace; hide Linked;
    var r := MergeAt(list, i);
    assert r[i + 0] == [Joined(list[i], list[i + 1])][0];
    LinkedAt(mem, list, i);
    LinkedAt(mem, list, i + 1);
    if i + 2 < |list| { Distinct(list, end, i + 2, i); }
    if j < i {
      LinkedAt(mem, list, j);
      Distinct(list, end, i, j);
      if i + 2 < |list| { Distinct(list, end, i + 2, j); }
    } else if j > i {
      LinkedAt(mem, list, j + 1);
      Distinct(list, end, i, j + 1);
      Distinct(list, end, i + 2, j + 1);
    }
  }

  lemma AppendLinked(mem: Headers, list: seq<Block>, end: nat, b: Block)
    requires Linked(mem, list) && Laid(list, end) && list != [] && b.addr >= end
    ensures list[|list| - 1].addr in mem && list[|list| - 1].addr != b.addr
    ensures var t := list[|list| - 1].addr;
      Linked(mem[b.addr := Header(b.size, b.free, 0, t)][t := mem[t].(next := b.addr)], list + [b])
  {
    var r, n := list + [b], |list|;
    var t := list[n - 1].addr;
    LinkedAt(mem, list, n - 1);
    assert Sound(list[n - 1], end);
    var mem' := mem[b.addr := Header(b.size, b.free, 0, t)][t := mem[t].(next := b.addr)];
    forall j | 0 <= j < |r|
      ensures r[j].addr in mem' && mem'[r[j].addr] == Header(r[j].size, r[j].free, NextOf(r, j), PrevOf(r, j))
    {
      if j < n {
        LinkedAt(mem, list, j);
        Distinct(list, end, j, n - 1);
        assert Sound(list[j], end);
      }
    }
  }

  // ---------- kmalloc as a function ----------

  predicate Fits(b: Block, n: nat) { b.free && b.size >= n }

  /** The first block that is free and large enough, or the length of the list. */
  function FirstFit(list: seq<Block>, n: nat): (i: nat)
    ensures i <= |list| && (i < |list| ==> Fits(list[i], n)) && forall j :: 0 <= j < i ==> !Fits(list[j], n)
  {
    if list == [] then 0 else if Fits(list[0], n) then 0 else 1 + FirstFit(list[1..], n)
  }

  lemma FirstFitIs(list: seq<Block>, n: nat, i: nat)
    requires i <= |list| && (i < |list| ==> Fits(list[i], n)) && forall j :: 0 <= j < i ==> !Fits(list[j], n)
    ensures FirstFit(list, n) == i
  {
    hide Fits; hide FirstFit;
  }

  /** The bytes by which the heap grows for a request of n. */
  function Growth(n: nat): nat { AlignUp(if n + HEADER < PAGE then PAGE else n + HEADER, PAGE) }

  datatype Outcome = Outcome(list: seq<Block>, mappedEnd: nat, ptr: nat, size: nat)

  /** Requests that keep the heap's 64-bit arithmetic from wrapping around. */
  predicate Modest(size: nat) { HEAP_LIMIT + size + HEADER + ALIGNMENT + PAGE <= WORD }

  lemma GrowthIs(n: nat)
    requires Modest(n)
    ensures n + HEADER <= Growth(n) && PAGE <= Growth(n) && Growth(n) % PAGE == 0 && HEAP_LIMIT + Growth(n) < WORD
    ensures LeastPages(n + 32, Growth(n))
  {
    hide AlignUp;
    AlignUpExact(if n + HEADER < PAGE then PAGE else n + HEADER, PAGE);
  }

  /** The least number of whole pages, at least one, that holds so many bytes. */
  predicate LeastPages(bytes: nat, grow: nat) {
    grow % 4096 == 0 && grow > 0 && bytes <= grow && (grow == 4096 || grow < bytes + 4096)
  }

  /** What a request of n bytes means. The first free block that is large enough is taken. Without one the heap grows by
      the least number of pages and the new block is taken, unless that passes the limit or the pages run out; then the
      answer is null and the blocks are as they were, though pages may have been mapped. */
  ghost predicate Answered(list: seq<Block>, end: nat, n: nat, pages: nat, list': seq<Block>, end': nat, ptr: nat) {
    && (forall i: nat :: Lowest(list, n, i) ==>
          ptr == list[i].addr + 32 && end' == end && list' == list[..i] + Cut(list[i], n) + list[i + 1..])
    && ((forall i: nat :: !Lowest(list, n, i)) ==>
          exists grow: nat :: LeastPages(n + 32, grow) && GrownFor(list, end, n, pages, grow, list', end', ptr))
  }

  /** Block i is the first that is free and has n bytes. */
  predicate Lowest(list: seq<Block>, n: nat, i: nat) {
    && i < |list| && list[i].free && list[i].size >= n
    && forall j :: 0 <= j < i ==> !(list[j].free && list[j].size >= n)
  }

  ghost predicate GrownFor(list: seq<Block>, end: nat, n: nat, pages: nat, grow: nat, list': seq<Block>, end': nat,
                           ptr: nat) {
    if end + grow > HEAP_LIMIT then ptr == 0 && end' == end && list' == list
    else if pages * 4096 < grow then ptr == 0 && end' == end + pages * 4096 && list' == list
    else ptr == end + 32 && end' == end + grow && grow >= 32 && list' == list + Cut(Block(end, grow - 32, true), n)
  }

  lemma LowestIs(list: seq<Block>, n: nat, i: nat)
    ensures Lowest(list, n, i) <==> i == FirstFit(list, n) && i < |list|
  {
    hide FirstFit;
    if Lowest(list, n, i) { FirstFitIs(list, n, i); }
  }

  lemma RequestAnswers(list: seq<Block>, end: nat, n: nat, pages: nat)
    requires Modest(n)
    ensures var o := Request(list, end, n, pages); Answered(list, end, n, pages, o.list, o.mappedEnd, o.ptr)
  {
    hide Growth; hide Taken; hide Cut; hide LeastPages; hide FirstFit; hide Lowest;
    GrowthIs(n);
    var i, o := FirstFit(list, n), Request(list, end, n, pages);
    forall j: nat ensures Lowest(list, n, j) <==> j == i && i < |list| { LowestIs(list, n, j); }
    if i < |list| {
      TakenMeans(list[..i], list[i], list[i + 1..], n);
      assert list[..i] + [list[i]] + list[i + 1..] == list;
      assert o.list == list[..i] + Cut(list[i], n) + list[i + 1..];
      assert Lowest(list, n, i);
    } else {
      var b := Block(end, Growth(n) - HEADER, true);
      TakenMeans(list, b, [], n);
      assert list + [b] + [] == list + [b] && list + Cut(b, n) + [] == list + Cut(b, n);
      assert GrownFor(list, end, n, pages, Growth(n), o.list, o.mappedEnd, o.ptr);
    }
  }

  /** A request of n bytes, n aligned, when at most pages pages can still be mapped. */
  function Request(list: seq<Block>, mappedEnd: nat, n: nat, pages: nat): Outcome
    requires Modest(n)
  {
    var i := FirstFit(list, n);
    GrowthIs(n);
    if i < |list| then Outcome(Taken(list, i, n), mappedEnd, list[i].addr + HEADER, TakenSize(list[i], n))
    else if mappedEnd + Growth(n) > HEAP_LIMIT then Outcome(list, mappedEnd, 0, 0)
    else if pages * PAGE < Growth(n) then Outcome(list, mappedEnd + pages * PAGE, 0, 0)
    else
      var b := Block(mappedEnd, Growth(n) - HEADER, true);
      Outcome(Taken(list + [b], |list|, n), mappedEnd + Growth(n), mappedEnd + HEADER, TakenSize(b, n))
  }

  /** The end of the mapped heap after it was asked to grow by bytes with so many pages left, in 64-bit arithmetic. */
  function Grown(end: nat, bytes: nat, pages: nat): nat {
    if OverLimit(end, bytes) then end else (end + if pages * PAGE < bytes then pages * PAGE else bytes) % WORD
  }

  lemma NextPage(start: nat, i: nat)
    ensures ((start + i * PAGE) % WORD + PAGE) % WORD == (start + (i + 1) * PAGE) % WORD
  {
  }

  lemma GrownSteps(end: nat, bytes: nat, pages: nat)
    requires bytes % PAGE == 0 && end < WORD
    ensures !OverLimit(end, bytes) ==>
      Grown(end, bytes, pages) == (end + (if pages < bytes / PAGE then pages else bytes / PAGE) * PAGE) % WORD
    ensures pages * PAGE >= bytes <==> pages >= bytes / PAGE
    ensures OverLimit(end, bytes) ==> Grown(end, bytes, pages) == end
  {
  }

  lemma GrownWithin(end: nat, bytes: nat, pages: nat)
    requires EndOk(end) && bytes % PAGE == 0 && bytes <= WORD - PAGE
    ensures EndOk(Grown(end, bytes, pages)) && end <= Grown(end, bytes, pages) <==>
      end + bytes < WORD || end + pages * PAGE <= HEAP_LIMIT
    ensures !OverLimit(end, bytes) && pages * PAGE >= bytes ==>
      (end <= Grown(end, bytes, pages) <==> end + bytes < WORD)
    ensures end + bytes < WORD ==>
      Grown(end, bytes, pages) ==
      if end + bytes > HEAP_LIMIT then end else end + if pages * PAGE < bytes then pages * PAGE else bytes
  {
    var m := if pages * PAGE < bytes then pages * PAGE else bytes;
    Reduced(end + bytes);
    Reduced(end + m);
    PagesTogether(end, pages);
    PagesTogether(end, bytes / PAGE);
  }

  lemma Reduced(x: nat)
    requires x < 2 * WORD
    ensures x % WORD == if x < WORD then x else x - WORD
  {
  }

  lemma PagesTogether(end: nat, k: nat)
    requires end % PAGE == 0
    ensures (end + k * PAGE) % PAGE == 0 && k * PAGE % PAGE == 0
  {
    var q := end / PAGE;
    assert end + k * PAGE == (q + k) * PAGE;
    WholePages(q + k);
    WholePages(k);
  }

  lemma WholePages(k: nat)
    ensures k * PAGE % PAGE == 0
  {
  }

  ghost predicate EndOk(end: nat) { HEAP_START <= end <= HEAP_LIMIT && end % PAGE == 0 }

  /** Every request keeps the layout, adds exactly the block it returns to the live ones, and opens a gap only
      when growth fails part-way. */
  lemma RequestKeeps(list: seq<Block>, end: nat, n: nat, pages: nat)
    requires Laid(list, end) && EndOk(end) && list != [] && Modest(n) && n % ALIGNMENT == 0
    ensures var o := Request(list, end, n, pages);
      o.list != [] && Laid(o.list, o.mappedEnd) && EndOk(o.mappedEnd) && end <= o.mappedEnd
    ensures var o := Request(list, end, n, pages); o.ptr == 0 ==> o.list == list
    ensures var o := Request(list, end, n, pages);
      o.ptr != 0 ==> o.size >= n && Live(o.list) == Live(list) + {Block(o.ptr - HEADER, o.size, false)}
    ensures var o := Request(list, end, n, pages);
      Tiled(list, HEAP_START, end) && (o.ptr != 0 || o.mappedEnd == end) ==> Tiled(o.list, HEAP_START, o.mappedEnd)
  {
    hide Tiled; hide Live; hide Taken; hide Growth; hide Laid;
    GrowthIs(n);
    var i := FirstFit(list, n);
    if i < |list| {
      TakenKeeps(list, i, n, end);
    } else if end + Growth(n) <= HEAP_LIMIT && pages * PAGE >= Growth(n) {
      var b := Block(end, Growth(n) - HEADER, true);
      AppendKeeps(list, end, end + Growth(n));
      assert (list + [b])[|list|] == b;
      TakenKeeps(list + [b], |list|, n, end + Growth(n));
    } else {
      LaidFurther(list, end, Request(list, end, n, pages).mappedEnd);
    }
  }

  /** A heap without gaps stays so exactly when the request does not fail part-way through growing. */
  lemma RequestTiles(list: seq<Block>, end: nat, n: nat, pages: nat)
    requires Laid(list, end) && EndOk(end) && list != [] && Modest(n) && n % ALIGNMENT == 0
    requires Tiled(list, HEAP_START, end)
    ensures var o := Request(list, end, n, pages);
      Tiled(o.list, HEAP_START, o.mappedEnd) <==> o.ptr != 0 || o.mappedEnd == end
  {
    hide Tiled; hide Request; hide Laid; hide Live;
    var o := Request(list, end, n, pages);
    RequestKeeps(list, end, n, pages);
    if o.ptr == 0 && Tiled(o.list, HEAP_START, o.mappedEnd) {
      TotalsExact(list, HEAP_START, end);
      TotalsExact(list, HEAP_START, o.mappedEnd);
    }
  }

  /** A request leaves the bytes outside the blocks as they were, and adds to them exactly what a growth that fails
      part-way has mapped. */
  lemma RequestBytes(list: seq<Block>, end: nat, n: nat, pages: nat)
    requires Modest(n)
    ensures var o := Request(list, end, n, pages);
      o.mappedEnd - Bytes(o.list) == end - Bytes(list) + if o.ptr == 0 then o.mappedEnd - end else 0
  {
    hide Bytes; hide Taken; hide Growth; hide FirstFit;
    GrowthIs(n);
    var i := FirstFit(list, n);
    if i < |list| {
      TakenBytes(list, i, n);
    } else if end + Growth(n) <= HEAP_LIMIT && pages * PAGE >= Growth(n) {
      var b := Block(end, Growth(n) - HEADER, true);
      assert (list + [b])[|list|] == b;
      TakenBytes(list + [b], |list|, n);
      BytesJoin(list, [b]);
      BytesOne(b);
    }
  }

  /** What has been given back can be asked for again: the request succeeds without growing the heap. */
  lemma FreedIsFound(list: seq<Block>, i: nat, end: nat, n: nat, pages: nat)
    requires i < |list| && n <= list[i].size && Modest(n)
    ensures var o := Request(Freed(list, i), end, n, pages); o.ptr != 0 && o.mappedEnd == end
  {
    hide Freed; hide FirstFit; hide Taken; hide Growth;
    var before, b, after := list[..i], list[i], list[i + 1..];
    assert list == before + [b] + after;
    FreedMeans(before, b, after);
    var freed := Freed(list, i);
    var k := if FreeLast(before) then i - 1 else i;
    assert k < |freed| && Fits(freed[k], n);
    FirstFound(freed, n, k);
  }

  lemma FirstFound(list: seq<Block>, n: nat, k: nat)
    requires k < |list| && Fits(list[k], n)
    ensures FirstFit(list, n) <= k
  {
    hide FirstFit;
  }

  lemma LaidFurther(list: seq<Block>, end: nat, end': nat)
    requires Laid(list, end) && end <= end'
    ensures Laid(list, end')
  {
    forall i | 0 <= i < |list| ensures Sound(list[i], end') { assert Sound(list[i], end); }
  }

  /** Once the heap has grown by a block that fits, the retry takes that block. */
  lemma RetrySucceeds(list: seq<Block>, end: nat, n: nat, pages: nat, pages': nat)
    requires FirstFit(list, n) == |list| && Modest(n) && end + Growth(n) <= HEAP_LIMIT && pages * PAGE >= Growth(n)
    ensures var b := Block(end, Growth(n) - HEADER, true);
      Fits(b, n) && Request(list + [b], end + Growth(n), n, pages') == Request(list, end, n, pages)
  {
    hide Growth; hide FirstFit; hide Taken;
    GrowthIs(n);
    var b := Block(end, Growth(n) - HEADER, true);
    assert (list + [b])[|list|] == b;
    FirstFitIs(list + [b], n, |list|);
  }

  /** Free neighbours: none at the outset, or only the block just appended after a search that found no fit. */
  ghost predicate Searchable(list: seq<Block>, n: nat) {
    NoTwoFree(list) || (list != [] && NoTwoFree(list[..|list| - 1]) && FirstFit(list, n) == |list| - 1)
  }

  lemma RequestApart(list: seq<Block>, end: nat, n: nat, pages: nat)
    requires Searchable(list, n) && Modest(n) && list != []
    ensures NoTwoFree(Request(list, end, n, pages).list)
  {
    hide Taken; hide Growth; hide FirstFit; hide NoTwoFree;
    GrowthIs(n);
    var i := FirstFit(list, n);
    if NoTwoFree(list) {
      if i < |list| {
        TakenApart(list, i, n);
      } else if end + Growth(n) <= HEAP_LIMIT && pages * PAGE >= Growth(n) {
        AppendApart(list, Block(end, Growth(n) - HEADER, true), n);
      }
    } else {
      assert list == list[..|list| - 1] + [list[i]];
      AppendApart(list[..|list| - 1], list[i], n);
    }
  }

  lemma SplitReady(mem: Headers, list: seq<Block>, i: nat)
    requires Linked(mem, list) && i < |list|
    ensures var a := list[i].addr; a in mem && (mem[a].next == 0 || mem[a].next in mem)
  {
    LinkedAt(mem, list, i);
    if i + 1 < |list| { LinkedAt(mem, list, i + 1); }
  }

  lemma SplitFirst(list: seq<Block>, i: nat, n: nat)
    requires i < |list| && n + HEADER <= list[i].size
    ensures SplitAt(list, i, n)[0].addr == list[0].addr
    ensures SplitAt(list, i, n)[i] == Block(list[i].addr, n, list[i].free)
  {
    hide Replace;
    assert SplitAt(list, i, n)[i + 0] == Halves(list[i], n)[0];
  }

  lemma MarkFirst(list: seq<Block>, i: nat, free: bool)
    requires i < |list|
    ensures Marked(list, i, free)[0].addr == list[0].addr && Marked(list, i, free)[i] == list[i].(free := free)
  {
    hide Replace;
    assert Marked(list, i, free)[i + 0] == [list[i].(free := free)][0];
  }

  predicate Acceptable(size: nat) { size <= WORD - ALIGNMENT && Modest(AlignUp(size, ALIGNMENT)) }

  function AddressAt(list: seq<Block>, i: nat): nat { if i < |list| then list[i].addr else 0 }

  lemma AtIndex(mem: Headers, list: seq<Block>, i: nat, a: nat)
    requires Linked(mem, list) && i <= |list| && a == AddressAt(list, i) && a != 0
    ensures i < |list| && a in mem && mem[a].next == AddressAt(list, i + 1)
  {
    LinkedAt(mem, list, i);
  }

  lemma Exhausted(list: seq<Block>, end: nat, i: nat)
    requires Laid(list, end) && i <= |list| && AddressAt(list, i) == 0
    ensures i == |list|
  {
    if i < |list| { Distinct(list, end, i, i); }
  }

  lemma FitsIs(b: Block, n: nat)
    ensures Fits(b, n) <==> b.free && b.size >= n
  {
  }

  lemma GrowthFor(n: nat)
    ensures Growth(n) == AlignUp(if n + HEADER < PAGE then PAGE else n + HEADER, PAGE)
  {
  }

  lemma RetryReady(list: seq<Block>, end: nat, n: nat)
    requires Searchable(list, n) && FirstFit(list, n) == |list| && Modest(n)
    ensures Growth(n) >= HEADER && Searchable(list + [Block(end, Growth(n) - HEADER, true)], n)
    ensures FirstFit(list + [Block(end, Growth(n) - HEADER, true)], n) == |list|
  {
    hide NoTwoFree; hide FirstFit; hide Growth;
    GrowthIs(n);
    var b := Block(end, Growth(n) - HEADER, true);
    assert (list + [b])[|list|] == b && (list + [b])[..|list|] == list;
    FirstFitIs(list + [b], n, |list|);
  }

  ghost function IndexOf(list: seq<Block>, ptr: nat): (i: nat)
    requires exists b :: b in Live(list) && b.addr + HEADER == ptr
    ensures i < |list| && !list[i].free && list[i].addr + HEADER == ptr
  {
    var b :| b in Live(list) && b.addr + HEADER == ptr;
    var i :| 0 <= i < |list| && list[i] == b;
    i
  }

  lemma OnlyAt(list: seq<Block>, end: nat, i: nat)
    requires Laid(list, end) && i < |list| && !list[i].free
    ensures forall b :: b in Live(list) - {list[i]} <==> b in Live(list) && b.addr != list[i].addr
  {
    forall b | b in Live(list) && b.addr == list[i].addr ensures b == list[i] {
      var j :| 0 <= j < |list| && list[j] == b;
      Distinct(list, end, i, j);
    }
  }

  lemma NowhereNull(list: seq<Block>)
    ensures forall i :: 0 <= i < |list| ==> list[i].addr + HEADER != 0
  {
  }

  lemma NullIsNotLive(list: seq<Block>)
    ensures forall b :: b in Live(list) ==> b.addr + HEADER != 0
  {
  }

  lemma MergeFirst(list: seq<Block>, i: nat)
    requires i + 1 < |list|
    ensures MergeAt(list, i)[0].addr == list[0].addr
  {
    hide Replace;
    assert MergeAt(list, i)[i + 0] == [Joined(list[i], list[i + 1])][0];
  }

  lemma MergedAt(list: seq<Block>, i: nat)
    requires i + 1 < |list|
    ensures MergeAt(list, i)[i] == Joined(list[i], list[i + 1]) && (i > 0 ==> MergeAt(list, i)[i - 1] == list[i - 1])
  {
    hide Replace;
    assert MergeAt(list, i)[i + 0] == [Joined(list[i], list[i + 1])][0];
  }

  /** The neighbours of a block, as its header shows them. */
  lemma NeighbourReady(mem: Headers, list: seq<Block>, end: nat, i: nat)
    requires Linked(mem, list) && Laid(list, end) && i < |list|
    ensures list[i].addr in mem && (mem[list[i].addr].next != 0 <==> i + 1 < |list|)
    ensures (mem[list[i].addr].prev != 0 <==> i > 0)
    ensures var h := mem[list[i].addr]; i + 1 < |list| ==> h.next in mem && mem[h.next].free == list[i + 1].free
    ensures var h := mem[list[i].addr];
      i > 0 ==> h.prev == list[i - 1].addr && h.prev in mem && mem[h.prev].free == list[i - 1].free
  {
    hide Laid;
    LinkedAt(mem, list, i);
    if i + 1 < |list| { LinkedAt(mem, list, i + 1); Distinct(list, end, i + 1, i + 1); }
    if i > 0 { LinkedAt(mem, list, i - 1); Distinct(list, end, i - 1, i - 1); }
  }

  class KernelHeap {
    var mem: Headers
    var first: nat
    var mappedEnd: nat
    ghost var list: seq<Block>

    /** Doubly linked, in address order, inside the mapped memory. */
    ghost predicate Shaped()
      reads this
    {
      list != [] && first == list[0].addr && Linked(mem, list) && Laid(list, mappedEnd) && EndOk(mappedEnd)
    }

    ghost predicate Valid()
      reads this
    {
      Shaped() && NoTwoFree(list)
    }

    /** init: pages is how many pages can still be mapped; with fewer than 16 the kernel stops here. */
    constructor (pages: nat)
      requires pages * PAGE >= HEAP_INITIAL
      ensures Valid() && list == [Block(HEAP_START, HEAP_INITIAL - HEADER, true)] && Tiled(list, HEAP_START, mappedEnd)
    {
      first, mappedEnd := 0, HEAP_START;
      new;
      var ok := GrowHeap(HEAP_INITIAL, pages);
      assert AlignUp(HEAP_INITIAL, PAGE) == HEAP_INITIAL;
      first := HEAP_START;
      mem := mem[HEAP_START := Header(HEAP_INITIAL - HEADER, true, 0, 0)];
      list := [Block(HEAP_START, HEAP_INITIAL - HEADER, true)];
      assert Sound(list[0], mappedEnd);
      SpanOne(list[0]);
    }

    /** growHeap maps whole pages until it has enough or no page is left. The end stays within the limit exactly if the
        limit test did not wrap around or the pages run out before the limit; and success has brought the bytes asked
        for exactly if neither the rounding nor the test wrapped around. */
    method GrowHeap(minBytes: nat, pages: nat) returns (ok: bool)
      requires EndOk(mappedEnd) && minBytes < WORD
      modifies this`mappedEnd
      ensures var bytes := AlignUp(minBytes, PAGE);
        && mappedEnd == Grown(old(mappedEnd), bytes, pages)
        && (ok <==> !OverLimit(old(mappedEnd), bytes) && pages * PAGE >= bytes)
        && (EndOk(mappedEnd) && old(mappedEnd) <= mappedEnd <==>
            old(mappedEnd) + bytes < WORD || old(mappedEnd) + pages * PAGE <= HEAP_LIMIT)
        && (ok ==> (mappedEnd >= old(mappedEnd) + minBytes <==>
                    minBytes <= WORD - PAGE && old(mappedEnd) + bytes < WORD))
    {
      hide AlignUp; hide Grown;
      AlignUpExact(minBytes, PAGE);
      var bytes := AlignUp(minBytes, PAGE);
      var needed := bytes / PAGE;
      GrownWithin(mappedEnd, bytes, pages);
      GrownSteps(mappedEnd, bytes, pages);
      if OverLimit(mappedEnd, bytes) { return false; }
      ghost var start := mappedEnd;
      var i := 0;
      while i < needed
        invariant i <= needed && i <= pages && mappedEnd == (start + i * PAGE) % WORD
      {
        if i == pages { return false; }
        NextPage(start, i);
        mappedEnd := (mappedEnd + PAGE) % WORD;
        i := i + 1;
      }
      return true;
    }

    /** Takes block a, splitting off what the request leaves over when that is worth a block. */
    method TakeBlock(a: nat, n: nat, ghost i: nat)
      requires Shaped() && i < |list| && list[i].addr == a && Fits(list[i], n) && n % ALIGNMENT == 0
      modifies this`mem, this`list
      ensures Shaped() && list == Taken(old(list), i, n)
    {
      hide Laid; hide Linked; hide SplitAt; hide Marked;
      LinkedAt(mem, list, i);
      SplitReady(mem, list, i);
      if mem[a].size >= n + HEADER + ALIGNMENT {
        SplitLinked(mem, list, mappedEnd, i, n);
        SplitKeeps(list, i, n, mappedEnd);
        SplitFirst(list, i, n);
        var newBlock := a + HEADER + n;
        var next := mem[a].next;
        ghost var was := mem;
        if i + 1 < |list| { Distinct(list, mappedEnd, i, i + 1); }
        mem := mem[newBlock := Header(mem[a].size - n - HEADER, true, next, a)];
        if next != 0 { mem := mem[next := mem[next].(prev := newBlock)]; }
        mem := mem[a := mem[a].(size := n, next := newBlock)];
        assert mem == SplitHeaders(was, a, n);
        list := SplitAt(list, i, n);
      }
      MarkLinked(mem, list, mappedEnd, i, false);
      MarkKeeps(list, i, false, mappedEnd);
      MarkFirst(list, i, false);
      mem := mem[a := mem[a].(free := false)];
      list := Marked(list, i, false);
    }

    /** kmalloc, when at most pages more pages can be mapped. The measure allows one retry, from no fit to a fit. */
    method Kmalloc(size: nat, pages: nat) returns (ptr: nat)
      requires Shaped() && Acceptable(size) && Searchable(list, AlignUp(size, ALIGNMENT))
      modifies this
      ensures Shaped() && (old(NoTwoFree(list)) || size > 0 ==> NoTwoFree(list))
      ensures size == 0 ==> ptr == 0 && list == old(list) && mappedEnd == old(mappedEnd)
      ensures size > 0 ==> var o := Request(old(list), old(mappedEnd), AlignUp(size, ALIGNMENT), pages);
        list == o.list && mappedEnd == o.mappedEnd && ptr == o.ptr
      ensures size > 0 ==> var n := AlignUp(size, ALIGNMENT);
        && size <= n < size + 16 && n % 16 == 0
        && Answered(old(list), old(mappedEnd), n, pages, list, mappedEnd, ptr)
      decreases if FirstFit(list, AlignUp(size, ALIGNMENT)) < |list| then 0 else 1
    {
      hide Laid; hide Linked; hide AlignUp; hide Growth; hide FirstFit; hide Taken; hide NoTwoFree; hide Searchable;
      hide Fits; hide Answered;
      if size == 0 { return 0; }
      AlignUpExact(size, ALIGNMENT);
      var n := AlignUp(size, ALIGNMENT);
      RequestAnswers(list, mappedEnd, n, pages);
      RequestApart(list, mappedEnd, n, pages);
      var block := first;
      ghost var i := 0;
      while block != 0
        invariant unchanged(this) && i <= |list| && block == AddressAt(list, i)
        invariant forall j :: 0 <= j < i ==> !Fits(list[j], n)
        decreases |list| - i
      {
        AtIndex(mem, list, i, block);
        LinkedAt(mem, list, i);
        if mem[block].free && mem[block].size >= n {
          FitsIs(list[i], n);
          FirstFitIs(list, n, i);
          TakeBlock(block, n, i);
          return block + HEADER;
        }
        FitsIs(list[i], n);
        block, i := mem[block].next, i + 1;
      }
      Exhausted(list, mappedEnd, i);
      FirstFitIs(list, n, i);
      GrowthIs(n);
      var grow := n + HEADER;
      if grow < PAGE { grow := PAGE; }
      var newBlock := mappedEnd;
      GrowthFor(n);
      GrownWithin(mappedEnd, Growth(n), pages);
      LimitTestExact(mappedEnd, Growth(n));
      var ok := GrowHeap(grow, pages);
      if !ok {
        LaidFurther(list, newBlock, mappedEnd);
        return 0;
      }
      AppendBlock(newBlock);
      RetrySucceeds(old(list), newBlock, n, pages, pages);
      RetryReady(old(list), newBlock, n);
      AlignUpExact(n, ALIGNMENT);
      ptr := Kmalloc(n, pages);
    }

    /** The new block behind the tail of the list. */
    method AppendBlock(newBlock: nat)
      requires list != [] && first == list[0].addr && Linked(mem, list) && Laid(list, newBlock) && EndOk(newBlock)
      requires EndOk(mappedEnd) && newBlock + PAGE <= mappedEnd
      modifies this`mem, this`list
      ensures Shaped() && list == old(list) + [Block(newBlock, mappedEnd - newBlock - HEADER, true)]
    {
      hide Laid; hide Linked;
      var b := Block(newBlock, mappedEnd - newBlock - HEADER, true);
      AppendLinked(mem, list, newBlock, b);
      AppendKeeps(list, newBlock, mappedEnd);
      var tail := first;
      ghost var i := 0;
      Distinct(list, newBlock, 0, 0);
      LinkedAt(mem, list, 0);
      while mem[tail].next != 0
        invariant unchanged(this) && i < |list| && tail == list[i].addr && tail in mem
        invariant mem[tail].next == NextOf(list, i)
        decreases |list| - i
      {
        LinkedAt(mem, list, i + 1);
        tail, i := mem[tail].next, i + 1;
      }
      if i + 1 < |list| { Distinct(list, newBlock, i + 1, i + 1); }
      mem := mem[newBlock := Header(b.size, true, 0, tail)];
      mem := mem[tail := mem[tail].(next := newBlock)];
      list := list + [b];
    }

    /** Block i absorbs its successor. */
    method MergeNext(a: nat, ghost i: nat)
      requires Shaped() && i + 1 < |list| && list[i].addr == a && list[i].free && list[i + 1].free
      modifies this`mem, this`list
      ensures Shaped() && list == MergeAt(old(list), i)
    {
      hide Laid; hide Linked; hide MergeAt;
      MergeLinked(mem, list, mappedEnd, i);
      MergeKeeps(list, i, mappedEnd);
      MergeFirst(list, i);
      var next := mem[a].next;
      var after := mem[next].next;
      ghost var was := mem;
      mem := mem[a := mem[a].(size := mem[a].size + HEADER + mem[next].size, next := after)];
      if after != 0 { mem := mem[after := mem[after].(prev := a)]; }
      assert mem == MergeHeaders(was, a);
      list := MergeAt(list, i);
    }

    /** kfree of null or of a live payload. */
    method Kfree(ptr: nat)
      requires Valid() && (ptr == 0 || exists b :: b in Live(list) && b.addr + HEADER == ptr)
      modifies this`mem, this`list
      ensures Valid() && (ptr == 0 ==> list == old(list))
      ensures forall b :: b in Live(list) <==> b in Live(old(list)) && b.addr + HEADER != ptr
      ensures forall i :: 0 <= i < |old(list)| && old(list)[i].addr + HEADER == ptr ==> list == Freed(old(list), i)
      ensures Tiled(old(list), HEAP_START, mappedEnd) ==> Tiled(list, HEAP_START, mappedEnd)
    {
      hide Laid; hide Linked; hide MergeAt; hide Marked; hide Live; hide Tiled; hide NoTwoFree;
      if ptr == 0 {
        NullIsNotLive(list);
        NowhereNull(list);
        return;
      }
      ghost var i := IndexOf(list, ptr);
      forall j | 0 <= j < |list| && list[j].addr + HEADER == ptr ensures j == i { Distinct(list, mappedEnd, i, j); }
      FreedKeeps(list, i, mappedEnd);
      FreedApart(list, i);
      OnlyAt(list, mappedEnd, i);
      var block := ptr - HEADER;
      MarkLinked(mem, list, mappedEnd, i, true);
      MarkKeeps(list, i, true, mappedEnd);
      MarkFirst(list, i, true);
      mem := mem[block := mem[block].(free := true)];
      list := Marked(list, i, true);
      ghost var one := list;
      NeighbourReady(mem, list, mappedEnd, i);
      if mem[block].next != 0 && mem[mem[block].next].free {
        MergeNext(block, i);
        MergedAt(one, i);
      }
      NeighbourReady(mem, list, mappedEnd, i);
      if mem[block].prev != 0 && mem[mem[block].prev].free {
        MergeNext(mem[block].prev, i - 1);
      }
    }

    method TotalAllocated() returns (total: nat)
      requires Shaped()
      ensures total == Sum(list, false)
    {
      total := Total(false);
    }

    method TotalFree() returns (total: nat)
      requires Shaped()
      ensures total == Sum(list, true)
    {
      total := Total(true);
    }

    method Total(free: bool) returns (total: nat)
      requires Shaped()
      ensures total == Sum(list, free)
    {
      hide Laid; hide Linked;
      var block := first;
      ghost var i := 0;
      total := 0;
      while block != 0
        invariant i <= |list| && block == AddressAt(list, i) && total == Sum(list[..i], free)
        decreases |list| - i
      {
        AtIndex(mem, list, i, block);
        LinkedAt(mem, list, i);
        if mem[block].free == free { total := total + mem[block].size; }
        assert list[..i + 1][..i] == list[..i];
        block, i := mem[block].next, i + 1;
      }
      Exhausted(list, mappedEnd, i);
      assert list[..i] == list;
    }
  }
}
