/** Whole runs of kmalloc and kfree. */
module HeapRun {
  import opened HeapBlocks
  import opened Heap

  /** pages is how many pages can still be mapped when the request is made. */
  datatype Op = Malloc(size: nat, pages: nat) | Free(ptr: nat)

  function Payload(b: Block): nat { b.addr + HEADER }

  /** The pointers handed out and not given back, with the sizes asked for, are the live blocks. */
  ghost predicate Covers(held: map<nat, nat>, list: seq<Block>) {
    && (forall b :: b in Live(list) ==> Payload(b) in held && held[Payload(b)] <= b.size)
    && (forall p :: p in held ==> exists b :: b in Live(list) && Payload(b) == p)
  }

  /** Every pointer handed out has its bytes, aligned, mapped and to itself. */
  ghost predicate Served(held: map<nat, nat>, end: nat) {
    && (forall p :: p in held ==> p % ALIGNMENT == 0 && HEAP_START <= p && p + held[p] <= end)
    && (forall p, q :: p in held && q in held && p != q ==> p + held[p] <= q || q + held[q] <= p)
  }

  lemma BlockOf(held: map<nat, nat>, list: seq<Block>, p: nat) returns (b: Block)
    requires Covers(held, list) && p in held
    ensures b in Live(list) && b.addr + HEADER == p && held[p] <= b.size
  {
    hide Live;
    b :| b in Live(list) && Payload(b) == p;
  }

  lemma PairServed(held: map<nat, nat>, list: seq<Block>, end: nat, p: nat, q: nat)
    requires Covers(held, list) && Laid(list, end) && p in held && q in held
    ensures p % ALIGNMENT == 0 && HEAP_START <= p && p + held[p] <= end
    ensures p != q ==> p + held[p] <= q || q + held[q] <= p
  {
    hide Laid; hide Live; hide Covers;
    var a := BlockOf(held, list, p);
    var b := BlockOf(held, list, q);
    LiveApart(list, end, a, b);
  }

  lemma CoveredIsServed(held: map<nat, nat>, list: seq<Block>, end: nat)
    requires Covers(held, list) && Laid(list, end)
    ensures Served(held, end)
  {
    hide Laid; hide Covers;
    forall p, q | p in held && q in held
      ensures p % ALIGNMENT == 0 && HEAP_START <= p && p + held[p] <= end
      ensures (p != q ==> p + held[p] <= q || q + held[q] <= p)
    {
      PairServed(held, list, end, p, q);
    }
  }

  /** A request returns memory that no live block starts at. */
  lemma RequestFresh(list: seq<Block>, end: nat, n: nat, pages: nat, b: Block)
    requires Laid(list, end) && Modest(n) && b in Live(list) && Request(list, end, n, pages).ptr != 0
    ensures b.addr + HEADER != Request(list, end, n, pages).ptr
  {
    hide Laid; hide Taken; hide Growth; hide FirstFit;
    var j :| 0 <= j < |list| && list[j] == b;
    var i := FirstFit(list, n);
    if i < |list| {
      Distinct(list, end, i, j);
    } else {
      LiveApart(list, end, b, b);
    }
  }

  lemma MallocCovers(held: map<nat, nat>, list: seq<Block>, end: nat, size: nat, n: nat, pages: nat)
    requires Covers(held, list) && Laid(list, end) && EndOk(end) && list != [] && Modest(n) && n % ALIGNMENT == 0
    requires size <= n
    ensures var o := Request(list, end, n, pages); Covers(if o.ptr == 0 then held else held[o.ptr := size], o.list)
    ensures Request(list, end, n, pages).ptr !in held
  {
    hide Laid; hide Live; hide Request; hide EndOk; hide Covers;
    var o := Request(list, end, n, pages);
    RequestKeeps(list, end, n, pages);
    if o.ptr == 0 {
      NullNotHeld(held, list);
    } else {
      forall b | b in Live(list) ensures Payload(b) != o.ptr { RequestFresh(list, end, n, pages, b); }
      OneCovered(held, list, o.list, Block(o.ptr - HEADER, o.size, false), size);
    }
  }

  lemma OneCovered(held: map<nat, nat>, list: seq<Block>, list': seq<Block>, c: Block, size: nat)
    requires Covers(held, list) && Live(list') == Live(list) + {c} && size <= c.size
    requires forall b :: b in Live(list) ==> Payload(b) != Payload(c)
    ensures Covers(held[Payload(c) := size], list') && Payload(c) !in held
  {
    hide Live; hide Payload;
    assert c in Live(list');
  }

  lemma NullNotHeld(held: map<nat, nat>, list: seq<Block>)
    requires Covers(held, list)
    ensures 0 !in held
  {
    hide Live;
  }

  lemma FreeCovers(held: map<nat, nat>, list: seq<Block>, list': seq<Block>, ptr: nat)
    requires Covers(held, list) && forall b :: b in Live(list') <==> b in Live(list) && Payload(b) != ptr
    ensures Covers(held - {ptr}, list')
  {
    hide Live; hide Payload;
  }

  // ---------- runs ----------

  /** The block list, the end of the mapped memory, and the pointers out with the sizes asked for. */
  datatype State = State(list: seq<Block>, end: nat, held: map<nat, nat>)

  predicate Legal(op: Op) { op.Malloc? ==> Acceptable(op.size) }

  /** What kmalloc does with the request in this state. */
  function Outcomes(s: State, op: Op): Outcome
    requires Legal(op) && op.Malloc?
  {
    Request(s.list, s.end, AlignUp(op.size, ALIGNMENT), op.pages)
  }

  /** A growth that maps some pages and then finds no more. */
  predicate PartWay(s: State, op: Op)
    requires Legal(op)
  {
    op.Malloc? && op.size > 0 && Outcomes(s, op).ptr == 0 && Outcomes(s, op).mappedEnd != s.end
  }

  /** Where the block with that payload stands in the list. */
  function IndexAt(list: seq<Block>, ptr: nat): (i: nat)
    ensures i <= |list| && (i < |list| ==> list[i].addr + HEADER == ptr)
    ensures i == |list| ==> forall j :: 0 <= j < |list| ==> list[j].addr + HEADER != ptr
  {
    if list == [] then 0 else if list[0].addr + HEADER == ptr then 0 else 1 + IndexAt(list[1..], ptr)
  }

  /** One operation; a pointer that is not out is not freed. */
  function Step(s: State, op: Op): State
    requires Legal(op)
  {
    match op
    case Malloc(size, pages) =>
      if size == 0 then s
      else
        var o := Outcomes(s, op);
        State(o.list, o.mappedEnd, if o.ptr == 0 then s.held else s.held[o.ptr := size])
    case Free(p) =>
      if p in s.held && IndexAt(s.list, p) < |s.list| then State(Freed(s.list, IndexAt(s.list, p)), s.end, s.held - {p})
      else s
  }

  ghost predicate Inv(s: State) {
    s.list != [] && Laid(s.list, s.end) && EndOk(s.end) && NoTwoFree(s.list) && Covers(s.held, s.list)
  }

  /** Mapped bytes that belong to no block. */
  function Slack(s: State): int { s.end - HEAP_START - Bytes(s.list) }

  lemma AlignedRequest(size: nat)
    requires Acceptable(size)
    ensures var n := AlignUp(size, ALIGNMENT); Modest(n) && n % ALIGNMENT == 0 && size <= n
  {
    hide AlignUp;
    AlignUpExact(size, ALIGNMENT);
  }

  lemma Searched(list: seq<Block>, n: nat)
    requires NoTwoFree(list)
    ensures Searchable(list, n)
  {
    hide NoTwoFree; hide FirstFit;
  }

  lemma HeldIsThere(held: map<nat, nat>, list: seq<Block>, end: nat, p: nat)
    requires Covers(held, list) && Laid(list, end) && p in held
    ensures IndexAt(list, p) < |list| && !list[IndexAt(list, p)].free
    ensures exists b :: b in Live(list) && b.addr + HEADER == p
  {
    hide Laid;
    var b := BlockOf(held, list, p);
    var j :| 0 <= j < |list| && list[j] == b;
    Distinct(list, end, j, IndexAt(list, p));
  }

  lemma MallocKeeps(s: State, op: Op)
    requires Inv(s) && Legal(op) && op.Malloc? && op.size > 0
    ensures Inv(Step(s, op))
  {
    hide Laid; hide Live; hide NoTwoFree; hide Covers; hide EndOk; hide Request; hide AlignUp; hide Modest;
    var n := AlignUp(op.size, ALIGNMENT);
    AlignedRequest(op.size);
    Searched(s.list, n);
    RequestKeeps(s.list, s.end, n, op.pages);
    RequestApart(s.list, s.end, n, op.pages);
    MallocCovers(s.held, s.list, s.end, op.size, n, op.pages);
  }

  lemma FreeKeeps(s: State, p: nat)
    requires Inv(s) && p in s.held
    ensures Inv(Step(s, Free(p)))
  {
    hide Laid; hide Live; hide NoTwoFree; hide Covers; hide EndOk; hide Freed; hide IndexAt;
    HeldIsThere(s.held, s.list, s.end, p);
    var i := IndexAt(s.list, p);
    FreedKeeps(s.list, i, s.end);
    FreedApart(s.list, i);
    OnlyAt(s.list, s.end, i);
    FreeCovers(s.held, s.list, Freed(s.list, i), p);
  }

  /** Each operation keeps the list's shape, keeps free blocks apart and each pointer's bytes its own; and the bytes
      that belong to no block grow by exactly what a growth that fails part-way has mapped. */
  lemma StepKeeps(s: State, op: Op)
    requires Inv(s) && Legal(op)
    ensures Inv(Step(s, op))
    ensures Slack(Step(s, op)) == Slack(s) + if PartWay(s, op) then Step(s, op).end - s.end else 0
    ensures s.end <= Step(s, op).end
  {
    hide Inv; hide Request; hide Bytes; hide Freed; hide AlignUp; hide IndexAt; hide Modest;
    match op
    case Malloc(size, pages) =>
      if size > 0 {
        AlignedRequest(size);
        MallocKeeps(s, op);
        RequestBytes(s.list, s.end, AlignUp(size, ALIGNMENT), pages);
        RequestGrows(s.list, s.end, AlignUp(size, ALIGNMENT), pages);
      }
    case Free(p) =>
      if p in s.held {
        FreeKeeps(s, p);
        if IndexAt(s.list, p) < |s.list| { FreedBytes(s.list, IndexAt(s.list, p)); }
      }
  }

  lemma RequestGrows(list: seq<Block>, end: nat, n: nat, pages: nat)
    requires Modest(n)
    ensures end <= Request(list, end, n, pages).mappedEnd
  {
    hide Taken; hide FirstFit; hide Growth;
  }

  ghost predicate Trace(ops: seq<Op>, trace: seq<State>) {
    && |trace| == |ops| + 1
    && forall i :: 0 <= i < |ops| ==> Legal(ops[i]) && trace[i + 1] == Step(trace[i], ops[i])
  }

  /** Some growth of the run failed part-way. */
  ghost predicate Gap(ops: seq<Op>, trace: seq<State>)
    requires Trace(ops, trace)
  {
    exists i :: 0 <= i < |ops| && PartWay(trace[i], ops[i])
  }

  /** Over whole runs: the invariant holds, and the bytes without a block grow exactly when a growth fails part-way. */
  lemma {:induction false} TraceKeeps(ops: seq<Op>, trace: seq<State>, n: nat)
    requires Trace(ops, trace) && Inv(trace[0]) && n <= |ops|
    ensures Inv(trace[n]) && Slack(trace[n]) >= Slack(trace[0])
    ensures Slack(trace[n]) == Slack(trace[0]) <==> forall i :: 0 <= i < n ==> !PartWay(trace[i], ops[i])
    decreases n
  {
    hide Inv; hide Slack; hide Step; hide PartWay;
    if n > 0 {
      TraceKeeps(ops, trace, n - 1);
      StepKeeps(trace[n - 1], ops[n - 1]);
      PartWayGrows(trace[n - 1], ops[n - 1]);
    }
  }

  lemma PartWayGrows(s: State, op: Op)
    requires Legal(op)
    ensures PartWay(s, op) ==> Step(s, op).end != s.end
  {
  }

  /** Every pointer still out has its bytes to itself; allocated and free bytes and headers make up the mapped heap
      exactly when no growth of the run failed part-way. */
  lemma RunMeans(ops: seq<Op>, trace: seq<State>)
    requires Trace(ops, trace) && Inv(trace[0]) && Slack(trace[0]) == 0
    ensures var s := trace[|ops|]; Inv(s) && Served(s.held, s.end)
    ensures var s := trace[|ops|];
      Sum(s.list, true) + Sum(s.list, false) + HEADER * |s.list| == s.end - HEAP_START <==> !Gap(ops, trace)
  {
    hide Step; hide PartWay; hide Laid; hide NoTwoFree; hide Covers; hide Served; hide Bytes; hide Sum; hide EndOk;
    TraceKeeps(ops, trace, |ops|);
    var s := trace[|ops|];
    CoveredIsServed(s.held, s.list, s.end);
    BytesAreTotals(s.list);
  }

  ghost function View(heap: KernelHeap, held: map<nat, nat>): State
    reads heap
  {
    State(heap.list, heap.mappedEnd, held)
  }

  /** The heap through a whole run: its states are those of the step function, held is exactly the pointers returned and
      not freed with the sizes asked for, and gap tells whether a growth failed part-way. */
  method Run(heap: KernelHeap, ops: seq<Op>) returns (held: map<nat, nat>, gap: bool, ghost trace: seq<State>)
    requires heap.Valid() && Live(heap.list) == {} && Bytes(heap.list) == heap.mappedEnd - HEAP_START
    requires forall i :: 0 <= i < |ops| ==> Legal(ops[i])
    modifies heap
    ensures heap.Valid() && Trace(ops, trace) && trace[0] == State(old(heap.list), old(heap.mappedEnd), map[])
    ensures trace[|ops|] == View(heap, held) && (gap <==> Gap(ops, trace))
    ensures Covers(held, heap.list) && Served(held, heap.mappedEnd)
    ensures Sum(heap.list, true) + Sum(heap.list, false) + HEADER * |heap.list| == heap.mappedEnd - HEAP_START <==> !gap
  {
    hide Laid; hide Live; hide Linked; hide NoTwoFree; hide Covers; hide Served; hide Sum; hide Bytes; hide EndOk;
    hide Step; hide PartWay; hide Legal;
    held, gap := map[], false;
    NothingHeld(heap.list);
    trace := [View(heap, held)];
    var i := 0;
    while i < |ops|
      invariant i <= |ops| && heap.Valid() && |trace| == i + 1 && trace[i] == View(heap, held) && Inv(trace[i])
      invariant trace[0] == State(old(heap.list), old(heap.mappedEnd), map[])
      invariant forall k :: 0 <= k < i ==> Legal(ops[k]) && trace[k + 1] == Step(trace[k], ops[k])
      invariant gap <==> exists k :: 0 <= k < i && PartWay(trace[k], ops[k])
    {
      StepKeeps(trace[i], ops[i]);
      var part;
      held, part := Perform(heap, ops[i], held);
      trace := trace + [View(heap, held)];
      if part { gap := true; }
      i := i + 1;
    }
    RunMeans(ops, trace);
  }

  method Perform(heap: KernelHeap, op: Op, held: map<nat, nat>) returns (held': map<nat, nat>, part: bool)
    requires heap.Valid() && Inv(View(heap, held)) && Legal(op)
    modifies heap
    ensures heap.Valid() && View(heap, held') == Step(old(View(heap, held)), op)
    ensures part <==> PartWay(old(View(heap, held)), op)
  {
    hide Laid; hide Live; hide Linked; hide NoTwoFree; hide Covers; hide EndOk; hide Request; hide AlignUp;
    hide Freed; hide IndexAt; hide Modest;
    held', part := held, false;
    match op
    case Malloc(size, pages) =>
      Searched(heap.list, AlignUp(size, ALIGNMENT));
      if size > 0 { AlignedRequest(size); }
      var end := heap.mappedEnd;
      var p := heap.Kmalloc(size, pages);
      if p != 0 { held' := held[p := size]; } else { part := heap.mappedEnd != end; }
    case Free(p) =>
      if p in held {
        HeldIsThere(held, heap.list, heap.mappedEnd, p);
        heap.Kfree(p);
        held' := held - {p};
      }
  }

  lemma NothingHeld(list: seq<Block>)
    requires Live(list) == {}
    ensures Covers(map[], list)
  {
  }
}
