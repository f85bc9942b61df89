/** Whole runs of the virtual memory manager, from the tables that boot builds. */
module VmmRun {
  import opened Paging
  import opened AddressSpaces
  import opened Pmm
  import opened Vmm

  // ---------- the boot tables ----------

  function TopEntry(p4: nat, lo: nat, hi: nat, i: nat): Entry {
    if i == 0 then Entry(lo, 7) else if i == 511 then Entry(hi, 3) else if i == 510 then Entry(p4, 3) else Entry(0, 0)
  }

  /** setup_page_tables: one page directory of 512 large pages, hung under slots 0, 0 and 511, 510. */
  ghost predicate BootTables(mem: Memory, p4: nat, lo: nat, hi: nat, p2: nat) {
    && p4 != lo && p4 != hi && p4 != p2 && lo != hi && lo != p2 && hi != p2
    && (forall i :: 0 <= i < ENTRIES ==> Load(mem, p4, i) == TopEntry(p4, lo, hi, i))
    && (forall i :: 0 <= i < ENTRIES ==> Load(mem, lo, i) == if i == 0 then Entry(p2, 7) else Entry(0, 0))
    && (forall i :: 0 <= i < ENTRIES ==> Load(mem, hi, i) == if i == 510 then Entry(p2, 3) else Entry(0, 0))
    && (forall i :: 0 <= i < ENTRIES ==> Load(mem, p2, i) == Entry(512 * i, 0x83))
  }

  function BootOwners(p4: nat, lo: nat, hi: nat, p2: nat): map<nat, Id> {
    map[p4 := User(p4, []), lo := Kernel([0]), hi := Kernel([511]), p2 := Kernel([0, 0])]
  }

  lemma BootFlags()
    ensures !Link(Entry(0, 0)) && !Present(Entry(0, 0)) && !Large(Entry(0, 0))
    ensures forall f: nat :: Link(Entry(f, 7)) && Link(Entry(f, 3)) && !Link(Entry(f, 0x83))
  {
  }

  /** The table, if any, that boot put at the end of each path. */
  lemma BootDescend(mem: Memory, p4: nat, lo: nat, hi: nat, p2: nat, path: Path)
    requires BootTables(mem, p4, lo, hi, p2) && GoodPath(path)
    ensures path == [] ==> Descend(mem, p4, path) == Node(p4, 0xFFF)
    ensures path == [0] ==> Descend(mem, p4, path) == Node(lo, 7)
    ensures path == [511] ==> Descend(mem, p4, path) == Node(hi, 3)
    ensures path == [0, 0] ==> Descend(mem, p4, path) == Node(p2, 7)
    ensures path == [511, 510] ==> Descend(mem, p4, path) == Node(p2, 3)
    ensures path != [] && path != [0] && path != [511] && path != [0, 0] && path != [511, 510] ==>
      Descend(mem, p4, path) == NoNode
  {
    hide Descend; hide Link;
    BootFlags();
    DescendRoot(mem, p4);
    if path != [] {
      Descend1(mem, p4, path[0]);
      if |path| == 1 { assert path == [path[0]]; }
      if |path| >= 2 {
        Descend2(mem, p4, path[0], path[1]);
        if |path| == 2 {
          assert path == [path[0], path[1]];
        } else {
          assert path == [path[0], path[1], path[2]];
          Descend3(mem, p4, path[0], path[1], path[2]);
        }
      }
    }
  }

  /** The tables of boot satisfy the invariant that every operation keeps. */
  lemma BootCoherent(mem: Memory, p4: nat, lo: nat, hi: nat, p2: nat)
    requires BootTables(mem, p4, lo, hi, p2)
    ensures Coherent(mem, {p4}, BootOwners(p4, lo, hi, p2)) && Open(mem, {p4})
  {
    hide Descend; hide NoLarge; hide LargeAligned; hide OwnersOk; hide Open;
    BootFlags();
    assert GoodPath([0, 0]) && GoodPath([511, 510]);
    BootDescend(mem, p4, lo, hi, p2, [0, 0]);
    BootDescend(mem, p4, lo, hi, p2, [511, 510]);
    BootSmall(mem, p4, lo, hi, p2);
    BootAligned(mem, p4, lo, hi, p2);
    BootOwned(mem, p4, lo, hi, p2);
    BootOpen(mem, p4, lo, hi, p2);
    BootSelf(mem, p4, lo, hi, p2);
  }

  lemma BootSelf(mem: Memory, p4: nat, lo: nat, hi: nat, p2: nat)
    requires BootTables(mem, p4, lo, hi, p2)
    ensures SelfMapped(mem, p4)
  {
    assert Load(mem, p4, 510) == Entry(p4, 3);
  }

  lemma BootSmall(mem: Memory, p4: nat, lo: nat, hi: nat, p2: nat)
    requires BootTables(mem, p4, lo, hi, p2)
    ensures NoLarge(mem, p4)
  {
    forall i, j | 0 <= i < ENTRIES && 0 <= j < ENTRIES && Present(Load(mem, p4, i))
      ensures !Large(Load(mem, Load(mem, p4, i).frame, j))
    {
      assert Load(mem, p4, i).frame in {lo, hi, p4};
    }
  }

  lemma BootAligned(mem: Memory, p4: nat, lo: nat, hi: nat, p2: nat)
    requires BootTables(mem, p4, lo, hi, p2)
    ensures LargeAligned(mem, p4)
  {
    hide Descend;
    forall i4, i3, i2 | GoodPath([i4, i3]) && 0 <= i2 < ENTRIES && Descend(mem, p4, [i4, i3]).Node?
      ensures AlignedEntry(Load(mem, Descend(mem, p4, [i4, i3]).frame, i2))
    {
      BootDescend(mem, p4, lo, hi, p2, [i4, i3]);
      assert (512 * i2) % 512 == 0;
    }
  }

  lemma BootOwned(mem: Memory, p4: nat, lo: nat, hi: nat, p2: nat)
    requires BootTables(mem, p4, lo, hi, p2)
    ensures OwnersOk(mem, {p4}, BootOwners(p4, lo, hi, p2))
  {
    hide Descend; hide BootTables;
    var owner := BootOwners(p4, lo, hi, p2);
    BootApart(mem, p4, lo, hi, p2);
    BootKeys(p4);
    forall r, path | r in {p4} && GoodPath(path) && Descend(mem, r, path).Node?
      ensures Descend(mem, r, path).frame in owner && owner[Descend(mem, r, path).frame] == Key(r, path)
    {
      BootDescend(mem, p4, lo, hi, p2, path);
    }
  }

  lemma BootApart(mem: Memory, p4: nat, lo: nat, hi: nat, p2: nat)
    requires BootTables(mem, p4, lo, hi, p2)
    ensures p4 != lo && p4 != hi && p4 != p2 && lo != hi && lo != p2 && hi != p2
  {
  }

  lemma BootKeys(p4: nat)
    ensures Key(p4, []) == User(p4, []) && Key(p4, [0]) == Kernel([0]) && Key(p4, [511]) == Kernel([511])
    ensures Key(p4, [0, 0]) == Kernel([0, 0]) && Key(p4, [511, 510]) == Kernel([0, 0])
  {
    assert [511, 510][2..] == [];
  }

  lemma BootOpen(mem: Memory, p4: nat, lo: nat, hi: nat, p2: nat)
    requires BootTables(mem, p4, lo, hi, p2)
    ensures Open(mem, {p4})
  {
    hide Descend; hide BootTables;
    forall r, path | r in {p4} && GoodPath(path) && (path != [] ==> !KernelSlot(path[0])) && Descend(mem, r, path).Node?
      ensures Descend(mem, r, path).flags & RIGHTS == RIGHTS
    {
      BootDescend(mem, p4, lo, hi, p2, path);
    }
  }

  // ---------- runs ----------

  datatype Op =
    | Map(va: nat, pa: nat, flags: bv12)
    | Unmap(va: nat)
    | Create
    | Switch(space: nat)

  /** The operation, issued in space cur, may change the page of va in space r. */
  ghost predicate Hit(r: nat, va: nat, cur: nat, op: Op) {
    match op
    case Map(v, _, _) => SamePage(r, va, cur, v)
    case Unmap(v) => SamePage(r, va, cur, v)
    case Create => SamePage(r, va, cur, SCRATCH)
    case Switch(_) => false
  }

  /** An address of slots 1 to 509 is hit only by operations issued in its own space. */
  lemma UserHits(r: nat, va: nat, cur: nat, op: Op)
    requires !KernelSlot(Index4(va)) && Hit(r, va, cur, op)
    ensures r == cur && (op.Map? || op.Unmap?) && PathOf(va) == PathOf(op.va) && Index1(va) == Index1(op.va)
  {
    hide Index4; hide Index3; hide Index2; hide Index1; hide Canon;
    if op.Create? { ScratchIndices(0); }
  }

  /** The obligations of a caller: no address of the recursive window, no unmapping inside a large page. */
  predicate Proper(op: Op, mem: Memory, cur: nat) {
    match op
    case Map(va, _, _) => Index4(va) != RECURSIVE
    case Unmap(va) => Index4(va) != RECURSIVE && !InLargePage(mem, cur, va)
    case _ => true
  }

  /** What a run sees: memory, all spaces, the current one, and the addresses handed out for spaces. */
  datatype State = State(mem: Memory, roots: set<nat>, cur: nat, spaces: seq<nat>)

  /** One operation of a run; an improper one is not performed. */
  ghost predicate Effect(s: State, op: Op, s': State) {
    if !Proper(op, s.mem, s.cur) then s' == s
    else match op
      case Map(va, pa, flags) =>
        s' == s.(mem := s'.mem) && Mapped(s.mem, s'.mem, s.roots, s.cur, va, Entry(pa / PAGE, flags | PRESENT))
      case Unmap(va) => s' == s.(mem := s'.mem) && Mapped(s.mem, s'.mem, s.roots, s.cur, va, Entry(0, 0))
      case Create => Created(s, s')
      case Switch(k) => s' == if k < |s.spaces| then s.(cur := s.spaces[k] / PAGE) else s
  }

  /** A new space, the last of the list, that none of the others is. */
  ghost predicate Created(s: State, s': State) {
    && s'.cur == s.cur && |s'.spaces| == |s.spaces| + 1 && s.spaces <= s'.spaces
    && var c := s'.spaces[|s.spaces|] / PAGE;
       c !in s.roots && s'.roots == s.roots + {c} && Spawned(s.mem, s'.mem, s.roots, s.cur, c)
  }

  ghost predicate Trace(ops: seq<Op>, trace: seq<State>) {
    |trace| == |ops| + 1 && forall i :: 0 <= i < |ops| ==> Effect(trace[i], ops[i], trace[i + 1])
  }

  /** No operation from i up to j hits the page of va in space r. */
  ghost predicate Spared(ops: seq<Op>, trace: seq<State>, i: nat, j: nat, r: nat, va: nat)
    requires i <= j <= |ops| < |trace|
  {
    forall k :: i <= k < j ==> !Hit(r, va, trace[k].cur, ops[k])
  }

  /** One operation spares every page that it does not hit. */
  lemma EffectSpares(s: State, op: Op, s': State, r: nat, va: nat)
    requires Effect(s, op, s') && r in s.roots && Index4(va) != RECURSIVE && !Hit(r, va, s.cur, op)
    ensures r in s'.roots && HardwareWalk(s'.mem, r, va) == HardwareWalk(s.mem, r, va)
  {
    hide HardwareWalk; hide Index4; hide SamePage; hide Descend; hide Proper;
  }

  /** Between any two moments of a run, in every space that exists at the first, a page that no operation in between
      hits is translated alike. */
  lemma {:induction false} SparedPagesStay(ops: seq<Op>, trace: seq<State>, i: nat, j: nat, r: nat, va: nat)
    requires Trace(ops, trace) && i <= j <= |ops| && r in trace[i].roots && Index4(va) != RECURSIVE
    requires Spared(ops, trace, i, j, r, va)
    ensures r in trace[j].roots && HardwareWalk(trace[j].mem, r, va) == HardwareWalk(trace[i].mem, r, va)
    decreases j
  {
    hide HardwareWalk; hide Index4; hide Hit; hide Effect;
    if i < j {
      SparedPagesStay(ops, trace, i, j - 1, r, va);
      EffectSpares(trace[j - 1], ops[j - 1], trace[j], r, va);
    }
  }

  /** The operation maps or unmaps the page of va. */
  predicate Targets(op: Op, va: nat) {
    (op.Map? || op.Unmap?) && PathOf(op.va) == PathOf(va) && Index1(op.va) == Index1(va)
  }

  /** What is done in other spaces never changes a translation of slots 1 to 509. */
  lemma OtherSpacesNeverMatter(ops: seq<Op>, trace: seq<State>, i: nat, j: nat, r: nat, va: nat)
    requires Trace(ops, trace) && i <= j <= |ops| && r in trace[i].roots && Index4(va) != RECURSIVE
    requires !KernelSlot(Index4(va))
    requires forall k :: i <= k < j && Targets(ops[k], va) ==> trace[k].cur != r
    ensures HardwareWalk(trace[j].mem, r, va) == HardwareWalk(trace[i].mem, r, va)
  {
    hide HardwareWalk; hide Index4; hide Index3; hide Index2; hide Index1; hide Trace; hide Hit;
    assert |trace| == |ops| + 1 by { TraceLength(ops, trace); }
    forall k | i <= k < j ensures !Hit(r, va, trace[k].cur, ops[k]) {
      if Hit(r, va, trace[k].cur, ops[k]) { UserHits(r, va, trace[k].cur, ops[k]); }
    }
    SparedPagesStay(ops, trace, i, j, r, va);
  }

  lemma TraceLength(ops: seq<Op>, trace: seq<State>)
    requires Trace(ops, trace)
    ensures |trace| == |ops| + 1
  {
  }

  ghost function View(vm: AddressTranslator, spaces: seq<nat>): State
    reads vm
  {
    State(vm.mem, vm.roots, vm.cr3, spaces)
  }

  ghost predicate Known(vm: AddressTranslator, spaces: seq<nat>)
    reads vm
  {
    forall s :: s in spaces ==> s / PAGE in vm.roots
  }

  method Perform(vm: AddressTranslator, op: Op, spaces: seq<nat>) returns (spaces': seq<nat>)
    requires vm.Valid() && Proper(op, vm.mem, vm.cr3) && vm.pmm.used + 4 <= vm.pmm.total && Known(vm, spaces)
    modifies vm`mem, vm`cr3, vm`roots, vm`owner, vm.pmm`used, vm.pmm`hint, vm.pmm`owned, vm.pmm.bitmap
    ensures vm.Valid() && Known(vm, spaces') && Effect(old(View(vm, spaces)), op, View(vm, spaces'))
    ensures vm.pmm.used <= old(vm.pmm.used) + 4 && vm.pmm.total == old(vm.pmm.total)
  {
    hide Coherent; hide Open; hide Descend; hide Mapped; hide Spawned; hide Proper; hide Index4; hide InLargePage;
    hide PhysicalMemoryManager.Valid; hide PhysicalMemoryManager.HeldFrames;
    spaces' := spaces;
    ProperIs(op, vm.mem, vm.cr3);
    match op
    case Map(va, pa, flags) => vm.MapPage(va, pa, flags);
    case Unmap(va) => vm.UnmapPage(va);
    case Create =>
      RootsHeld(vm);
      var phys := vm.CreateAddressSpace();
      spaces' := spaces + [phys];
    case Switch(k) => if k < |spaces| { vm.SwitchAddressSpace(spaces[k]); }
  }

  lemma ProperIs(op: Op, mem: Memory, cur: nat)
    requires Proper(op, mem, cur)
    ensures op.Map? || op.Unmap? ==> Index4(op.va) != RECURSIVE
    ensures op.Unmap? ==> !InLargePage(mem, cur, op.va)
  {
  }

  lemma RootsHeld(vm: AddressTranslator)
    requires vm.Valid()
    ensures vm.roots <= vm.pmm.HeldFrames()
  {
    hide Coherent; hide PhysicalMemoryManager.Valid; hide PhysicalMemoryManager.HeldFrames;
    forall r | r in vm.roots ensures r in vm.owner { RootOwned(vm.mem, vm.roots, vm.owner, r); }
  }

  /** In every run, from any state and with any list of known spaces, the invariant holds at each moment and so all
      spaces agree on the kernel's slots; trace tells what each operation did. */
  method Run(vm: AddressTranslator, ops: seq<Op>, spaces: seq<nat>) returns (spaces': seq<nat>, ghost trace: seq<State>)
    requires vm.Valid() && vm.pmm.used + 4 * |ops| <= vm.pmm.total && Known(vm, spaces)
    modifies vm`mem, vm`cr3, vm`roots, vm`owner, vm.pmm`used, vm.pmm`hint, vm.pmm`owned, vm.pmm.bitmap
    ensures vm.Valid() && Known(vm, spaces')
    ensures Trace(ops, trace) && trace[0] == old(View(vm, spaces)) && trace[|ops|] == View(vm, spaces')
    ensures forall i :: 0 <= i <= |ops| ==> KernelShared(trace[i].mem, trace[i].roots)
    ensures forall i: nat, j: nat, r, va: nat ::
      i <= j <= |ops| && r in trace[i].roots && Index4(va) != RECURSIVE && Spared(ops, trace, i, j, r, va) ==>
      HardwareWalk(trace[j].mem, r, va) == HardwareWalk(trace[i].mem, r, va)
  {
    hide Coherent; hide Open; hide Effect; hide PhysicalMemoryManager.Valid; hide PhysicalMemoryManager.HeldFrames;
    hide Proper; hide KernelShared; hide HardwareWalk; hide Index4; hide Spared;
    spaces' := spaces;
    trace := [View(vm, spaces)];
    Shared(vm);
    var i := 0;
    while i < |ops|
      invariant i <= |ops| && vm.Valid() && Known(vm, spaces') && |trace| == i + 1
      invariant vm.pmm.used + 4 * (|ops| - i) <= vm.pmm.total && vm.pmm.total == old(vm.pmm.total)
      invariant trace[0] == old(View(vm, spaces)) && trace[i] == View(vm, spaces')
      invariant forall k :: 0 <= k < i ==> Effect(trace[k], ops[k], trace[k + 1])
      invariant forall k :: 0 <= k <= i ==> KernelShared(trace[k].mem, trace[k].roots)
    {
      ghost var before := View(vm, spaces');
      if Proper(ops[i], vm.mem, vm.cr3) {
        spaces' := Perform(vm, ops[i], spaces');
      } else {
        NothingDone(before, ops[i]);
      }
      Shared(vm);
      trace := trace + [View(vm, spaces')];
      i := i + 1;
    }
    forall i: nat, j: nat, r, va: nat | i <= j <= |ops| && r in trace[i].roots && Index4(va) != RECURSIVE &&
      Spared(ops, trace, i, j, r, va)
      ensures HardwareWalk(trace[j].mem, r, va) == HardwareWalk(trace[i].mem, r, va)
    {
      SparedPagesStay(ops, trace, i, j, r, va);
    }
  }

  lemma NothingDone(s: State, op: Op)
    requires !Proper(op, s.mem, s.cur)
    ensures Effect(s, op, s)
  {
  }

  lemma Shared(vm: AddressTranslator)
    requires vm.Valid()
    ensures KernelShared(vm.mem, vm.roots)
  {
    hide Descend; hide NoLarge; hide LargeAligned; hide OwnersOk; hide SelfMapped; hide Anchored; hide KernelShared;
  }
}
