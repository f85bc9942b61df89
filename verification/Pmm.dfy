/** The physical frame allocator: one bit a frame, a count of used frames and a rotating search hint. */
module Pmm {
  import opened Bytes
  import opened Bits
  import opened Arithmetic

  const FRAME_SIZE: nat := 4096
  const NO_FRAME: nat := 0xFFFF_FFFF_FFFF_FFFF

  function BitmapSizeFor(highest: nat): nat {
    (highest / FRAME_SIZE + 7) / 8
  }

  predicate InRange(f: nat, lo: nat, hi: nat) { lo <= f < hi }

  /** The frames lo, ..., hi - 1. */
  ghost function Frames(lo: nat, hi: nat): set<nat> {
    set f: nat | f < hi && InRange(f, lo, hi)
  }

  /** The frames below n whose bit is set. */
  ghost function Held(bm: seq<byte>, n: nat): set<nat>
    requires n <= 8 * |bm|
  {
    set f | 0 <= f < n && f / 8 < |bm| && Test(bm, f)
  }

  class PhysicalMemoryManager {
    var bitmap: array<byte>
    var total: nat
    var used: nat
    var hint: nat
    // Frames handed out by AllocFrame and not given back.
    ghost var owned: set<nat>

    ghost predicate Valid()
      reads this, bitmap
    {
      && total <= 8 * bitmap.Length && hint <= total && total * FRAME_SIZE <= NO_FRAME
      && used + CountClear(bitmap[..], total) == total
      && owned <= Held(bitmap[..], total)
    }

    ghost function HeldFrames(): set<nat>
      requires Valid()
      reads this, bitmap
    {
      Held(bitmap[..], total)
    }

    /** init: every frame starts out used. */
    constructor (highest: nat, storage: array<byte>)
      requires BitmapSizeFor(highest) <= storage.Length && highest <= NO_FRAME
      modifies storage
      ensures Valid() && bitmap == storage && total == highest / FRAME_SIZE && used == total && owned == {}
      ensures HeldFrames() == Frames(0, total)
    {
      bitmap, total, used, hint, owned := storage, highest / FRAME_SIZE, highest / FRAME_SIZE, 0, {};
      new;
      var bytes := BitmapSizeFor(highest);
      for i := 0 to bytes
        modifies storage
        invariant forall k :: 0 <= k < i ==> storage[k] == 0xFF
      {
        storage[i] := 0xFF;
      }
      AllOnes(bitmap[..], bytes, total);
    }

    method SetBit(f: nat)
      requires f / 8 < bitmap.Length
      modifies bitmap
      ensures bitmap[..] == Bits.Set(old(bitmap[..]), f)
    {
      bitmap[f / 8] := SetByte(bitmap[f / 8], f % 8);
    }

    method ClearBit(f: nat)
      requires f / 8 < bitmap.Length
      modifies bitmap
      ensures bitmap[..] == Bits.Clear(old(bitmap[..]), f)
    {
      bitmap[f / 8] := ClearByte(bitmap[f / 8], f % 8);
    }

    method TestBit(f: nat) returns (r: bool)
      requires f / 8 < bitmap.Length
      ensures r == Test(bitmap[..], f)
    {
      r := TestByte(bitmap[f / 8], f % 8);
    }

    /** One frame goes from used to free. */
    method Release(f: nat)
      requires Valid() && f in HeldFrames()
      modifies this`used, this`owned, bitmap
      ensures Valid() && HeldFrames() == old(HeldFrames()) - {f} && owned == old(owned) - {f}
    {
      hide Test; hide CountClear;
      ghost var bm := bitmap[..];
      ClearBit(f);
      CountOneMore(bitmap[..], bm, f, total);
      used := used - 1;
      owned := owned - {f};
    }

    /** One frame goes from free to used. */
    method Take(f: nat)
      requires Valid() && f < total && f !in HeldFrames()
      modifies this`used, bitmap
      ensures Valid() && HeldFrames() == old(HeldFrames()) + {f} && used == old(used) + 1
    {
      hide Test; hide CountClear;
      ghost var bm := bitmap[..];
      SetBit(f);
      CountOneMore(bm, bitmap[..], f, total);
      used := used + 1;
    }

    /** The frames from base on that end by base + length, and the one base lies in, become free. */
    method MarkRegionFree(base: nat, length: nat)
      requires Valid()
      modifies this`used, this`owned, bitmap
      ensures Valid() && owned == old(owned) - Frames(base / FRAME_SIZE, (base + length) / FRAME_SIZE)
      ensures HeldFrames() == old(HeldFrames()) - Frames(base / FRAME_SIZE, (base + length) / FRAME_SIZE)
    {
      hide Test; hide CountClear;
      var start, end := base / FRAME_SIZE, (base + length) / FRAME_SIZE;
      var f := start;
      while f < end && f < total
        modifies this`used, this`owned, bitmap
        invariant start <= f && (f <= end || f == start) && (f <= total || f == start)
        invariant Valid() && owned == old(owned) - Frames(start, f)
        invariant HeldFrames() == old(HeldFrames()) - Frames(start, f)
      {
        var set_ := TestBit(f);
        if set_ { Release(f); }
        f := f + 1;
      }
    }

    /** Every frame that the region touches becomes used. */
    method MarkRegionUsed(base: nat, length: nat)
      requires Valid()
      modifies this`used, bitmap
      ensures Valid()
      ensures HeldFrames() == old(HeldFrames())
        + Frames(base / FRAME_SIZE, (base + length + FRAME_SIZE - 1) / FRAME_SIZE) * Frames(0, total)
    {
      hide Test; hide CountClear;
      var start, end := base / FRAME_SIZE, (base + length + FRAME_SIZE - 1) / FRAME_SIZE;
      var f := start;
      while f < end && f < total
        modifies this`used, bitmap
        invariant start <= f && (f <= end || f == start) && (f <= total || f == start)
        invariant Valid()
        invariant HeldFrames() == old(HeldFrames()) + Frames(start, f) * Frames(0, total)
      {
        var set_ := TestBit(f);
        if !set_ { Take(f); }
        f := f + 1;
      }
    }

    /** The next free frame from the last one handed out on, or NO_FRAME exactly when there is none. */
    method AllocFrame() returns (r: nat)
      requires Valid()
      modifies this`used, this`hint, this`owned, bitmap
      ensures Valid()
      ensures r == NO_FRAME <==> old(HeldFrames()) == Frames(0, total)
      ensures r == NO_FRAME ==> HeldFrames() == old(HeldFrames()) && owned == old(owned)
      ensures r != NO_FRAME ==> r % FRAME_SIZE == 0 && r / FRAME_SIZE < total && r / FRAME_SIZE !in old(HeldFrames())
      ensures r != NO_FRAME ==>
        HeldFrames() == old(HeldFrames()) + {r / FRAME_SIZE} && owned == old(owned) + {r / FRAME_SIZE}
      ensures r == NO_FRAME <==> old(used) == total
      ensures used == if r == NO_FRAME then old(used) else old(used) + 1
      ensures r != NO_FRAME ==> hint == r / FRAME_SIZE + 1
      ensures r != NO_FRAME ==> NextFree(old(HeldFrames()), old(hint), total, r / FRAME_SIZE)
    {
      hide Test; hide CountClear; hide Frames; hide Held; hide NextFree;
      UsedMeansHeld(bitmap[..], total);
      var i := 0;
      while i < total
        modifies this`used, this`hint, this`owned, bitmap
        invariant i <= total && Valid() && owned == old(owned) && hint == old(hint) && used == old(used)
        invariant HeldFrames() == old(HeldFrames())
        invariant forall j :: 0 <= j < i ==> Nth(hint, j, total) in HeldFrames()
      {
        NthIsMod(hint, i, total);
        var f := (hint + i) % total;
        HeldBit(bitmap[..], total, f);
        var set_ := TestBit(f);
        if !set_ {
          NotAll(HeldFrames(), total, f);
          FirstFree(HeldFrames(), hint, total, i);
          Take(f);
          owned := owned + {f};
          hint := f + 1;
          assert f * FRAME_SIZE / FRAME_SIZE == f;
          return f * FRAME_SIZE;
        }
        i := i + 1;
      }
      AllHeld(bitmap[..], total, hint);
      r := NO_FRAME;
    }

    /** Gives a frame back; anything but a used frame below the top is ignored. */
    method FreeFrame(phys: nat)
      requires Valid()
      modifies this`used, this`owned, bitmap
      ensures Valid() && HeldFrames() == old(HeldFrames()) - {phys / FRAME_SIZE}
      ensures owned == old(owned) - {phys / FRAME_SIZE}
    {
      hide Test; hide CountClear;
      var f := phys / FRAME_SIZE;
      if f < total {
        var set_ := TestBit(f);
        if set_ { Release(f); }
      }
    }
  }

  /** The frame that the search looks at after i others. */
  function Nth(hint: nat, i: nat, total: nat): nat
    requires i < total && hint <= total
  {
    if hint + i < total then hint + i else hint + i - total
  }

  /** Going round from hint, frame f is the first that is not held. */
  ghost predicate NextFree(held: set<nat>, hint: nat, total: nat, f: nat) {
    && hint <= total && f < total && f !in held
    && (forall x: nat :: x < total && x !in held && x >= hint ==> hint <= f <= x)
    && (forall x: nat :: x < total && x !in held && f < hint ==> f <= x)
  }

  lemma FirstFree(held: set<nat>, hint: nat, total: nat, i: nat)
    requires i < total && hint <= total && Nth(hint, i, total) !in held
    requires forall j :: 0 <= j < i ==> Nth(hint, j, total) in held
    ensures NextFree(held, hint, total, Nth(hint, i, total))
  {
    var f := Nth(hint, i, total);
    forall x: nat | x < total && x !in held && x >= hint ensures hint <= f <= x {
      assert Nth(hint, x - hint, total) == x;
    }
    forall x: nat | x < total && x !in held && f < hint ensures f <= x {
      if x < hint { assert Nth(hint, x + total - hint, total) == x; }
    }
  }

  lemma NthIsMod(hint: nat, i: nat, total: nat)
    requires i < total && hint <= total
    ensures (hint + i) % total == Nth(hint, i, total)
  {
    DivModUnique(total, if hint + i < total then 0 else 1, Nth(hint, i, total));
  }

  lemma HeldBit(bm: seq<byte>, n: nat, f: nat)
    requires n <= 8 * |bm| && f < n
    ensures f / 8 < |bm| && (f in Held(bm, n) <==> Test(bm, f))
  {
    hide Test;
  }

  lemma UsedMeansHeld(bm: seq<byte>, n: nat)
    requires n <= 8 * |bm|
    ensures CountClear(bm, n) == 0 <==> Held(bm, n) == Frames(0, n)
  {
    hide Test; hide CountClear;
    CountZero(bm, n);
    if Held(bm, n) == Frames(0, n) {
      forall f: nat | f < n ensures f / 8 < |bm| && Test(bm, f) { assert f in Frames(0, n); }
    }
  }

  lemma NotAll(held: set<nat>, n: nat, f: nat)
    requires f < n && f !in held
    ensures held != Frames(0, n)
  {
    assert f in Frames(0, n);
  }

  /** A full turn of the search looks at every frame. */
  lemma AllHeld(bm: seq<byte>, n: nat, hint: nat)
    requires n <= 8 * |bm| && hint <= n && forall j :: 0 <= j < n ==> Nth(hint, j, n) in Held(bm, n)
    ensures Held(bm, n) == Frames(0, n)
  {
    hide Test;
    forall f: nat | f < n ensures f in Held(bm, n) {
      assert Nth(hint, if f >= hint then f - hint else f + n - hint, n) == f;
    }
  }

  lemma OnesByte(k: nat)
    requires k < 8
    ensures TestByte(0xFF, k)
  {
    assert ToBv(0xFF) == 0xFF;
  }

  lemma AllOnes(bm: seq<byte>, bytes: nat, n: nat)
    requires bytes <= |bm| && n <= 8 * bytes && forall k :: 0 <= k < bytes ==> bm[k] == 0xFF
    ensures CountClear(bm, n) == 0 && Held(bm, n) == Frames(0, n)
  {
    hide TestByte; hide CountClear;
    forall f: nat | f < n ensures f / 8 < |bm| && Test(bm, f) {
      OnesByte(f % 8);
    }
    CountZero(bm, n);
  }

  // ---------- regions ----------

  /** Frame f lies inside the region, or touches it. */
  predicate Inside(f: nat, base: nat, length: nat) {
    base <= f * FRAME_SIZE && f * FRAME_SIZE + FRAME_SIZE <= base + length
  }

  predicate Touches(f: nat, base: nat, length: nat) {
    f * FRAME_SIZE < base + length && base < f * FRAME_SIZE + FRAME_SIZE
  }

  /** MarkRegionUsed takes exactly the frames that a non-empty region touches. */
  lemma UsedRegionExact(base: nat, length: nat, f: nat)
    requires 0 < length
    ensures f in Frames(base / FRAME_SIZE, (base + length + FRAME_SIZE - 1) / FRAME_SIZE) <==> Touches(f, base, length)
  {
  }

  /** MarkRegionFree rounds its start down: it frees only frames inside the region exactly when the region
      is frame-aligned at its start (or frees nothing at all). */
  lemma FreeRegionExact(base: nat, length: nat)
    ensures (forall f :: f in Frames(base / FRAME_SIZE, (base + length) / FRAME_SIZE) ==> Inside(f, base, length))
      <==> base % FRAME_SIZE == 0 || base / FRAME_SIZE == (base + length) / FRAME_SIZE
  {
    var start, end := base / FRAME_SIZE, (base + length) / FRAME_SIZE;
    if start < end && forall f :: f in Frames(start, end) ==> Inside(f, base, length) {
      assert start in Frames(start, end);
      assert Inside(start, base, length);
    }
  }

  // ---------- boot, and every run after it ----------

  datatype Region = Region(base: nat, length: nat)

  /** Frames that the kernel image and the bitmap itself occupy are held and were not handed out. */
  ghost predicate Reserved(pmm: PhysicalMemoryManager, top: nat)
    requires pmm.Valid()
    reads pmm, pmm.bitmap
  {
    forall f: nat :: f < pmm.total && Touches(f, 0, top) ==> f in pmm.HeldFrames() && f !in pmm.owned
  }

  /** Frame f is one that freeing the region frees: from the frame its base lies in up to its last whole frame. */
  predicate Rounded(r: Region, f: nat) {
    r.base / FRAME_SIZE * FRAME_SIZE <= f * FRAME_SIZE && f * FRAME_SIZE + FRAME_SIZE <= r.base + r.length
  }

  lemma RoundedIs(r: Region, f: nat)
    ensures f in Frames(r.base / FRAME_SIZE, (r.base + r.length) / FRAME_SIZE) <==> Rounded(r, f)
  {
  }

  ghost predicate Offered(regions: seq<Region>, n: nat, f: nat) {
    exists k :: 0 <= k < n && k < |regions| && Rounded(regions[k], f)
  }

  lemma OfferedNext(regions: seq<Region>, k: nat, f: nat)
    requires k < |regions|
    ensures Offered(regions, k + 1, f) <==> Offered(regions, k, f) || Rounded(regions[k], f)
    ensures f in Frames(regions[k].base / FRAME_SIZE, (regions[k].base + regions[k].length) / FRAME_SIZE) <==>
      Rounded(regions[k], f)
  {
    hide Rounded; hide Frames;
    RoundedIs(regions[k], f);
    if Rounded(regions[k], f) { assert Offered(regions, k + 1, f); }
  }

  /** Frame f lies inside an available region. */
  ghost predicate Available(regions: seq<Region>, f: nat) {
    exists k :: 0 <= k < |regions| && Inside(f, regions[k].base, regions[k].length)
  }

  /** The frames on offer are those inside an available region exactly if each region begins on a frame boundary, or
      ends in the frame it begins in, or begins in a frame that another region covers. */
  lemma OfferedExact(regions: seq<Region>)
    ensures forall f: nat :: Available(regions, f) ==> Offered(regions, |regions|, f)
    ensures (forall f: nat :: Offered(regions, |regions|, f) ==> Available(regions, f)) <==>
      forall k :: 0 <= k < |regions| ==> var r := regions[k];
        || r.base % FRAME_SIZE == 0 || (r.base + r.length) / FRAME_SIZE == r.base / FRAME_SIZE
        || Available(regions, r.base / FRAME_SIZE)
  {
    hide Rounded; hide Inside;
    forall f: nat, k | 0 <= k < |regions|
      ensures Inside(f, regions[k].base, regions[k].length) ==> Rounded(regions[k], f)
      ensures Rounded(regions[k], f) ==>
        || Inside(f, regions[k].base, regions[k].length)
        || (regions[k].base % FRAME_SIZE != 0 && f == regions[k].base / FRAME_SIZE)
      ensures regions[k].base % FRAME_SIZE != 0 && f == regions[k].base / FRAME_SIZE ==>
        (Rounded(regions[k], f) <==> (regions[k].base + regions[k].length) / FRAME_SIZE != f)
    {
      RoundedInside(regions[k], f);
    }
    if forall f: nat :: Offered(regions, |regions|, f) ==> Available(regions, f) {
      forall k | 0 <= k < |regions|
        ensures var r := regions[k];
          || r.base % FRAME_SIZE == 0 || (r.base + r.length) / FRAME_SIZE == r.base / FRAME_SIZE
          || Available(regions, r.base / FRAME_SIZE)
      {
        var f := regions[k].base / FRAME_SIZE;
        if Rounded(regions[k], f) { assert Offered(regions, |regions|, f); }
      }
    }
  }

  lemma RoundedInside(r: Region, f: nat)
    ensures Inside(f, r.base, r.length) ==> Rounded(r, f)
    ensures Rounded(r, f) ==> Inside(f, r.base, r.length) || (r.base % FRAME_SIZE != 0 && f == r.base / FRAME_SIZE)
    ensures r.base % FRAME_SIZE != 0 && f == r.base / FRAME_SIZE ==>
      (Rounded(r, f) <==> (r.base + r.length) / FRAME_SIZE != f)
  {
  }

  /** kernel_main's sequence: all used, the available regions freed, everything up to the bitmap's end used. Free are
      then exactly the frames on offer that lie above the bitmap. */
  method Boot(highest: nat, storage: array<byte>, regions: seq<Region>, top: nat) returns (pmm: PhysicalMemoryManager)
    requires BitmapSizeFor(highest) <= storage.Length && highest <= NO_FRAME && 0 < top
    modifies storage
    ensures fresh(pmm) && pmm.bitmap == storage && pmm.Valid() && pmm.owned == {} && pmm.total == highest / FRAME_SIZE
    ensures Reserved(pmm, top)
    ensures forall f: nat :: f < pmm.total ==>
      (f !in pmm.HeldFrames() <==> !Touches(f, 0, top) && Offered(regions, |regions|, f))
  {
    hide PhysicalMemoryManager.Valid; hide PhysicalMemoryManager.HeldFrames;
    pmm := new PhysicalMemoryManager(highest, storage);
    for k := 0 to |regions|
      invariant fresh(pmm) && pmm.bitmap == storage && pmm.Valid() && pmm.owned == {}
      invariant pmm.total == highest / FRAME_SIZE
      invariant forall f: nat :: f < pmm.total ==> (f !in pmm.HeldFrames() <==> Offered(regions, k, f))
    {
      pmm.MarkRegionFree(regions[k].base, regions[k].length);
      forall f: nat ensures Offered(regions, k + 1, f) <==> Offered(regions, k, f) || Rounded(regions[k], f) {
        OfferedNext(regions, k, f);
      }
    }
    pmm.MarkRegionUsed(0, top);
    forall f: nat | f < pmm.total
      ensures f !in pmm.HeldFrames() <==> !Touches(f, 0, top) && Offered(regions, |regions|, f)
    {
      UsedRegionExact(0, top, f);
      assert f in Frames(0, pmm.total);
    }
    forall f: nat | f < pmm.total && Touches(f, 0, top) ensures f in pmm.HeldFrames() && f !in pmm.owned {
      UsedRegionExact(0, top, f);
      assert f in Frames(0, pmm.total);
    }
  }

  datatype Request = Alloc | Free(index: nat)

  function Members(out: seq<nat>): set<nat> { set f | f in out }

  function Without(out: seq<nat>, k: nat): seq<nat>
    requires k < |out|
  {
    out[..k] + out[k + 1..]
  }

  /** One request of a run: the frames out before and after it, and what allocFrame returned. free is what boot left
      free. */
  ghost predicate Served(free: set<nat>, out: seq<nat>, request: Request, result: nat, out': seq<nat>) {
    match request
    case Alloc =>
      if free <= Members(out) then result == NO_FRAME && out' == out
      else
        && result != NO_FRAME && result % FRAME_SIZE == 0
        && result / FRAME_SIZE in free - Members(out) && out' == out + [result / FRAME_SIZE]
    case Free(k) => out' == if k < |out| then Without(out, k) else out
  }

  /** Any sequence of allocations, and of releases of frames still allocated. outs lists the frames out at each moment:
      an allocation fails exactly when all that boot left free are out, and otherwise adds one that is not. At the end
      exactly those frames and the ones held from the start are held. */
  method Session(pmm: PhysicalMemoryManager, requests: seq<Request>, ghost top: nat)
    returns (out: seq<nat>, ghost results: seq<nat>, ghost outs: seq<seq<nat>>)
    requires pmm.Valid() && pmm.owned == {} && Reserved(pmm, top)
    modifies pmm, pmm.bitmap
    ensures pmm.Valid() && Reserved(pmm, top) && pmm.total == old(pmm.total)
    ensures |results| == |requests| && |outs| == |requests| + 1 && outs[0] == [] && outs[|requests|] == out
    ensures var free := Frames(0, pmm.total) - old(pmm.HeldFrames());
      forall i :: 0 <= i < |requests| ==> Served(free, outs[i], requests[i], results[i], outs[i + 1])
    ensures pmm.owned == Members(out) && pmm.HeldFrames() == old(pmm.HeldFrames()) + Members(out)
    ensures forall j, k :: 0 <= j < k < |out| ==> out[j] != out[k]
    ensures forall k ::
      0 <= k < |out| ==> out[k] < pmm.total && out[k] !in old(pmm.HeldFrames()) && !Touches(out[k], 0, top)
  {
    hide PhysicalMemoryManager.Valid; hide PhysicalMemoryManager.HeldFrames; hide Frames; hide Touches; hide Served;
    hide Without;
    ghost var held0 := pmm.HeldFrames();
    ghost var free := Frames(0, pmm.total) - held0;
    out, results, outs := [], [], [[]];
    assert Members([]) == {};
    HeldBelow(pmm);
    for n := 0 to |requests|
      modifies pmm, pmm.bitmap
      invariant pmm.bitmap == old(pmm.bitmap) && pmm.total == old(pmm.total) && pmm.Valid() && Reserved(pmm, top)
      invariant Outstanding(pmm, held0, out) && held0 <= Frames(0, pmm.total)
      invariant |results| == n && |outs| == n + 1 && outs[0] == [] && outs[n] == out
      invariant forall i :: 0 <= i < n ==> Served(free, outs[i], requests[i], results[i], outs[i + 1])
    {
      ghost var before := out;
      ghost var result := 0;
      match requests[n] {
        case Alloc =>
          HeldBelow(pmm);
          var r := pmm.AllocFrame();
          result := r;
          NoneLeft(held0, free, pmm.total, before, r);
          if r != NO_FRAME {
            out := out + [r / FRAME_SIZE];
            OneMore(before, r / FRAME_SIZE);
          }
        case Free(k) =>
          if k < |out| {
            OneLess(out, k);
            assert out[k] * FRAME_SIZE / FRAME_SIZE == out[k];
            pmm.FreeFrame(out[k] * FRAME_SIZE);
            out := Without(out, k);
          }
          Given(free, before, k, out);
      }
      results, outs := results + [result], outs + [out];
    }
    forall k | 0 <= k < |out| ensures out[k] < pmm.total && out[k] !in held0 && !Touches(out[k], 0, top) {
      assert out[k] in Members(out);
      FrameBelow(pmm, out[k]);
    }
  }

  /** The frames in the list are distinct, are exactly the ones handed out, and were free at the start. */
  ghost predicate Outstanding(pmm: PhysicalMemoryManager, held0: set<nat>, out: seq<nat>)
    requires pmm.Valid()
    reads pmm, pmm.bitmap
  {
    && (forall j, k :: 0 <= j < k < |out| ==> out[j] != out[k]) && pmm.owned == Members(out)
    && pmm.HeldFrames() == held0 + Members(out) && held0 !! Members(out)
  }

  lemma HeldBelow(pmm: PhysicalMemoryManager)
    requires pmm.Valid()
    ensures pmm.HeldFrames() <= Frames(0, pmm.total)
  {
  }

  lemma FrameBelow(pmm: PhysicalMemoryManager, f: nat)
    requires pmm.Valid() && f in pmm.HeldFrames()
    ensures f < pmm.total
  {
  }

  /** What allocFrame's answer means for the frames out. */
  lemma NoneLeft(held0: set<nat>, free: set<nat>, total: nat, out: seq<nat>, r: nat)
    requires held0 <= Frames(0, total) && free == Frames(0, total) - held0
    requires r == NO_FRAME <==> held0 + Members(out) == Frames(0, total)
    requires r != NO_FRAME ==> r % FRAME_SIZE == 0 && r / FRAME_SIZE < total && r / FRAME_SIZE !in held0 + Members(out)
    requires Members(out) <= Frames(0, total)
    ensures Served(free, out, Alloc, r, if r == NO_FRAME then out else out + [r / FRAME_SIZE])
  {
    assert free <= Members(out) <==> held0 + Members(out) == Frames(0, total);
    assert r != NO_FRAME ==> r / FRAME_SIZE in Frames(0, total);
  }

  lemma Given(free: set<nat>, out: seq<nat>, k: nat, out': seq<nat>)
    requires out' == if k < |out| then Without(out, k) else out
    ensures forall r: nat :: Served(free, out, Free(k), r, out')
  {
  }

  lemma OneMore(out: seq<nat>, f: nat)
    ensures Members(out + [f]) == Members(out) + {f}
  {
  }

  lemma OneLess(out: seq<nat>, k: nat)
    requires k < |out| && forall i, j :: 0 <= i < j < |out| ==> out[i] != out[j]
    ensures forall i, j :: 0 <= i < j < |out| - 1 ==> Without(out, k)[i] != Without(out, k)[j]
    ensures |Without(out, k)| == |out| - 1 && Members(Without(out, k)) == Members(out) - {out[k]}
  {
    var rest := Without(out, k);
    forall i | 0 <= i < |rest| ensures rest[i] == if i < k then out[i] else out[i + 1] {}
    forall f | f in Members(out) - {out[k]} ensures f in Members(rest) {
      var i :| 0 <= i < |out| && out[i] == f;
      assert rest[if i < k then i else i - 1] == f;
    }
  }

  /** The used-frame count is the number of held frames. */
  lemma {:induction false} HeldCount(bm: seq<byte>, n: nat)
    requires n <= 8 * |bm|
    ensures |Held(bm, n)| + CountClear(bm, n) == n
  {
    hide Test;
    if n == 0 {
      assert Held(bm, 0) == {};
    } else {
      HeldCount(bm, n - 1);
      assert (n - 1) / 8 < |bm|;
      if Test(bm, n - 1) {
        assert Held(bm, n) == Held(bm, n - 1) + {n - 1};
      } else {
        assert Held(bm, n) == Held(bm, n - 1);
      }
    }
  }

  lemma UsedExact(pmm: PhysicalMemoryManager)
    requires pmm.Valid()
    ensures pmm.used == |pmm.HeldFrames()|
  {
    hide CountClear; hide Held;
    HeldCount(pmm.bitmap[..], pmm.total);
  }
}
