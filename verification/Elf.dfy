/** The argument block that the program loader builds on the user stack. */
module Elf {
  import opened Bytes

  const USER_STACK_TOP: nat := 0x7FFF_FFFF_F000
  const USER_STACK_SIZE: nat := 4 * 4096
  const MAX_ARGS: nat := 16
  const WORD: nat := 0x1_0000_0000_0000_0000

  type Memory = map<nat, byte>

  function Peek(mem: Memory, a: nat): byte { if a in mem then mem[a] else 0 }

  /** The bytes of s stand at address a. */
  ghost predicate Holds(mem: Memory, a: nat, s: seq<byte>) {
    forall k :: 0 <= k < |s| ==> Peek(mem, a + k) == s[k]
  }

  /** The two memories agree outside the n bytes at a. */
  ghost predicate Outside(mem: Memory, mem': Memory, a: nat, n: int) {
    forall x: nat :: !(a <= x < a + n) ==> Peek(mem', x) == Peek(mem, x)
  }

  /** The C string at a is s. */
  ghost predicate CString(mem: Memory, a: nat, s: seq<byte>) {
    0 !in s && Holds(mem, a, s + [0])
  }

  /** A C string is read in one way only. */
  lemma CStringUnique(mem: Memory, a: nat, s: seq<byte>, t: seq<byte>)
    requires CString(mem, a, s) && CString(mem, a, t)
    ensures s == t
  {
    assert (forall k :: 0 <= k < |s| ==> s[k] != 0) && forall k :: 0 <= k < |t| ==> t[k] != 0;
    var m := if |s| <= |t| then |s| else |t|;
    assert Peek(mem, a + m) == (s + [0])[m] && Peek(mem, a + m) == (t + [0])[m];
    forall k | 0 <= k < m ensures s[k] == t[k] {
      assert Peek(mem, a + k) == (s + [0])[k] && Peek(mem, a + k) == (t + [0])[k];
    }
  }

  function Le64(v: nat): (r: seq<byte>)
    requires v < WORD
    ensures |r| == 8
  {
    Le32(v % U32) + Le32(v / U32)
  }

  function Eight(mem: Memory, a: nat): (s: seq<byte>)
    ensures |s| == 8
  {
    [Peek(mem, a), Peek(mem, a + 1), Peek(mem, a + 2), Peek(mem, a + 3),
     Peek(mem, a + 4), Peek(mem, a + 5), Peek(mem, a + 6), Peek(mem, a + 7)]
  }

  /** The 64-bit word at address a. */
  function Word(mem: Memory, a: nat): nat {
    Get32(Eight(mem, a), 0) + U32 * Get32(Eight(mem, a), 4)
  }

  lemma WordHeld(mem: Memory, a: nat, v: nat)
    requires v < WORD && Holds(mem, a, Le64(v))
    ensures Word(mem, a) == v
  {
    hide Get32; hide Le32;
    var s, t := Eight(mem, a), Le64(v);
    EightHeld(mem, a, t);
    assert s[0..4] == Le32(v % U32) && s[4..8] == Le32(v / U32);
    Le32RoundTrip(s, 0, v % U32);
    Le32RoundTrip(s, 4, v / U32);
  }

  lemma EightHeld(mem: Memory, a: nat, t: seq<byte>)
    requires |t| == 8 && Holds(mem, a, t)
    ensures Eight(mem, a) == t
  {
    assert Peek(mem, a + 0) == t[0];
  }

  // ---------- the layout ----------

  /** Where argument i stands: the arguments end at top, the last one highest. */
  function Place(top: int, argv: seq<seq<byte>>, i: nat): int
    requires i <= |argv|
    decreases |argv| - i
  {
    if i == |argv| then top else Place(top, argv, i + 1) - |argv[i]| - 1
  }

  function Kept(argv: seq<seq<byte>>): (r: seq<seq<byte>>)
    ensures |r| <= MAX_ARGS && r <= argv
  {
    if |argv| > MAX_ARGS then argv[..MAX_ARGS] else argv
  }

  function Down(a: int, n: nat): (r: int)
    requires n == 8 || n == 16
    ensures a - n < r <= a && r % n == 0
  {
    a / n * n
  }

  /** The pointer array stands below the strings, on an 8-byte boundary. */
  function ArrayPlace(top: int, argv: seq<seq<byte>>): int {
    Down(Place(top, argv, 0), 8) - 8 * (|argv| + 1)
  }

  /** The pointer that a program finds at index i of the array. */
  function Pointer(mem: Memory, pointers: nat, i: nat): nat { Word(mem, pointers + 8 * i) }

  /** The image of the arguments, read the way a program reads it: pointer i leads to the C string argv[i], the pointer
      after them is null, each string ends where the next begins and the last one at top, and the array ends within
      eight bytes of the first. */
  ghost predicate Image(mem: Memory, pointers: nat, top: nat, argv: seq<seq<byte>>) {
    && (forall i :: 0 <= i < |argv| ==> CString(mem, Pointer(mem, pointers, i), argv[i]))
    && Pointer(mem, pointers, |argv|) == 0
    && (forall i :: 0 <= i < |argv| - 1 ==>
          Pointer(mem, pointers, i) + |argv[i]| + 1 == Pointer(mem, pointers, i + 1))
    && (argv != [] ==> Pointer(mem, pointers, |argv| - 1) + |argv[|argv| - 1]| + 1 == top)
    && (var low := if argv == [] then top else Pointer(mem, pointers, 0);
        low - 8 < pointers + 8 * (|argv| + 1) <= low)
  }

  lemma PlacedImage(mem: Memory, pointers: nat, top: nat, argv: seq<seq<byte>>)
    requires pointers == ArrayPlace(top, argv) && Pointer(mem, pointers, |argv|) == 0
    requires forall i :: 0 <= i < |argv| ==>
      Pointer(mem, pointers, i) == Place(top, argv, i) && CString(mem, Pointer(mem, pointers, i), argv[i])
    ensures Image(mem, pointers, top, argv)
  {
    hide CString; hide Pointer; hide Down; hide Place;
    PlaceEnds(top, argv);
    forall i | 0 <= i < |argv| ensures Place(top, argv, i) + |argv[i]| + 1 == Place(top, argv, i + 1) {
      PlaceStep(top, argv, i);
    }
  }

  /** Strings follow each other without overlap, above the array and up to top. */
  lemma {:induction false} PlacesApart(top: int, argv: seq<seq<byte>>, i: nat, j: nat)
    requires i <= j <= |argv|
    ensures i < j ==> Place(top, argv, i) + |argv[i]| + 1 <= Place(top, argv, j)
    ensures Place(top, argv, i) <= Place(top, argv, j) <= top
    decreases |argv| - i
  {
    if i < j {
      PlacesApart(top, argv, i + 1, j);
    } else if i < |argv| {
      PlacesApart(top, argv, i + 1, j + 1);
    }
  }

  /** The array ends below every string, and the strings end at top. */
  lemma ArrayBelow(top: int, argv: seq<seq<byte>>, i: nat)
    requires i <= |argv|
    ensures ArrayPlace(top, argv) + 8 * (|argv| + 1) <= Place(top, argv, i) <= top
  {
    hide Down;
    PlacesApart(top, argv, 0, i);
  }

  lemma {:induction false} ShortPlaces(top: int, argv: seq<seq<byte>>, i: nat)
    requires i <= |argv| && forall k :: 0 <= k < |argv| ==> |argv[k]| < 64
    ensures Place(top, argv, i) >= top - 64 * (|argv| - i)
    decreases |argv| - i
  {
    if i < |argv| { ShortPlaces(top, argv, i + 1); }
  }

  /** Up to 16 arguments of at most 63 characters always fit the user stack. */
  lemma ShortArgsFit(argv: seq<seq<byte>>)
    requires |argv| <= MAX_ARGS && forall k :: 0 <= k < |argv| ==> |argv[k]| < 64
    ensures Down(ArrayPlace(USER_STACK_TOP, argv), 16) >= USER_STACK_TOP - USER_STACK_SIZE
  {
    hide Place; hide Down;
    ShortPlaces(USER_STACK_TOP, argv, 0);
  }

  function ArrayEnd(top: int, argv: seq<seq<byte>>): int { ArrayPlace(top, argv) + 8 * (|argv| + 1) }

  lemma MultipleOf8(a: int, n: nat)
    requires a % 8 == 0
    ensures (a - 8 * n) % 8 == 0
  {
  }

  lemma PlaceEnds(top: int, argv: seq<seq<byte>>)
    ensures Place(top, argv, |argv|) == top
  {
  }

  lemma PlaceStep(top: int, argv: seq<seq<byte>>, i: nat)
    requires i < |argv|
    ensures Place(top, argv, i) == Place(top, argv, i + 1) - |argv[i]| - 1
  {
  }

  lemma NothingOutside(mem: Memory, a: nat)
    ensures Outside(mem, mem, a, 0)
  {
  }

  lemma CopiedString(mem: Memory, a: nat, s: seq<byte>)
    requires Holds(mem, a, s + [0]) && 0 !in s
    ensures CString(mem, a, s)
  {
  }

  lemma StringKept(mem: Memory, mem': Memory, a: nat, n: nat, b: nat, s: seq<byte>)
    requires CString(mem, b, s) && Outside(mem, mem', a, n) && (b + |s| + 1 <= a || a + n <= b)
    ensures CString(mem', b, s)
  {
    forall k | 0 <= k < |s + [0]| ensures Peek(mem', b + k) == (s + [0])[k] {
      assert Peek(mem, b + k) == (s + [0])[k];
    }
  }

  lemma WordKept(mem: Memory, mem': Memory, a: nat, b: nat)
    requires Outside(mem, mem', a, 8) && b + 8 <= a
    ensures Word(mem', b) == Word(mem, b)
  {
    assert Eight(mem', b) == Eight(mem, b);
  }

  lemma OutsideGrows(m0: Memory, m1: Memory, m2: Memory, sp: nat, len: nat, top: nat)
    requires sp + len <= top && Outside(m0, m1, sp + len, top - sp - len) && Outside(m1, m2, sp, len)
    ensures Outside(m0, m2, sp, top - sp)
  {
  }

  lemma OutsideNext(m0: Memory, m1: Memory, m2: Memory, sp: nat, n: nat, k: nat)
    requires Outside(m0, m1, sp, n) && Outside(m1, m2, sp + n, k)
    ensures Outside(m0, m2, sp, n + k)
  {
  }

  lemma OutsideBoth(m0: Memory, m1: Memory, m2: Memory, low: nat, sp: nat, n: nat, top: nat)
    requires sp + n <= low <= top && Outside(m0, m1, low, top - low) && Outside(m1, m2, sp, n)
    ensures Outside(m0, m2, sp, top - sp)
  {
  }

  class UserMemory {
    var mem: Memory

    method Copy(a: nat, s: seq<byte>)
      modifies this
      ensures Holds(mem, a, s) && Outside(old(mem), mem, a, |s|)
    {
      var k := 0;
      while k < |s|
        invariant k <= |s| && (forall j :: 0 <= j < k ==> Peek(mem, a + j) == s[j]) && Outside(old(mem), mem, a, k)
      {
        mem := mem[a + k := s[k]];
        k := k + 1;
      }
    }

    /** The strings, from the last argument down; addrs receives where each one stands. */
    method CopyStrings(top: nat, argv: seq<seq<byte>>, addrs: array<nat>) returns (sp: nat)
      requires |argv| <= addrs.Length && 0 <= Place(top, argv, 0) && forall i :: 0 <= i < |argv| ==> 0 !in argv[i]
      modifies this, addrs
      ensures sp == Place(top, argv, 0)
      ensures forall i :: 0 <= i < |argv| ==> addrs[i] == Place(top, argv, i) && CString(mem, addrs[i], argv[i])
      ensures Outside(old(mem), mem, sp, top - sp)
    {
      hide Place; hide CString; hide Outside;
      sp := top;
      var i := |argv|;
      PlaceEnds(top, argv);
      NothingOutside(mem, sp);
      while i > 0
        invariant 0 <= i <= |argv| && sp == Place(top, argv, i) <= top
        invariant forall j :: i <= j < |argv| ==> addrs[j] == Place(top, argv, j) && CString(mem, addrs[j], argv[j])
        invariant Outside(old(mem), mem, sp, top - sp)
      {
        i := i - 1;
        PlaceStep(top, argv, i);
        PlacesApart(top, argv, 0, i);
        var len := |argv[i]| + 1;
        sp := sp - len;
        ghost var before := mem;
        ghost var was := addrs[..];
        Copy(sp, argv[i] + [0]);
        addrs[i] := sp;
        CopiedString(mem, sp, argv[i]);
        OutsideGrows(old(mem), before, mem, sp, len, top);
        forall j | i < j < |argv| ensures addrs[j] == Place(top, argv, j) && CString(mem, addrs[j], argv[j]) {
          assert addrs[j] == was[j];
          PlacesApart(top, argv, i, j);
          StringKept(before, mem, sp, len, addrs[j], argv[j]);
        }
      }
    }

    /** The pointer array at sp, closed by a null pointer. */
    method CopyPointers(sp: nat, argc: nat, addrs: array<nat>)
      requires argc <= addrs.Length && forall i :: 0 <= i < argc ==> addrs[i] < WORD
      modifies this
      ensures forall i :: 0 <= i < argc ==> Word(mem, sp + 8 * i) == addrs[i]
      ensures Word(mem, sp + 8 * argc) == 0 && Outside(old(mem), mem, sp, 8 * (argc + 1))
    {
      hide Word; hide Outside; hide Le64; hide Holds;
      var i := 0;
      NothingOutside(mem, sp);
      while i < argc
        invariant i <= argc && (forall j :: 0 <= j < i ==> Word(mem, sp + 8 * j) == addrs[j])
        invariant Outside(old(mem), mem, sp, 8 * i)
      {
        ghost var before := mem;
        Copy(sp + 8 * i, Le64(addrs[i]));
        WordHeld(mem, sp + 8 * i, addrs[i]);
        forall j | 0 <= j < i
          ensures Word(mem, sp + 8 * j) == addrs[j]
        {
          WordKept(before, mem, sp + 8 * i, sp + 8 * j);
        }
        OutsideNext(old(mem), before, mem, sp, 8 * i, 8);
        i := i + 1;
      }
      ghost var before := mem;
      Copy(sp + 8 * argc, Le64(0));
      WordHeld(mem, sp + 8 * argc, 0);
      forall j | 0 <= j < argc
        ensures Word(mem, sp + 8 * j) == addrs[j]
      {
        WordKept(before, mem, sp + 8 * argc, sp + 8 * j);
      }
      OutsideNext(old(mem), before, mem, sp, 8 * argc, 8);
    }

    /** setupArgs: the first 16 arguments, or all if there are fewer, read back from the image in their order, closed by
        a null pointer. The strings fill the memory below top without a gap, the array is on the highest 8-byte boundary
        that leaves room for it, and the stack pointer on the highest 16-byte boundary not above the array. */
    method SetupArgs(top: nat, argv: seq<seq<byte>>) returns (sp: nat, pointers: nat)
      requires top < WORD && (forall i :: 0 <= i < |argv| ==> 0 !in argv[i])
      requires Down(ArrayPlace(top, Kept(argv)), 16) >= 0
      modifies this
      ensures |argv| <= 16 ==> Image(mem, pointers, top, argv)
      ensures |argv| > 16 ==> Image(mem, pointers, top, argv[..16])
      ensures pointers % 8 == 0 && sp % 16 == 0 && pointers - 16 < sp <= pointers
      ensures Outside(old(mem), mem, pointers, top - pointers)
    {
      hide Place; hide CString; hide Outside; hide Word; hide Down;
      var args := Kept(argv);
      var argc := |args|;
      var addrs := new nat[MAX_ARGS];
      ArrayBelow(top, args, 0);
      sp := CopyStrings(top, args, addrs);
      forall i | 0 <= i < argc ensures addrs[i] < WORD && ArrayEnd(top, args) <= addrs[i] { ArrayBelow(top, args, i); }
      ghost var strings, low := mem, sp;
      sp := Down(sp, 8);
      sp := sp - 8 * (argc + 1);
      pointers := sp;
      CopyPointers(sp, argc, addrs);
      forall i | 0 <= i < argc ensures CString(mem, addrs[i], args[i]) {
        StringKept(strings, mem, sp, 8 * (argc + 1), addrs[i], args[i]);
      }
      OutsideBoth(old(mem), strings, mem, low, sp, 8 * (argc + 1), top);
      MultipleOf8(sp + 8 * (argc + 1), argc + 1);
      sp := Down(sp, 16);
      PlacedImage(mem, pointers, top, args);
    }
  }
}
