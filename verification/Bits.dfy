/** Bitmaps: bit i of a byte buffer is bit i % 8 of byte i / 8. */
module Bits {
  import opened Bytes

  function ToBv(x: byte): (b: bv8) { x as bv8 }

  function FromBv(b: bv8): (x: byte) { b as int }

  predicate TestByte(x: byte, k: nat)
    requires k < 8
  {
    ToBv(x) & (1 << k) != 0
  }

  function SetByte(x: byte, k: nat): (r: byte)
    requires k < 8
  {
    FromBv(ToBv(x) | (1 << k))
  }

  function ClearByte(x: byte, k: nat): (r: byte)
    requires k < 8
  {
    FromBv(ToBv(x) & !(1 << k))
  }

  predicate Test(bm: seq<byte>, i: nat)
    requires i / 8 < |bm|
  {
    TestByte(bm[i / 8], i % 8)
  }

  function Set(bm: seq<byte>, i: nat): (r: seq<byte>)
    requires i / 8 < |bm|
    ensures |r| == |bm|
    ensures forall j: nat :: j / 8 < |bm| ==> (Test(r, j) <==> j == i || Test(bm, j))
  {
    SetBytes(bm, i);
    bm[i / 8 := SetByte(bm[i / 8], i % 8)]
  }

  function Clear(bm: seq<byte>, i: nat): (r: seq<byte>)
    requires i / 8 < |bm|
    ensures |r| == |bm|
    ensures forall j: nat :: j / 8 < |bm| ==> (Test(r, j) <==> j != i && Test(bm, j))
  {
    ClearBytes(bm, i);
    bm[i / 8 := ClearByte(bm[i / 8], i % 8)]
  }

  /** The number of clear bits among the first n. */
  function CountClear(bm: seq<byte>, n: nat): (c: nat)
    requires n <= 8 * |bm|
    ensures c <= n
  {
    if n == 0 then 0 else CountClear(bm, n - 1) + (if Test(bm, n - 1) then 0 else 1)
  }

  lemma RoundTrip(b: bv8)
    ensures ToBv(FromBv(b)) == b
  {
  }

  lemma SetBv(x: bv8, k: nat, j: nat)
    requires k < 8 && j < 8
    ensures (x | (1 << k)) & (1 << j) != 0 <==> k == j || x & (1 << j) != 0
  {
  }

  lemma ClearBv(x: bv8, k: nat, j: nat)
    requires k < 8 && j < 8
    ensures (x & !(1 << k)) & (1 << j) != 0 <==> k != j && x & (1 << j) != 0
  {
  }

  lemma SetByteTest(x: byte, k: nat, j: nat)
    requires k < 8 && j < 8
    ensures TestByte(SetByte(x, k), j) <==> k == j || TestByte(x, j)
  {
    hide ToBv; hide FromBv;
    RoundTrip(ToBv(x) | (1 << k));
    SetBv(ToBv(x), k, j);
  }

  lemma ClearByteTest(x: byte, k: nat, j: nat)
    requires k < 8 && j < 8
    ensures TestByte(ClearByte(x, k), j) <==> k != j && TestByte(x, j)
  {
    hide ToBv; hide FromBv;
    RoundTrip(ToBv(x) & !(1 << k));
    ClearBv(ToBv(x), k, j);
  }

  lemma SetBytes(bm: seq<byte>, i: nat)
    requires i / 8 < |bm|
    ensures var r := bm[i / 8 := SetByte(bm[i / 8], i % 8)];
      forall j: nat :: j / 8 < |bm| ==> (Test(r, j) <==> j == i || Test(bm, j))
  {
    hide TestByte; hide SetByte;
    var r := bm[i / 8 := SetByte(bm[i / 8], i % 8)];
    forall j: nat | j / 8 < |bm| ensures Test(r, j) <==> j == i || Test(bm, j) {
      SetByteTest(bm[i / 8], i % 8, j % 8);
    }
  }

  lemma ClearBytes(bm: seq<byte>, i: nat)
    requires i / 8 < |bm|
    ensures var r := bm[i / 8 := ClearByte(bm[i / 8], i % 8)];
      forall j: nat :: j / 8 < |bm| ==> (Test(r, j) <==> j != i && Test(bm, j))
  {
    hide TestByte; hide ClearByte;
    var r := bm[i / 8 := ClearByte(bm[i / 8], i % 8)];
    forall j: nat | j / 8 < |bm| ensures Test(r, j) <==> j != i && Test(bm, j) {
      ClearByteTest(bm[i / 8], i % 8, j % 8);
    }
  }

  /** Two bitmaps that agree on the first n bits but for bit i, set in the second only. */
  lemma {:induction false} CountOneMore(bm: seq<byte>, bm': seq<byte>, i: nat, n: nat)
    requires |bm| == |bm'| && n <= 8 * |bm| && i / 8 < |bm|
    requires forall j: nat :: j / 8 < |bm| ==> (Test(bm', j) <==> j == i || Test(bm, j))
    requires !Test(bm, i)
    ensures CountClear(bm', n) == CountClear(bm, n) - (if i < n then 1 else 0)
  {
    hide Test;
    if n > 0 {
      assert (n - 1) / 8 < |bm|;
      CountOneMore(bm, bm', i, n - 1);
    }
  }

  lemma {:induction false} CountSame(bm: seq<byte>, bm': seq<byte>, n: nat)
    requires |bm| == |bm'| && n <= 8 * |bm|
    requires forall j: nat :: j < n && j / 8 < |bm| ==> (Test(bm', j) <==> Test(bm, j))
    ensures CountClear(bm', n) == CountClear(bm, n)
  {
    hide Test;
    if n > 0 {
      assert (n - 1) / 8 < |bm|;
      CountSame(bm, bm', n - 1);
    }
  }

  /** No clear bit is counted exactly when every bit is set. */
  lemma {:induction false} CountZero(bm: seq<byte>, n: nat)
    requires n <= 8 * |bm|
    ensures CountClear(bm, n) == 0 <==> forall i: nat :: i < n ==> i / 8 < |bm| && Test(bm, i)
  {
    hide Test;
    if n > 0 {
      CountZero(bm, n - 1);
      assert (n - 1) / 8 < |bm|;
    }
  }
}
