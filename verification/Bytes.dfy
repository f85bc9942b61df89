/** Little-endian fields laid over byte buffers, the way the driver overlays
    packed structures on the blocks it reads. */
module Bytes {

  type byte = x: int | 0 <= x < 256

  const U16: nat := 0x1_0000
  const U32: nat := 0x1_0000_0000

  /** The unsigned 16-bit field at byte offset o. */
  function Get16(s: seq<byte>, o: nat): (r: nat)
    requires o + 2 <= |s|
    ensures r < U16
  {
    s[o] as int + 256 * (s[o + 1] as int)
  }

  /** The unsigned 32-bit field at byte offset o. */
  function Get32(s: seq<byte>, o: nat): (r: nat)
    requires o + 4 <= |s|
    ensures r < U32
  {
    s[o] as int + 256 * (s[o + 1] as int) + 65536 * (s[o + 2] as int) + 16777216 * (s[o + 3] as int)
  }

  function Le16(v: nat): (r: seq<byte>)
    requires v < U16
    ensures |r| == 2
  {
    [v % 256, v / 256]
  }

  function Le32(v: nat): (r: seq<byte>)
    requires v < U32
    ensures |r| == 4
  {
    [v % 256, v / 256 % 256, v / 65536 % 256, v / 16777216]
  }

  /** memcpy(s + o, t, |t|). */
  function Splice(s: seq<byte>, o: nat, t: seq<byte>): (r: seq<byte>)
    requires o + |t| <= |s|
    ensures |r| == |s|
    ensures forall i :: 0 <= i < |s| ==> r[i] == if o <= i < o + |t| then t[i - o] else s[i]
  {
    s[..o] + t + s[o + |t|..]
  }

  function Zeros(n: nat): (r: seq<byte>)
    ensures |r| == n
    ensures forall i :: 0 <= i < n ==> r[i] == 0
  {
    seq(n, i => 0)
  }

  lemma Le16RoundTrip(s: seq<byte>, o: nat, v: nat)
    requires o + 2 <= |s| && v < U16 && s[o..o + 2] == Le16(v)
    ensures Get16(s, o) == v
  {
    assert s[o] == s[o..o + 2][0] && s[o + 1] == s[o..o + 2][1];
  }

  lemma Digits(v: nat)
    ensures v == v % 256 + 256 * (v / 256 % 256) + 65536 * (v / 65536 % 256) + 16777216 * (v / 16777216)
  {
    var a := v / 256;
    var b := a / 256;
    assert b == v / 65536;
    assert b / 256 == v / 16777216;
  }

  lemma Le32RoundTrip(s: seq<byte>, o: nat, v: nat)
    requires o + 4 <= |s| && v < U32 && s[o..o + 4] == Le32(v)
    ensures Get32(s, o) == v
  {
    var t := s[o..o + 4];
    assert s[o] == t[0] && s[o + 1] == t[1] && s[o + 2] == t[2] && s[o + 3] == t[3];
    Digits(v);
  }

  /** Storing a 32-bit field is seen by reading it and by no disjoint read. */
  lemma Splice32(s: seq<byte>, o: nat, v: nat)
    requires o + 4 <= |s| && v < U32
    ensures Get32(Splice(s, o, Le32(v)), o) == v
    ensures forall p: nat :: p + 4 <= |s| && (p + 4 <= o || o + 4 <= p) ==>
      Get32(Splice(s, o, Le32(v)), p) == Get32(s, p)
  {
    var r := Splice(s, o, Le32(v));
    assert r[o..o + 4] == Le32(v);
    Le32RoundTrip(r, o, v);
  }

  lemma Splice16(s: seq<byte>, o: nat, v: nat)
    requires o + 2 <= |s| && v < U16
    ensures Get16(Splice(s, o, Le16(v)), o) == v
  {
    var r := Splice(s, o, Le16(v));
    assert r[o..o + 2] == Le16(v);
    Le16RoundTrip(r, o, v);
  }
}
