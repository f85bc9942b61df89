/** Path names: their components, and names put together from components. */
module PathNames {

  const SLASH: char := '/'

  /** The length of the leading run of characters other than a slash. */
  function WordLength(s: string): (k: nat)
    ensures k <= |s| && (forall j :: 0 <= j < k ==> s[j] != SLASH) && (k < |s| ==> s[k] == SLASH)
  {
    if s == "" || s[0] == SLASH then 0 else 1 + WordLength(s[1..])
  }

  lemma WordIs(s: string, k: nat)
    requires k <= |s| && (forall j :: 0 <= j < k ==> s[j] != SLASH) && (k < |s| ==> s[k] == SLASH)
    ensures WordLength(s) == k
  {
    hide WordLength;
  }

  /** The components of a path: the runs between slashes that are not empty. */
  function Pieces(s: string): seq<string>
    decreases |s|
  {
    if s == "" then []
    else if s[0] == SLASH then Pieces(s[1..])
    else [s[..WordLength(s)]] + Pieces(s[WordLength(s)..])
  }

  /** A component: not empty and without a slash. */
  ghost predicate Component(c: string) { c != "" && SLASH !in c }

  ghost predicate Components(cs: seq<string>) { forall i :: 0 <= i < |cs| ==> Component(cs[i]) }

  lemma {:induction false} PiecesAreComponents(s: string)
    ensures Components(Pieces(s))
    decreases |s|
  {
    if s == "" {
    } else if s[0] == SLASH {
      PiecesAreComponents(s[1..]);
    } else {
      PiecesAreComponents(s[WordLength(s)..]);
      assert Component(s[..WordLength(s)]);
    }
  }

  /** Joining two paths at a slash joins their components. */
  lemma {:induction false} PiecesJoin(a: string, b: string)
    requires b != "" ==> b[0] == SLASH
    ensures Pieces(a + b) == Pieces(a) + Pieces(b)
    decreases |a|
  {
    if a == "" {
      assert a + b == b;
    } else if a[0] == SLASH {
      assert (a + b)[1..] == a[1..] + b;
      PiecesJoin(a[1..], b);
    } else {
      var k := WordLength(a);
      WordIs(a + b, k);
      assert (a + b)[..k] == a[..k] && (a + b)[k..] == a[k..] + b;
      PiecesJoin(a[k..], b);
      Associate([a[..k]], Pieces(a[k..]), Pieces(b));
    }
  }

  lemma Associate(a: seq<string>, b: seq<string>, c: seq<string>)
    ensures a + (b + c) == a + b + c
  {
  }

  lemma SlashPieces(s: string)
    ensures Pieces("/" + s) == Pieces(s)
  {
    assert ("/" + s)[1..] == s;
  }

  lemma OnePiece(c: string)
    requires Component(c)
    ensures Pieces(c) == [c]
  {
    assert forall j :: 0 <= j < |c| ==> c[j] != SLASH;
    WordIs(c, |c|);
    assert c[..|c|] == c && c[|c|..] == "";
  }

  // ---------- putting a path together ----------

  /** Each component behind a slash. */
  function Slashed(cs: seq<string>): string {
    if cs == [] then "" else Slashed(cs[..|cs| - 1]) + "/" + cs[|cs| - 1]
  }

  /** The absolute path of the components. */
  function Absolute(cs: seq<string>): (p: string)
    ensures p != "" && p[0] == SLASH
  {
    SlashedStart(cs);
    if cs == [] then "/" else Slashed(cs)
  }

  lemma {:induction false} SlashedStart(cs: seq<string>)
    ensures cs != [] ==> Slashed(cs) != "" && Slashed(cs)[0] == SLASH
    decreases |cs|
  {
    if cs != [] { SlashedStart(cs[..|cs| - 1]); }
  }

  /** Taking a path apart undoes putting it together. */
  lemma {:induction false} SlashedPieces(cs: seq<string>)
    requires Components(cs)
    ensures Pieces(Slashed(cs)) == cs
    decreases |cs|
  {
    if cs != [] {
      var n := |cs| - 1;
      var c := cs[n];
      SlashedPieces(cs[..n]);
      assert Slashed(cs[..n]) + "/" + c == Slashed(cs[..n]) + ("/" + c);
      PiecesJoin(Slashed(cs[..n]), "/" + c);
      SlashPieces(c);
      OnePiece(c);
    }
  }

  lemma AbsolutePieces(cs: seq<string>)
    requires Components(cs)
    ensures Pieces(Absolute(cs)) == cs
  {
    SlashedPieces(cs);
  }

  lemma {:induction false} SlashedAppend(a: seq<string>, b: seq<string>)
    ensures Slashed(a + b) == Slashed(a) + Slashed(b)
    decreases |b|
  {
    if b == [] {
      assert a + b == a;
    } else {
      var n := |b| - 1;
      assert (a + b)[..|a| + n] == a + b[..n];
      SlashedAppend(a, b[..n]);
    }
  }
}
