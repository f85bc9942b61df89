/** The virtual file system's path normalisation. */
module Vfs {
  import opened PathNames

  const COMBINED: nat := 256
  const MAX_SEGMENTS: nat := 32
  const SEGMENT: nat := 64

  function Cut(s: string, n: nat): (r: string)
    ensures |r| <= n && |r| <= |s|
  {
    if |s| <= n then s else s[..n]
  }

  // ---------- normalizePath as functions ----------

  /** The working directory with a slash behind it, as far as the buffer takes it. */
  function Base(cwd: string): (b: string)
    ensures 1 <= |b| <= COMBINED - 1
  {
    var c := Cut(cwd, COMBINED - 2);
    if c == "" || c[|c| - 1] != SLASH then c + "/" else c
  }

  function Combined(cwd: string, input: string): (s: string)
    ensures |s| <= COMBINED - 1
  {
    if input != "" && input[0] == SLASH then Cut(input, COMBINED - 1)
    else Base(cwd) + Cut(input, COMBINED - 1 - |Base(cwd)|)
  }

  /** One component met: "." is skipped, ".." drops the last, any other is kept if there is room, cut to 63. */
  function Push(stack: seq<string>, c: string): seq<string> {
    if c == "." then stack
    else if c == ".." then (if stack == [] then [] else stack[..|stack| - 1])
    else if |stack| < MAX_SEGMENTS then stack + [Cut(c, SEGMENT - 1)] else stack
  }

  function Fold(stack: seq<string>, cs: seq<string>): seq<string>
    decreases |cs|
  {
    if cs == [] then stack else Fold(Push(stack, cs[0]), cs[1..])
  }

  function Normal(cwd: string, input: string): string {
    Absolute(Fold([], Pieces(Combined(cwd, input))))
  }

  // ---------- the meaning, free of buffers ----------

  function Resolve(stack: seq<string>, cs: seq<string>): seq<string>
    decreases |cs|
  {
    if cs == [] then stack
    else if cs[0] == "." then Resolve(stack, cs[1..])
    else if cs[0] == ".." then Resolve(if stack == [] then [] else stack[..|stack| - 1], cs[1..])
    else Resolve(stack + [cs[0]], cs[1..])
  }

  /** The path that input means in directory cwd. */
  function Joined(cwd: string, input: string): string {
    if input != "" && input[0] == SLASH then input else cwd + "/" + input
  }

  /** The limits of the buffers: 255 characters, 63 to a component, 32 components. */
  ghost predicate InLimits(cwd: string, input: string) {
    |Joined(cwd, input)| <= 255 && |Pieces(Joined(cwd, input))| <= 32
    && forall i :: 0 <= i < |Pieces(Joined(cwd, input))| ==> |Pieces(Joined(cwd, input))[i]| < 64
  }

  lemma {:induction false} FoldIsResolve(stack: seq<string>, cs: seq<string>)
    requires |stack| + |cs| <= MAX_SEGMENTS && forall i :: 0 <= i < |cs| ==> |cs[i]| < SEGMENT
    ensures Fold(stack, cs) == Resolve(stack, cs)
    decreases |cs|
  {
    if cs != [] { FoldIsResolve(Push(stack, cs[0]), cs[1..]); }
  }

  lemma CombinedPieces(cwd: string, input: string)
    requires |Joined(cwd, input)| <= COMBINED - 1
    ensures Pieces(Combined(cwd, input)) == Pieces(Joined(cwd, input))
  {
    if !(input != "" && input[0] == SLASH) {
      var b := Base(cwd);
      assert |cwd| + 1 + |input| <= COMBINED - 1;
      if b == cwd {
        assert cwd + "/" + input == cwd + ("/" + input);
        PiecesJoin(cwd, "/" + input);
        SlashPieces(input);
        SlashEnd(cwd, input);
      } else {
        assert b + input == cwd + "/" + input;
      }
    }
  }

  lemma SlashMiddle(x: string, b: string)
    ensures Pieces(x + "/" + b) == Pieces(x) + Pieces(b)
  {
    hide Pieces;
    assert x + "/" + b == x + ("/" + b);
    PiecesJoin(x, "/" + b);
    SlashPieces(b);
  }

  /** A path that ends in a slash joins with any path. */
  lemma SlashEnd(a: string, b: string)
    requires a != "" && a[|a| - 1] == SLASH
    ensures Pieces(a + b) == Pieces(a) + Pieces(b)
  {
    hide Pieces;
    var x := a[..|a| - 1];
    assert a == x + "/";
    SlashMiddle(x, b);
    SlashMiddle(x, "");
    assert x + "/" + "" == a;
    NoPieces();
    assert Pieces(x) + [] == Pieces(x);
  }

  /** Within its buffers normalizePath is the fold of a stack over the components of the joined path. */
  lemma NormalIsResolve(cwd: string, input: string)
    requires InLimits(cwd, input)
    ensures Normal(cwd, input) == Absolute(Resolve([], Pieces(Joined(cwd, input))))
  {
    CombinedPieces(cwd, input);
    FoldIsResolve([], Pieces(Joined(cwd, input)));
  }

  // ---------- what "." and ".." mean ----------

  lemma {:induction false} ResolveAppend(stack: seq<string>, a: seq<string>, b: seq<string>)
    ensures Resolve(stack, a + b) == Resolve(Resolve(stack, a), b)
    decreases |a|
  {
    if a == [] {
      assert a + b == b;
    } else {
      assert (a + b)[1..] == a[1..] + b;
      var popped := if stack == [] then [] else stack[..|stack| - 1];
      ResolveAppend(if a[0] == "." then stack else if a[0] == ".." then popped else stack + [a[0]], a[1..], b);
    }
  }

  /** "." stays where it is, a name and ".." behind it cancel, ".." stays in the root, and names add up. These four
      rules take any list of components to its meaning. */
  lemma DotsMean(a: seq<string>, c: string, b: seq<string>)
    ensures Resolve([], a + ["."] + b) == Resolve([], a + b)
    ensures c != "." && c != ".." ==> Resolve([], a + [c, ".."] + b) == Resolve([], a + b)
    ensures Resolve([], [".."] + b) == Resolve([], b)
    ensures (forall i :: 0 <= i < |a| ==> a[i] != "." && a[i] != "..") ==> Resolve([], a) == a
  {
    var s := Resolve([], a);
    ResolveAppend([], a, b);
    ResolveAppend([], a, ["."]);
    ResolveAppend([], a + ["."], b);
    OneStep(s, ".");
    ResolveAppend([], a, [c, ".."]);
    ResolveAppend([], a + [c, ".."], b);
    assert [c, ".."][1..] == [".."];
    assert Resolve(s, [c, ".."]) == Resolve(if c == "." || c == ".." then Resolve(s, [c]) else s + [c], [".."]) by {
      OneStep(s, c);
    }
    OneStep(s + [c], "..");
    assert (s + [c])[..|s|] == s;
    ResolveAppend([], [".."], b);
    OneStep([], "..");
    if forall i :: 0 <= i < |a| ==> a[i] != "." && a[i] != ".." {
      NamesAdd([], a);
      assert [] + a == a;
    }
  }

  lemma OneStep(stack: seq<string>, c: string)
    ensures Resolve(stack, [c]) ==
      if c == "." then stack else if c != ".." then stack + [c] else if stack == [] then [] else stack[..|stack| - 1]
  {
    assert [c][1..] == [];
  }

  lemma {:induction false} NamesAdd(stack: seq<string>, cs: seq<string>)
    requires forall i :: 0 <= i < |cs| ==> cs[i] != "." && cs[i] != ".."
    ensures Resolve(stack, cs) == stack + cs
    decreases |cs|
  {
    if cs == [] {
      assert stack + cs == stack;
    } else {
      NamesAdd(stack + [cs[0]], cs[1..]);
      assert stack + [cs[0]] + cs[1..] == stack + cs;
    }
  }

  /** On paths: behind any absolute path, going into a directory and back changes nothing. */
  lemma ThereAndBack(cwd: string, x: string, c: string, y: string)
    requires x != "" && x[0] == SLASH && Component(c) && c != "." && c != ".."
    requires InLimits(cwd, x + "/" + c + "/../" + y)
    ensures Normal(cwd, x + "/" + c + "/../" + y) == Normal(cwd, x + "/" + y)
  {
    hide Normal; hide Pieces; hide Resolve; hide Absolute;
    var long, short := x + "/" + c + "/../" + y, x + "/" + y;
    ThereAndBackPieces(x, c, y);
    assert Joined(cwd, long) == long && Joined(cwd, short) == short;
    var a, b := Pieces(x), Pieces(y);
    assert forall i :: 0 <= i < |a| ==> (a + b)[i] == (a + [c, ".."] + b)[i];
    assert forall i :: |a| <= i < |a + b| ==> (a + b)[i] == (a + [c, ".."] + b)[i + 2];
    NormalIsResolve(cwd, long);
    NormalIsResolve(cwd, short);
    DotsMean(a, c, b);
  }

  lemma ThereAndBackPieces(x: string, c: string, y: string)
    requires Component(c)
    ensures Pieces(x + "/" + y) == Pieces(x) + Pieces(y)
    ensures Pieces(x + "/" + c + "/../" + y) == Pieces(x) + [c, ".."] + Pieces(y)
  {
    hide Pieces;
    SlashMiddle(x, y);
    SlashMiddle(x + "/" + c + "/" + "..", y);
    SlashMiddle(x + "/" + c, "..");
    SlashMiddle(x, c);
    OnePiece(c);
    OnePiece("..");
    assert x + "/" + c + "/" + ".." + "/" + y == x + "/" + c + "/../" + y;
    assert Pieces(x) + [c] + [".."] == Pieces(x) + [c, ".."];
  }

  /** A component that stands for a name. */
  ghost predicate Plain(c: string) { Component(c) && c != "." && c != ".." && |c| < SEGMENT }

  ghost predicate AllPlain(cs: seq<string>) { |cs| <= MAX_SEGMENTS && forall i :: 0 <= i < |cs| ==> Plain(cs[i]) }

  lemma {:induction false} FoldPlain(stack: seq<string>, cs: seq<string>)
    requires AllPlain(stack) && Components(cs)
    ensures AllPlain(Fold(stack, cs))
    decreases |cs|
  {
    if cs != [] {
      PushPlain(stack, cs[0]);
      FoldPlain(Push(stack, cs[0]), cs[1..]);
    }
  }

  lemma PushPlain(stack: seq<string>, c: string)
    requires AllPlain(stack) && Component(c)
    ensures AllPlain(Push(stack, c))
  {
    if c != "." && c != ".." && |stack| < MAX_SEGMENTS { CutPlain(c); }
  }

  lemma CutPlain(c: string)
    requires Component(c) && c != "." && c != ".."
    ensures Plain(Cut(c, SEGMENT - 1))
  {
    if |c| > SEGMENT - 1 { assert |Cut(c, SEGMENT - 1)| == SEGMENT - 1; }
  }

  /** Every result, within the limits or not, is absolute and has no empty, "." or ".." component. */
  lemma NormalIsPlain(cwd: string, input: string)
    ensures AllPlain(Pieces(Normal(cwd, input))) && Normal(cwd, input) == Absolute(Pieces(Normal(cwd, input)))
  {
    var cs := Pieces(Combined(cwd, input));
    PiecesAreComponents(Combined(cwd, input));
    FoldPlain([], cs);
    AbsolutePieces(Fold([], cs));
  }

  lemma {:induction false} FoldKeepsPlain(stack: seq<string>, cs: seq<string>)
    requires |stack| + |cs| <= MAX_SEGMENTS && forall i :: 0 <= i < |cs| ==> Plain(cs[i])
    ensures Fold(stack, cs) == stack + cs
    decreases |cs|
  {
    if cs == [] {
      assert stack + cs == stack;
    } else {
      FoldKeepsPlain(stack + [cs[0]], cs[1..]);
      assert stack + [cs[0]] + cs[1..] == stack + cs;
    }
  }

  // ---------- how long results get ----------

  lemma SlashedFront(c: string, cs: seq<string>)
    ensures |Slashed([c] + cs)| == 1 + |c| + |Slashed(cs)|
  {
    SlashedAppend([c], cs);
    assert [c][..0] == [];
  }

  lemma {:induction false} PiecesLength(s: string)
    ensures |Slashed(Pieces(s))| <= |s| + if s != "" && s[0] == SLASH then 0 else 1
    decreases |s|
  {
    if s == "" {
    } else if s[0] == SLASH {
      PiecesLength(s[1..]);
    } else {
      var k := WordLength(s);
      PiecesLength(s[k..]);
      SlashedFront(s[..k], Pieces(s[k..]));
      if k == |s| { assert s[k..] == ""; }
    }
  }

  /** The fold makes no path longer, and as long only when it keeps every component as it is. */
  lemma {:induction false} FoldLength(stack: seq<string>, cs: seq<string>)
    requires |stack| <= MAX_SEGMENTS && Components(cs)
    ensures |Slashed(Fold(stack, cs))| <= |Slashed(stack)| + |Slashed(cs)|
    ensures |Slashed(Fold(stack, cs))| == |Slashed(stack)| + |Slashed(cs)| ==>
      |stack| + |cs| <= MAX_SEGMENTS && forall i :: 0 <= i < |cs| ==> Plain(cs[i])
    decreases |cs|
  {
    hide Slashed;
    if cs == [] {
      EmptyLength();
    } else {
      var c, rest := cs[0], cs[1..];
      assert cs == [c] + rest;
      SlashedFront(c, rest);
      PushLength(stack, c);
      assert Components(rest);
      FoldLength(Push(stack, c), rest);
      if |Slashed(Fold(stack, cs))| == |Slashed(stack)| + |Slashed(cs)| {
        forall i | 0 <= i < |cs| ensures Plain(cs[i]) { if i > 0 { assert cs[i] == rest[i - 1]; } }
      }
    }
  }

  lemma EmptyLength()
    ensures Slashed([]) == ""
  {
  }

  lemma PushLength(stack: seq<string>, c: string)
    requires |stack| <= MAX_SEGMENTS && Component(c)
    ensures |Push(stack, c)| <= MAX_SEGMENTS && |Slashed(Push(stack, c))| <= |Slashed(stack)| + 1 + |c|
    ensures |Slashed(Push(stack, c))| == |Slashed(stack)| + 1 + |c| ==> Plain(c) && |Push(stack, c)| == |stack| + 1
  {
    if c == "." {
    } else if c == ".." {
    } else if |stack| < MAX_SEGMENTS {
      var d := Cut(c, SEGMENT - 1);
      assert (stack + [d])[..|stack|] == stack;
    }
  }

  /** A joined path of the full 255 characters that does not begin with a slash, and of which nothing is dropped. */
  ghost predicate Overlong(s: string) {
    s != "" && s[0] != SLASH && |s| == COMBINED - 1 && AllPlain(Pieces(s)) && |Slashed(Pieces(s))| == COMBINED
  }

  /** Results have at most 256 characters, and 256 exactly from such a path. */
  lemma NormalLength(cwd: string, input: string)
    ensures |Normal(cwd, input)| <= COMBINED
    ensures |Normal(cwd, input)| == COMBINED <==> Overlong(Combined(cwd, input))
  {
    hide Combined; hide Fold; hide Pieces; hide Slashed;
    var s := Combined(cwd, input);
    var cs := Pieces(s);
    PiecesAreComponents(s);
    PiecesLength(s);
    FoldLength([], cs);
    EmptyLength();
    if AllPlain(cs) {
      FoldKeepsPlain([], cs);
      assert [] + cs == cs;
    }
  }

  /** A result is a fixed point, from any working directory, exactly when the joined path was not one of those. */
  lemma NormalIsFixed(cwd: string, input: string, cwd': string)
    ensures Normal(cwd', Normal(cwd, input)) == Normal(cwd, input) <==> !Overlong(Combined(cwd, input))
  {
    hide Normal; hide Absolute; hide Fold; hide Overlong; hide Combined; hide Pieces;
    NormalIsPlain(cwd, input);
    NormalLength(cwd, input);
    var p := Normal(cwd, input);
    Starts(cwd, input);
    if |p| <= COMBINED - 1 {
      FoldKeepsPlain([], Pieces(p));
      NormalOfAbsolute(cwd', p);
      assert [] + Pieces(p) == Pieces(p);
    } else {
      NormalLength(cwd', p);
      CombinedOfAbsolute(cwd', p);
      NotOverlong(Combined(cwd', p));
    }
  }

  /** In an absolute or empty working directory, and for absolute input, every result is a fixed point. */
  lemma AbsoluteIsFixed(cwd: string, input: string, cwd': string)
    requires cwd == "" || cwd[0] == SLASH || (input != "" && input[0] == SLASH)
    ensures Normal(cwd', Normal(cwd, input)) == Normal(cwd, input)
  {
    hide Normal;
    NormalIsFixed(cwd, input, cwd');
  }

  lemma NotOverlong(s: string)
    requires s != "" && s[0] == SLASH
    ensures !Overlong(s)
  {
  }

  lemma CombinedOfAbsolute(cwd: string, p: string)
    requires p != "" && p[0] == SLASH
    ensures Combined(cwd, p) != "" && Combined(cwd, p)[0] == SLASH
  {
  }

  lemma Starts(cwd: string, input: string)
    ensures Normal(cwd, input) != "" && Normal(cwd, input)[0] == SLASH
  {
  }

  lemma NormalOfAbsolute(cwd: string, p: string)
    requires p != "" && p[0] == SLASH && |p| <= COMBINED - 1
    ensures Normal(cwd, p) == Absolute(Fold([], Pieces(p)))
  {
  }

  // ---------- normalizePath as it runs ----------

  function Room(limit: nat, ci: nat): nat { if ci < limit then limit - ci else 0 }

  /** Copies characters of s from index i on into the buffer, as long as the index is below the limit. */
  method Append(buffer: array<char>, ci: nat, s: string, i: nat, limit: nat) returns (n: nat)
    requires i <= |s| && ci <= buffer.Length && limit <= buffer.Length
    modifies buffer
    ensures ci <= n <= buffer.Length && (ci <= limit ==> n <= limit) && (ci >= limit ==> n == ci)
    ensures buffer[..n] == old(buffer[..ci]) + Cut(s[i..], Room(limit, ci))
    ensures forall k :: n <= k < buffer.Length ==> buffer[k] == old(buffer[k])
  {
    n := ci;
    var j := i;
    while j < |s| && n < limit
      invariant i <= j <= |s| && n == ci + (j - i) && (n <= limit || j == i)
      invariant n <= buffer.Length && buffer[..n] == old(buffer[..ci]) + s[i..j]
      invariant forall k :: n <= k < buffer.Length ==> buffer[k] == old(buffer[k])
    {
      buffer[n] := s[j];
      assert s[i..j + 1] == s[i..j] + [s[j]];
      n, j := n + 1, j + 1;
    }
    if j == |s| { assert s[i..j] == s[i..]; } else { assert s[i..j] == s[i..][..Room(limit, ci)]; }
  }

  method CopyBase(cwd: string, combined: array<char>) returns (ci: nat)
    requires combined.Length == COMBINED
    modifies combined
    ensures ci < COMBINED && combined[..ci] == Base(cwd)
  {
    ci := Append(combined, 0, cwd, 0, COMBINED - 2);
    assert cwd[0..] == cwd;
    assert combined[..ci] == Cut(cwd, COMBINED - 2);
    assert ci > 0 ==> combined[ci - 1] == combined[..ci][ci - 1];
    if ci == 0 || combined[ci - 1] != SLASH {
      combined[ci] := SLASH;
      ci := ci + 1;
    }
  }

  method Combine(cwd: string, input: string, combined: array<char>) returns (ci: nat)
    requires combined.Length == COMBINED
    modifies combined
    ensures ci < COMBINED && combined[..ci] == Combined(cwd, input)
  {
    hide Base; hide Cut;
    if input != "" && input[0] == SLASH {
      combined[0] := SLASH;
      assert combined[..1] == "/";
      ci := Append(combined, 1, input, 1, COMBINED - 1);
      CutHead(input);
    } else {
      ci := CopyBase(cwd, combined);
      ci := Append(combined, ci, input, 0, COMBINED - 1);
      assert input[0..] == input;
    }
  }

  lemma CutHead(input: string)
    requires input != "" && input[0] == SLASH
    ensures "/" + Cut(input[1..], COMBINED - 2) == Cut(input, COMBINED - 1)
  {
  }

  method SkipSlashes(s: string, p: nat) returns (q: nat)
    requires p <= |s|
    ensures p <= q <= |s| && Pieces(s[q..]) == Pieces(s[p..]) && (q < |s| ==> s[q] != SLASH)
  {
    hide Pieces;
    q := p;
    while q < |s| && s[q] == SLASH
      invariant p <= q <= |s| && Pieces(s[q..]) == Pieces(s[p..])
    {
      SkipSlash(s, q);
      q := q + 1;
    }
  }

  /** The component that starts at p, and where the next one starts. */
  method NextPiece(s: string, p: nat) returns (c: string, q: nat)
    requires p < |s| && s[p] != SLASH
    ensures p < q <= |s| && Pieces(s[p..]) == [c] + Pieces(s[q..]) && (q < |s| ==> s[q] != SLASH)
  {
    hide Pieces;
    var e := p;
    while e < |s| && s[e] != SLASH
      invariant p <= e <= |s| && forall j :: p <= j < e ==> s[j] != SLASH
    {
      e := e + 1;
    }
    c := s[p..e];
    TakePiece(s, p, e);
    q := SkipSlashes(s, e);
  }

  /** The loop over the components; each is copied into its slot, and a slot may be used again after "..". */
  method Stack(combined: string, storage: array<string>) returns (count: nat)
    requires storage.Length == MAX_SEGMENTS
    modifies storage
    ensures count <= MAX_SEGMENTS && storage[..count] == Fold([], Pieces(combined))
  {
    hide Pieces; hide Fold; hide Push;
    count := 0;
    assert combined[0..] == combined;
    assert storage[..0] == [];
    var p := SkipSlashes(combined, 0);
    while p < |combined|
      invariant p <= |combined| && count <= MAX_SEGMENTS && (p < |combined| ==> combined[p] != SLASH)
      invariant Fold(storage[..count], Pieces(combined[p..])) == Fold([], Pieces(combined))
      decreases |combined| - p
    {
      var c, q := NextPiece(combined, p);
      FoldStep(storage[..count], c, Pieces(combined[q..]));
      count := StoreSegment(storage, count, c);
      p := q;
    }
    assert combined[p..] == "";
    NoPieces();
    FoldNothing(storage[..count]);
  }

  method StoreSegment(storage: array<string>, count: nat, c: string) returns (count': nat)
    requires storage.Length == MAX_SEGMENTS && count <= MAX_SEGMENTS
    modifies storage
    ensures count' <= MAX_SEGMENTS && storage[..count'] == Push(old(storage[..count]), c)
  {
    count' := count;
    if |c| == 1 && c[0] == '.' {
      assert c == ".";
    } else if |c| == 2 && c[0] == '.' && c[1] == '.' {
      assert c == "..";
      if count > 0 {
        count' := count - 1;
        assert storage[..count'] == storage[..count][..count - 1];
      }
    } else if count < MAX_SEGMENTS {
      storage[count] := Cut(c, SEGMENT - 1);
      count' := count + 1;
    }
  }

  lemma FoldNothing(stack: seq<string>)
    ensures Fold(stack, []) == stack
  {
  }

  lemma NoPieces()
    ensures Pieces("") == []
  {
  }

  lemma SkipSlash(s: string, p: nat)
    requires p < |s| && s[p] == SLASH
    ensures Pieces(s[p..]) == Pieces(s[p + 1..])
  {
    assert s[p..][1..] == s[p + 1..];
  }

  lemma TakePiece(s: string, start: nat, p: nat)
    requires start < p <= |s| && (forall j :: start <= j < p ==> s[j] != SLASH) && (p < |s| ==> s[p] == SLASH)
    ensures Pieces(s[start..]) == [s[start..p]] + Pieces(s[p..])
  {
    var t := s[start..];
    WordIs(t, p - start);
    assert t[..p - start] == s[start..p] && t[p - start..] == s[p..];
  }

  lemma FoldStep(stack: seq<string>, c: string, cs: seq<string>)
    ensures Fold(stack, [c] + cs) == Fold(Push(stack, c), cs)
  {
    assert ([c] + cs)[1..] == cs;
  }

  // ---------- the output buffer ----------

  /** What the last loop writes: characters of components only below the limit, slashes between components always. */
  function Spill(cs: seq<string>, limit: nat): string {
    if |cs| == 0 then "/"
    else if |cs| == 1 then "/" + Cut(cs[0], Room(limit, 1))
    else
      var p := Spill(cs[..|cs| - 1], limit) + "/";
      p + Cut(cs[|cs| - 1], Room(limit, |p|))
  }

  /** The path up to the last component but one already takes the characters that the limit allows. */
  predicate Overruns(cs: seq<string>, outSize: nat) {
    |cs| >= 3 && |Absolute(cs[..|cs| - 2])| + 2 >= outSize
  }

  lemma AbsoluteNext(cs: seq<string>)
    requires cs != []
    ensures |cs| == 1 ==> Absolute(cs) == "/" + cs[0]
    ensures |cs| > 1 ==> Absolute(cs) == Absolute(cs[..|cs| - 1]) + "/" + cs[|cs| - 1]
  {
    if |cs| == 1 {
      EmptyLength();
      assert Slashed(cs) == Slashed(cs[..0]) + "/" + cs[0] && cs[..0] == [] && "" + "/" + cs[0] == "/" + cs[0];
    }
  }

  /** Paths that fit are written whole; the others up to the limit, and one slash further for each component that comes
      after the limit is reached. */
  lemma {:induction false} SpillIs(cs: seq<string>, limit: nat)
    requires limit >= 1
    ensures |Absolute(cs)| <= limit ==> Spill(cs, limit) == Absolute(cs)
    ensures |Spill(cs, limit)| >= limit <==> |Absolute(cs)| >= limit
    ensures |Spill(cs, limit)| >= limit + 1 <==> |cs| >= 2 && |Absolute(cs[..|cs| - 1])| >= limit
    ensures |Spill(cs, limit)| >= limit + 2 <==> |cs| >= 3 && |Absolute(cs[..|cs| - 2])| >= limit
    ensures |Spill(cs, limit)| <= limit + |cs|
    decreases |cs|
  {
    hide Absolute;
    if cs == [] {
      NoComponents();
    } else {
      AbsoluteNext(cs);
      if |cs| > 1 {
        var front := cs[..|cs| - 1];
        SpillIs(front, limit);
        if |cs| > 2 { assert front[..|front| - 1] == cs[..|cs| - 2]; }
        SpillNext(cs, limit);
      }
    }
  }

  lemma NoComponents()
    ensures Absolute([]) == "/"
  {
  }

  lemma SpillNext(cs: seq<string>, limit: nat)
    requires |cs| > 1
    ensures var p := Spill(cs[..|cs| - 1], limit); Spill(cs, limit) == p + "/" + Cut(cs[|cs| - 1], Room(limit, |p| + 1))
  {
  }

  /** The index at which the closing NUL is written lies outside the buffer exactly for such stacks. */
  lemma OverrunExact(cs: seq<string>, outSize: nat)
    requires outSize >= 3
    ensures |Spill(cs, outSize - 2)| >= outSize <==> Overruns(cs, outSize)
    ensures |Absolute(cs)| + 2 <= outSize ==> Spill(cs, outSize - 2) == Absolute(cs)
  {
    hide Spill; hide Absolute;
    SpillIs(cs, outSize - 2);
  }

  function StackOf(cwd: string, input: string): seq<string> { Fold([], Pieces(Combined(cwd, input))) }

  /** An input of 130 characters that writes past a buffer of 128, the size that the shell passes. */
  lemma OverrunInput() returns (input: string)
    ensures |input| == 130 && Overruns(StackOf("/", input), 128)
  {
    var a, b := seq(62, _ => 'a'), seq(62, _ => 'b');
    var cs: seq<string> := [a, b, "c", "d"];
    assert Component("c") && Component("d");
    assert AllPlain(cs);
    AbsoluteNext([a]);
    AbsoluteNext([a, b]);
    AbsoluteNext([a, b, "c"]);
    AbsoluteNext(cs);
    assert [a, b][..1] == [a] && [a, b, "c"][..2] == [a, b] && cs[..3] == [a, b, "c"] && cs[..2] == [a, b];
    input := Absolute(cs);
    assert |input| == 130;
    AbsolutePieces(cs);
    FoldKeepsPlain([], cs);
    assert [] + cs == cs;
  }

  /** normalizePath into a buffer of outSize characters at the start of out; what follows is the memory behind it. The
      result is the normal path when that has room, and the buffer is overrun exactly for the stacks of Overruns. */
  method NormalizePath(cwd: string, input: string, out: array<char>, outSize: nat) returns (n: nat)
    requires 3 <= outSize && outSize + MAX_SEGMENTS <= out.Length
    modifies out
    ensures n < out.Length && out[..n] == Spill(StackOf(cwd, input), outSize - 2) && out[n] == '\0'
    ensures forall k :: n < k < out.Length ==> out[k] == old(out[k])
    ensures |Normal(cwd, input)| + 2 <= outSize ==> out[..n] == Normal(cwd, input)
    ensures n >= outSize <==> Overruns(StackOf(cwd, input), outSize)
  {
    hide Pieces; hide Fold; hide Combined; hide Spill; hide Absolute; hide Overruns;
    var combined := new char[COMBINED];
    var ci := Combine(cwd, input, combined);
    var storage := new string[MAX_SEGMENTS](_ => "");
    var count := Stack(combined[..ci], storage);
    OverrunExact(storage[..count], outSize);
    SpillIs(storage[..count], outSize - 2);
    n := Render(storage[..count], out, outSize);
    out[n] := '\0';
  }

  method Render(stack: seq<string>, out: array<char>, outSize: nat) returns (n: nat)
    requires 3 <= outSize && |stack| <= MAX_SEGMENTS && outSize + MAX_SEGMENTS <= out.Length
    modifies out
    ensures n < out.Length && out[..n] == Spill(stack, outSize - 2)
    ensures forall k :: n <= k < out.Length ==> out[k] == old(out[k])
  {
    hide Spill; hide Cut; hide Absolute;
    out[0] := SLASH;
    n := 1;
    var i := 0;
    assert out[..1] == "/";
    SpillStarts(stack, outSize - 2);
    assert stack[..|stack|] == stack;
    while i < |stack|
      invariant i <= |stack| && 1 <= n <= outSize - 2 + i
      invariant out[..n] == if i == 0 then "/"
                            else if i < |stack| then Spill(stack[..i], outSize - 2) + "/" else Spill(stack, outSize - 2)
      invariant forall k :: n <= k < out.Length ==> out[k] == old(out[k])
    {
      SpillStep(stack, i, outSize - 2);
      n := Append(out, n, stack[i], 0, outSize - 2);
      assert stack[i][0..] == stack[i];
      assert out[..n] == Spill(stack[..i + 1], outSize - 2);
      if i != |stack| - 1 {
        out[n] := SLASH;
        n := n + 1;
      } else {
        assert stack[..i + 1] == stack;
      }
      i := i + 1;
    }
  }

  lemma SpillStarts(cs: seq<string>, limit: nat)
    ensures cs == [] ==> Spill(cs, limit) == "/"
  {
  }

  lemma SpillStep(cs: seq<string>, i: nat, limit: nat)
    requires i < |cs|
    ensures var p := if i == 0 then "/" else Spill(cs[..i], limit) + "/";
      Spill(cs[..i + 1], limit) == p + Cut(cs[i], Room(limit, |p|))
  {
    assert cs[..i + 1][..i] == cs[..i];
  }
}
