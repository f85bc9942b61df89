/** The mount table: mount, unmount, and the choice of the mount that serves a path. */
module Mounts {
  import opened PathNames
  import opened Vfs

  const POINT: nat := 64
  const MAX_MOUNTS: nat := 8
  const NONE: int := -1

  datatype Mount = Mount(inUse: bool, point: string, device: string, instance: nat)

  /** The mount point is the path, or a part of it that ends before a slash. */
  predicate Matches(path: string, point: string) {
    point <= path && (|path| == |point| || path[|point|] == SLASH)
  }

  predicate Serves(m: Mount, path: string) { m.inUse && Matches(path, m.point) }

  /** No two mounts in use have the same mount point. */
  ghost predicate Distinct(table: seq<Mount>) {
    forall i, j :: 0 <= i < j < |table| && table[i].inUse && table[j].inUse ==> table[i].point != table[j].point
  }

  /** What is left of the path behind the mount point and its slash. */
  function Rest(path: string, point: string): string
    requires point <= path
  {
    var r := path[|point|..];
    if r != "" && r[0] == SLASH then r[1..] else r
  }

  /** Mount points of equal length that match one path are equal. */
  lemma SameLengthSamePoint(path: string, a: string, b: string)
    requires Matches(path, a) && Matches(path, b) && |a| == |b|
    ensures a == b
  {
    assert a == path[..|a|] && b == path[..|b|];
  }

  /** On normalised names, matching is being a leading part of the path's components. */
  lemma MatchesIsPrefix(a: seq<string>, b: seq<string>)
    requires Components(a) && Components(b) && a != []
    ensures Matches(Absolute(b), Absolute(a)) <==> a <= b
    ensures a <= b ==> Pieces(Rest(Absolute(b), Absolute(a))) == b[|a|..]
  {
    hide Pieces;
    if Matches(Absolute(b), Absolute(a)) {
      var rest := Absolute(b)[|Absolute(a)|..];
      assert Absolute(b) == Absolute(a) + rest;
      PiecesJoin(Absolute(a), rest);
      AbsolutePieces(a);
      AbsolutePieces(b);
      PrefixOf(a, Pieces(rest), b);
    }
    if a <= b { PrefixMatches(a, b); }
  }

  lemma PrefixOf(a: seq<string>, c: seq<string>, b: seq<string>)
    requires b == a + c
    ensures a <= b
  {
  }

  lemma PrefixMatches(a: seq<string>, b: seq<string>)
    requires Components(b) && a != [] && a <= b
    ensures Matches(Absolute(b), Absolute(a)) && Pieces(Rest(Absolute(b), Absolute(a))) == b[|a|..]
  {
    hide Pieces; hide Slashed;
    var c := b[|a|..];
    assert b == a + c;
    SlashedAppend(a, c);
    SlashedStart(c);
    assert Absolute(b)[|Absolute(a)|..] == Slashed(c);
    assert Components(c);
    SlashedPieces(c);
    EmptySlashed();
    if c != [] {
      var r := Slashed(c);
      assert r == "/" + r[1..];
      SlashPieces(r[1..]);
    }
  }

  lemma EmptySlashed()
    ensures Slashed([]) == ""
  {
  }

  /** A mount at "/" serves "/" itself, and no other normalised path. */
  lemma RootServesOnlyItself(cs: seq<string>)
    requires Components(cs)
    ensures Matches(Absolute(cs), "/") <==> cs == []
  {
    hide Pieces;
    if cs != [] {
      assert Component(cs[0]);
      assert cs == [cs[0]] + cs[1..];
      SlashedAppend([cs[0]], cs[1..]);
      assert Slashed([cs[0]]) == "/" + cs[0] by {
        assert [cs[0]][..0] == [];
        EmptySlashed();
        assert "" + "/" + cs[0] == "/" + cs[0];
      }
      assert Absolute(cs)[1] == cs[0][0];
    }
  }

  predicate InTable(table: seq<Mount>, point: string) {
    exists i :: 0 <= i < |table| && table[i].inUse && table[i].point == point
  }

  predicate Free(table: seq<Mount>) { exists i :: 0 <= i < |table| && !table[i].inUse }

  lemma NotThere(table: seq<Mount>, point: string)
    ensures (forall j :: 0 <= j < |table| ==> !(table[j].inUse && table[j].point == point)) <==> !InTable(table, point)
  {
  }

  lemma Unique(table: seq<Mount>, path: string, best: nat)
    requires best < |table| && Serves(table[best], path)
    ensures Distinct(table) ==>
      forall i :: 0 <= i < |table| && Serves(table[i], path) && |table[i].point| == |table[best].point| ==> i == best
  {
    hide Matches;
    if Distinct(table) {
      forall i | 0 <= i < |table| && Serves(table[i], path) && |table[i].point| == |table[best].point|
        ensures i == best
      {
        SameLengthSamePoint(path, table[i].point, table[best].point);
      }
    }
  }

  /** A slot filled with a new mount leaves the points distinct exactly when the new point, as stored, is not in use. */
  lemma DistinctWith(table: seq<Mount>, i: nat, m: Mount)
    requires i < |table| && !table[i].inUse && m.inUse
    ensures Distinct(table) ==> (Distinct(table[i := m]) <==> !InTable(table, m.point))
  {
    var t := table[i := m];
    if Distinct(table) && InTable(table, m.point) {
      var j :| 0 <= j < |table| && table[j].inUse && table[j].point == m.point;
      assert t[j] == table[j] && t[i] == m;
    }
  }

  /** A point that is stored whole is refused when in use; longer ones are compared uncut and stored cut. */
  lemma ShortPointsStayDistinct(table: seq<Mount>, point: string)
    requires !InTable(table, point)
    ensures |point| < POINT ==> !InTable(table, Cut(point, POINT - 1))
  {
  }

  /** Every point of 64 characters or more can be mounted twice, and then two mounts have one point. */
  lemma LongPointMountsTwice(table: seq<Mount>, point: string, i: nat, j: nat, device: string, instance: nat)
    requires |point| >= POINT && i < |table| && j < |table| && i != j && !table[i].inUse && !table[j].inUse
    requires !InTable(table, point)
    ensures var m := Mount(true, Cut(point, POINT - 1), device, instance);
      !InTable(table[i := m], point) && !Distinct(table[i := m][j := m])
  {
    var m := Mount(true, Cut(point, POINT - 1), device, instance);
    var one := table[i := m];
    var two := one[j := m];
    assert two[i] == m && two[j] == m;
    forall k | 0 <= k < |one| ensures !(one[k].inUse && one[k].point == point) {
      if k != i { assert one[k] == table[k]; }
    }
  }

  class MountTable {
    const mounts: array<Mount>

    ghost predicate Valid()
      reads this
    {
      mounts.Length == MAX_MOUNTS
    }

    constructor ()
      ensures Valid() && fresh(mounts) && forall i :: 0 <= i < MAX_MOUNTS ==> !mounts[i].inUse
    {
      mounts := new Mount[MAX_MOUNTS](_ => Mount(false, "", "", 0));
    }

    /** resolvePath: the longest mount point that matches, and the rest of the path cut to the caller's buffer. */
    method ResolvePath(path: string, outSize: nat) returns (best: int, sub: string)
      requires Valid() && outSize > 0
      ensures NONE <= best < MAX_MOUNTS
      ensures best == NONE <==> forall i :: 0 <= i < MAX_MOUNTS && Serves(mounts[i], path) ==> mounts[i].point == ""
      ensures best != NONE ==> Serves(mounts[best], path) && sub == Cut(Rest(path, mounts[best].point), outSize - 1)
      ensures best != NONE ==>
        forall i :: 0 <= i < MAX_MOUNTS && Serves(mounts[i], path) ==> |mounts[i].point| <= |mounts[best].point|
      ensures best != NONE && Distinct(mounts[..]) ==>
        forall i :: 0 <= i < MAX_MOUNTS && Serves(mounts[i], path) && |mounts[i].point| == |mounts[best].point| ==>
          i == best
    {
      best, sub := NONE, "";
      var bestLen, i := 0, 0;
      while i < MAX_MOUNTS
        invariant i <= MAX_MOUNTS && NONE <= best < i
        invariant best == NONE ==> bestLen == 0
        invariant best != NONE ==> Serves(mounts[best], path) && bestLen == |mounts[best].point| > 0
        invariant forall j :: 0 <= j < i && Serves(mounts[j], path) ==> |mounts[j].point| <= bestLen
      {
        if mounts[i].inUse && mounts[i].point <= path {
          if |path| == |mounts[i].point| || path[|mounts[i].point|] == SLASH {
            if |mounts[i].point| > bestLen { best, bestLen := i, |mounts[i].point|; }
          }
        }
        i := i + 1;
      }
      if best == NONE { return; }
      Unique(mounts[..], path, best);
      var remainder := path[bestLen..];
      if remainder != "" && remainder[0] == SLASH { remainder := remainder[1..]; }
      var k := 0;
      while k < |remainder| && k < outSize - 1
        invariant k <= |remainder| && k <= outSize - 1 && sub == remainder[..k]
      {
        sub := sub + [remainder[k]];
        k := k + 1;
      }
    }

    /** mount: known tells whether the device was found; instance is what the driver's mount returned, 0 for failure. */
    method MountAt(point: string, device: string, known: bool, instance: nat) returns (ok: bool, ghost slot: nat)
      requires Valid()
      modifies mounts
      ensures ok <==> known && instance != 0 && !InTable(old(mounts[..]), point) && Free(old(mounts[..]))
      ensures !ok ==> mounts[..] == old(mounts[..])
      ensures ok ==> slot < MAX_MOUNTS && !old(mounts[..])[slot].inUse && forall j :: 0 <= j < slot ==> mounts[j].inUse
      ensures ok ==>
        mounts[..] == old(mounts[..])[slot := Mount(true, Cut(point, POINT - 1), Cut(device, 31), instance)]
      ensures ok && old(Distinct(mounts[..])) ==>
        (Distinct(mounts[..]) <==> !InTable(old(mounts[..]), Cut(point, POINT - 1)))
    {
      slot := 0;
      if !known { return false, slot; }
      var i := 0;
      while i < MAX_MOUNTS
        invariant i <= MAX_MOUNTS && mounts[..] == old(mounts[..])
        invariant forall j :: 0 <= j < i ==> !(mounts[j].inUse && mounts[j].point == point)
      {
        if mounts[i].inUse && mounts[i].point == point { assert mounts[..][i] == mounts[i]; return false, slot; }
        i := i + 1;
      }
      NotThere(mounts[..], point);
      i := 0;
      while i < MAX_MOUNTS
        invariant i <= MAX_MOUNTS && mounts[..] == old(mounts[..]) && forall j :: 0 <= j < i ==> mounts[j].inUse
      {
        if !mounts[i].inUse {
          assert mounts[..][i] == mounts[i];
          if instance == 0 { return false, slot; }
          DistinctWith(mounts[..], i, Mount(true, Cut(point, POINT - 1), Cut(device, 31), instance));
          mounts[i] := Mount(true, Cut(point, POINT - 1), Cut(device, 31), instance);
          return true, i;
        }
        i := i + 1;
      }
      ok := false;
    }

    /** unmount: the mount with that point is out of use; distinct tables stay distinct. */
    method Unmount(point: string) returns (ok: bool)
      requires Valid()
      modifies mounts
      ensures ok <==> InTable(old(mounts[..]), point)
      ensures !ok ==> mounts[..] == old(mounts[..])
      ensures old(Distinct(mounts[..])) ==> Distinct(mounts[..]) && !InTable(mounts[..], point)
      ensures forall i :: 0 <= i < MAX_MOUNTS && old(mounts[i]).point != point ==> mounts[i] == old(mounts[i])
      ensures forall i :: 0 <= i < MAX_MOUNTS && mounts[i].inUse ==> mounts[i] == old(mounts[i])
    {
      var i := 0;
      while i < MAX_MOUNTS
        invariant i <= MAX_MOUNTS && mounts[..] == old(mounts[..])
        invariant forall j :: 0 <= j < i ==> !(mounts[j].inUse && mounts[j].point == point)
      {
        if mounts[i].inUse && mounts[i].point == point {
          assert mounts[..][i] == mounts[i];
          mounts[i] := mounts[i].(inUse := false);
          return true;
        }
        i := i + 1;
      }
      NotThere(mounts[..], point);
      ok := false;
    }
  }
}
