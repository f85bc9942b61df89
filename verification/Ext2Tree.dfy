/** The directory tree as lookups see it: directories as lists of entries, and path walks. */
module Ext2Tree {
  import opened Bytes
  import opened Ext2Layout
  import opened Ext2Store
  import opened Ext2DirBlock

  type Dirs = map<nat, seq<Entry>>

  predicate Dotted(name: Name) {
    name == DOT || name == DOTDOT
  }

  ghost predicate NamesDistinct(es: seq<Entry>) {
    forall j, k :: 0 <= j < k < |es| ==> es[j].name != es[k].name
  }

  /** What an entry of directory d may say: "." is d, ".." its parent, anything else a child. */
  ghost predicate EntryFits(t: Tree, d: nat, e: Entry)
    requires d in t.parent
  {
    && e.ino in t.live && e.ino in t.parent && e.ino in t.nameOf && EntryOk(e)
    && (e.name == DOT ==> e.ino == d)
    && (e.name == DOTDOT ==> e.ino == t.parent[d])
    && (!Dotted(e.name) ==> e.ino != ROOT && t.parent[e.ino] == d && t.nameOf[e.ino] == e.name)
  }

  ghost predicate DirFits(t: Tree, d: nat, es: seq<Entry>)
    requires d in t.parent
  {
    && NamesDistinct(es)
    && (forall k :: 0 <= k < |es| ==> EntryFits(t, d, es[k]))
    && Find(es, DOT) == d && Find(es, DOTDOT) == t.parent[d]
  }

  /** Every inode of the tree but the root hangs in one directory under one name. */
  ghost predicate Hangs(t: Tree, dirs: Dirs, c: nat)
    requires c in t.parent && c in t.nameOf
  {
    t.parent[c] in dirs && !Dotted(t.nameOf[c]) && Find(dirs[t.parent[c]], t.nameOf[c]) == c
  }

  /** Going from child to parent leads to the root, one step nearer each time. */
  ghost predicate Ranked(t: Tree) {
    && t.depth.Keys == t.live && t.parent.Keys == t.live && ROOT in t.live && t.depth[ROOT] == 0
    && (forall c :: c in t.live && c != ROOT ==> t.parent[c] in t.live && t.depth[c] == t.depth[t.parent[c]] + 1)
  }

  ghost predicate TreeOk(t: Tree, dirs: Dirs) {
    && t.parent.Keys == t.live && t.nameOf.Keys == t.live && 0 !in t.live
    && ROOT in dirs && dirs.Keys <= t.live && t.parent[ROOT] == ROOT
    && (forall d :: d in dirs ==> DirFits(t, d, dirs[d]))
    && (forall c :: c in t.live && c != ROOT ==> Hangs(t, dirs, c))
    && Ranked(t)
  }

  /** The names on the way from the root to c. */
  ghost function PathTo(t: Tree, c: nat): seq<Name>
    requires Ranked(t) && c in t.live && t.nameOf.Keys == t.live
    decreases t.depth[c]
  {
    if c == ROOT then [] else PathTo(t, t.parent[c]) + [t.nameOf[c]]
  }

  /** One tree: a walk from the root reaches every live inode. */
  lemma {:induction false} EveryInodeReached(t: Tree, dirs: Dirs, c: nat)
    requires TreeOk(t, dirs) && c in t.live
    ensures Walk(dirs, ROOT, PathTo(t, c)) == c
    decreases t.depth[c]
  {
    hide Find; hide DirFits;
    if c != ROOT {
      var p, name := t.parent[c], t.nameOf[c];
      assert Hangs(t, dirs, c);
      EveryInodeReached(t, dirs, p);
      WalkConcat(dirs, ROOT, PathTo(t, p), [name]);
      var one: seq<Name> := [name];
      assert one[1..] == [];
    }
  }

  // ---------- lookups after an insertion or a removal ----------

  lemma {:induction false} FindMember(es: seq<Entry>, name: Name)
    requires !NoName(es, name)
    ensures exists k :: 0 <= k < |es| && es[k].name == name && es[k].ino == Find(es, name)
  {
    if es[0].name != name {
      var k :| 0 <= k < |es| && es[k].name == name;
      assert es[1..][k - 1].name == name;
      FindMember(es[1..], name);
      var j :| 0 <= j < |es[1..]| && es[1..][j].name == name && es[1..][j].ino == Find(es[1..], name);
      assert es[j + 1] == es[1..][j];
    }
  }

  lemma {:induction false} FindUnique(es: seq<Entry>, k: nat)
    requires NamesDistinct(es) && k < |es|
    ensures Find(es, es[k].name) == es[k].ino
  {
    if k > 0 {
      assert es[0].name != es[k].name;
      FindUnique(es[1..], k - 1);
    }
  }

  lemma {:induction false} FindInserted(es: seq<Entry>, k: nat, e: Entry, name: Name)
    requires k <= |es|
    ensures name != e.name ==> Find(InsertAt(es, k, e), name) == Find(es, name)
    ensures NoName(es, e.name) ==> Find(InsertAt(es, k, e), e.name) == e.ino
  {
    var es' := InsertAt(es, k, e);
    if k == 0 {
      assert es' == [e] + es;
    } else {
      assert es'[1..] == InsertAt(es[1..], k - 1, e);
      FindInserted(es[1..], k - 1, e, name);
    }
  }

  /** Insertion is put on the map that lookups read. */
  lemma InsertIsPut(es: seq<Entry>, es': seq<Entry>, e: Entry, name: Name)
    requires Inserted(es, es', e) && NoName(es, e.name)
    ensures Find(es', name) == if name == e.name then e.ino else Find(es, name)
  {
    hide InsertAt;
    var k :| 0 <= k <= |es| && es' == InsertAt(es, k, e);
    FindInserted(es, k, e, name);
  }

  lemma RemoveThenInsert(es: seq<Entry>, k: nat)
    requires k < |es|
    ensures InsertAt(RemoveAt(es, k), k, es[k]) == es
  {
    assert RemoveAt(es, k)[..k] == es[..k] && RemoveAt(es, k)[k..] == es[k + 1..];
  }

  /** With distinct names, removal is delete on the map that lookups read. */
  lemma RemoveIsDelete(es: seq<Entry>, es': seq<Entry>, gone: Name, name: Name)
    requires Removed(es, es', gone) && NamesDistinct(es)
    ensures Find(es', name) == if name == gone then 0 else Find(es, name)
    ensures NoName(es', gone)
  {
    hide InsertAt; hide Find;
    var k :| 0 <= k < |es| && es[k].name == gone && NoName(es[..k], gone) && es' == RemoveAt(es, k);
    RemoveThenInsert(es, k);
    forall j | 0 <= j < |es'| ensures es'[j].name != gone {
      assert es'[j] == if j < k then es[j] else es[j + 1];
    }
    FindNone(es', gone);
    FindInserted(es', k, es[k], name);
  }

  /** Insertion of a new name and removal of it are inverse. */
  lemma InsertThenRemove(es: seq<Entry>, es': seq<Entry>, e: Entry)
    requires Inserted(es, es', e) && NoName(es, e.name)
    ensures Removed(es', es, e.name)
  {
    var k :| 0 <= k <= |es| && es' == InsertAt(es, k, e);
    assert es'[..k] == es[..k] && es'[k] == e && es'[k + 1..] == es[k..];
    assert es == RemoveAt(es', k);
    assert NoName(es'[..k], e.name);
  }

  lemma InsertKeepsDistinct(es: seq<Entry>, es': seq<Entry>, e: Entry)
    requires Inserted(es, es', e) && NoName(es, e.name) && NamesDistinct(es)
    ensures NamesDistinct(es')
    ensures forall k :: 0 <= k < |es'| ==> es'[k] == e || es'[k] in es
  {
    var k :| 0 <= k <= |es| && es' == InsertAt(es, k, e);
    forall j | 0 <= j < |es'| ensures es'[j] == if j < k then es[j] else if j == k then e else es[j - 1] {}
  }

  lemma RemoveKeepsDistinct(es: seq<Entry>, es': seq<Entry>, gone: Name)
    requires Removed(es, es', gone) && NamesDistinct(es)
    ensures NamesDistinct(es')
    ensures forall k :: 0 <= k < |es'| ==> es'[k] in es && es'[k].name != gone
  {
    var k :| 0 <= k < |es| && es[k].name == gone && NoName(es[..k], gone) && es' == RemoveAt(es, k);
    forall j | 0 <= j < |es'| ensures es'[j] == if j < k then es[j] else es[j + 1] {}
  }

  // ---------- walking ----------

  /** resolvePathToInode over components: 0 when a step fails. */
  ghost function Walk(dirs: Dirs, cur: nat, comps: seq<Name>): nat
    decreases |comps|
  {
    if comps == [] then cur
    else if cur !in dirs || Find(dirs[cur], comps[0]) == 0 then 0
    else Walk(dirs, Find(dirs[cur], comps[0]), comps[1..])
  }

  /** The walk stands at x at some point. */
  ghost predicate Visits(dirs: Dirs, cur: nat, comps: seq<Name>, x: nat)
    decreases |comps|
  {
    || cur == x
    || (comps != [] && cur in dirs && Find(dirs[cur], comps[0]) != 0
        && Visits(dirs, Find(dirs[cur], comps[0]), comps[1..], x))
  }

  lemma {:induction false} WalkConcat(dirs: Dirs, cur: nat, a: seq<Name>, b: seq<Name>)
    ensures Walk(dirs, cur, a) == 0 && cur != 0 && 0 !in dirs ==> Walk(dirs, cur, a + b) == 0
    ensures Walk(dirs, cur, a) != 0 ==> Walk(dirs, cur, a + b) == Walk(dirs, Walk(dirs, cur, a), b)
    decreases |a|
  {
    if a == [] {
      assert a + b == b;
    } else {
      assert (a + b)[0] == a[0] && (a + b)[1..] == a[1..] + b;
      if cur in dirs && Find(dirs[cur], a[0]) != 0 {
        WalkConcat(dirs, Find(dirs[cur], a[0]), a[1..], b);
      }
    }
  }

  /** small is big without the childless x, which hung in d under name. */
  ghost predicate Pruned(big: Dirs, small: Dirs, d: nat, name: Name, x: nat) {
    && d in big && d != x && small.Keys == big.Keys - {x}
    && Removed(big[d], small[d], name) && Find(big[d], name) == x
    && (forall c :: c in small && c != d ==> small[c] == big[c])
  }

  /** A directory holds nothing but "." and "..". */
  ghost predicate OnlyDots(es: seq<Entry>) {
    forall k :: 0 <= k < |es| ==> Dotted(es[k].name)
  }

  /** One lookup, before and after: the same, except that x is no longer found. */
  lemma PrunedStep(t: Tree, big: Dirs, small: Dirs, d: nat, name: Name, x: nat, cur: nat, comp: Name)
    requires TreeOk(t, big) && Pruned(big, small, d, name, x) && !Dotted(name) && x != 0
    requires x in big ==> OnlyDots(big[x])
    requires cur in small
    ensures cur in big
    ensures Find(small[cur], comp) == if Find(big[cur], comp) == x then 0 else Find(big[cur], comp)
    ensures Find(big[cur], comp) != 0 ==> Find(big[cur], comp) in t.live
  {
    hide Find; hide Removed; hide OnlyDots;
    assert DirFits(t, cur, big[cur]) && DirFits(t, d, big[d]);
    LookupFits(t, big, cur, comp);
    if cur == d {
      RemoveIsDelete(big[d], small[d], name, comp);
    }
    if Find(big[cur], comp) == x {
      OneName(t, big, d, name, x, cur, comp);
    }
  }

  /** Whatever a lookup finds is in the tree and fits the entry found. */
  lemma LookupFits(t: Tree, dirs: Dirs, d: nat, name: Name)
    requires TreeOk(t, dirs) && d in dirs
    ensures Find(dirs[d], name) != 0 ==> Find(dirs[d], name) in t.live
    ensures Find(dirs[d], name) != 0 && !Dotted(name) ==>
      var c := Find(dirs[d], name); c != ROOT && t.parent[c] == d && t.nameOf[c] == name
  {
    hide Hangs;
    assert DirFits(t, d, dirs[d]);
    if NoName(dirs[d], name) {
      FindNone(dirs[d], name);
    } else {
      FindMember(dirs[d], name);
      var k :| 0 <= k < |dirs[d]| && dirs[d][k].name == name && dirs[d][k].ino == Find(dirs[d], name);
      assert EntryFits(t, d, dirs[d][k]);
    }
  }

  /** Outside x itself, only its own name in its own directory leads to a childless x. */
  lemma OneName(t: Tree, dirs: Dirs, d: nat, name: Name, x: nat, cur: nat, comp: Name)
    requires TreeOk(t, dirs) && d in dirs && Find(dirs[d], name) == x && !Dotted(name) && x != 0
    requires x in dirs ==> OnlyDots(dirs[x])
    requires cur in dirs && cur != x && Find(dirs[cur], comp) == x
    ensures cur == d && comp == name
  {
    hide Find; hide NamesDistinct;
    LookupFits(t, dirs, d, name);
    LookupFits(t, dirs, cur, comp);
    assert DirFits(t, cur, dirs[cur]);
    if comp == DOTDOT {
      assert t.parent[cur] == x;
      assert Hangs(t, dirs, cur);
      OnlyDotsFound(dirs[x], t.nameOf[cur]);
      assert false;
    }
  }

  lemma OnlyDotsFound(es: seq<Entry>, name: Name)
    requires Find(es, name) != 0 && OnlyDots(es)
    ensures Dotted(name)
  {
    if NoName(es, name) {
      FindNone(es, name);
    } else {
      FindMember(es, name);
    }
  }

  /** Path resolution after taking x away: the same answer for every path that stayed clear of x,
      and no answer for the rest. */
  lemma {:induction false} PrunedWalk(t: Tree, big: Dirs, small: Dirs, d: nat, name: Name, x: nat, cur: nat,
                                      comps: seq<Name>)
    requires TreeOk(t, big) && Pruned(big, small, d, name, x) && !Dotted(name) && x != 0
    requires x in big ==> OnlyDots(big[x])
    requires cur != x && cur in t.live
    ensures Walk(small, cur, comps) == if Visits(big, cur, comps, x) then 0 else Walk(big, cur, comps)
    decreases |comps|
  {
    hide Find; hide TreeOk; hide OnlyDots;
    if comps != [] {
      if cur in small {
        PrunedStep(t, big, small, d, name, x, cur, comps[0]);
        var c := Find(big[cur], comps[0]);
        if c != 0 && c != x {
          PrunedWalk(t, big, small, d, name, x, c, comps[1..]);
        }
      }
    }
  }

  // ---------- the tree after create, unlink and rmdir ----------

  function Planted(t: Tree, d: nat, name: Name, c: nat): Tree {
    t.(live := t.live + {c}, parent := t.parent[c := d], nameOf := t.nameOf[c := name],
       depth := t.depth[c := (if d in t.depth then t.depth[d] else 0) + 1])
  }

  function Uprooted(t: Tree, x: nat): Tree {
    t.(live := t.live - {x}, parent := t.parent - {x}, nameOf := t.nameOf - {x}, depth := t.depth - {x},
       owner := t.owner.(stale := t.owner.stale - {x}))
  }

  function DotEntries(c: nat, d: nat): seq<Entry> {
    [Entry(DOT, c, FT_DIR), Entry(DOTDOT, d, FT_DIR)]
  }

  /** big is small with the new inode c hung in d under a name that was free there. */
  ghost predicate Grafted(small: Dirs, big: Dirs, d: nat, e: Entry, isDir: bool) {
    && d in small && NoName(small[d], e.name) && EntryOk(e) && d != e.ino
    && big.Keys == small.Keys + (if isDir then {e.ino} else {})
    && Inserted(small[d], big[d], e)
    && (isDir ==> big[e.ino] == DotEntries(e.ino, d))
    && (forall c :: c in small && c != d && c != e.ino ==> big[c] == small[c])
  }

  lemma FreeNameNotDotted(t: Tree, small: Dirs, d: nat, name: Name)
    requires TreeOk(t, small) && d in small && NoName(small[d], name)
    ensures !Dotted(name)
  {
    assert DirFits(t, d, small[d]);
    FindNone(small[d], name);
    assert t.parent[d] != 0;
  }

  lemma EntryStillFits(t: Tree, d: nat, e: Entry, c: nat, p: nat, name: Name)
    requires d in t.parent && EntryFits(t, d, e) && c !in t.live && t.parent.Keys == t.live && t.nameOf.Keys == t.live
    ensures EntryFits(Planted(t, p, name, c), d, e)
  {
  }

  lemma GraftedDir(t: Tree, small: Dirs, big: Dirs, d: nat, e: Entry, isDir: bool, x: nat)
    requires TreeOk(t, small) && Grafted(small, big, d, e, isDir) && e.ino !in t.live && x in big
    ensures DirFits(Planted(t, d, e.name, e.ino), x, big[x])
  {
    hide Find; hide Inserted; hide Hangs; hide EntryFits; hide NoName; hide NamesDistinct;
    var t' := Planted(t, d, e.name, e.ino);
    FreeNameNotDotted(t, small, d, e.name);
    InodeFits(t, small, d);
    if x == e.ino {
      NewDirFits(t, d, e);
    } else {
      assert DirFits(t, x, small[x]);
      forall k | 0 <= k < |small[x]| ensures EntryFits(t', x, small[x][k]) {
        EntryStillFits(t, x, small[x][k], e.ino, d, e.name);
      }
      if x == d {
        InsertKeepsDistinct(small[d], big[d], e);
        InsertIsPut(small[d], big[d], e, DOT);
        InsertIsPut(small[d], big[d], e, DOTDOT);
        NewEntryFits(t, d, e);
      }
    }
  }

  lemma NewEntryFits(t: Tree, d: nat, e: Entry)
    requires d in t.parent && EntryOk(e) && !Dotted(e.name) && ROOT in t.live && e.ino !in t.live
    ensures EntryFits(Planted(t, d, e.name, e.ino), d, e)
  {
  }

  lemma NewDirFits(t: Tree, d: nat, e: Entry)
    requires d in t.live && d in t.parent && d in t.nameOf && 0 < d < U32 && EntryOk(e) && d != e.ino
    ensures DirFits(Planted(t, d, e.name, e.ino), e.ino, DotEntries(e.ino, d))
  {
    var es := DotEntries(e.ino, d);
    assert es[1..] == [es[1]];
    assert DOT[0] == 46 && |DOT| == 1 && |DOTDOT| == 2;
  }

  lemma InodeFits(t: Tree, dirs: Dirs, d: nat)
    requires TreeOk(t, dirs) && d in dirs
    ensures 0 < d < U32
  {
    hide NamesDistinct; hide Hangs; hide Find;
    assert DirFits(t, d, dirs[d]);
    if NoName(dirs[d], DOT) {
      FindNone(dirs[d], DOT);
    } else {
      FindMember(dirs[d], DOT);
    }
  }

  lemma GraftedHangs(t: Tree, small: Dirs, big: Dirs, d: nat, e: Entry, isDir: bool, c: nat)
    requires TreeOk(t, small) && Grafted(small, big, d, e, isDir) && e.ino !in t.live
    requires c in t.live + {e.ino} && c != ROOT
    ensures Hangs(Planted(t, d, e.name, e.ino), big, c)
  {
    hide Find; hide Inserted; hide NoName; hide DirFits;
    FreeNameNotDotted(t, small, d, e.name);
    if c == e.ino {
      InsertIsPut(small[d], big[d], e, e.name);
    } else {
      assert Hangs(t, small, c);
      if t.parent[c] == d {
        InsertIsPut(small[d], big[d], e, t.nameOf[c]);
        FoundNotFree(small[d], t.nameOf[c]);
      }
    }
  }

  lemma FoundNotFree(es: seq<Entry>, name: Name)
    requires Find(es, name) != 0
    ensures !NoName(es, name)
  {
    if NoName(es, name) { FindNone(es, name); }
  }

  /** Hanging a new inode keeps the tree sound, and taking it away again would give the old tree. */
  lemma GraftKeepsTree(t: Tree, small: Dirs, big: Dirs, d: nat, e: Entry, isDir: bool)
    requires TreeOk(t, small) && Grafted(small, big, d, e, isDir) && e.ino !in t.live
    ensures TreeOk(Planted(t, d, e.name, e.ino), big)
    ensures Pruned(big, small, d, e.name, e.ino) && !Dotted(e.name)
    ensures isDir ==> OnlyDots(big[e.ino])
  {
    hide Find; hide Inserted; hide NoName; hide Hangs; hide DirFits; hide Removed; hide Ranked;
    var t' := Planted(t, d, e.name, e.ino);
    PlantRanked(t, d, e.name, e.ino);
    InodeFits(t, small, d);
    FreeNameNotDotted(t, small, d, e.name);
    forall x | x in big ensures DirFits(t', x, big[x]) { GraftedDir(t, small, big, d, e, isDir, x); }
    forall c | c in t'.live && c != ROOT ensures Hangs(t', big, c) { GraftedHangs(t, small, big, d, e, isDir, c); }
    InsertThenRemove(small[d], big[d], e);
    InsertIsPut(small[d], big[d], e, e.name);
  }

  lemma PlantRanked(t: Tree, d: nat, name: Name, c: nat)
    requires Ranked(t) && d in t.live && c !in t.live
    ensures Ranked(Planted(t, d, name, c))
  {
  }

  lemma UprootRanked(t: Tree, x: nat)
    requires Ranked(t) && x != ROOT && forall c :: c in t.live && c != ROOT && c != x ==> t.parent[c] != x
    ensures Ranked(Uprooted(t, x))
  {
  }

  lemma HangsSomewhere(t: Tree, dirs: Dirs, c: nat)
    requires c in t.parent && c in t.nameOf && Hangs(t, dirs, c)
    ensures t.parent[c] in dirs
  {
  }

  lemma PrunedDir(t: Tree, big: Dirs, small: Dirs, d: nat, name: Name, x: nat, c: nat)
    requires TreeOk(t, big) && Pruned(big, small, d, name, x) && !Dotted(name) && x != 0
    requires x in big ==> OnlyDots(big[x])
    requires c in small
    ensures DirFits(Uprooted(t, x), c, small[c])
  {
    hide Find; hide Removed; hide Hangs; hide OnlyDots; hide NamesDistinct;
    LookupFits(t, big, d, name);
    assert DirFits(t, c, big[c]) && DirFits(t, d, big[d]);
    if c == d {
      RemoveKeepsDistinct(big[d], small[d], name);
      RemoveIsDelete(big[d], small[d], name, DOT);
      RemoveIsDelete(big[d], small[d], name, DOTDOT);
    }
    forall k | 0 <= k < |small[c]| ensures EntryFits(Uprooted(t, x), c, small[c][k]) {
      var e := small[c][k];
      assert e in big[c];
      var j :| 0 <= j < |big[c]| && big[c][j] == e;
      assert EntryFits(t, c, big[c][j]);
      FindUnique(big[c], j);
      if e.ino == x {
        OneName(t, big, d, name, x, c, e.name);
        assert false;
      }
    }
    if t.parent[c] == x {
      OneName(t, big, d, name, x, c, DOTDOT);
      assert false;
    }
  }

  lemma PrunedHangs(t: Tree, big: Dirs, small: Dirs, d: nat, name: Name, x: nat, c: nat)
    requires TreeOk(t, big) && Pruned(big, small, d, name, x) && !Dotted(name) && x != 0
    requires x in big ==> OnlyDots(big[x])
    requires c in t.live && c != x && c != ROOT
    ensures Hangs(Uprooted(t, x), small, c)
  {
    hide Find; hide Removed; hide DirFits; hide OnlyDots;
    assert Hangs(t, big, c);
    if t.parent[c] == x {
      OnlyDotsFound(big[x], t.nameOf[c]);
      assert false;
    } else if t.parent[c] == d {
      DistinctNames(t, big, d);
      RemoveIsDelete(big[d], small[d], name, t.nameOf[c]);
    }
  }

  lemma DistinctNames(t: Tree, dirs: Dirs, d: nat)
    requires TreeOk(t, dirs) && d in dirs
    ensures NamesDistinct(dirs[d])
  {
    assert DirFits(t, d, dirs[d]);
  }

  /** Taking a childless inode away keeps the tree sound. */
  lemma PruneKeepsTree(t: Tree, big: Dirs, small: Dirs, d: nat, name: Name, x: nat)
    requires TreeOk(t, big) && Pruned(big, small, d, name, x) && !Dotted(name) && x != 0
    requires x in big ==> OnlyDots(big[x])
    ensures TreeOk(Uprooted(t, x), small)
  {
    hide Find; hide Removed; hide DirFits; hide OnlyDots; hide Hangs; hide Ranked;
    var t' := Uprooted(t, x);
    LookupFits(t, big, d, name);
    forall c | c in small ensures DirFits(t', c, small[c]) { PrunedDir(t, big, small, d, name, x, c); }
    forall c | c in t'.live && c != ROOT ensures Hangs(t', small, c) && t.parent[c] != x {
      PrunedHangs(t, big, small, d, name, x, c);
      HangsSomewhere(t', small, c);
    }
    UprootRanked(t, x);
  }

  lemma OwnerUnseen(t: Tree, dirs: Dirs, owner: Owners)
    requires TreeOk(t, dirs)
    ensures TreeOk(t.(owner := owner), dirs)
  {
    var t' := t.(owner := owner);
    forall d | d in dirs ensures DirFits(t', d, dirs[d]) {
      assert DirFits(t, d, dirs[d]);
      forall k | 0 <= k < |dirs[d]| ensures EntryFits(t', d, dirs[d][k]) { assert EntryFits(t, d, dirs[d][k]); }
    }
    forall c | c in t'.live && c != ROOT ensures Hangs(t', dirs, c) { assert Hangs(t, dirs, c); }
  }

  // ---------- paths ----------

  const SLASH: byte := 47
  const MAX_COMPONENT: nat := 63

  function Truncate(name: Name): Name {
    if |name| <= MAX_COMPONENT then name else name[..MAX_COMPONENT]
  }

  function Done(acc: Name): seq<Name> {
    if acc == [] then [] else [acc]
  }

  /** The components of a path that is still to be read, acc being the one under way. */
  function Comps(path: seq<byte>, acc: Name): seq<Name>
    decreases |path|
  {
    if path == [] then Done(acc)
    else if path[0] == SLASH then Done(acc) + Comps(path[1..], [])
    else Comps(path[1..], if |acc| < MAX_COMPONENT then acc + [path[0]] else acc)
  }

  /** Non-empty stretches between slashes, each cut after 63 bytes. */
  function Components(path: seq<byte>): seq<Name> {
    Comps(path, [])
  }

  predicate NoSlash(s: seq<byte>) {
    forall k :: 0 <= k < |s| ==> s[k] != SLASH
  }

  lemma {:induction false} CompsOfName(name: seq<byte>, acc: Name)
    requires NoSlash(name) && |acc| <= MAX_COMPONENT
    ensures Comps(name, acc) == Done(Truncate(acc + name))
    decreases |name|
  {
    if name == [] {
      assert acc + name == acc;
    } else {
      var acc' := if |acc| < MAX_COMPONENT then acc + [name[0]] else acc;
      CompsOfName(name[1..], acc');
      if |acc| < MAX_COMPONENT {
        assert acc' + name[1..] == acc + name;
      } else {
        assert Truncate(acc + name) == acc && Truncate(acc + name[1..]) == acc;
      }
    }
  }

  lemma {:induction false} CompsAppend(p: seq<byte>, q: seq<byte>, acc: Name)
    ensures Comps(p + [SLASH] + q, acc) == Comps(p, acc) + Comps(q, [])
    decreases |p|
  {
    var path := p + [SLASH] + q;
    if p == [] {
      assert path[0] == SLASH && path[1..] == q;
    } else {
      assert path[0] == p[0] && path[1..] == p[1..] + [SLASH] + q;
      if p[0] == SLASH {
        CompsAppend(p[1..], q, []);
        assert Done(acc) + (Comps(p[1..], []) + Comps(q, [])) == Done(acc) + Comps(p[1..], []) + Comps(q, []);
      } else {
        CompsAppend(p[1..], q, if |acc| < MAX_COMPONENT then acc + [p[0]] else acc);
      }
    }
  }

  /** path is parent, a slash and name; or name alone, in the root. */
  ghost predicate SplitOk(path: seq<byte>, parent: seq<byte>, name: Name) {
    NoSlash(name) && ((path == name && parent == []) || path == parent + [SLASH] + name)
  }

  lemma SplitComponents(path: seq<byte>, parent: seq<byte>, name: Name)
    requires SplitOk(path, parent, name) && name != []
    ensures Components(path) == Components(parent) + [Truncate(name)]
  {
    hide Comps;
    CompsOfName(name, []);
    assert [] + name == name;
    if path == parent + [SLASH] + name {
      CompsAppend(parent, name, []);
    } else {
      CompsOfName([], []);
    }
  }

  function LastSlash(path: seq<byte>): (k: int)
    ensures -1 <= k < |path|
    ensures k >= 0 ==> path[k] == SLASH
    ensures forall j :: k < j < |path| ==> path[j] != SLASH
  {
    if path == [] then -1
    else if path[|path| - 1] == SLASH then |path| - 1
    else LastSlash(path[..|path| - 1])
  }

  function ParentPath(path: seq<byte>): seq<byte> {
    if LastSlash(path) < 0 then [] else path[..LastSlash(path)]
  }

  function LastName(path: seq<byte>): Name {
    path[LastSlash(path) + 1..]
  }

  lemma SplitAtLast(path: seq<byte>)
    ensures SplitOk(path, ParentPath(path), LastName(path))
  {
  }

  /** The driver's split at the last slash; a parent of 128 bytes or more is refused. */
  method SplitPath(path: seq<byte>) returns (ok: bool, parent: seq<byte>, name: Name)
    ensures ok <==> |ParentPath(path)| < 128
    ensures ok ==> parent == ParentPath(path) && name == LastName(path)
  {
    var last, p := -1, 0;
    while p < |path|
      invariant 0 <= p <= |path| && last == LastSlash(path[..p])
    {
      assert path[..p + 1][..p] == path[..p];
      if path[p] == SLASH { last := p; }
      p := p + 1;
    }
    assert path[..|path|] == path;
    if last < 0 { return true, [], path; }
    if last >= 128 { return false, [], []; }
    return true, path[..last], path[last + 1..];
  }
}
