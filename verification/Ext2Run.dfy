/** Whole runs of the driver: any sequence of operations, from a freshly formatted volume on. */
module Ext2Run {
  import opened Bytes
  import opened Bits
  import opened Ext2Layout
  import opened Ext2Volume
  import opened Ext2Store
  import opened Ext2BlockMap
  import opened Ext2DirBlock
  import opened Ext2Dir
  import opened Ext2Tree
  import opened Ext2Fs
  import opened Ext2Create
  import opened Ext2Remove
  import opened Ext2File
  import opened Ext2Read
  import opened Ext2Handles

  datatype Op =
    | OpCreate(path: seq<byte>, isDir: bool)
    | OpUnlink(path: seq<byte>)
    | OpRmdir(path: seq<byte>)
    | OpOpen(path: seq<byte>)
    | OpClose(handle: nat)
    | OpRead(handle: nat, offset: nat, count: nat)
    | OpWrite(handle: nat, offset: nat, buf: seq<byte>)

  /** What an operation answers: success, the inode it created or opened, the bytes it read; for write, those it
      wrote. */
  datatype Answer = Answer(ok: bool, inode: nat, bytes: seq<byte>)

  datatype State = State(v: Volume, open: map<nat, Inode>, t: Tree)

  ghost function DirsIn(g: Geometry, s: State): Dirs { DirsOf(g, s.v, s.t.live) }

  /** unlink of a file without a handle, and rmdir of a name other than "." and "..". */
  ghost predicate DidRemove(g: Geometry, s: State, path: seq<byte>, dir: bool, r: Answer, s': State) {
    var x := Target(g, s.v, s.t, path);
    && s'.open == s.open
    && (r.ok <==> Named(g, s.v, s.t, path) && if dir then EmptyDir(g, s.v, s.t, x) else x !in DirsIn(g, s))
    && (if r.ok then TakenOut(g, s.v, s.open, s.t, s'.v, s'.t, path, x, dir) else s' == s)
  }

  ghost predicate DidOpen(g: Geometry, s: State, path: seq<byte>, r: Answer, s': State) {
    var n := Resolve(g, s.v, s.t, path);
    && r.inode == n && (r.ok <==> n != 0)
    && (if r.ok then n in s.v.inodes && s' == s.(open := s.open[n := s.v.inodes[n]]) else s' == s)
  }

  /** The driver's terms of use: names under 256 bytes, no rmdir of "." or "..", one handle a file and none on
      directories, none at unlink, and accesses through open handles only. */
  ghost predicate Allowed(g: Geometry, s: State, op: Op) {
    match op
    case OpCreate(path, _) => |LastName(path)| < 256
    case OpUnlink(path) => Named(g, s.v, s.t, path) ==> Target(g, s.v, s.t, path) !in s.open
    case OpRmdir(path) => !Dotted(LastName(path))
    case OpOpen(path) => var n := Resolve(g, s.v, s.t, path); n !in s.open && n !in DirsIn(g, s)
    case OpClose(n) => n in s.open
    case OpRead(n, _, _) => n in s.open
    case OpWrite(n, _, _) => n in s.open
  }

  const NO_ANSWER: Answer := Answer(false, 0, [])

  /** One operation of a run, with all that its contract says; one that breaks the terms is not performed. */
  ghost predicate Did(g: Geometry, s: State, op: Op, r: Answer, s': State)
    requires 0 < g.bs
  {
    if !Allowed(g, s, op) then s' == s && r == NO_ANSWER
    else match op
      case OpCreate(path, isDir) =>
        s'.open == s.open && CreateDid(g, s.v, s.open, s.t, path, isDir, r.ok, r.inode, s'.v, s'.t)
      case OpUnlink(path) => DidRemove(g, s, path, false, r, s')
      case OpRmdir(path) => DidRemove(g, s, path, true, r, s')
      case OpOpen(path) => DidOpen(g, s, path, r, s')
      case OpClose(n) => n in s.v.inodes && s' == State(s.v, s.open - {n}, Closed(g, s.v, s.open, s.t, n))
      case OpRead(n, offset, count) =>
        ReadDid(g, s.v, s.open, s.t, s'.v, s'.open, s'.t, n, offset, count, r.bytes)
      case OpWrite(n, offset, buf) =>
        r.bytes <= buf && WriteDid(g, s.v, s.open, s.t, s'.v, s'.open, s'.t, n, offset, buf, |r.bytes|)
  }

  ghost function View(fs: FsInstance): State
    requires fs.Valid()
    reads fs
  {
    State(fs.Vol(), fs.open, fs.tree)
  }

  lemma BlockSize(fs: FsInstance)
    requires fs.Valid()
    ensures 0 < fs.g.bs
  {
    hide ImageOk; hide Meaning;
    ValidSizes(fs);
  }

  method Perform(fs: FsInstance, op: Op) returns (ghost r: Answer)
    requires Inv(fs) && 0 < fs.g.bs
    modifies fs
    ensures Inv(fs) && Did(fs.g, old(View(fs)), op, r, View(fs))
  {
    hide ImageOk; hide Meaning; hide FsInv; hide DirsOf; hide Walk; hide Components; hide LastSlash; hide Resolve;
    hide IsDir; hide CreateDid; hide TakenOut; hide ReadDid; hide WriteDid; hide Named; hide EmptyDir; hide Closed;
    hide Target; hide CountsAgree; hide OnlyDots; hide Dangling; hide OnlyRemoved; hide Lost; hide InSomeSlot;
    r := NO_ANSWER;
    match op
    case OpCreate(path, isDir) =>
      if |LastName(path)| < 256 {
        var ok, c := Create(fs, path, isDir);
        r := Answer(ok, c, []);
      }
    case OpUnlink(path) =>
      var d, pi, name, x, ti := FindTarget(fs, path);
      if x == 0 || x !in fs.open {
        var ok := UnlinkFile(fs, path);
        r := Answer(ok, 0, []);
      }
    case OpRmdir(path) =>
      if !Dotted(LastName(path)) {
        var ok := RmdirPath(fs, path);
        r := Answer(ok, 0, []);
      }
    case OpOpen(path) => r := OpenPath(fs, path);
    case OpClose(n) =>
      if n in fs.open {
        OpenCurrent(fs.g, fs.Vol(), fs.open, fs.tree, n);
        Close(fs, n);
      }
    case OpRead(n, offset, count) =>
      if n in fs.open {
        var bytes := Read(fs, n, offset, count);
        r := Answer(true, n, bytes);
      }
    case OpWrite(n, offset, buf) =>
      if n in fs.open {
        ghost var v, p, t := fs.Vol(), fs.open, fs.tree;
        var k := Write(fs, n, offset, buf);
        WroteSome(fs.g, v, p, t, fs.Vol(), fs.open, fs.tree, n, offset, buf, k);
        r := Answer(true, n, buf[..k]);
      }
  }

  lemma WroteSome(g: Geometry, v: Volume, p: map<nat, Inode>, t: Tree, v': Volume, p': map<nat, Inode>, t': Tree,
                  n: nat, offset: nat, buf: seq<byte>, k: nat)
    requires 0 < g.bs && WriteDid(g, v, p, t, v', p', t', n, offset, buf, k)
    ensures k <= |buf| && |buf[..k]| == k && buf[..k] <= buf
  {
    hide OnlyFile; hide Stored; hide Full; hide BlockNum; hide Wrapped;
  }

  method OpenPath(fs: FsInstance, path: seq<byte>) returns (ghost r: Answer)
    requires Inv(fs) && 0 < fs.g.bs
    modifies fs`open
    ensures Inv(fs) && Did(fs.g, old(View(fs)), OpOpen(path), r, View(fs))
  {
    hide ImageOk; hide Meaning; hide FsInv; hide DirsOf; hide Walk; hide Components; hide Resolve; hide IsDir;
    r := NO_ANSWER;
    ghost var v, t := fs.Vol(), fs.tree;
    var n := ResolvePathToInode(fs, path);
    ZeroNotDir(fs.g, v, fs.open, t);
    RootLive(fs.g, v, fs.open, t);
    if n in fs.open { return; }
    if n != 0 {
      LiveInode(fs.g, v, fs.open, t, n);
      var there, i := ReadInode(fs, n);
      if IsDir(i) { return; }
    }
    var ok, h := Open(fs, path);
    r := Answer(ok, h, []);
  }

  /** A run: the states in between and the answers. */
  ghost predicate Trace(g: Geometry, ops: seq<Op>, answers: seq<Answer>, states: seq<State>)
    requires 0 < g.bs
  {
    && |answers| == |ops| && |states| == |ops| + 1
    && forall k :: 0 <= k < |ops| ==> Did(g, states[k], ops[k], answers[k], states[k + 1])
  }

  /** The invariant holds after every operation of every run, and every operation did what it should. */
  method Run(fs: FsInstance, ops: seq<Op>) returns (ghost answers: seq<Answer>, ghost states: seq<State>)
    requires Inv(fs)
    modifies fs
    ensures Inv(fs) && 0 < fs.g.bs && Trace(fs.g, ops, answers, states) && states[0] == old(View(fs))
    ensures states[|ops|] == View(fs)
    ensures forall k :: 0 <= k <= |ops| ==> FsInv(fs.g, states[k].v, states[k].open, states[k].t)
  {
    hide ImageOk; hide Meaning; hide FsInv; hide Did;
    BlockSize(fs);
    answers, states := [], [View(fs)];
    for k := 0 to |ops|
      invariant Inv(fs) && |answers| == k && |states| == k + 1 && states[0] == old(View(fs)) && states[k] == View(fs)
      invariant forall j :: 0 <= j < k ==> Did(fs.g, states[j], ops[j], answers[j], states[j + 1])
      invariant forall j :: 0 <= j <= k ==> FsInv(fs.g, states[j].v, states[j].open, states[j].t)
    {
      ghost var r := Perform(fs, ops[k]);
      answers, states := answers + [r], states + [View(fs)];
    }
  }

  /** The operation closes a handle of n whose copy the inode table's record does not agree with. */
  ghost predicate ClosesLagging(g: Geometry, s: State, op: Op, n: nat) {
    op == OpClose(n) && n in s.open && n in s.v.inodes && !CountsAgree(g, s.v.inodes[n], s.open[n])
  }

  /** One operation adds to the stale inodes at most the one whose lagging handle it closes. */
  lemma StaleStep(g: Geometry, s: State, op: Op, r: Answer, s': State, n: nat)
    requires 0 < g.bs && Did(g, s, op, r, s') && n in s'.t.owner.stale && n !in s.t.owner.stale
    ensures ClosesLagging(g, s, op, n)
  {
    hide DirsOf; hide OnlyAdds; hide Resolve; hide Refused; hide NoFreeInode; hide Stored; hide Fetched; hide Shows;
    hide CountsAgree; hide OthersKept; hide OnlyRemoved; hide OnlyCreated; hide Leaked; hide HolesFilled;
    hide Extends; hide Visits; hide Components; hide Walk; hide LastSlash; hide Named; hide EmptyDir;
    hide TakesNothing; hide DirFull; hide Target; hide IsDir; hide Wrapped; hide Full; hide BlockNum; hide Behind;
    hide Current; hide ReadLength;
  }

  /** In every run an inode's sector count falls behind only where a handle is closed whose copy the record does not
      agree with; all other counts are exact throughout. */
  lemma {:induction false} StaleOnlyByClose(g: Geometry, ops: seq<Op>, answers: seq<Answer>, states: seq<State>, n: nat)
    requires 0 < g.bs && Trace(g, ops, answers, states) && n in states[|ops|].t.owner.stale
    requires n !in states[0].t.owner.stale
    ensures exists k :: 0 <= k < |ops| && ClosesLagging(g, states[k], ops[k], n)
    decreases |ops|
  {
    hide Did; hide ClosesLagging;
    var m := |ops| - 1;
    if n in states[m].t.owner.stale {
      StaleOnlyByClose(g, ops[..m], answers[..m], states[..m + 1], n);
      var k :| 0 <= k < m && ClosesLagging(g, states[..m + 1][k], ops[..m][k], n);
      assert ClosesLagging(g, states[k], ops[k], n);
    } else {
      StaleStep(g, states[m], ops[m], answers[m], states[m + 1], n);
    }
  }

  // ---------- what the invariant says ----------

  /** Each group's counters are the clear bits of its bitmaps, the superblock's are their sums, and both are
      on disk as they are in memory. */
  lemma CountersExact(fs: FsInstance, i: nat)
    requires Inv(fs) && i < fs.g.Groups()
    ensures |fs.groups| == fs.g.Groups() && |fs.disk| == fs.g.blocksCount
    ensures fs.g.blockBitmap[i] < |fs.disk| && fs.g.inodeBitmap[i] < |fs.disk|
    ensures fs.g.BlocksIn(i) <= 8 * |fs.disk[fs.g.blockBitmap[i]]| && fs.g.ipg <= 8 * |fs.disk[fs.g.inodeBitmap[i]]|
    ensures fs.groups[i].blocks == CountClear(fs.disk[fs.g.blockBitmap[i]], fs.g.BlocksIn(i))
    ensures fs.groups[i].inodes == CountClear(fs.disk[fs.g.inodeBitmap[i]], fs.g.ipg)
    ensures fs.sb == Counts(SumBlocks(fs.groups), SumInodes(fs.groups))
    ensures fs.groupsOnDisk == fs.groups && fs.sbOnDisk == fs.sb
  {
    hide FsInv; hide MetaUsed; hide CountClear;
    assert GroupCountsOk(fs.g, fs.disk, fs.groups[i], i);
  }

  /** A block in any slot of any inode of the tree is used, is a data block, and sits in no other slot. */
  lemma BlocksOwnedOnce(fs: FsInstance, n: nat, s: nat, m: nat, t: nat)
    requires Inv(fs) && n in fs.tree.live && m in fs.tree.live && s <= MaxBlocks(fs.g) && t <= MaxBlocks(fs.g)
    ensures var eff := Current(fs.Vol(), fs.open, fs.tree.live); n in eff && m in eff
    ensures var eff, data := Current(fs.Vol(), fs.open, fs.tree.live), fs.Vol().data;
      Slot(fs.g, data, eff[n], s) != 0 ==>
        && Slot(fs.g, data, eff[n], s) in fs.Vol().used && Slot(fs.g, data, eff[n], s) in data
        && (Slot(fs.g, data, eff[n], s) == Slot(fs.g, data, eff[m], t) ==> n == m && s == t)
  {
    hide ImageOk; hide Meaning; hide FsInv; hide MapsOk; hide Slot;
    LiveParts(fs.g, fs.Vol(), fs.open, fs.tree);
    ghost var eff, v := Current(fs.Vol(), fs.open, fs.tree.live), fs.Vol();
    if Slot(fs.g, v.data, eff[n], s) != 0 {
      NoSharing(fs.g, v, fs.tree.owner, eff, n, s, n, s);
      if Slot(fs.g, v.data, eff[n], s) == Slot(fs.g, v.data, eff[m], t) {
        NoSharing(fs.g, v, fs.tree.owner, eff, n, s, m, t);
      }
    }
  }

  /** An inode that is not stale counts exactly the sectors of its blocks, the indirect block included. */
  lemma SectorsExact(fs: FsInstance, n: nat)
    requires Inv(fs) && n in fs.tree.live && n !in fs.tree.owner.stale
    ensures var eff := Current(fs.Vol(), fs.open, fs.tree.live); n in eff && SectorsOk(fs.g, fs.Vol().data, eff[n])
  {
    hide ImageOk; hide Meaning; hide FsInv; hide MapsOk; hide SectorsOk;
    LiveParts(fs.g, fs.Vol(), fs.open, fs.tree);
    CountedThere(fs.g, fs.Vol(), fs.tree.owner, Current(fs.Vol(), fs.open, fs.tree.live), n);
  }

  /** Every inode of the tree is reached from the root. */
  lemma AllReached(fs: FsInstance, c: nat)
    requires Inv(fs) && c in fs.tree.live
    ensures exists comps: seq<Name> :: Walk(DirsOf(fs.g, fs.Vol(), fs.tree.live), ROOT, comps) == c
  {
    hide ImageOk; hide Meaning; hide FsInv; hide DirsOf; hide DirFits; hide Hangs; hide Walk;
    TreeParts(fs.g, fs.Vol(), fs.open, fs.tree);
    EveryInodeReached(fs.tree, DirsOf(fs.g, fs.Vol(), fs.tree.live), c);
  }

  /** Free blocks of the groups before i, and of group i below index k. */
  ghost function FreeBelow(g: Geometry, disk: Disk, i: nat, k: nat): set<nat>
    requires DiskOk(g, disk)
  {
    set b | g.firstData <= b < g.blocksCount && !Bit(g, disk, b) &&
      (g.GroupOf(b) < i || (g.GroupOf(b) == i && g.IndexOf(b) < k))
  }

  lemma {:induction false} FreeInGroup(g: Geometry, disk: Disk, i: nat, k: nat)
    requires DiskOk(g, disk) && i < g.Groups() && k <= g.BlocksIn(i)
    ensures |FreeBelow(g, disk, i, k)| == |FreeBelow(g, disk, i, 0)| + CountClear(disk[g.blockBitmap[i]], k)
  {
    hide Test; hide Geometry.BlocksIn; hide Geometry.GroupOf; hide Geometry.IndexOf;
    if k > 0 {
      FreeInGroup(g, disk, i, k - 1);
      var x := g.BlockNo(i, k - 1);
      var before, after := FreeBelow(g, disk, i, k - 1), FreeBelow(g, disk, i, k);
      forall b: nat | g.firstData <= b < g.blocksCount && g.GroupOf(b) == i && g.IndexOf(b) == k - 1 ensures b == x {
        g.BlockPlace(b);
      }
      assert x !in before;
      if Test(disk[g.blockBitmap[i]], k - 1) {
        assert after == before;
      } else {
        assert after == before + {x};
      }
    }
  }

  lemma GroupEnds(g: Geometry, disk: Disk, i: nat)
    requires DiskOk(g, disk) && i < g.Groups()
    ensures FreeBelow(g, disk, i, g.BlocksIn(i)) == FreeBelow(g, disk, i + 1, 0)
  {
    hide Bit; hide Geometry.BlocksIn; hide Geometry.GroupOf; hide Geometry.IndexOf;
    forall b: nat | g.firstData <= b < g.blocksCount && g.GroupOf(b) == i ensures g.IndexOf(b) < g.BlocksIn(i) {
      g.BlockPlace(b);
    }
  }

  lemma {:induction false} FreeSummed(g: Geometry, m: Image, i: nat)
    requires ImageOk(g, m) && i <= g.Groups()
    ensures |FreeBelow(g, m.disk, i, 0)| == SumBlocks(m.groups[..i])
  {
    hide Bit; hide CountClear; hide Geometry.BlocksIn; hide MetaUsed; hide FreeBelow;
    if i == 0 {
      NothingBelow(g, m.disk);
    } else {
      FreeSummed(g, m, i - 1);
      FreeInGroup(g, m.disk, i - 1, g.BlocksIn(i - 1));
      GroupEnds(g, m.disk, i - 1);
      assert GroupCountsOk(g, m.disk, m.groups[i - 1], i - 1);
      SumSnoc(m.groups[..i - 1], m.groups[i - 1]);
      assert m.groups[..i] == m.groups[..i - 1] + [m.groups[i - 1]];
    }
  }

  lemma NothingBelow(g: Geometry, disk: Disk)
    requires DiskOk(g, disk)
    ensures FreeBelow(g, disk, 0, 0) == {}
  {
    hide Bit; hide Geometry.GroupOf;
  }

  lemma {:induction false} SumSnoc(cs: seq<Counts>, c: Counts)
    ensures SumBlocks(cs + [c]) == SumBlocks(cs) + c.blocks
  {
    if cs == [] {
      assert cs + [c] == [c];
    } else {
      assert (cs + [c])[1..] == cs[1..] + [c];
      SumSnoc(cs[1..], c);
    }
  }

  /** The superblock's free count is the number of free blocks of the whole volume. */
  lemma FreeCountExact(fs: FsInstance)
    requires Inv(fs)
    ensures fs.sb.blocks == |set b: nat | fs.g.firstData <= b < fs.g.blocksCount && b !in fs.Vol().used|
  {
    hide FsInv; hide Bit; hide CountsOk; hide MetaUsed;
    FreeSummed(fs.g, fs.Current(), fs.g.Groups());
    CountsLength(fs.g, fs.Current());
    assert fs.groups[..|fs.groups|] == fs.groups;
    assert FreeBelow(fs.g, fs.disk, fs.g.Groups(), 0) ==
      set b: nat | fs.g.firstData <= b < fs.g.blocksCount && b !in fs.Vol().used;
  }

  lemma CountsLength(g: Geometry, m: Image)
    requires ImageOk(g, m)
    ensures |m.groups| == g.Groups() && m.sb.blocks == SumBlocks(m.groups)
  {
  }

  // ---------- where runs start ----------

  /** The proof annotations of a volume that holds nothing but its root directory, in block b. */
  function RootTree(b: nat): Tree {
    Tree({ROOT}, map[ROOT := ROOT], map[ROOT := []], map[ROOT := 0], Owners(map[b := (ROOT, 0)], {}))
  }

  lemma RootFits(t: Tree)
    requires ROOT in t.live && t.parent == map[ROOT := ROOT] && ROOT in t.nameOf
    ensures DirFits(t, ROOT, DotEntries(ROOT, ROOT))
  {
    var es := DotEntries(ROOT, ROOT);
    assert es[1..] == [es[1]];
    assert |DOT| == 1 && |DOTDOT| == 2;
  }

  /** A formatted volume, whose root lists only "." and "..", satisfies the invariant. */
  lemma FormattedVolume(g: Geometry, v: Volume, b: nat)
    requires 1024 <= g.bs < U16 && g.bs % 4 == 0 && 0 < b < U32 && Sized(g, v.data)
    requires ROOT in v.iused && ROOT in v.inodes && v.inodes[ROOT] == NewInode(g, true, b)
    requires b in v.used && b in v.data && v.data[b] == DotBlock(g.bs, ROOT, ROOT)
    ensures FsInv(g, v, map[], RootTree(b))
  {
    hide MapsOk; hide DirOk; hide Contents; hide DirFits; hide DotBlock;
    var t, eff := RootTree(b), map[ROOT := v.inodes[ROOT]];
    assert IsDir(v.inodes[ROOT]);
    NoMaps(g, v);
    AddInode(g, v, Owners(map[], {}), map[], ROOT, true, b);
    NewDirContents(g, v.data, b, ROOT, ROOT);
    assert Current(v, map[], t.live) == map[][ROOT := NewInode(g, true, b)];
    assert DirsOf(g, v, t.live) == map[ROOT := DotEntries(ROOT, ROOT)];
    RootFits(t);
  }

  lemma NoMaps(g: Geometry, v: Volume)
    requires Sized(g, v.data)
    ensures MapsOk(g, v, Owners(map[], {}), map[])
  {
  }
}
