/** Over whole runs: what is written to a file is what is read from it, until it is overwritten or the file is removed,
    whatever else is created, written, removed, closed and opened again in between. */
module Ext2Contents {
  import opened Bytes
  import opened Ext2Layout
  import opened Ext2Volume
  import opened Ext2Store
  import opened Ext2BlockMap
  import opened Ext2DirBlock
  import opened Ext2Dir
  import opened Ext2Tree
  import opened Ext2Fs
  import opened Ext2Create
  import opened Ext2Remove
  import opened Ext2File
  import opened Ext2Read
  import opened Ext2Handles
  import opened Ext2Run

  /** Byte p of file n is x, as the record in the inode table has it. */
  ghost predicate OnDisk(g: Geometry, s: State, n: nat, p: nat, x: byte)
    requires 0 < g.bs
  {
    && n in s.t.live && n in s.v.inodes && !IsDir(s.v.inodes[n])
    && Mapped(g, s.v.data, s.v.inodes[n], p) && ByteAt(g, s.v.data, s.v.inodes[n], p) == x
  }

  /** The operation has written over byte p of file n. */
  ghost predicate Overwrites(g: Geometry, op: Op, r: Answer, n: nat, p: nat)
    requires 0 < g.bs
  {
    op.OpWrite? && op.handle == n && Wrapped(g, op.offset) <= p < Wrapped(g, op.offset) + |r.bytes|
  }

  /** The operation has removed inode n. */
  ghost predicate Removes(g: Geometry, s: State, op: Op, r: Answer, n: nat) {
    (op.OpUnlink? || op.OpRmdir?) && r.ok && Target(g, s.v, s.t, op.path) == n
  }

  // ---------- the record and the copy ----------

  /** What the record maps, the copy ahead of it maps to the same block. */
  lemma RecordByte(g: Geometry, data: Blocks, i: Inode, h: Inode, p: nat)
    requires 0 < g.bs && Behind(i, h) && Mapped(g, data, i, p)
    ensures Mapped(g, data, h, p) && ByteAt(g, data, h, p) == ByteAt(g, data, i, p)
  {
    hide BlockNum; hide OffsetIn;
    MappedBelow(g, data, i, p);
    BehindSlots(g, data, i, h, BlockNum(g, p));
  }

  /** While the copy's file is kept, so is what the record shows of it. */
  lemma RecordKept(g: Geometry, data: Blocks, data': Blocks, i: Inode, h: Inode, p: nat)
    requires 0 < g.bs && Behind(i, h) && FileKept(g, data, h, data', h) && Mapped(g, data, i, p)
    ensures Mapped(g, data', i, p) && ByteAt(g, data', i, p) == ByteAt(g, data, i, p)
  {
    hide BlockNum; hide OffsetIn;
    var k := BlockNum(g, p);
    MappedBelow(g, data, i, p);
    BehindSlots(g, data, i, h, k);
    RecordSlotsKept(g, data, data', i, h, k);
  }

  /** While the copy grows, what the record shows of bytes that are not stored over stays. */
  lemma RecordGrows(g: Geometry, v: Volume, i: Inode, h: Inode, v': Volume, h': Inode, p: nat)
    requires 0 < g.bs && Behind(i, h) && Behind(h, h') && Extends(g, v, h, v', h') && Mapped(g, v.data, i, p)
    requires Mapped(g, v'.data, h', p) && ByteAt(g, v'.data, h', p) == ByteAt(g, v.data, h, p)
    ensures Mapped(g, v'.data, i, p) && ByteAt(g, v'.data, i, p) == ByteAt(g, v.data, i, p)
  {
    hide BlockNum; hide OffsetIn; hide Extends;
    var k := BlockNum(g, p);
    MappedBelow(g, v.data, i, p);
    ExtendsStay(g, v, h, v', h');
    RecordStays(g, v.data, v'.data, i, h, h', k);
    BehindSlots(g, v'.data, i, h', k);
    RecordByte(g, v.data, i, h, p);
  }

  lemma CurrentAhead(g: Geometry, s: State, n: nat)
    requires FsInv(g, s.v, s.open, s.t) && n in s.t.live && n in s.v.inodes
    ensures var eff := Current(s.v, s.open, s.t.live); n in eff && Behind(s.v.inodes[n], eff[n])
  {
    hide FsInv;
    if n in s.open { OpenBehind(g, s.v, s.open, s.t, n); }
  }

  /** A change that keeps file n and its record keeps its bytes. */
  lemma KeptOnDisk(g: Geometry, s: State, s': State, n: nat, p: nat, x: byte)
    requires 0 < g.bs && FsInv(g, s.v, s.open, s.t) && OnDisk(g, s, n, p, x)
    requires n in s'.t.live && n in s'.v.inodes && s'.v.inodes[n] == s.v.inodes[n]
    requires var eff := Current(s.v, s.open, s.t.live); n in eff ==> FileKept(g, s.v.data, eff[n], s'.v.data, eff[n])
    ensures OnDisk(g, s', n, p, x)
  {
    hide FsInv; hide Current; hide Mapped; hide ByteAt; hide FileKept; hide IsDir;
    CurrentAhead(g, s, n);
    RecordKept(g, s.v.data, s'.v.data, s.v.inodes[n], Current(s.v, s.open, s.t.live)[n], p);
  }

  // ---------- one operation ----------

  lemma NotADirectory(g: Geometry, s: State, n: nat, d: nat)
    requires n in s.v.inodes && !IsDir(s.v.inodes[n]) && d in DirsOf(g, s.v, s.t.live)
    ensures n != d
  {
    hide DirOk; hide Contents; hide IsDir;
  }

  lemma CreateKeeps(g: Geometry, s: State, path: seq<byte>, isDir: bool, r: Answer, s': State, n: nat, p: nat, x: byte)
    requires 0 < g.bs && FsInv(g, s.v, s.open, s.t) && OnDisk(g, s, n, p, x)
    requires CreateDid(g, s.v, s.open, s.t, path, isDir, r.ok, r.inode, s'.v, s'.t)
    ensures OnDisk(g, s', n, p, x)
  {
    hide FsInv; hide Current; hide Mapped; hide ByteAt; hide FileKept; hide IsDir; hide DirsOf; hide Resolve;
    hide OnlyAdds; hide NoFreeInode; hide Full; hide DirFull; hide ParentInode; hide AllSlots; hide Unowned;
    hide NoName;
    if r.ok {
      NotADirectory(g, s, n, Resolve(g, s.v, s.t, ParentPath(path)));
      KeptOnDisk(g, s, s', n, p, x);
    } else if s'.v != s.v {
      CurrentAhead(g, s, n);
      KeptOnDisk(g, s, s', n, p, x);
    }
  }

  lemma RemoveKeeps(g: Geometry, s: State, path: seq<byte>, dir: bool, r: Answer, s': State, n: nat, p: nat, x: byte)
    requires 0 < g.bs && FsInv(g, s.v, s.open, s.t) && OnDisk(g, s, n, p, x)
    requires DidRemove(g, s, path, dir, r, s') && !(r.ok && Target(g, s.v, s.t, path) == n)
    ensures OnDisk(g, s', n, p, x)
  {
    hide FsInv; hide Current; hide Mapped; hide ByteAt; hide FileKept; hide IsDir; hide DirsOf; hide Resolve;
    hide OnlyAdds; hide AllSlots; hide EmptyDir; hide Find; hide Visits; hide Components; hide BlocksFreed;
    if r.ok {
      NotADirectory(g, s, n, Resolve(g, s.v, s.t, ParentPath(path)));
      KeptOnDisk(g, s, s', n, p, x);
    }
  }

  lemma AccessKeeps(g: Geometry, s: State, s': State, m: nat, n: nat, p: nat, x: byte)
    requires 0 < g.bs && FsInv(g, s.v, s.open, s.t) && OnDisk(g, s, n, p, x) && m != n
    requires OnlyFile(g, s.v, s.open, s.t, s'.v, s'.open, s'.t, m)
    ensures OnDisk(g, s', n, p, x)
  {
    hide FsInv; hide Current; hide Mapped; hide ByteAt; hide FileKept; hide IsDir; hide DirsOf; hide Extends;
    hide Behind;
    KeptOnDisk(g, s, s', n, p, x);
  }

  lemma ReadKeeps(g: Geometry, s: State, r: Answer, s': State, n: nat, offset: nat, count: nat, p: nat, x: byte)
    requires 0 < g.bs && FsInv(g, s.v, s.open, s.t) && OnDisk(g, s, n, p, x)
    requires ReadDid(g, s.v, s.open, s.t, s'.v, s'.open, s'.t, n, offset, count, r.bytes)
    ensures OnDisk(g, s', n, p, x)
  {
    hide FsInv; hide Current; hide Mapped; hide ByteAt; hide IsDir; hide DirsOf; hide Extends; hide Behind;
    hide Fetched; hide Shows; hide HolesFilled; hide TakesNothing; hide OthersKept;
    OpenBehind(g, s.v, s.open, s.t, n);
    RecordByte(g, s.v.data, s.v.inodes[n], s.open[n], p);
    RecordGrows(g, s.v, s.v.inodes[n], s.open[n], s'.v, s'.open[n], p);
  }

  lemma WriteKeeps(g: Geometry, s: State, r: Answer, s': State, n: nat, offset: nat, buf: seq<byte>, p: nat, x: byte)
    requires 0 < g.bs && FsInv(g, s.v, s.open, s.t) && FsInv(g, s'.v, s'.open, s'.t) && OnDisk(g, s, n, p, x)
    requires r.bytes <= buf && WriteDid(g, s.v, s.open, s.t, s'.v, s'.open, s'.t, n, offset, buf, |r.bytes|)
    requires !(Wrapped(g, offset) <= p < Wrapped(g, offset) + |r.bytes|)
    ensures OnDisk(g, s', n, p, x)
  {
    hide FsInv; hide Current; hide Mapped; hide ByteAt; hide IsDir; hide DirsOf; hide Extends; hide Behind;
    hide OthersKept; hide Wrapped; hide Full; hide BlockNum;
    OpenBehind(g, s.v, s.open, s.t, n);
    RecordByte(g, s.v.data, s.v.inodes[n], s.open[n], p);
    OpenIsFile(g, s', n);
  }

  lemma OpenIsFile(g: Geometry, s: State, n: nat)
    requires FsInv(g, s.v, s.open, s.t) && n in s.open
    ensures n in s.t.live && n in s.v.inodes && !IsDir(s.v.inodes[n])
  {
    hide MapsOk; hide TreeOk; hide HandlesOk; hide DirOk; hide IsDir;
  }

  /** One operation leaves byte p of file n alone unless it writes over it or removes the file. */
  lemma StepStays(g: Geometry, s: State, op: Op, r: Answer, s': State, n: nat, p: nat, x: byte)
    requires 0 < g.bs && FsInv(g, s.v, s.open, s.t) && FsInv(g, s'.v, s'.open, s'.t)
    requires Did(g, s, op, r, s') && OnDisk(g, s, n, p, x)
    requires !Overwrites(g, op, r, n, p) && !Removes(g, s, op, r, n)
    ensures OnDisk(g, s', n, p, x)
  {
    hide FsInv; hide CreateDid; hide DidRemove; hide ReadDid; hide WriteDid; hide Mapped; hide ByteAt; hide IsDir;
    hide Target; hide Wrapped; hide Resolve; hide CountsAgree; hide Named; hide DirsIn;
    if Allowed(g, s, op) {
      match op
      case OpCreate(path, isDir) => CreateKeeps(g, s, path, isDir, r, s', n, p, x);
      case OpUnlink(path) => RemoveKeeps(g, s, path, false, r, s', n, p, x);
      case OpRmdir(path) => RemoveKeeps(g, s, path, true, r, s', n, p, x);
      case OpOpen(path) =>
      case OpClose(m) =>
      case OpRead(m, offset, count) =>
        if m == n {
          ReadKeeps(g, s, r, s', n, offset, count, p, x);
        } else {
          ReadOnly(g, s, r, s', m, offset, count);
          AccessKeeps(g, s, s', m, n, p, x);
        }
      case OpWrite(m, offset, buf) =>
        if m == n {
          WriteKeeps(g, s, r, s', n, offset, buf, p, x);
        } else {
          WriteOnly(g, s, r, s', m, offset, buf);
          AccessKeeps(g, s, s', m, n, p, x);
        }
    }
  }

  lemma ReadOnly(g: Geometry, s: State, r: Answer, s': State, m: nat, offset: nat, count: nat)
    requires 0 < g.bs && ReadDid(g, s.v, s.open, s.t, s'.v, s'.open, s'.t, m, offset, count, r.bytes)
    ensures OnlyFile(g, s.v, s.open, s.t, s'.v, s'.open, s'.t, m)
  {
    hide OnlyFile; hide Fetched; hide Shows; hide HolesFilled; hide TakesNothing; hide Stored;
  }

  lemma WriteOnly(g: Geometry, s: State, r: Answer, s': State, m: nat, offset: nat, buf: seq<byte>)
    requires 0 < g.bs && WriteDid(g, s.v, s.open, s.t, s'.v, s'.open, s'.t, m, offset, buf, |r.bytes|)
    ensures OnlyFile(g, s.v, s.open, s.t, s'.v, s'.open, s'.t, m)
  {
    hide OnlyFile; hide Wrapped; hide Full; hide BlockNum; hide Stored;
  }

  // ---------- whole runs ----------

  /** No operation from i up to j touches byte p of file n. */
  ghost predicate Spared(g: Geometry, ops: seq<Op>, answers: seq<Answer>, states: seq<State>, i: nat, j: nat, n: nat,
                         p: nat)
    requires 0 < g.bs && j <= |ops| <= |answers| && |ops| <= |states|
  {
    forall k :: i <= k < j ==> !Overwrites(g, ops[k], answers[k], n, p) && !Removes(g, states[k], ops[k], answers[k], n)
  }

  ghost predicate SoundRun(g: Geometry, ops: seq<Op>, answers: seq<Answer>, states: seq<State>)
    requires 0 < g.bs
  {
    Trace(g, ops, answers, states) && forall k :: 0 <= k <= |ops| ==> FsInv(g, states[k].v, states[k].open, states[k].t)
  }

  /** A byte on disk stays there through all operations that spare it. */
  lemma {:induction false} BytesStay(g: Geometry, ops: seq<Op>, answers: seq<Answer>, states: seq<State>, i: nat,
                                     j: nat, n: nat, p: nat, x: byte)
    requires 0 < g.bs && SoundRun(g, ops, answers, states) && i <= j <= |ops|
    requires OnDisk(g, states[i], n, p, x) && Spared(g, ops, answers, states, i, j, n, p)
    ensures OnDisk(g, states[j], n, p, x)
    decreases j
  {
    hide FsInv; hide Did; hide OnDisk; hide Overwrites; hide Removes;
    if i < j {
      BytesStay(g, ops, answers, states, i, j - 1, n, p, x);
      StepStays(g, states[j - 1], ops[j - 1], answers[j - 1], states[j], n, p, x);
    }
  }

  lemma WriteLands(g: Geometry, s: State, op: Op, r: Answer, s': State, p: nat)
    requires 0 < g.bs && FsInv(g, s'.v, s'.open, s'.t) && Did(g, s, op, r, s')
    requires op.OpWrite? && op.handle in s.open && Overwrites(g, op, r, op.handle, p)
    ensures OnDisk(g, s', op.handle, p, r.bytes[p - Wrapped(g, op.offset)])
  {
    hide FsInv; hide Mapped; hide ByteAt; hide IsDir; hide Wrapped; hide OnlyFile; hide Full; hide BlockNum;
    OpenIsFile(g, s', op.handle);
  }

  lemma ReadSees(g: Geometry, s: State, op: Op, r: Answer, s': State, p: nat, x: byte)
    requires 0 < g.bs && FsInv(g, s.v, s.open, s.t) && Did(g, s, op, r, s')
    requires op.OpRead? && op.handle in s.open && OnDisk(g, s, op.handle, p, x)
    requires op.offset <= p < op.offset + |r.bytes|
    ensures r.bytes[p - op.offset] == x
  {
    hide FsInv; hide Mapped; hide ByteAt; hide IsDir; hide OnlyFile; hide Shows; hide HolesFilled;
    hide TakesNothing; hide Stored; hide Behind;
    OpenBehind(g, s.v, s.open, s.t, op.handle);
    RecordByte(g, s.v.data, s.v.inodes[op.handle], s.open[op.handle], p);
  }

  /** Every byte that a write of a run has stored is what a later read of the run returns for it, through whatever
      handle the file then has, unless an operation in between has written over it or removed the file. */
  lemma WrittenIsRead(g: Geometry, ops: seq<Op>, answers: seq<Answer>, states: seq<State>, i: nat, j: nat, p: nat)
    requires 0 < g.bs && SoundRun(g, ops, answers, states) && i < j < |ops|
    requires ops[i].OpWrite? && ops[i].handle in states[i].open && Overwrites(g, ops[i], answers[i], ops[i].handle, p)
    requires Spared(g, ops, answers, states, i + 1, j, ops[i].handle, p)
    requires ops[j].OpRead? && ops[j].handle == ops[i].handle && ops[j].handle in states[j].open
    requires ops[j].offset <= p < ops[j].offset + |answers[j].bytes|
    ensures answers[j].bytes[p - ops[j].offset] == answers[i].bytes[p - Wrapped(g, ops[i].offset)]
  {
    hide FsInv; hide Did; hide OnDisk; hide Wrapped; hide Removes;
    var x := answers[i].bytes[p - Wrapped(g, ops[i].offset)];
    WriteLands(g, states[i], ops[i], answers[i], states[i + 1], p);
    BytesStay(g, ops, answers, states, i + 1, j, ops[i].handle, p, x);
    ReadSees(g, states[j], ops[j], answers[j], states[j + 1], p, x);
  }

  // ---------- how long a file is ----------

  /** File n is z bytes long, in the inode table and in the copy of its handle if it has one. */
  ghost predicate Long(s: State, n: nat, z: nat) {
    && n in s.t.live && n in s.v.inodes && !IsDir(s.v.inodes[n]) && s.v.inodes[n].size == z
    && (n in s.open ==> s.open[n].size == z)
  }

  /** The operation is a write through the handle of n, and its end lies beyond z. */
  ghost predicate Lengthens(s: State, op: Op, r: Answer, n: nat, z: nat) {
    op.OpWrite? && op.handle == n && n in s.open && op.offset + |r.bytes| > z
  }

  /** How long a file of z bytes is after operations i up to j: each write that ends beyond it moves its end there,
      modulo 2^32. */
  ghost function Length(ops: seq<Op>, answers: seq<Answer>, states: seq<State>, i: nat, j: nat, n: nat, z: nat): nat
    requires j <= |ops| <= |answers| && |ops| <= |states|
  {
    if j <= i then z
    else
      var l := Length(ops, answers, states, i, j - 1, n, z);
      if Lengthens(states[j - 1], ops[j - 1], answers[j - 1], n, l) then
        (ops[j - 1].offset + |answers[j - 1].bytes|) % U32
      else l
  }

  lemma CreateLong(g: Geometry, s: State, path: seq<byte>, isDir: bool, r: Answer, s': State, n: nat, z: nat)
    requires FsInv(g, s.v, s.open, s.t) && Long(s, n, z) && s'.open == s.open
    requires CreateDid(g, s.v, s.open, s.t, path, isDir, r.ok, r.inode, s'.v, s'.t)
    ensures Long(s', n, z)
  {
    hide IsDir; hide DirsOf; hide Resolve; hide OnlyAdds; hide NoFreeInode; hide Full; hide DirFull; hide ParentInode;
    hide AllSlots; hide Unowned; hide NoName; hide NewRecord; hide ParentRecord; hide OthersKept; hide AllKept;
    hide Inserted; hide Current; hide FsInv;
    LiveParts(g, s.v, s.open, s.t);
    if r.ok { NotADirectory(g, s, n, Resolve(g, s.v, s.t, ParentPath(path))); }
  }

  lemma RemoveLong(g: Geometry, s: State, path: seq<byte>, dir: bool, r: Answer, s': State, n: nat, z: nat)
    requires Long(s, n, z) && DidRemove(g, s, path, dir, r, s') && !(r.ok && Target(g, s.v, s.t, path) == n)
    ensures Long(s', n, z)
  {
    hide IsDir; hide DirsOf; hide Resolve; hide OnlyAdds; hide AllSlots; hide EmptyDir; hide Find; hide Visits;
    hide Components; hide BlocksFreed; hide OthersKept; hide Current;
    if r.ok { NotADirectory(g, s, n, Resolve(g, s.v, s.t, ParentPath(path))); }
  }

  lemma AccessLong(g: Geometry, s: State, s': State, m: nat, n: nat, z: nat)
    requires Long(s, n, z) && m != n && OnlyFile(g, s.v, s.open, s.t, s'.v, s'.open, s'.t, m)
    ensures Long(s', n, z)
  {
    hide IsDir; hide DirsOf; hide Extends; hide Behind; hide OthersKept; hide Current;
  }

  lemma ReadLong(g: Geometry, s: State, r: Answer, s': State, n: nat, offset: nat, count: nat, z: nat)
    requires 0 < g.bs && Long(s, n, z)
    requires ReadDid(g, s.v, s.open, s.t, s'.v, s'.open, s'.t, n, offset, count, r.bytes)
    ensures Long(s', n, z)
  {
    hide IsDir; hide DirsOf; hide Extends; hide Behind; hide OthersKept; hide Current; hide Fetched; hide Shows;
    hide HolesFilled; hide TakesNothing; hide Stored;
  }

  lemma WriteLong(g: Geometry, s: State, r: Answer, s': State, n: nat, offset: nat, buf: seq<byte>, z: nat)
    requires 0 < g.bs && FsInv(g, s'.v, s'.open, s'.t) && Long(s, n, z) && r.bytes <= buf
    requires WriteDid(g, s.v, s.open, s.t, s'.v, s'.open, s'.t, n, offset, buf, |r.bytes|)
    ensures Long(s', n, if offset + |r.bytes| > z then (offset + |r.bytes|) % U32 else z)
  {
    hide IsDir; hide DirsOf; hide Extends; hide Behind; hide OthersKept; hide Current; hide Stored; hide Full;
    hide BlockNum; hide Wrapped; hide FsInv;
    OpenIsFile(g, s', n);
  }

  /** One operation changes the length of a file only by writing beyond its end or by removing it. */
  lemma StepLong(g: Geometry, s: State, op: Op, r: Answer, s': State, n: nat, z: nat)
    requires 0 < g.bs && FsInv(g, s.v, s.open, s.t) && FsInv(g, s'.v, s'.open, s'.t)
    requires Did(g, s, op, r, s') && Long(s, n, z) && !Removes(g, s, op, r, n)
    ensures Long(s', n, if Lengthens(s, op, r, n, z) then (op.offset + |r.bytes|) % U32 else z)
  {
    hide FsInv; hide CreateDid; hide DidRemove; hide ReadDid; hide WriteDid; hide IsDir; hide Target; hide Resolve;
    hide CountsAgree; hide Named; hide DirsIn;
    if Allowed(g, s, op) {
      match op
      case OpCreate(path, isDir) => CreateLong(g, s, path, isDir, r, s', n, z);
      case OpUnlink(path) => RemoveLong(g, s, path, false, r, s', n, z);
      case OpRmdir(path) => RemoveLong(g, s, path, true, r, s', n, z);
      case OpOpen(path) =>
      case OpClose(m) =>
      case OpRead(m, offset, count) =>
        if m == n {
          ReadLong(g, s, r, s', n, offset, count, z);
        } else {
          ReadOnly(g, s, r, s', m, offset, count);
          AccessLong(g, s, s', m, n, z);
        }
      case OpWrite(m, offset, buf) =>
        if m == n {
          WriteLong(g, s, r, s', n, offset, buf, z);
        } else {
          WriteOnly(g, s, r, s', m, offset, buf);
          AccessLong(g, s, s', m, n, z);
        }
    }
  }

  /** No operation from i up to j removes file n. */
  ghost predicate Survives(g: Geometry, ops: seq<Op>, answers: seq<Answer>, states: seq<State>, i: nat, j: nat, n: nat)
    requires j <= |ops| <= |answers| && |ops| <= |states|
  {
    forall k :: i <= k < j ==> !Removes(g, states[k], ops[k], answers[k], n)
  }

  lemma {:induction false} LengthAfter(g: Geometry, ops: seq<Op>, answers: seq<Answer>, states: seq<State>, i: nat,
                                       j: nat, n: nat, z: nat)
    requires 0 < g.bs && SoundRun(g, ops, answers, states) && i <= j <= |ops|
    requires Long(states[i], n, z) && Survives(g, ops, answers, states, i, j, n)
    ensures Long(states[j], n, Length(ops, answers, states, i, j, n, z))
    decreases j
  {
    hide FsInv; hide Did; hide Long; hide Removes; hide Lengthens;
    if i < j {
      LengthAfter(g, ops, answers, states, i, j - 1, n, z);
      StepLong(g, states[j - 1], ops[j - 1], answers[j - 1], states[j], n,
               Length(ops, answers, states, i, j - 1, n, z));
    }
  }

  /** A file fresh from create is empty and has no handle. */
  lemma CreatedEmpty(g: Geometry, s: State, op: Op, r: Answer, s': State)
    requires 0 < g.bs && FsInv(g, s.v, s.open, s.t) && Did(g, s, op, r, s')
    requires op.OpCreate? && !op.isDir && r.ok
    ensures Long(s', r.inode, 0) && r.inode !in s'.open
  {
    hide FsInv; hide IsDir; hide DirsOf; hide Resolve; hide OnlyAdds; hide NoFreeInode; hide Refused; hide Entered;
    hide ParentRecord; hide OthersKept; hide Current; hide AllSlots;
    OpenLive(g, s);
  }

  lemma OpenLive(g: Geometry, s: State)
    requires FsInv(g, s.v, s.open, s.t)
    ensures s.open.Keys <= s.t.live
  {
    hide MapsOk; hide TreeOk; hide HandlesOk; hide DirOk; hide IsDir;
  }

  lemma ReadAnswers(g: Geometry, s: State, op: Op, r: Answer, s': State, z: nat)
    requires 0 < g.bs && Did(g, s, op, r, s') && op.OpRead? && op.handle in s.open && Long(s, op.handle, z)
    ensures |r.bytes| == if op.offset >= z then 0 else if op.count < z - op.offset then op.count else z - op.offset
  {
    hide IsDir; hide OnlyFile; hide Shows; hide HolesFilled; hide TakesNothing; hide Stored; hide Behind; hide Fetched;
  }

  /** In every run a read of a file that the run created returns as many bytes as were asked for and lie before the
      furthest end of a write so far. */
  lemma CreatedIsReadTo(g: Geometry, ops: seq<Op>, answers: seq<Answer>, states: seq<State>, i: nat, j: nat)
    requires 0 < g.bs && SoundRun(g, ops, answers, states) && i < j < |ops|
    requires ops[i].OpCreate? && !ops[i].isDir && answers[i].ok
    requires Survives(g, ops, answers, states, i + 1, j, answers[i].inode)
    requires ops[j].OpRead? && ops[j].handle == answers[i].inode && ops[j].handle in states[j].open
    ensures var z, from, count :=
        Length(ops, answers, states, i + 1, j, answers[i].inode, 0), ops[j].offset, ops[j].count;
      |answers[j].bytes| == if from >= z then 0 else if count < z - from then count else z - from
  {
    hide FsInv; hide Did; hide Long; hide Removes; hide Length;
    CreatedEmpty(g, states[i], ops[i], answers[i], states[i + 1]);
    LengthAfter(g, ops, answers, states, i + 1, j, answers[i].inode, 0);
    ReadAnswers(g, states[j], ops[j], answers[j], states[j + 1],
                Length(ops, answers, states, i + 1, j, answers[i].inode, 0));
  }

  lemma {:induction false} UnwrittenLength(ops: seq<Op>, answers: seq<Answer>, states: seq<State>, i: nat, j: nat,
                                           n: nat, z: nat)
    requires j <= |ops| <= |answers| && |ops| <= |states|
    requires forall k :: i <= k < j ==> !(ops[k].OpWrite? && ops[k].handle == n)
    ensures Length(ops, answers, states, i, j, n, z) == z
    decreases j
  {
    if i < j { UnwrittenLength(ops, answers, states, i, j - 1, n, z); }
  }

  /** In particular a file that nobody has written to since it was created is read as nothing. */
  lemma UnwrittenIsEmpty(g: Geometry, ops: seq<Op>, answers: seq<Answer>, states: seq<State>, i: nat, j: nat)
    requires 0 < g.bs && SoundRun(g, ops, answers, states) && i < j < |ops|
    requires ops[i].OpCreate? && !ops[i].isDir && answers[i].ok
    requires Survives(g, ops, answers, states, i + 1, j, answers[i].inode)
    requires forall k :: i < k < j ==> !(ops[k].OpWrite? && ops[k].handle == answers[i].inode)
    requires ops[j].OpRead? && ops[j].handle == answers[i].inode && ops[j].handle in states[j].open
    ensures answers[j].bytes == []
  {
    hide FsInv; hide Did; hide Long; hide Removes; hide Length; hide Survives;
    CreatedIsReadTo(g, ops, answers, states, i, j);
    UnwrittenLength(ops, answers, states, i + 1, j, answers[i].inode, 0);
  }

  /** create, open by the same path, read: the path leads to the new file, and the read returns nothing. */
  lemma CreateOpenRead(g: Geometry, ops: seq<Op>, answers: seq<Answer>, states: seq<State>, i: nat, path: seq<byte>,
                       offset: nat, count: nat)
    requires 0 < g.bs && SoundRun(g, ops, answers, states) && i + 2 < |ops|
    requires ops[i] == OpCreate(path, false) && answers[i].ok && |LastName(path)| <= MAX_COMPONENT
    requires ops[i + 1] == OpOpen(path) && ops[i + 2] == OpRead(answers[i].inode, offset, count)
    ensures answers[i + 1].ok && answers[i + 1].inode == answers[i].inode && answers[i + 2].bytes == []
  {
    hide FsInv; hide Did; hide Long;
    CreatedEmpty(g, states[i], ops[i], answers[i], states[i + 1]);
    OpensCreated(g, states[i], path, answers[i], states[i + 1], answers[i + 1], states[i + 2]);
    UnwrittenIsEmpty(g, ops, answers, states, i, i + 2);
  }

  lemma OpensCreated(g: Geometry, s: State, path: seq<byte>, r: Answer, s': State, r': Answer, s'': State)
    requires 0 < g.bs && FsInv(g, s'.v, s'.open, s'.t) && Did(g, s, OpCreate(path, false), r, s') && r.ok
    requires Did(g, s', OpOpen(path), r', s'') && |LastName(path)| <= MAX_COMPONENT
    requires Long(s', r.inode, 0) && r.inode !in s'.open
    ensures r'.ok && r'.inode == r.inode && r.inode in s''.open
  {
    hide FsInv; hide IsDir; hide Resolve; hide OnlyAdds; hide NoFreeInode; hide Refused; hide Entered;
    hide ParentRecord; hide OthersKept; hide Current; hide AllSlots; hide NewRecord;
    ZeroNotDir(g, s'.v, s'.open, s'.t);
    ZeroNotLive(g, s');
    if r.inode in DirsIn(g, s') { NotADirectory(g, s', r.inode, r.inode); }
  }

  lemma ZeroNotLive(g: Geometry, s: State)
    requires FsInv(g, s.v, s.open, s.t)
    ensures 0 !in s.t.live
  {
    hide MapsOk; hide DirOk; hide IsDir; hide HandlesOk;
  }
}
