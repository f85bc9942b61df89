/** One directory block: a chain of variable-length records that tile it exactly. */
module Ext2DirBlock {
  import opened Bytes
  import opened Ext2Store

  const HEADER: nat := 8

  /** A record in use: a name, the inode it names and its file type. */
  datatype Entry = Entry(name: Name, ino: nat, kind: byte)

  /** dirEntryMinSize: header and name, rounded up to a multiple of 4. */
  function MinSize(nameLen: nat): (r: nat)
    ensures r % 4 == 0 && HEADER + nameLen <= r < HEADER + nameLen + 4
  {
    (HEADER + nameLen + 3) / 4 * 4
  }

  function InoAt(s: seq<byte>, o: nat): nat requires o + HEADER <= |s| { Get32(s, o) }
  function LenAt(s: seq<byte>, o: nat): nat requires o + HEADER <= |s| { Get16(s, o + 4) }
  function NameLenAt(s: seq<byte>, o: nat): nat requires o + HEADER <= |s| { s[o + 6] as int }

  /** A 4-aligned record lies at o, inside the block and long enough for its name. */
  predicate RecordOk(s: seq<byte>, o: nat) {
    && o + HEADER <= |s|
    && HEADER <= LenAt(s, o) && LenAt(s, o) % 4 == 0 && o + LenAt(s, o) <= |s|
    && (InoAt(s, o) != 0 ==> MinSize(NameLenAt(s, o)) <= LenAt(s, o))
  }

  /** From o on, records tile the block exactly. */
  predicate Tiled(s: seq<byte>, o: nat)
    decreases |s| - o
  {
    o == |s| || (o < |s| && RecordOk(s, o) && Tiled(s, o + LenAt(s, o)))
  }

  function EntryAt(s: seq<byte>, o: nat): (e: Entry)
    requires RecordOk(s, o) && InoAt(s, o) != 0
  {
    Entry(s[o + HEADER..o + HEADER + NameLenAt(s, o)], InoAt(s, o), s[o + 7])
  }

  /** The record at o as zero or one entry. */
  function Here(s: seq<byte>, o: nat): (es: seq<Entry>)
    requires RecordOk(s, o)
  {
    if InoAt(s, o) == 0 then [] else [EntryAt(s, o)]
  }

  /** The entries from o to the end of the block. */
  function Entries(s: seq<byte>, o: nat): (es: seq<Entry>)
    requires Tiled(s, o)
    decreases |s| - o
  {
    if o == |s| then [] else Here(s, o) + Entries(s, o + LenAt(s, o))
  }

  /** Records lead from p exactly to o. */
  predicate Chain(s: seq<byte>, p: nat, o: nat)
    decreases |s| - p
  {
    p == o || (p < o <= |s| && RecordOk(s, p) && Chain(s, p + LenAt(s, p), o))
  }

  /** The entries of the records from p up to o. */
  function Between(s: seq<byte>, p: nat, o: nat): (es: seq<Entry>)
    requires Chain(s, p, o)
    decreases |s| - p
  {
    if p == o then [] else Here(s, p) + Between(s, p + LenAt(s, p), o)
  }

  lemma SameRecord(s: seq<byte>, s': seq<byte>, p: nat, o: nat)
    requires |s| == |s'| && RecordOk(s, p) && p + LenAt(s, p) <= o <= |s| && s[p..o] == s'[p..o]
    ensures RecordOk(s', p) && LenAt(s', p) == LenAt(s, p) && Here(s', p) == Here(s, p)
  {
    forall k | p <= k < o ensures s'[k] == s[k] {
      assert s[p..o][k - p] == s'[p..o][k - p];
    }
    var q := p + HEADER;
    if InoAt(s, p) != 0 {
      assert s[q..q + NameLenAt(s, p)] == s'[q..q + NameLenAt(s', p)];
    }
  }

  /** Bytes from o on fix the entries from o on. */
  lemma {:induction false} SuffixKept(s: seq<byte>, s': seq<byte>, o: nat)
    requires |s| == |s'| && o <= |s| && s[o..] == s'[o..] && Tiled(s, o)
    ensures Tiled(s', o) && Entries(s', o) == Entries(s, o)
    decreases |s| - o
  {
    hide RecordOk; hide LenAt; hide Here;
    if o < |s| {
      RecordBounds(s, o);
      var q := o + LenAt(s, o);
      assert s[o..q] == s[o..][..q - o] && s'[o..q] == s'[o..][..q - o];
      SameRecord(s, s', o, q);
      assert s[q..] == s[o..][q - o..] && s'[q..] == s'[o..][q - o..];
      SuffixKept(s, s', q);
    }
  }

  lemma RecordBounds(s: seq<byte>, o: nat)
    requires RecordOk(s, o)
    ensures o + HEADER <= |s| && HEADER <= LenAt(s, o) && o + LenAt(s, o) <= |s|
  {
  }

  lemma {:induction false} ChainBounds(s: seq<byte>, p: nat, o: nat)
    requires Chain(s, p, o)
    ensures p <= o
  {
  }

  /** Changing a block only from boundary o on keeps the records before o. */
  lemma {:induction false} PrefixKept(s: seq<byte>, s': seq<byte>, p: nat, o: nat)
    requires |s| == |s'| && Chain(s, p, o) && o <= |s| && s[..o] == s'[..o] && Tiled(s', o)
    ensures Tiled(s', p) && Entries(s', p) == Between(s, p, o) + Entries(s', o)
    decreases |s| - p
  {
    hide RecordOk; hide LenAt; hide Here;
    if p < o {
      RecordBounds(s, p);
      var q := p + LenAt(s, p);
      ChainBounds(s, q, o);
      assert s[p..o] == s[..o][p..] && s'[p..o] == s'[..o][p..];
      SameRecord(s, s', p, o);
      PrefixKept(s, s', q, o);
    }
  }

  lemma Assoc(a: seq<Entry>, b: seq<Entry>, c: seq<Entry>)
    ensures a + (b + c) == a + b + c
  {
  }

  lemma EntriesStep(s: seq<byte>, o: nat)
    requires Tiled(s, o) && o < |s|
    ensures RecordOk(s, o) && Tiled(s, o + LenAt(s, o)) && Entries(s, o) == Here(s, o) + Entries(s, o + LenAt(s, o))
  {
  }

  lemma TiledStep(s: seq<byte>, o: nat)
    requires o < |s| && RecordOk(s, o) && Tiled(s, o + LenAt(s, o))
    ensures Tiled(s, o) && Entries(s, o) == Here(s, o) + Entries(s, o + LenAt(s, o))
  {
  }

  /** A boundary can be pushed past one more record. */
  lemma {:induction false} ChainStep(s: seq<byte>, p: nat, o: nat)
    requires Chain(s, p, o) && o < |s| && RecordOk(s, o)
    ensures Chain(s, p, o + LenAt(s, o)) && Between(s, p, o + LenAt(s, o)) == Between(s, p, o) + Here(s, o)
    decreases |s| - p
  {
    hide RecordOk; hide LenAt; hide Here;
    RecordBounds(s, o);
    if p < o {
      RecordBounds(s, p);
      var q := p + LenAt(s, p);
      ChainStep(s, q, o);
      ChainBounds(s, q, o);
      Assoc(Here(s, p), Between(s, q, o), Here(s, o));
    } else {
      assert Between(s, o + LenAt(s, o), o + LenAt(s, o)) == [];
    }
  }

  // ---------- editing one record ----------

  /** The four header fields and the name, as they are stored at the start of a record. */
  function RecordBytes(e: Entry, len: nat): (t: seq<byte>)
    requires e.ino < U32 && len < U16 && |e.name| < 256
    ensures |t| == HEADER + |e.name|
  {
    Le32(e.ino) + Le16(len) + [|e.name|, e.kind] + e.name
  }

  predicate EntryOk(e: Entry) {
    0 < e.ino < U32 && 0 < |e.name| < 256
  }

  function PutRecord(s: seq<byte>, o: nat, e: Entry, len: nat): (s': seq<byte>)
    requires EntryOk(e) && len < U16 && o + HEADER + |e.name| <= |s|
    ensures |s'| == |s|
  {
    Splice(s, o, RecordBytes(e, len))
  }

  lemma RecordBytesFields(e: Entry, len: nat)
    requires EntryOk(e) && len < U16
    ensures var t := RecordBytes(e, len);
      && t[0..4] == Le32(e.ino) && t[4..6] == Le16(len) && t[6] == |e.name| && t[7] == e.kind && t[8..] == e.name
  {
    hide Le32; hide Le16;
  }

  /** A stored record reads back as the entry, with the length it was given. */
  lemma PutRecordReads(s: seq<byte>, o: nat, e: Entry, len: nat)
    requires EntryOk(e) && len < U16 && MinSize(|e.name|) <= len && len % 4 == 0 && o + len <= |s|
    ensures var s' := PutRecord(s, o, e, len);
      && RecordOk(s', o) && LenAt(s', o) == len && Here(s', o) == [e]
      && s'[..o] == s[..o] && s'[o + len..] == s[o + len..]
  {
    hide Le32; hide Le16; hide RecordBytes;
    var s', t := PutRecord(s, o, e, len), RecordBytes(e, len);
    RecordBytesFields(e, len);
    assert s'[o..o + |t|] == t;
    assert s'[o..o + 4] == t[0..4];
    Le32RoundTrip(s', o, e.ino);
    assert s'[o + 4..o + 6] == t[4..6];
    Le16RoundTrip(s', o + 4, len);
    assert s'[o + 6] == t[6] && s'[o + 7] == t[7];
    assert s'[o + HEADER..o + HEADER + |e.name|] == t[8..];
  }

  /** An unused record with room takes the entry. */
  lemma ReuseRecord(s: seq<byte>, o: nat, e: Entry)
    requires |s| < U16 && o < |s| && Tiled(s, o) && RecordOk(s, o) && Tiled(s, o + LenAt(s, o)) && InoAt(s, o) == 0
    requires EntryOk(e) && MinSize(|e.name|) <= LenAt(s, o)
    ensures var s' := PutRecord(s, o, e, LenAt(s, o)); var rest := Entries(s, o + LenAt(s, o));
      && s'[..o] == s[..o] && Tiled(s', o) && Entries(s', o) == [e] + rest && Entries(s, o) == rest
  {
    hide MinSize; hide Tiled; hide Entries; hide PutRecord;
    EntriesStep(s, o);
    var len := LenAt(s, o);
    assert Here(s, o) == [];
    PutRecordReads(s, o, e, len);
    var s' := PutRecord(s, o, e, len);
    SuffixKept(s, s', o + len);
    TiledStep(s', o);
  }

  /** A new length is all that changes about a record. */
  lemma ResizeReads(s: seq<byte>, o: nat, len: nat)
    requires RecordOk(s, o) && HEADER <= len && len % 4 == 0 && o + len <= |s| && len < U16
    requires InoAt(s, o) != 0 ==> MinSize(NameLenAt(s, o)) <= len
    ensures var s' := Splice(s, o + 4, Le16(len));
      && RecordOk(s', o) && LenAt(s', o) == len && Here(s', o) == Here(s, o)
      && s'[..o] == s[..o] && s'[o + HEADER..] == s[o + HEADER..]
  {
    hide Le16;
    var s' := Splice(s, o + 4, Le16(len));
    Splice16(s, o + 4, len);
    assert InoAt(s', o) == InoAt(s, o) && NameLenAt(s', o) == NameLenAt(s, o);
    if InoAt(s, o) != 0 {
      assert s'[o + HEADER..o + HEADER + NameLenAt(s, o)] == s[o + HEADER..o + HEADER + NameLenAt(s, o)];
    }
  }

  /** The block after splitting the slack of the record at o into a new record. */
  function Split(s: seq<byte>, o: nat, e: Entry): (s': seq<byte>)
    requires RecordOk(s, o) && InoAt(s, o) != 0 && EntryOk(e)
    requires LenAt(s, o) >= MinSize(NameLenAt(s, o)) + MinSize(|e.name|)
    ensures |s'| == |s|
  {
    var used := MinSize(NameLenAt(s, o));
    PutRecord(Splice(s, o + 4, Le16(used)), o + used, e, LenAt(s, o) - used)
  }

  lemma FrontSlices(a: seq<byte>, b: seq<byte>, p: nat, o: nat)
    requires p <= o <= |a| == |b| && a[..o] == b[..o]
    ensures a[p..o] == b[p..o] && a[..p] == b[..p]
  {
    assert a[p..o] == a[..o][p..] && b[p..o] == b[..o][p..];
    assert a[..p] == a[..o][..p] && b[..p] == b[..o][..p];
  }

  lemma BackSlices(a: seq<byte>, b: seq<byte>, p: nat, o: nat)
    requires p <= o <= |a| == |b| && a[p..] == b[p..]
    ensures a[o..] == b[o..]
  {
    assert a[o..] == a[p..][o - p..] && b[o..] == b[p..][o - p..];
  }

  lemma FourApart(a: nat, b: nat)
    requires a % 4 == 0 && b % 4 == 0 && b <= a
    ensures (a - b) % 4 == 0
  {
  }

  lemma SplitReads(s: seq<byte>, o: nat, e: Entry)
    requires RecordOk(s, o) && InoAt(s, o) != 0 && EntryOk(e)
    requires LenAt(s, o) >= MinSize(NameLenAt(s, o)) + MinSize(|e.name|)
    ensures var s' := Split(s, o, e); var used := MinSize(NameLenAt(s, o)); var len := LenAt(s, o);
      && RecordOk(s', o) && LenAt(s', o) == used && Here(s', o) == Here(s, o)
      && RecordOk(s', o + used) && LenAt(s', o + used) == len - used && Here(s', o + used) == [e]
      && s'[..o] == s[..o] && s'[o + len..] == s[o + len..]
  {
    hide Le16; hide Here; hide PutRecord; hide Splice; hide MinSize; hide InoAt; hide NameLenAt;
    var used, len := MinSize(NameLenAt(s, o)), LenAt(s, o);
    FourApart(len, used);
    var s1 := Splice(s, o + 4, Le16(used));
    ResizeReads(s, o, used);
    PutRecordReads(s1, o + used, e, len - used);
    var s' := Split(s, o, e);
    FrontSlices(s1, s', o, o + used);
    SameRecord(s1, s', o, o + used);
    BackSlices(s, s1, o + HEADER, o + len);
  }

  lemma SplitRecord(s: seq<byte>, o: nat, e: Entry)
    requires |s| < U16 && o < |s| && Tiled(s, o) && RecordOk(s, o) && Tiled(s, o + LenAt(s, o)) && InoAt(s, o) != 0
    requires EntryOk(e) && LenAt(s, o) >= MinSize(NameLenAt(s, o)) + MinSize(|e.name|)
    ensures var s' := Split(s, o, e); var rest := Entries(s, o + LenAt(s, o));
      && s'[..o] == s[..o] && Tiled(s', o) && Entries(s', o) == Here(s, o) + ([e] + rest)
      && Entries(s, o) == Here(s, o) + rest
  {
    hide MinSize; hide Here; hide Split; hide LenAt; hide InoAt; hide NameLenAt; hide Tiled; hide Entries;
    EntriesStep(s, o);
    var used, len := MinSize(NameLenAt(s, o)), LenAt(s, o);
    SplitReads(s, o, e);
    var s' := Split(s, o, e);
    SuffixKept(s, s', o + len);
    TiledStep(s', o + used);
    TiledStep(s', o);
  }

  /** Growing the record at q over the record behind it drops the latter's entry. */
  lemma MergeRecord(s: seq<byte>, q: nat, o: nat)
    requires |s| < U16 && q < |s| && RecordOk(s, q) && o == q + LenAt(s, q) && o < |s| && RecordOk(s, o)
    requires Tiled(s, q) && Tiled(s, o) && Tiled(s, o + LenAt(s, o))
    ensures LenAt(s, q) + LenAt(s, o) < U16
    ensures var s' := Splice(s, q + 4, Le16(LenAt(s, q) + LenAt(s, o)));
      var rest := Entries(s, o + LenAt(s, o));
      && s'[..q] == s[..q] && Tiled(s', q) && Entries(s', q) == Here(s, q) + rest
      && Entries(s, q) == Here(s, q) + (Here(s, o) + rest)
  {
    hide MinSize; hide Here; hide LenAt; hide Splice; hide Le16; hide Tiled; hide Entries; hide RecordOk;
    EntriesStep(s, q);
    EntriesStep(s, o);
    RecordBounds(s, q);
    RecordBounds(s, o);
    var len := LenAt(s, q) + LenAt(s, o);
    MergedLength(s, q);
    ResizeReads(s, q, len);
    var s' := Splice(s, q + 4, Le16(len));
    assert s'[q + len..] == s'[q + HEADER..][len - HEADER..] && s[q + len..] == s[q + HEADER..][len - HEADER..];
    SuffixKept(s, s', q + len);
    TiledStep(s', q);
  }

  lemma MergedLength(s: seq<byte>, q: nat)
    requires RecordOk(s, q) && q + LenAt(s, q) < |s| && RecordOk(s, q + LenAt(s, q))
    ensures var len := LenAt(s, q) + LenAt(s, q + LenAt(s, q));
      && len % 4 == 0 && (InoAt(s, q) != 0 ==> MinSize(NameLenAt(s, q)) <= len)
  {
    hide MinSize; hide InoAt; hide NameLenAt; hide Get16;
    FourTogether(LenAt(s, q), LenAt(s, q + LenAt(s, q)));
  }

  lemma FourTogether(a: nat, b: nat)
    requires a % 4 == 0 && b % 4 == 0
    ensures (a + b) % 4 == 0
  {
  }

  /** Clearing the inode of the first record drops its entry. */
  lemma ClearFirst(s: seq<byte>)
    requires Tiled(s, 0) && 0 < |s|
    ensures var s' := Splice(s, 0, Le32(0));
      && Tiled(s', 0) && Entries(s', 0) == Entries(s, LenAt(s, 0))
      && Entries(s, 0) == Here(s, 0) + Entries(s, LenAt(s, 0))
  {
    hide MinSize; hide Tiled; hide Entries; hide Le32;
    EntriesStep(s, 0);
    var s' := Splice(s, 0, Le32(0));
    Splice32(s, 0, 0);
    assert InoAt(s', 0) == 0 && LenAt(s', 0) == LenAt(s, 0);
    var q := LenAt(s, 0);
    assert s'[q..] == s[q..];
    SuffixKept(s, s', q);
    TiledStep(s', 0);
  }

  /** insertDirEntry's new block: one record over all of it. */
  lemma OneRecord(bs: nat, e: Entry)
    requires HEADER + 256 <= bs < U16 && bs % 4 == 0 && EntryOk(e)
    ensures var s := PutRecord(Zeros(bs), 0, e, bs); Tiled(s, 0) && Entries(s, 0) == [e]
  {
    hide PutRecord; hide LenAt; hide Here;
    PutRecordReads(Zeros(bs), 0, e, bs);
    var s := PutRecord(Zeros(bs), 0, e, bs);
    assert Tiled(s, bs) && Entries(s, bs) == [];
  }

  const DOT: Name := [46]
  const DOTDOT: Name := [46, 46]
  const FT_REG: byte := 1
  const FT_DIR: byte := 2

  /** create's first block of a directory. */
  function DotBlock(bs: nat, self: nat, parent: nat): (s: seq<byte>)
    requires HEADER + 256 <= bs < U16 && 0 < self < U32 && 0 < parent < U32
    ensures |s| == bs
  {
    PutRecord(PutRecord(Zeros(bs), 0, Entry(DOT, self, FT_DIR), 12), 12, Entry(DOTDOT, parent, FT_DIR), bs - 12)
  }

  lemma DotBlockEntries(bs: nat, self: nat, parent: nat)
    requires HEADER + 256 <= bs < U16 && bs % 4 == 0 && 0 < self < U32 && 0 < parent < U32
    ensures var s := DotBlock(bs, self, parent);
      Tiled(s, 0) && Entries(s, 0) == [Entry(DOT, self, FT_DIR), Entry(DOTDOT, parent, FT_DIR)]
  {
    hide PutRecord; hide LenAt; hide Here; hide Tiled; hide Entries; hide RecordOk;
    var e, f := Entry(DOT, self, FT_DIR), Entry(DOTDOT, parent, FT_DIR);
    assert MinSize(1) == 12 && MinSize(2) == 12;
    PutRecordReads(Zeros(bs), 0, e, 12);
    var s1 := PutRecord(Zeros(bs), 0, e, 12);
    PutRecordReads(s1, 12, f, bs - 12);
    var s := DotBlock(bs, self, parent);
    assert s1[0..12] == s1[..12] && s[0..12] == s[..12];
    SameRecord(s1, s, 0, 12);
    EndOfBlock(s);
    TiledStep(s, 12);
    TiledStep(s, 0);
  }

  lemma EndOfBlock(s: seq<byte>)
    ensures Tiled(s, |s|) && Entries(s, |s|) == []
  {
  }

  // ---------- what the edits mean for the list of entries ----------

  /** The inode of the first entry with this name, or 0. */
  function Find(es: seq<Entry>, name: Name): (ino: nat) {
    if es == [] then 0 else if es[0].name == name then es[0].ino else Find(es[1..], name)
  }

  ghost predicate NoName(es: seq<Entry>, name: Name) {
    forall k :: 0 <= k < |es| ==> es[k].name != name
  }

  ghost predicate Inserted(es: seq<Entry>, es': seq<Entry>, e: Entry) {
    exists k :: 0 <= k <= |es| && es' == InsertAt(es, k, e)
  }

  function InsertAt(es: seq<Entry>, k: nat, e: Entry): seq<Entry>
    requires k <= |es|
  {
    es[..k] + [e] + es[k..]
  }

  /** The first entry with this name goes away. */
  ghost predicate Removed(es: seq<Entry>, es': seq<Entry>, name: Name) {
    exists k :: 0 <= k < |es| && es[k].name == name && NoName(es[..k], name) && es' == RemoveAt(es, k)
  }

  function RemoveAt(es: seq<Entry>, k: nat): seq<Entry>
    requires k < |es|
  {
    es[..k] + es[k + 1..]
  }

  lemma InsertedBetween(a: seq<Entry>, h: seq<Entry>, e: Entry, rest: seq<Entry>)
    ensures Inserted(a + (h + rest), a + (h + ([e] + rest)), e)
  {
    Regroup(a, h, rest);
    Regroup(a, h, [e] + rest);
    InsertedAfter(a + h, e, rest);
  }

  lemma Regroup(a: seq<Entry>, b: seq<Entry>, c: seq<Entry>)
    ensures a + (b + c) == a + b + c
  {
  }

  lemma InsertedAfter(a: seq<Entry>, e: Entry, rest: seq<Entry>)
    ensures Inserted(a + rest, a + ([e] + rest), e)
  {
    var es := a + rest;
    assert es[..|a|] == a && es[|a|..] == rest;
    Regroup(a, [e], rest);
    assert InsertAt(es, |a|, e) == a + [e] + rest;
  }

  lemma RemovedBetween(a: seq<Entry>, h: seq<Entry>, e: Entry, rest: seq<Entry>)
    requires NoName(a + h, e.name)
    ensures Removed(a + (h + ([e] + rest)), a + (h + rest), e.name)
  {
    Regroup(a, h, rest);
    Regroup(a, h, [e] + rest);
    RemovedAfter(a + h, e, rest);
  }

  lemma RemovedAfter(a: seq<Entry>, e: Entry, rest: seq<Entry>)
    requires NoName(a, e.name)
    ensures Removed(a + ([e] + rest), a + rest, e.name)
  {
    var es, k := a + ([e] + rest), |a|;
    assert es[..k] == a && es[k] == e && es[k + 1..] == rest;
    assert RemoveAt(es, k) == a + rest;
  }

  lemma {:induction false} FindConcat(a: seq<Entry>, b: seq<Entry>, name: Name)
    requires NoName(a, name)
    ensures Find(a + b, name) == Find(b, name)
  {
    if a == [] {
      assert a + b == b;
    } else {
      assert (a + b)[1..] == a[1..] + b;
      assert a[0].name != name;
      FindConcat(a[1..], b, name);
    }
  }

  lemma {:induction false} FindNone(es: seq<Entry>, name: Name)
    requires NoName(es, name)
    ensures Find(es, name) == 0
  {
    if es != [] { FindNone(es[1..], name); }
  }

  // ---------- scanning a block ----------

  /** The scan stands at boundary o: what lies before and behind it makes up the block. */
  ghost predicate ScanAt(s: seq<byte>, o: nat) {
    && o <= |s| && Chain(s, 0, o) && Tiled(s, o) && Tiled(s, 0)
    && Entries(s, 0) == Between(s, 0, o) + Entries(s, o)
  }

  lemma ScanStarts(s: seq<byte>)
    requires Tiled(s, 0)
    ensures ScanAt(s, 0) && Between(s, 0, 0) == []
  {
  }

  lemma ScanAdvances(s: seq<byte>, o: nat)
    requires ScanAt(s, o) && o < |s|
    ensures RecordOk(s, o) && Tiled(s, o + LenAt(s, o))
    ensures ScanAt(s, o + LenAt(s, o))
    ensures Between(s, 0, o + LenAt(s, o)) == Between(s, 0, o) + Here(s, o)
  {
    hide Tiled; hide Chain; hide Between; hide Entries; hide RecordOk; hide LenAt; hide Here;
    EntriesStep(s, o);
    RecordBounds(s, o);
    ChainStep(s, 0, o);
    Assoc(Between(s, 0, o), Here(s, o), Entries(s, o + LenAt(s, o)));
  }

  lemma ScanEnds(s: seq<byte>)
    requires ScanAt(s, |s|)
    ensures Entries(s, 0) == Between(s, 0, |s|)
  {
  }

  /** entry->name_len == name_len and strncmp agrees. */
  predicate Matches(s: seq<byte>, o: nat, name: Name)
    requires RecordOk(s, o)
  {
    InoAt(s, o) != 0 && NameLenAt(s, o) == |name| && s[o + HEADER..o + HEADER + |name|] == name
  }

  lemma MatchesHere(s: seq<byte>, o: nat, name: Name)
    requires RecordOk(s, o)
    ensures Matches(s, o, name) ==> Here(s, o) == [EntryAt(s, o)] && EntryAt(s, o).name == name
    ensures !Matches(s, o, name) ==> NoName(Here(s, o), name)
  {
  }

  lemma NoNameConcat(a: seq<Entry>, b: seq<Entry>, name: Name)
    ensures NoName(a + b, name) <==> NoName(a, name) && NoName(b, name)
  {
    if NoName(a + b, name) {
      forall k | 0 <= k < |a| ensures a[k].name != name { assert (a + b)[k] == a[k]; }
      forall k | 0 <= k < |b| ensures b[k].name != name { assert (a + b)[|a| + k] == b[k]; }
    }
  }

  method LookupInBlock(s: seq<byte>, name: Name) returns (r: nat)
    requires Tiled(s, 0)
    ensures r == Find(Entries(s, 0), name)
    ensures r == 0 <==> NoName(Entries(s, 0), name)
  {
    hide Tiled; hide Chain; hide Between; hide Entries; hide Find; hide NoName; hide Here; hide Matches;
    hide RecordOk; hide LenAt;
    var o := 0;
    ScanStarts(s);
    EmptyNoName(name);
    while o < |s|
      invariant o <= |s| && ScanAt(s, o)
      invariant NoName(Between(s, 0, o), name)
    {
      ScanAdvances(s, o);
      MatchesHere(s, o, name);
      RecordBounds(s, o);
      if Matches(s, o, name) {
        r := InoAt(s, o);
        FoundAt(s, o, name);
        return;
      }
      NoNameConcat(Between(s, 0, o), Here(s, o), name);
      o := o + LenAt(s, o);
    }
    ScanEnds(s);
    FindNone(Entries(s, 0), name);
    r := 0;
  }

  lemma EmptyNoName(name: Name)
    ensures NoName([], name)
  {
  }

  lemma FoundAt(s: seq<byte>, o: nat, name: Name)
    requires ScanAt(s, o) && o < |s| && RecordOk(s, o) && Matches(s, o, name) && NoName(Between(s, 0, o), name)
    ensures Find(Entries(s, 0), name) == InoAt(s, o) != 0
    ensures !NoName(Entries(s, 0), name)
  {
    hide Chain; hide Between; hide RecordOk; hide LenAt;
    RecordBounds(s, o);
    var es, rest := Entries(s, o), Entries(s, o + LenAt(s, o));
    assert es == Here(s, o) + rest;
    MatchesHere(s, o, name);
    FindConcat(Between(s, 0, o), es, name);
    NoNameConcat(Between(s, 0, o), es, name);
    assert es[0].name == name;
  }

  /** Bytes of the record at o that its own entry does not need. */
  function Slack(s: seq<byte>, o: nat): (r: nat)
    requires RecordOk(s, o)
  {
    LenAt(s, o) - (if InoAt(s, o) == 0 then 0 else MinSize(NameLenAt(s, o)))
  }

  /** No record from o on can take needed more bytes. */
  predicate Crowded(s: seq<byte>, o: nat, needed: nat)
    requires Tiled(s, o)
    decreases |s| - o
  {
    o == |s| || (Slack(s, o) < needed && Crowded(s, o + LenAt(s, o), needed))
  }

  lemma CrowdedStep(s: seq<byte>, o: nat, needed: nat)
    requires Tiled(s, o) && o < |s| && RecordOk(s, o) && Tiled(s, o + LenAt(s, o))
    ensures Crowded(s, o, needed) <==> Slack(s, o) < needed && Crowded(s, o + LenAt(s, o), needed)
  {
  }

  /** The block with e stored in the record at o, which has room for it. */
  function StoreAt(s: seq<byte>, o: nat, e: Entry): (s': seq<byte>)
    requires RecordOk(s, o) && EntryOk(e) && MinSize(|e.name|) <= Slack(s, o)
    ensures |s'| == |s|
  {
    if InoAt(s, o) == 0 then PutRecord(s, o, e, LenAt(s, o)) else Split(s, o, e)
  }

  lemma StoreInserts(s: seq<byte>, o: nat, e: Entry)
    requires |s| < U16 && ScanAt(s, o) && o < |s| && RecordOk(s, o) && Tiled(s, o + LenAt(s, o))
    requires EntryOk(e) && MinSize(|e.name|) <= Slack(s, o)
    ensures var s' := StoreAt(s, o, e); Tiled(s', 0) && Inserted(Entries(s, 0), Entries(s', 0), e)
  {
    hide Tiled; hide Chain; hide Between; hide Entries; hide PutRecord; hide Split; hide Inserted; hide MinSize;
    hide RecordOk; hide LenAt; hide NameLenAt; hide InoAt; hide EntryAt;
    RecordBounds(s, o);
    var s', rest := StoreAt(s, o, e), Entries(s, o + LenAt(s, o));
    if InoAt(s, o) == 0 {
      ReuseRecord(s, o, e);
      PrefixKept(s, s', 0, o);
      InsertedBetween(Between(s, 0, o), [], e, rest);
      assert [] + rest == rest && [] + ([e] + rest) == [e] + rest;
    } else {
      SplitRecord(s, o, e);
      PrefixKept(s, s', 0, o);
      InsertedBetween(Between(s, 0, o), Here(s, o), e, rest);
    }
  }

  /** insertDirEntry's scan of one block: the entry goes into the first record with room. */
  method InsertInBlock(s: seq<byte>, e: Entry) returns (done: bool, s': seq<byte>)
    requires |s| < U16 && Tiled(s, 0) && EntryOk(e)
    ensures |s'| == |s|
    ensures done ==> Tiled(s', 0) && Inserted(Entries(s, 0), Entries(s', 0), e)
    ensures done <==> !Crowded(s, 0, MinSize(|e.name|))
    ensures !done ==> s' == s
  {
    hide Tiled; hide Chain; hide Between; hide Entries; hide Crowded; hide Slack; hide Inserted; hide StoreAt;
    hide MinSize; hide RecordOk; hide LenAt; hide Here; hide EntryOk;
    var needed := MinSize(|e.name|);
    var o := 0;
    ScanStarts(s);
    while o < |s|
      invariant o <= |s| && ScanAt(s, o)
      invariant Crowded(s, 0, needed) <==> Crowded(s, o, needed)
    {
      ScanAdvances(s, o);
      RecordBounds(s, o);
      CrowdedStep(s, o, needed);
      if Slack(s, o) >= needed {
        StoreInserts(s, o, e);
        return true, StoreAt(s, o, e);
      }
      o := o + LenAt(s, o);
    }
    CrowdedEnd(s, needed);
    return false, s;
  }

  lemma CrowdedEnd(s: seq<byte>, needed: nat)
    ensures Tiled(s, |s|) && Crowded(s, |s|, needed)
  {
  }

  /** Dropping the matching record at o, whose predecessor is the record at q. */
  lemma MergeRemoves(s: seq<byte>, q: nat, o: nat, name: Name)
    requires |s| < U16 && ScanAt(s, q) && q < |s| && RecordOk(s, q) && o == q + LenAt(s, q)
    requires o < |s| && Tiled(s, o) && RecordOk(s, o) && Tiled(s, o + LenAt(s, o))
    requires Matches(s, o, name) && NoName(Between(s, 0, q) + Here(s, q), name)
    ensures LenAt(s, q) + LenAt(s, o) < U16
    ensures var s' := Splice(s, q + 4, Le16(LenAt(s, q) + LenAt(s, o)));
      Tiled(s', 0) && Removed(Entries(s, 0), Entries(s', 0), name)
  {
    hide Tiled; hide Chain; hide Between; hide Entries; hide Removed; hide Splice; hide Le16; hide NoName;
    hide MinSize; hide RecordOk; hide LenAt; hide Here; hide Matches;
    RecordBounds(s, q);
    RecordBounds(s, o);
    var s' := Splice(s, q + 4, Le16(LenAt(s, q) + LenAt(s, o)));
    MergeRecord(s, q, o);
    PrefixKept(s, s', 0, q);
    MatchesUsed(s, o, name);
    MatchesHere(s, o, name);
    RemovedBetween(Between(s, 0, q), Here(s, q), EntryAt(s, o), Entries(s, o + LenAt(s, o)));
  }

  lemma MatchesUsed(s: seq<byte>, o: nat, name: Name)
    requires RecordOk(s, o) && Matches(s, o, name)
    ensures InoAt(s, o) != 0
  {
  }

  lemma ClearRemoves(s: seq<byte>, name: Name)
    requires Tiled(s, 0) && 0 < |s| && RecordOk(s, 0) && Matches(s, 0, name)
    ensures var s' := Splice(s, 0, Le32(0)); Tiled(s', 0) && Removed(Entries(s, 0), Entries(s', 0), name)
  {
    hide Chain; hide Between; hide Entries; hide Removed; hide Splice; hide Le32; hide MinSize; hide LenAt;
    hide Here; hide Matches;
    ClearFirst(s);
    MatchesUsed(s, 0, name);
    MatchesHere(s, 0, name);
    var rest := Entries(s, LenAt(s, 0));
    RemovedBetween([], [], EntryAt(s, 0), rest);
    assert [] + ([] + rest) == rest && [] + ([] + ([EntryAt(s, 0)] + rest)) == [EntryAt(s, 0)] + rest;
  }

  /** removeDirEntry's scan of one block. */
  method RemoveInBlock(s: seq<byte>, name: Name) returns (done: bool, s': seq<byte>)
    requires |s| < U16 && Tiled(s, 0)
    ensures |s'| == |s|
    ensures done ==> Tiled(s', 0) && Removed(Entries(s, 0), Entries(s', 0), name)
    ensures done <==> !NoName(Entries(s, 0), name)
    ensures !done ==> s' == s
  {
    hide Tiled; hide Chain; hide Between; hide Entries; hide Removed; hide Splice; hide Le16; hide Le32;
    hide MinSize; hide RecordOk; hide LenAt; hide Here; hide NoName; hide Matches;
    var o: nat, prev: nat, hasPrev := 0, 0, false;
    ScanStarts(s);
    EmptyNoName(name);
    while o < |s|
      invariant o <= |s| && ScanAt(s, o) && NoName(Between(s, 0, o), name)
      invariant hasPrev ==> PrevOk(s, prev, o)
      invariant !hasPrev ==> o == 0
    {
      ScanAdvances(s, o);
      RecordBounds(s, o);
      MatchesHere(s, o, name);
      if Matches(s, o, name) {
        FoundAt(s, o, name);
        if hasPrev {
          PrevAt(s, prev, o);
          MergeRemoves(s, prev, o, name);
          return true, Splice(s, prev + 4, Le16(LenAt(s, prev) + LenAt(s, o)));
        }
        ClearRemoves(s, name);
        return true, Splice(s, 0, Le32(0));
      }
      NoNameConcat(Between(s, 0, o), Here(s, o), name);
      prev, hasPrev := o, true;
      o := o + LenAt(s, o);
    }
    ScanEnds(s);
    return false, s;
  }

  /** prev is the record right before boundary o. */
  ghost predicate PrevOk(s: seq<byte>, prev: nat, o: nat) {
    && ScanAt(s, prev) && prev < |s| && RecordOk(s, prev) && o == prev + LenAt(s, prev)
    && Chain(s, 0, o) && Between(s, 0, o) == Between(s, 0, prev) + Here(s, prev)
  }

  lemma PrevAt(s: seq<byte>, prev: nat, o: nat)
    requires PrevOk(s, prev, o)
    ensures ScanAt(s, prev) && prev < |s| && RecordOk(s, prev) && prev + HEADER <= |s| && o == prev + LenAt(s, prev)
  {
    hide Tiled; hide Chain; hide Entries; hide Between; hide LenAt;
  }
}
