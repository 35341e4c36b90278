/**
 A reopened log is appended to behind whatever the crash left. What becomes of the entry, for every
 cut of the record before it.
 */
module WalTearing {
  import opened Bytes
  import opened RecordIO
  import opened WalModel
  import opened WalReading
  import opened WalRecovery

  // ---- rolling and flushing do not change what is read ----

  /** Only the index and the bytes matter to a read. */
  predicate ReadAlike(a: Segment, b: Segment) {
    a.endSeq == b.endSeq && a.file.bytes == b.file.bytes
  }

  lemma {:induction false} SameReads(c: Codec, a: seq<Segment>, b: seq<Segment>, f: nat, m: int, out: seq<Entry>)
    requires |a| == |b| && forall i :: 0 <= i < |a| ==> ReadAlike(a[i], b[i])
    ensures ReadSegments(c, a, f, m, out) == ReadSegments(c, b, f, m, out)
    decreases |a|
  {
    if a != [] {
      assert ReadAlike(a[0], b[0]);
      var out' := if Skips(a[0], f) then out else ReadFile(c, a[0].file.bytes, f, m, out);
      SameReads(c, a[1..], b[1..], f, m, out');
    }
  }

  /** Scanning these bytes for seqs from `f` on finds nothing. */
  ghost predicate HasNothing(c: Codec, bytes: Bytes, f: nat, m: int) {
    forall out :: |out| < m ==> ReadFile(c, bytes, f, m, out) == out
  }

  lemma EmptyHasNothing(c: Codec, f: nat, m: int, out: seq<Entry>)
    ensures ReadFile(c, [], f, m, out) == out
  {
  }

  /** The last segment is sealed, and an empty one follows. */
  lemma {:induction false} SealedReads(c: Codec, a: seq<Segment>, s: Segment, s': Segment, new': Segment, f: nat, m: int, out: seq<Entry>)
    requires s.endSeq == 0 && s'.file.bytes == s.file.bytes && new'.endSeq == 0 && new'.file.bytes == []
    requires |out| < m && (Skips(s', f) ==> HasNothing(c, s.file.bytes, f, m))
    ensures ReadSegments(c, a + [s', new'], f, m, out) == ReadSegments(c, a + [s], f, m, out)
    decreases |a|
  {
    var segs, segs' := a + [s], a + [s', new'];
    if a == [] {
      assert segs[1..] == [] && segs'[1..] == [new'] && [new'][1..] == [];
      var out' := ReadFile(c, s.file.bytes, f, m, out);
      EmptyHasNothing(c, f, m, out');
    } else {
      assert segs[1..] == a[1..] + [s] && segs'[1..] == a[1..] + [s', new'];
      var out' := if Skips(a[0], f) then out else ReadFile(c, a[0].file.bytes, f, m, out);
      if |out'| < m {
        SealedReads(c, a[1..], s, s', new', f, m, out');
      }
    }
  }

  lemma {:induction false} RollReads(c: Codec, w: Log, f: nat, m: int)
    requires w.segments != [] && Last(w.segments).endSeq == 0 && m > 0
    requires w.nextSeq <= f ==> HasNothing(c, Last(w.segments).file.bytes, f, m)
    ensures ReadSegments(c, Roll(w).segments, f, m, []) == ReadSegments(c, w.segments, f, m, [])
  {
    var s := Last(w.segments);
    var s' := Synced(s).(endSeq := Max(w.nextSeq - 1, 0));
    var new' := Segment(w.nextSeq, 0, 0, File([], 0));
    var a := w.segments[..|w.segments| - 1];
    assert a + [s] == w.segments && a + [s'] + [new'] == a + [s', new'];
    SealedReads(c, a, s, s', new', f, m, []);
  }

  /** So what Append does behind the write does not change a read either. */
  lemma {:induction false} FinishReads(c: Codec, w: Log, f: nat, m: int)
    requires w.segments != [] && Last(w.segments).endSeq == 0 && m > 0
    requires w.nextSeq <= f ==> HasNothing(c, Last(w.segments).file.bytes, f, m)
    ensures ReadSegments(c, Finish(w).segments, f, m, []) == ReadSegments(c, w.segments, f, m, [])
  {
    RollReads(c, w, f, m);
    SameReads(c, Finish(w).segments, RollIfFull(w).segments, f, m, []);
  }

  // ---- the file behind the torn record ----

  /** The record that an append writes. */
  function Added(c: Codec, w: Log, e: Entry): Bytes {
    Frame(c.crc, c.marshal(e.(seqId := w.nextSeq)))
  }

  /** The log as files and index have it, whatever its next seq; there is a file to append to. */
  predicate Holds(c: Codec, w: Log, h: seq<Entry>, tail: Bytes) {
    w.segments != [] && Layout(c, Ids(w), Files(w), h, tail) && Indexed(w.segments)
  }

  /** Bytes behind a torn tail that hold no record only make the tail longer. */
  lemma {:induction false} LayoutBehindTorn(c: Codec, ids: seq<nat>, files: seq<Bytes>, h: seq<Entry>, tail: Bytes, more: Bytes)
    requires Layout(c, ids, files, h, tail) && ids != [] && Inert(c.crc, tail + more)
    ensures Layout(c, ids, SetLast(files, Last(files) + more), h, tail + more)
  {
    forall i | 0 <= i < |ids|
      ensures SetLast(files, Last(files) + more)[i] == Content(c, ids, h, tail + more, i)
    {
      assert files[i] == Content(c, ids, h, tail, i);
      Assoc(Encode(c, Part(ids, h, i)), tail, more);
    }
  }

  lemma {:induction false} WriteIsSwallowed(c: Codec, w: Log, h: seq<Entry>, tail: Bytes, e: Entry, f: nat, m: int)
    requires Holds(c, w, h, tail) && m > 0 && Inert(c.crc, tail + Added(c, w, e))
    ensures ReadSegments(c, Write(c, w, e).segments, f, m, []) == Query(h, f, m)
  {
    var more := Added(c, w, e);
    LayoutBehindTorn(c, Ids(w), Files(w), h, tail, more);
    var v := Write(c, w, e).(nextSeq := |h| + 1);
    assert Ids(v) == Ids(w);
    assert Files(v) == SetLast(Files(w), Last(Files(w)) + more);
    ReadAgreesWithHistory(c, v, h, tail + more, f, m);
  }

  /** What the newest file holds after the write. */
  lemma {:induction false} FileBehindTorn(c: Codec, w: Log, h: seq<Entry>, tail: Bytes, e: Entry)
    requires Holds(c, w, h, tail)
    ensures Last(Write(c, w, e).segments).file.bytes ==
            Encode(c, Part(Ids(w), h, |w.segments| - 1)) + (tail + Added(c, w, e))
  {
    var z := |w.segments| - 1;
    assert Files(w)[z] == Content(c, Ids(w), h, tail, z);
    Assoc(Encode(c, Part(Ids(w), h, z)), tail, Added(c, w, e));
  }

  lemma {:induction false} SwallowedHasNothing(c: Codec, w: Log, h: seq<Entry>, tail: Bytes, e: Entry, f: nat, m: int)
    requires Holds(c, w, h, tail) && Inert(c.crc, tail + Added(c, w, e))
    requires |h| < f || Part(Ids(w), h, |w.segments| - 1) == []
    ensures HasNothing(c, Last(Write(c, w, e).segments).file.bytes, f, m)
  {
    var ids, z := Ids(w), |w.segments| - 1;
    PartBounds(ids, h, z);
    var part := Part(ids, h, z);
    FileBehindTorn(c, w, h, tail, e);
    AtLeastNone(part, f);
    forall out: seq<Entry> | |out| < m
      ensures ReadFile(c, Last(Write(c, w, e).segments).file.bytes, f, m, out) == out
    {
      FileReads(c, part, tail + Added(c, w, e), f, m, out);
    }
  }

  /** The bytes of a file do not change once its segment is sealed and another one is started. */
  lemma {:induction false} AppendedFile(c: Codec, w: Log, e: Entry)
    requires w.segments != []
    ensures var z := |w.segments| - 1;
            && z < |AppendLog(c, w, e).segments|
            && Files(AppendLog(c, w, e))[z] == Last(Write(c, w, e).segments).file.bytes
  {
  }

  // ---- exactly what becomes of the entry ----

  /**
   The log ends in the first `k` bytes of a record for `torn`. Its next seq is right if the newest file
   has a record to tell it by; if not, numbering may have restarted.
   */
  predicate EndsTorn(c: Codec, w: Log, h: seq<Entry>, torn: Bytes, k: nat) {
    && Fits(torn) && 0 < k < |Frame(c.crc, torn)|
    && Holds(c, w, h, Frame(c.crc, torn)[..k])
    && (Part(Ids(w), h, |w.segments| - 1) == [] || w.nextSeq == |h| + 1)
  }

  function Size(c: Codec, w: Log, e: Entry): nat {
    |c.marshal(e.(seqId := w.nextSeq))|
  }

  /** The append completes the torn record, and the checksum of the mixture happens to be right. */
  predicate Mixes(c: Codec, w: Log, torn: Bytes, k: nat, e: Entry)
    requires k <= |Frame(c.crc, torn)|
  {
    && !StaysShort(|torn|, k, Size(c, w, e), 0)
    && Coincides(c.crc, |torn|, k, Size(c, w, e), Frame(c.crc, torn)[..k] + Added(c, w, e))
  }

  lemma BehindTorn(c: Codec, w: Log, torn: Bytes, k: nat, e: Entry)
    requires Fits(torn) && 0 < k < |Frame(c.crc, torn)|
    ensures var s := Frame(c.crc, torn)[..k] + Added(c, w, e);
            var l := TornLength(|torn|, k, Size(c, w, e));
            var mixed := Mixed(|torn|, k, Size(c, w, e), s);
            && (Inert(c.crc, s) <==> StaysShort(|torn|, k, Size(c, w, e), 0))
            && (ParseRecord(c.crc, s).Record? <==> Mixes(c, w, torn, k, e))
            && (ParseRecord(c.crc, s).Record? ==> l <= |mixed| && ParseRecord(c.crc, s).body == mixed[..l])
  {
    BehindTornExact(c.crc, torn, k, c.marshal(e.(seqId := w.nextSeq)), []);
    assert Added(c, w, e) + [] == Added(c, w, e);
  }

  /**
   As long as the torn record is short even with the new one behind it, which is a matter of cut and
   lengths, the append succeeds and takes a seq, rolls or not, but a read does not return the entry.
   */
  lemma {:induction false} TornTailSwallowsAppend(c: Codec, w: Log, h: seq<Entry>, torn: Bytes, k: nat, e: Entry, f: nat, m: int)
    requires EndsTorn(c, w, h, torn, k) && m > 0 && StaysShort(|torn|, k, Size(c, w, e), 0)
    ensures ReadSegments(c, AppendLog(c, w, e).segments, f, m, []) == Query(h, f, m)
    ensures AppendLog(c, w, e).nextSeq == w.nextSeq + 1
  {
    BehindTorn(c, w, torn, k, e);
    AppendIsSwallowed(c, w, h, Frame(c.crc, torn)[..k], e, f, m);
    AppendCounts(c, w, e);
  }

  lemma {:induction false} AppendIsSwallowed(c: Codec, w: Log, h: seq<Entry>, tail: Bytes, e: Entry, f: nat, m: int)
    requires Holds(c, w, h, tail) && m > 0 && Inert(c.crc, tail + Added(c, w, e))
    requires Part(Ids(w), h, |w.segments| - 1) == [] || w.nextSeq == |h| + 1
    ensures ReadSegments(c, AppendLog(c, w, e).segments, f, m, []) == Query(h, f, m)
  {
    WriteIsSwallowed(c, w, h, tail, e, f, m);
    if w.nextSeq + 1 <= f {
      SwallowedHasNothing(c, w, h, tail, e, f, m);
    }
    WrittenLast(c, w, e);
    FinishReads(c, Write(c, w, e), f, m);
  }

  lemma WrittenLast(c: Codec, w: Log, e: Entry)
    requires w.segments != []
    ensures var w' := Write(c, w, e);
            w'.segments != [] && Last(w'.segments).endSeq == Last(w.segments).endSeq && w'.nextSeq == w.nextSeq + 1
  {
  }

  lemma AppendCounts(c: Codec, w: Log, e: Entry)
    ensures AppendLog(c, w, e).nextSeq == w.nextSeq + 1
  {
  }

  // ---- any number of appends ----

  /** The records that these appends write, if none of them rolls. */
  function AddedAll(c: Codec, nextSeq: nat, ops: seq<Op>): Bytes
    decreases |ops|
  {
    if ops == [] then []
    else
      match ops[0]
      case Append(e) => Frame(c.crc, c.marshal(e.(seqId := nextSeq))) + AddedAll(c, nextSeq + 1, ops[1..])
      case Tick => AddedAll(c, nextSeq, ops[1..])
  }

  /** The same segments, with `more` bytes behind the last. */
  predicate Extended(a: seq<Segment>, b: seq<Segment>, more: Bytes) {
    && a != [] && |b| == |a| && b[..|a| - 1] == a[..|a| - 1]
    && Last(b).id == Last(a).id && Last(b).endSeq == Last(a).endSeq
    && Last(b).file.bytes == Last(a).file.bytes + more
    && (Last(a).file.synced <= |Last(a).file.bytes| ==> Last(b).file.synced <= |Last(b).file.bytes|)
  }

  lemma ExtendedTwice(a: seq<Segment>, b: seq<Segment>, d: seq<Segment>, x: Bytes, y: Bytes)
    requires Extended(a, b, x) && Extended(b, d, y)
    ensures Extended(a, d, x + y)
  {
    Assoc(Last(a).file.bytes, x, y);
  }

  lemma {:induction false} OneExtends(c: Codec, w: Log, e: Entry)
    requires w.segments != [] && |Last(w.segments).file.bytes + Added(c, w, e)| < w.segmentMax
    ensures Extended(w.segments, AppendLog(c, w, e).segments, Added(c, w, e))
    ensures AppendLog(c, w, e).nextSeq == w.nextSeq + 1 && AppendLog(c, w, e).segmentMax == w.segmentMax
  {
    assert RollIfFull(Write(c, w, e)) == Write(c, w, e);
  }

  lemma {:induction false} RunExtends(c: Codec, w: Log, ops: seq<Op>)
    requires w.segments != [] && |Last(w.segments).file.bytes| + |AddedAll(c, w.nextSeq, ops)| < w.segmentMax
    ensures Extended(w.segments, Run(c, w, ops).segments, AddedAll(c, w.nextSeq, ops))
    decreases |ops|
  {
    if ops == [] {
      assert Last(w.segments).file.bytes + [] == Last(w.segments).file.bytes;
    } else {
      var w' := Apply(c, w, ops[0]);
      var more := if ops[0].Tick? then [] else Added(c, w, ops[0].e);
      if ops[0].Append? {
        OneExtends(c, w, ops[0].e);
      } else {
        assert Last(w.segments).file.bytes + [] == Last(w.segments).file.bytes;
      }
      RunExtends(c, w', ops[1..]);
      ExtendedTwice(w.segments, w'.segments, Run(c, w, ops).segments, more, AddedAll(c, w'.nextSeq, ops[1..]));
      assert more + AddedAll(c, w'.nextSeq, ops[1..]) == AddedAll(c, w.nextSeq, ops);
    }
  }

  lemma {:induction false} ExtendedReads(c: Codec, w: Log, segs: seq<Segment>, h: seq<Entry>, tail: Bytes, more: Bytes, f: nat, m: int)
    requires Holds(c, w, h, tail) && m > 0 && Inert(c.crc, tail + more) && Extended(w.segments, segs, more)
    ensures ReadSegments(c, segs, f, m, []) == Query(h, f, m)
  {
    LayoutBehindTorn(c, Ids(w), Files(w), h, tail, more);
    var v := Log(segs, |h| + 1, w.segmentMax, w.mode);
    ExtendedFiles(w, v, more);
    ReadAgreesWithHistory(c, v, h, tail + more, f, m);
  }

  lemma {:induction false} ExtendedFiles(w: Log, v: Log, more: Bytes)
    requires Extended(w.segments, v.segments, more) && Indexed(w.segments)
    ensures Ids(v) == Ids(w) && Files(v) == SetLast(Files(w), Last(Files(w)) + more) && Indexed(v.segments)
  {
    var z := |w.segments| - 1;
    forall i | 0 <= i < z
      ensures v.segments[i] == w.segments[i]
    {
      assert v.segments[..z][i] == w.segments[..z][i];
    }
    forall i, j | 0 <= i < |v.segments| && j == i + 1 && j < |v.segments|
      ensures SealedAt(v.segments[i], v.segments[j].id)
    {
      assert SealedAt(w.segments[i], w.segments[j].id);
    }
  }

  /**
   So it goes on: until a segment rolls, as long as the torn record is short with all of their records
   behind it, reads return none of the entries appended.
   */
  lemma {:induction false} TornTailSwallowsRun(c: Codec, w: Log, h: seq<Entry>, torn: Bytes, k: nat, e: Entry, ops: seq<Op>, f: nat, m: int)
    requires EndsTorn(c, w, h, torn, k) && m > 0
    requires |Last(w.segments).file.bytes| + |AddedAll(c, w.nextSeq, [Append(e)] + ops)| < w.segmentMax
    requires StaysShort(|torn|, k, Size(c, w, e), |AddedAll(c, w.nextSeq + 1, ops)|)
    ensures ReadSegments(c, Run(c, w, [Append(e)] + ops).segments, f, m, []) == Query(h, f, m)
  {
    var all := [Append(e)] + ops;
    assert all[1..] == ops;
    var more := AddedAll(c, w.nextSeq, all);
    BehindTornExact(c.crc, torn, k, c.marshal(e.(seqId := w.nextSeq)), AddedAll(c, w.nextSeq + 1, ops));
    RunExtends(c, w, all);
    ExtendedReads(c, w, Run(c, w, all).segments, h, Frame(c.crc, torn)[..k], more, f, m);
  }

  // ---- when the torn record is complete ----

  lemma {:induction false} LastSeqFails(c: Codec, es: seq<Entry>, tail: Bytes)
    requires AllStorable(c, es) && !Inert(c.crc, tail) && !ParseRecord(c.crc, tail).Record?
    ensures LastSeq(c, Encode(c, es) + tail).1 != Clean
  {
    MarshalledFit(c, es);
    FramesThen(c.crc, Marshalled(c, es), tail);
    assert Marshalled(c, es) + [] == Marshalled(c, es);
    FoldLast(c, es, 0, EndOf(c.crc, tail));
  }

  /** Once it is complete, and unless the checksum happens to fit, the log cannot be opened again. */
  lemma {:induction false} TornTailBlocksReopen(c: Codec, w: Log, h: seq<Entry>, torn: Bytes, k: nat, e: Entry, max: int, mode: FlushMode)
    requires EndsTorn(c, w, h, torn, k)
    requires !StaysShort(|torn|, k, Size(c, w, e), 0) && !Mixes(c, w, torn, k, e)
    ensures var w' := AppendLog(c, w, e); Recover(c, Listing(Ids(w'), Files(w')), max, mode) == None
  {
    var tail := Frame(c.crc, torn)[..k];
    var z := |w.segments| - 1;
    BehindTorn(c, w, torn, k, e);
    FileBehindTorn(c, w, h, tail, e);
    LastSeqFails(c, Part(Ids(w), h, z), tail + Added(c, w, e));
    AppendedFile(c, w, e);
    var d := Listing(Ids(AppendLog(c, w, e)), Files(AppendLog(c, w, e)));
    assert LastSeq(c, d.files[z]).1 != Clean;
  }

  /** If it does fit, the file now delivers, behind what it held, a body made of both records. */
  lemma {:induction false} TornTailMixes(c: Codec, w: Log, h: seq<Entry>, torn: Bytes, k: nat, e: Entry)
    requires EndsTorn(c, w, h, torn, k) && Mixes(c, w, torn, k, e)
    ensures var s := Frame(c.crc, torn)[..k] + Added(c, w, e);
            var z := |w.segments| - 1;
            var l := TornLength(|torn|, k, Size(c, w, e));
            var mixed := Mixed(|torn|, k, Size(c, w, e), s);
            && z < |AppendLog(c, w, e).segments| && l <= |mixed|
            && Marshalled(c, Part(Ids(w), h, z)) + [mixed[..l]] <= Bodies(c.crc, Files(AppendLog(c, w, e))[z])
  {
    var s := Frame(c.crc, torn)[..k] + Added(c, w, e);
    var z := |w.segments| - 1;
    var part := Part(Ids(w), h, z);
    BehindTorn(c, w, torn, k, e);
    FileBehindTorn(c, w, h, Frame(c.crc, torn)[..k], e);
    AppendedFile(c, w, e);
    MarshalledFit(c, part);
    FramesThen(c.crc, Marshalled(c, part), s);
    var p := ParseRecord(c.crc, s);
    assert Bodies(c.crc, s) == [p.body] + Bodies(c.crc, s[p.width..]);
    Assoc(Marshalled(c, part), [p.body], Bodies(c.crc, s[p.width..]));
  }

  /** How such a log comes about: cut the newest file inside a record. */
  lemma {:induction false} CutEndsTorn(c: Codec, es: seq<Entry>, k: nat) returns (i: nat, rest: nat)
    requires AllStorable(c, es) && k <= |Encode(c, es)|
    ensures i <= |es| && (i == |es| ==> rest == 0)
    ensures i < |es| ==> rest < |Frame(c.crc, c.marshal(es[i]))|
    ensures Encode(c, es)[..k] == Encode(c, es[..i]) + if i < |es| then Frame(c.crc, c.marshal(es[i]))[..rest] else []
    decreases |es|
  {
    if es == [] {
      i, rest := 0, 0;
    } else {
      var first := Frame(c.crc, c.marshal(es[0]));
      assert Encode(c, es) == first + Encode(c, es[1..]);
      if k < |first| {
        i, rest := 0, k;
        assert es[..0] == [];
        assert Encode(c, es)[..k] == first[..k];
      } else {
        i, rest := CutEndsTorn(c, es[1..], k - |first|);
        i := i + 1;
        assert es[..i][1..] == es[1..][..i - 1];
        assert Encode(c, es[..i]) == first + Encode(c, es[1..][..i - 1]);
        assert Encode(c, es)[..k] == first + Encode(c, es[1..])[..k - |first|];
      }
    }
  }

  /** A file splits into whole records and inert bytes in only one way. */
  lemma {:induction false} SameCut(c: Codec, es: seq<Entry>, i: nat, j: nat, a: Bytes, b: Bytes)
    requires AllStorable(c, es) && i <= |es| && j <= |es| && Inert(c.crc, a) && Inert(c.crc, b)
    requires Encode(c, es[..i]) + a == Encode(c, es[..j]) + b
    ensures i == j && a == b
  {
    MarshalledFit(c, es[..i]);
    MarshalledFit(c, es[..j]);
    FramesThenTail(c.crc, Marshalled(c, es[..i]), a);
    FramesThenTail(c.crc, Marshalled(c, es[..j]), b);
    assert (Encode(c, es[..i]) + a)[|Encode(c, es[..i])|..] == a;
    assert (Encode(c, es[..i]) + b)[|Encode(c, es[..i])|..] == b;
  }

  /** A cut that does not fall between records leaves part of exactly the next one. */
  lemma {:induction false} CutTail(c: Codec, es: seq<Entry>, k: nat, i: nat, tail: Bytes) returns (rest: nat)
    requires AllStorable(c, es) && k <= |Encode(c, es)| && i <= |es| && Inert(c.crc, tail) && tail != []
    requires Encode(c, es)[..k] == Encode(c, es[..i]) + tail
    ensures i < |es| && 0 < rest < |Frame(c.crc, c.marshal(es[i]))|
    ensures tail == Frame(c.crc, c.marshal(es[i]))[..rest]
  {
    var j;
    j, rest := CutEndsTorn(c, es, k);
    var left: Bytes := if j < |es| then Frame(c.crc, c.marshal(es[j]))[..rest] else [];
    EmptyIsInert(c.crc);
    if j < |es| && rest > 0 {
      assert Storable(c, es[j]);
      PrefixTorn(c.crc, c.marshal(es[j]), rest);
    }
    SameCut(c, es, i, j, tail, left);
  }

  /**
   So after any crash that leaves a torn record, whether or not numbering restarts, the reopened log
   ends in part of the record of the first entry lost, and the above says what the next append
   comes to.
   */
  lemma {:induction false} CrashEndsTorn(c: Codec, w: Log, h: seq<Entry>, d: Listing, max: int, mode: FlushMode) returns (n: nat, k: nat)
    requires Valid(c, w, h, []) && CrashImage(w, d) && !EndsBetweenRecords(c, d)
    ensures n < |h| && Recover(c, d, max, mode).Some?
    ensures EndsTorn(c, Recover(c, d, max, mode).value, h[..n], c.marshal(h[n]), k)
  {
    CrashCutsNewest(w, d);
    var tail;
    n, tail := CutLayout(c, Ids(w), Files(w), h, |Last(d.files)|);
    RecoveredHolds(c, d, h[..n], tail, max, mode);
    TailFollowsRecords(c, d, h[..n], tail);
    k := LayoutTail(c, Ids(w), Files(w), h, |Last(d.files)|, n, tail);
  }

  lemma {:induction false} RecoveredHolds(c: Codec, d: Listing, h: seq<Entry>, tail: Bytes, max: int, mode: FlushMode)
    requires Layout(c, d.ids, d.files, h, tail) && d.ids != []
    ensures Recover(c, d, max, mode).Some?
    ensures var w := Recover(c, d, max, mode).value;
            Holds(c, w, h, tail) && (Part(Ids(w), h, |w.segments| - 1) == [] || w.nextSeq == |h| + 1)
  {
    LoadIndexes(c, d, h, tail);
    NewestSeq(c, d, h, tail);
    NewestBodies(c, d, h, tail);
    var w := Recover(c, d, max, mode).value;
    assert Ids(w) == d.ids && Files(w) == d.files;
  }

  /** The torn bytes of a cut log are the start of the record of the first entry that is missing. */
  lemma {:induction false} LayoutTail(c: Codec, ids: seq<nat>, files: seq<Bytes>, h: seq<Entry>, cut: nat, n: nat, tail: Bytes) returns (k: nat)
    requires Layout(c, ids, files, h, []) && ids != [] && cut <= |Last(files)| && tail != []
    requires Last(ids) - 1 <= n <= |h| && Layout(c, ids, SetLast(files, Last(files)[..cut]), h[..n], tail)
    ensures n < |h| && Fits(c.marshal(h[n])) && 0 < k < |Frame(c.crc, c.marshal(h[n]))|
    ensures tail == Frame(c.crc, c.marshal(h[n]))[..k]
  {
    var z := |ids| - 1;
    assert files[z] == Content(c, ids, h, [], z);
    assert SetLast(files, Last(files)[..cut])[z] == Content(c, ids, h[..n], tail, z);
    ContentOfPrefix(c, ids, h, n, tail, z);
    PartBounds(ids, h, z);
    assert Part(ids, h, z) == h[ids[z] - 1..];
    assert Last(files) == Encode(c, h[ids[z] - 1..]);
    k := SliceTail(c, h, ids[z] - 1, cut, n, tail);
  }

  lemma {:induction false} SliceTail(c: Codec, h: seq<Entry>, lo: nat, cut: nat, n: nat, tail: Bytes) returns (k: nat)
    requires AllStorable(c, h) && lo <= n <= |h| && cut <= |Encode(c, h[lo..])| && Inert(c.crc, tail) && tail != []
    requires Encode(c, h[lo..])[..cut] == Encode(c, h[lo..n]) + tail
    ensures n < |h| && Fits(c.marshal(h[n])) && 0 < k < |Frame(c.crc, c.marshal(h[n]))|
    ensures tail == Frame(c.crc, c.marshal(h[n]))[..k]
  {
    assert h[lo..][..n - lo] == h[lo..n];
    k := CutTail(c, h[lo..], cut, n - lo, tail);
    assert h[lo..][n - lo] == h[n];
    assert Storable(c, h[n]);
  }
}
