/**
 The segmented write-ahead log as values: what is on disk, what the index says, and the flat
 history both stand for.
 */
module WalModel {
  import opened Bytes
  import opened RecordIO

  datatype Entry = Entry(seqId: nat, args: Args, timestampMs: int)

  /** The checksum and the protobuf encoding, both arbitrary. */
  datatype Codec = Codec(crc: Checksum, marshal: Entry -> Bytes, unmarshal: Bytes -> Option<Entry>)

  /** The encoding inverts on this entry and the record codec can carry it. */
  predicate Storable(c: Codec, e: Entry) {
    c.unmarshal(c.marshal(e)) == Some(e) && Fits(c.marshal(e))
  }

  function Marshalled(c: Codec, es: seq<Entry>): seq<Bytes> {
    if es == [] then [] else [c.marshal(es[0])] + Marshalled(c, es[1..])
  }

  /** The file contents that hold these entries. */
  function Encode(c: Codec, es: seq<Entry>): Bytes {
    Frames(c.crc, Marshalled(c, es))
  }

  predicate AllStorable(c: Codec, es: seq<Entry>) {
    forall i :: 0 <= i < |es| ==> Storable(c, es[i])
  }

  /** Sequence numbers 1, 2, 3, ... */
  predicate Numbered(log: seq<Entry>) {
    forall i :: 0 <= i < |log| ==> log[i].seqId == i + 1
  }

  /** A flat append history. */
  predicate History(c: Codec, h: seq<Entry>) {
    AllStorable(c, h) && Numbered(h)
  }

  /** The commands of a log, without their numbers and times. */
  function Commands(log: seq<Entry>): seq<Args> {
    seq(|log|, i requires 0 <= i < |log| => log[i].args)
  }

  // ---- parts of a history ----

  /** The entries with seqs lo, lo + 1, ..., up to but not including hi. */
  function Seqs(es: seq<Entry>, lo: nat, hi: nat): seq<Entry>
    requires 1 <= lo <= hi <= |es| + 1
  {
    es[lo - 1..hi - 1]
  }

  /** A batch that continues a stream whose next seq is `from`. */
  predicate IsBatch(es: seq<Entry>, from: nat, batch: seq<Entry>) {
    && 1 <= from && batch != [] && from + |batch| <= |es| + 1
    && batch == Seqs(es, from, from + |batch|)
  }

  predicate Longer(es: seq<Entry>, es': seq<Entry>) {
    |es| <= |es'| && es'[..|es|] == es
  }

  lemma SeqsOfLonger(es: seq<Entry>, es': seq<Entry>, lo: nat, hi: nat)
    requires Longer(es, es') && 1 <= lo <= hi <= |es| + 1
    ensures Seqs(es', lo, hi) == Seqs(es, lo, hi)
  {
    assert forall i :: 0 <= i < |es| ==> es'[i] == es'[..|es|][i];
  }

  // ---- the log ----

  datatype File = File(bytes: Bytes, synced: nat)

  datatype Segment = Segment(id: nat, endSeq: nat, size: nat, file: File)

  datatype FlushMode = FlushNone | FlushPeriodic | FlushSync

  /** The active segment, if there is any segment, is the last one. */
  datatype Log = Log(segments: seq<Segment>, nextSeq: nat, segmentMax: int, mode: FlushMode)

  function Last<T>(s: seq<T>): T
    requires s != []
  {
    s[|s| - 1]
  }

  function SetLast<T>(s: seq<T>, x: T): seq<T>
    requires s != []
  {
    s[..|s| - 1] + [x]
  }

  function Synced(s: Segment): Segment {
    s.(file := File(s.file.bytes, |s.file.bytes|))
  }

  /** fsync of the active segment. */
  function SyncActive(w: Log): Log {
    if w.segments == [] then w else w.(segments := SetLast(w.segments, Synced(Last(w.segments))))
  }

  function Sealed(w: Log): seq<Segment> {
    if w.segments == [] then []
    else SetLast(w.segments, Synced(Last(w.segments)).(endSeq := Max(w.nextSeq - 1, 0)))
  }

  /** rollLocked: seal the active segment and start a new one at nextSeq. */
  function Roll(w: Log): Log {
    w.(segments := Sealed(w) + [Segment(w.nextSeq, 0, 0, File([], 0))])
  }

  /** Writes one record to the active segment and takes a sequence number. */
  function Write(c: Codec, w: Log, e: Entry): Log
    requires w.segments != []
  {
    var s := Last(w.segments);
    var bytes := s.file.bytes + Frame(c.crc, c.marshal(e.(seqId := w.nextSeq)));
    w.(segments := SetLast(w.segments, s.(size := |bytes|, file := s.file.(bytes := bytes))),
       nextSeq := w.nextSeq + 1)
  }

  function Start(w: Log): (w': Log)
    ensures w'.segments != []
  {
    if w.segments == [] then Roll(w) else w
  }

  /** What Append does after the record is written: roll if full, fsync in sync mode. */
  function Finish(w: Log): Log {
    Flush(RollIfFull(w))
  }

  function RollIfFull(w: Log): Log {
    if w.segments != [] && Last(w.segments).size >= w.segmentMax then Roll(w) else w
  }

  function Flush(w: Log): Log {
    if w.mode.FlushSync? then SyncActive(w) else w
  }

  /** Append. */
  function AppendLog(c: Codec, w: Log, e: Entry): Log {
    Finish(Write(c, Start(w), e))
  }

  // ---- how files and index stand for a history ----

  function Ids(w: Log): (ids: seq<nat>)
    ensures |ids| == |w.segments|
    ensures forall i :: 0 <= i < |ids| ==> ids[i] == w.segments[i].id
  {
    seq(|w.segments|, i requires 0 <= i < |w.segments| => w.segments[i].id)
  }

  function Files(w: Log): (files: seq<Bytes>)
    ensures |files| == |w.segments|
    ensures forall i :: 0 <= i < |files| ==> files[i] == w.segments[i].file.bytes
  {
    seq(|w.segments|, i requires 0 <= i < |w.segments| => w.segments[i].file.bytes)
  }

  /** The segment starts partition 1 .. |h| + 1. */
  predicate Ordered(ids: seq<nat>, h: seq<Entry>) {
    && (ids == [] ==> h == [])
    && (ids != [] ==> ids[0] == 1 && Last(ids) <= |h| + 1)
    && forall i, j :: 0 <= i < j < |ids| ==> ids[i] < ids[j]
  }

  /** One past the last seq of segment `i`. */
  function Upper(ids: seq<nat>, h: seq<Entry>, i: nat): nat
    requires i < |ids|
  {
    if i + 1 < |ids| then ids[i + 1] else |h| + 1
  }

  lemma PartBounds(ids: seq<nat>, h: seq<Entry>, i: nat)
    requires Ordered(ids, h) && i < |ids|
    ensures 1 <= ids[i] <= Upper(ids, h, i) <= |h| + 1
  {
    assert ids[0] <= ids[i] <= Last(ids);
  }

  /** The entries of segment `i`. */
  function Part(ids: seq<nat>, h: seq<Entry>, i: nat): seq<Entry>
    requires Ordered(ids, h) && i < |ids|
  {
    PartBounds(ids, h, i);
    h[ids[i] - 1..Upper(ids, h, i) - 1]
  }

  function Content(c: Codec, ids: seq<nat>, h: seq<Entry>, tail: Bytes, i: nat): Bytes
    requires Ordered(ids, h) && i < |ids|
  {
    Encode(c, Part(ids, h, i)) + if i == |ids| - 1 then tail else []
  }

  /** The files hold exactly `h`, followed in the newest one by bytes that are not a record. */
  predicate Layout(c: Codec, ids: seq<nat>, files: seq<Bytes>, h: seq<Entry>, tail: Bytes) {
    && History(c, h)
    && Inert(c.crc, tail)
    && Ordered(ids, h)
    && (ids == [] ==> tail == [])
    && |files| == |ids|
    && forall i {:trigger Content(c, ids, h, tail, i)} :: 0 <= i < |ids| ==>
         files[i] == Content(c, ids, h, tail, i)
  }

  /** A sealed segment knows its last seq and is synced to the end. */
  predicate SealedAt(s: Segment, next: nat) {
    s.endSeq == Max(next - 1, 0) && s.file.synced == |s.file.bytes|
  }

  /** The index: every segment but the last is sealed. */
  predicate Indexed(segs: seq<Segment>) {
    && (forall i, j :: 0 <= i < |segs| && j == i + 1 && j < |segs| ==> SealedAt(segs[i], segs[j].id))
    && (segs != [] ==> Last(segs).endSeq == 0 && Last(segs).file.synced <= |Last(segs).file.bytes|)
  }

  /** The log stands for the flat history `h`, with `tail` torn bytes behind it. */
  predicate Valid(c: Codec, w: Log, h: seq<Entry>, tail: Bytes) {
    && Layout(c, Ids(w), Files(w), h, tail)
    && Indexed(w.segments)
    && w.nextSeq == |h| + 1
  }

  /** Everything written to the log is synced. */
  predicate AllSynced(w: Log) {
    forall i :: 0 <= i < |w.segments| ==> w.segments[i].file.synced == |w.segments[i].file.bytes|
  }

  // ---- encoding lemmas ----

  lemma {:induction false} MarshalledConcat(c: Codec, a: seq<Entry>, b: seq<Entry>)
    ensures Marshalled(c, a + b) == Marshalled(c, a) + Marshalled(c, b)
    decreases |a|
  {
    if a == [] {
      assert a + b == b;
    } else {
      assert (a + b)[1..] == a[1..] + b;
      MarshalledConcat(c, a[1..], b);
    }
  }

  lemma {:induction false} MarshalledFit(c: Codec, es: seq<Entry>)
    requires AllStorable(c, es)
    ensures |Marshalled(c, es)| == |es| && AllFit(Marshalled(c, es))
    decreases |es|
  {
    if es != [] {
      assert Storable(c, es[0]);
      MarshalledFit(c, es[1..]);
    }
  }

  lemma {:induction false} MarshalledPrefix(c: Codec, es: seq<Entry>, n: nat)
    requires n <= |es|
    ensures |Marshalled(c, es)| == |es| && Marshalled(c, es)[..n] == Marshalled(c, es[..n])
    decreases |es|
  {
    if es != [] {
      if n > 0 {
        assert es[..n][1..] == es[1..][..n - 1];
        MarshalledPrefix(c, es[1..], n - 1);
      } else {
        MarshalledPrefix(c, es[1..], 0);
      }
    }
  }

  lemma EncodeSnoc(c: Codec, es: seq<Entry>, e: Entry)
    ensures Encode(c, es + [e]) == Encode(c, es) + Frame(c.crc, c.marshal(e))
  {
    MarshalledConcat(c, es, [e]);
    assert [e][1..] == [];
    assert Marshalled(c, [e]) == [c.marshal(e)];
    FramesSnoc(c.crc, Marshalled(c, es), c.marshal(e));
  }

  lemma EmptyIsInert(crc: Checksum)
    ensures Inert(crc, [])
  {
  }

  // ---- every operation keeps Valid ----

  lemma EmptyValid(c: Codec, max: int, mode: FlushMode)
    ensures Valid(c, Log([], 1, max, mode), [], [])
  {
  }

  lemma SealedAreSynced(segs: seq<Segment>)
    requires Indexed(segs)
    ensures forall i :: 0 <= i < |segs| - 1 ==> segs[i].file.synced == |segs[i].file.bytes|
  {
    forall i | 0 <= i < |segs| - 1
      ensures segs[i].file.synced == |segs[i].file.bytes|
    {
      assert SealedAt(segs[i], segs[i + 1].id);
    }
  }

  lemma {:induction false} SyncKeeps(c: Codec, w: Log, h: seq<Entry>, tail: Bytes)
    requires Valid(c, w, h, tail)
    ensures Valid(c, SyncActive(w), h, tail) && AllSynced(SyncActive(w))
  {
    var w' := SyncActive(w);
    assert Ids(w') == Ids(w);
    assert Files(w') == Files(w);
    SealedAreSynced(w'.segments);
  }

  /** A new empty segment at the end of the history leaves every other part as it was. */
  lemma {:induction false} LayoutExtends(c: Codec, ids: seq<nat>, files: seq<Bytes>, h: seq<Entry>)
    requires Layout(c, ids, files, h, [])
    requires ids == [] || Last(ids) < |h| + 1
    ensures Layout(c, ids + [|h| + 1], files + [[]], h, [])
  {
    var ids' := ids + [|h| + 1];
    assert Ordered(ids', h);
    forall i | 0 <= i < |ids'|
      ensures (files + [[]])[i] == Content(c, ids', h, [], i)
    {
      if i < |ids| {
        assert files[i] == Content(c, ids, h, [], i);
        assert Part(ids', h, i) == Part(ids, h, i);
      } else {
        assert Part(ids', h, i) == [];
      }
    }
  }

  lemma {:induction false} RollKeeps(c: Codec, w: Log, h: seq<Entry>)
    requires Valid(c, w, h, [])
    requires w.segments == [] || Last(w.segments).id < w.nextSeq
    ensures Valid(c, Roll(w), h, []) && AllSynced(Roll(w))
  {
    var w' := Roll(w);
    LayoutExtends(c, Ids(w), Files(w), h);
    assert Ids(w') == Ids(w) + [w.nextSeq];
    assert Files(w') == Files(w) + [[]];
    SealedAreSynced(w'.segments);
  }

  lemma {:induction false} PartOfLonger(ids: seq<nat>, h: seq<Entry>, e: Entry, i: nat)
    requires Ordered(ids, h) && i < |ids|
    ensures Ordered(ids, h + [e])
    ensures Part(ids, h + [e], i) == if i == |ids| - 1 then Part(ids, h, i) + [e] else Part(ids, h, i)
  {
    PartBounds(ids, h, i);
    PartBounds(ids, h + [e], i);
  }

  /** One more record in the newest file is one more entry in the history. */
  lemma {:induction false} LayoutGrows(c: Codec, ids: seq<nat>, files: seq<Bytes>, h: seq<Entry>, e: Entry)
    requires Layout(c, ids, files, h, []) && ids != []
    requires e.seqId == |h| + 1 && Storable(c, e)
    ensures Layout(c, ids, SetLast(files, Last(files) + Frame(c.crc, c.marshal(e))), h + [e], [])
  {
    PartOfLonger(ids, h, e, 0);
    assert History(c, h + [e]);
    forall i | 0 <= i < |ids|
      ensures SetLast(files, Last(files) + Frame(c.crc, c.marshal(e)))[i] == Content(c, ids, h + [e], [], i)
    {
      ContentGrows(c, ids, h, e, i);
      assert files[i] == Content(c, ids, h, [], i);
    }
  }

  lemma {:induction false} ContentGrows(c: Codec, ids: seq<nat>, h: seq<Entry>, e: Entry, i: nat)
    requires Ordered(ids, h) && i < |ids|
    ensures Ordered(ids, h + [e])
    ensures Content(c, ids, h + [e], [], i) ==
            Content(c, ids, h, [], i) + if i == |ids| - 1 then Frame(c.crc, c.marshal(e)) else []
  {
    PartOfLonger(ids, h, e, i);
    EncodeSnoc(c, Part(ids, h, i), e);
  }

  lemma {:induction false} WriteKeeps(c: Codec, w: Log, h: seq<Entry>, e: Entry)
    requires Valid(c, w, h, []) && w.segments != []
    requires Storable(c, e.(seqId := w.nextSeq))
    ensures Valid(c, Write(c, w, e), h + [e.(seqId := w.nextSeq)], [])
    ensures Last(Write(c, w, e).segments).id < Write(c, w, e).nextSeq
  {
    var w' := Write(c, w, e);
    LayoutGrows(c, Ids(w), Files(w), h, e.(seqId := w.nextSeq));
    assert Ids(w') == Ids(w);
    assert Files(w') == SetLast(Files(w), Last(Files(w)) + Frame(c.crc, c.marshal(e.(seqId := w.nextSeq))));
  }

  lemma {:induction false} FinishKeeps(c: Codec, w: Log, h: seq<Entry>)
    requires Valid(c, w, h, []) && w.segments != [] && Last(w.segments).id < w.nextSeq
    ensures Valid(c, Finish(w), h, [])
    ensures w.mode.FlushSync? ==> AllSynced(Finish(w))
  {
    RollIfFullKeeps(c, w, h);
    FlushKeeps(c, RollIfFull(w), h);
  }

  lemma {:induction false} RollIfFullKeeps(c: Codec, w: Log, h: seq<Entry>)
    requires Valid(c, w, h, []) && w.segments != [] && Last(w.segments).id < w.nextSeq
    ensures Valid(c, RollIfFull(w), h, [])
  {
    if Last(w.segments).size >= w.segmentMax {
      RollKeeps(c, w, h);
    }
  }

  lemma {:induction false} FlushKeeps(c: Codec, w: Log, h: seq<Entry>)
    requires Valid(c, w, h, [])
    ensures Valid(c, Flush(w), h, [])
    ensures w.mode.FlushSync? ==> AllSynced(Flush(w))
  {
    if w.mode.FlushSync? {
      SyncKeeps(c, w, h, []);
    }
  }

  /**
   Append extends the history by the entry, numbered next, whether or not it rolls. In sync mode
   everything is on disk when it returns, also when that append rolled the segment.
   */
  lemma {:induction false} AppendKeeps(c: Codec, w: Log, h: seq<Entry>, e: Entry)
    requires Valid(c, w, h, []) && Storable(c, e.(seqId := w.nextSeq))
    ensures Valid(c, AppendLog(c, w, e), h + [e.(seqId := w.nextSeq)], [])
    ensures w.mode.FlushSync? ==> AllSynced(AppendLog(c, w, e))
    ensures AppendLog(c, w, e).mode == w.mode
  {
    if w.segments == [] {
      RollKeeps(c, w, h);
    }
    WriteKeeps(c, Start(w), h, e);
    FinishKeeps(c, Write(c, Start(w), e), h + [e.(seqId := w.nextSeq)]);
  }
}
