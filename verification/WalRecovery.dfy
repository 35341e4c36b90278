/** Crashes and reopening: what survives, what recovery makes of it, and where it falls short. */
module WalRecovery {
  import opened Bytes
  import opened RecordIO
  import opened WalModel
  import opened WalReading
  import Varint

  // ---- scanLastSeq and loadSegments ----

  function LastFn(c: Codec): (nat, Bytes) -> Verdict<nat> {
    (last: nat, body: Bytes) =>
      match c.unmarshal(body)
      case None => Refuse(last)
      case Some(e) => Continue(e.seqId)
  }

  /** scanLastSeq: the seq of the last intact record (0 if none), and how the scan ended. */
  function LastSeq(c: Codec, bytes: Bytes): (nat, End) {
    Fold(LastFn(c), 0, Bodies(c.crc, bytes), EndOf(c.crc, bytes))
  }

  /** A directory listing: segment files by id, in increasing order. */
  datatype RawListing = Listing(ids: seq<nat>, files: seq<Bytes>)

  type Listing = d: RawListing | |d.ids| == |d.files| witness Listing([], [])

  function OnDisk(bytes: Bytes): File {
    File(bytes, |bytes|)
  }

  function IsSealed(d: Listing, i: nat): bool {
    i + 1 < |d.ids|
  }

  /** The segment of file `i` of a listing: a sealed one gets the last seq found in its file. */
  function LoadOne(c: Codec, d: Listing, i: nat): Segment
    requires i < |d.ids|
  {
    Segment(d.ids[i], if IsSealed(d, i) then LastSeq(c, d.files[i]).0 else 0, |d.files[i]|, OnDisk(d.files[i]))
  }

  function Loaded(c: Codec, d: Listing): (segs: seq<Segment>)
    ensures |segs| == |d.ids|
  {
    seq(|d.ids|, i requires 0 <= i < |d.ids| => LoadOne(c, d, i))
  }

  lemma LastLoaded(c: Codec, d: Listing)
    ensures d.files != [] ==> Last(Loaded(c, d)).file.bytes == Last(d.files)
  {
  }

  predicate Scans(c: Codec, d: Listing)
  {
    forall i :: 0 <= i < |d.files| ==> LastSeq(c, d.files[i]).1 == Clean
  }

  /** Open scans the sealed files first and then the newest one. */
  lemma ScansInTwoSteps(c: Codec, d: Listing)
    ensures Scans(c, d) <==>
            && (forall k :: 0 <= k < |d.ids| && IsSealed(d, k) ==> LastSeq(c, d.files[k]).1 == Clean)
            && (d.files != [] ==> LastSeq(c, Last(d.files)).1 == Clean)
  {
    assert forall k :: 0 <= k < |d.ids| ==> IsSealed(d, k) || d.files[k] == Last(d.files);
  }

  /** Open: it fails if a file does not scan; nextSeq comes from the newest file alone. */
  function Recover(c: Codec, d: Listing, max: int, mode: FlushMode): Option<Log>
  {
    if !Scans(c, d) then None
    else Some(Log(Loaded(c, d), if d.files == [] then 1 else LastSeq(c, Last(d.files)).0 + 1, max, mode))
  }

  // ---- what a crash leaves ----

  /** A crash keeps the synced bytes of each file and any prefix of the rest. */
  predicate CrashImage(w: Log, d: Listing) {
    && d.ids == Ids(w)
    && |d.files| == |w.segments|
    && forall i :: 0 <= i < |d.files| ==>
         && w.segments[i].file.synced <= |d.files[i]| <= |w.segments[i].file.bytes|
         && d.files[i] == w.segments[i].file.bytes[..|d.files[i]|]
  }

  /** Entries of the newest segment whose records are wholly on disk. */
  function Intact(c: Codec, ids: seq<nat>, h: seq<Entry>, k: nat): (n: nat)
    requires Ordered(ids, h) && ids != []
    ensures n <= |Marshalled(c, Part(ids, h, |ids| - 1))|
  {
    Whole(c.crc, Marshalled(c, Part(ids, h, |ids| - 1)), k)
  }

  /** Cutting the newest file at byte `k` leaves the layout of a prefix of the history. */
  lemma {:induction false} CutLayout(c: Codec, ids: seq<nat>, files: seq<Bytes>, h: seq<Entry>, k: nat)
    returns (n: nat, tail: Bytes)
    requires Layout(c, ids, files, h, []) && ids != [] && k <= |Last(files)|
    ensures n == Last(ids) - 1 + Intact(c, ids, h, k) <= |h|
    ensures Layout(c, ids, SetLast(files, Last(files)[..k]), h[..n], tail)
    ensures k == |Last(files)| ==> n == |h| && tail == []
    ensures tail == [] <==> k == |Encode(c, h[Last(ids) - 1..n])|
  {
    var z := |ids| - 1;
    PartBounds(ids, h, z);
    var part := Part(ids, h, z);
    assert Last(files) == Content(c, ids, h, [], z) == Encode(c, part);
    MarshalledFit(c, part);
    var i := Intact(c, ids, h, k);
    tail := CutSplits(c.crc, Marshalled(c, part), k);
    MarshalledPrefix(c, part, i);
    n := ids[z] - 1 + i;
    assert part[..i] == h[ids[z] - 1..n];
    if k == |Last(files)| {
      WholeIsMaximal(c.crc, Marshalled(c, part), k);
      WholeOfAll(c.crc, Marshalled(c, part));
      assert part[..i] == part;
    }
    LayoutCut(c, ids, files, h, n, tail, k);
  }

  /** More bytes hold no fewer whole frames. */
  lemma {:induction false} WholeMonotone(crc: Checksum, bodies: seq<Bytes>, j: nat, k: nat)
    requires j <= k
    ensures Whole(crc, bodies, j) <= Whole(crc, bodies, k)
    decreases |bodies|
  {
    if bodies != [] && j >= |Frame(crc, bodies[0])| {
      var n := |Frame(crc, bodies[0])|;
      WholeMonotone(crc, bodies[1..], j - n, k - n);
    }
  }

  lemma {:induction false} WholeOfAll(crc: Checksum, bodies: seq<Bytes>)
    ensures Whole(crc, bodies, |Frames(crc, bodies)|) == |bodies|
    decreases |bodies|
  {
    if bodies != [] {
      WholeOfAll(crc, bodies[1..]);
    }
  }

  /** Dropping entries of the newest segment leaves the other parts as they were. */
  lemma {:induction false} PartOfPrefix(ids: seq<nat>, h: seq<Entry>, n: nat, i: nat)
    requires Ordered(ids, h) && i < |ids| && Last(ids) - 1 <= n <= |h|
    ensures Ordered(ids, h[..n]) && 1 <= Last(ids)
    ensures Part(ids, h[..n], i) == if i < |ids| - 1 then Part(ids, h, i) else h[Last(ids) - 1..n]
  {
    PartBounds(ids, h, i);
    PartBounds(ids, h[..n], i);
  }

  lemma {:induction false} LayoutCut(c: Codec, ids: seq<nat>, files: seq<Bytes>, h: seq<Entry>, n: nat, tail: Bytes, k: nat)
    requires Layout(c, ids, files, h, []) && ids != [] && k <= |Last(files)|
    requires Last(ids) - 1 <= n <= |h| && Inert(c.crc, tail)
    requires Last(ids) >= 1 && Last(files)[..k] == Encode(c, h[Last(ids) - 1..n]) + tail
    ensures Layout(c, ids, SetLast(files, Last(files)[..k]), h[..n], tail)
  {
    HistoryPrefix(c, h, n);
    ContentOfPrefix(c, ids, h, n, tail, 0);
    forall i | 0 <= i < |ids|
      ensures SetLast(files, Last(files)[..k])[i] == Content(c, ids, h[..n], tail, i)
    {
      assert files[i] == Content(c, ids, h, [], i);
      FileCut(c, ids, files, h, n, tail, k, i);
    }
  }

  lemma HistoryPrefix(c: Codec, h: seq<Entry>, n: nat)
    requires History(c, h) && n <= |h|
    ensures History(c, h[..n])
  {
  }

  lemma {:induction false} FileCut(c: Codec, ids: seq<nat>, files: seq<Bytes>, h: seq<Entry>, n: nat, tail: Bytes, k: nat, i: nat)
    requires Ordered(ids, h) && |files| == |ids| && i < |ids| && k <= |Last(files)| && Last(ids) - 1 <= n <= |h|
    requires Last(ids) >= 1 && Last(files)[..k] == Encode(c, h[Last(ids) - 1..n]) + tail
    requires files[i] == Content(c, ids, h, [], i)
    ensures Ordered(ids, h[..n]) && SetLast(files, Last(files)[..k])[i] == Content(c, ids, h[..n], tail, i)
  {
    ContentOfPrefix(c, ids, h, n, tail, i);
  }

  /** Only the newest file changes. */
  lemma {:induction false} ContentOfPrefix(c: Codec, ids: seq<nat>, h: seq<Entry>, n: nat, tail: Bytes, i: nat)
    requires Ordered(ids, h) && i < |ids| && Last(ids) - 1 <= n <= |h|
    ensures Ordered(ids, h[..n]) && 1 <= Last(ids)
    ensures Content(c, ids, h[..n], tail, i) ==
            if i < |ids| - 1 then Content(c, ids, h, [], i) else Encode(c, h[Last(ids) - 1..n]) + tail
  {
    PartOfPrefix(ids, h, n, i);
  }

  /** How many entries a crash cannot lose: all up to the synced end of the active file. */
  function Secured(c: Codec, w: Log, h: seq<Entry>): nat
    requires Ordered(Ids(w), h)
  {
    if w.segments == [] then 0
    else Max(Last(w.segments).id - 1, 0) + Intact(c, Ids(w), h, Last(w.segments).file.synced)
  }

  /** The files of a crash are the files of the log, the newest one cut. */
  lemma CrashCutsNewest(w: Log, d: Listing)
    requires CrashImage(w, d) && w.segments != [] && Indexed(w.segments)
    ensures Last(w.segments).file.synced <= |Last(d.files)| <= |Last(Files(w))|
    ensures d.files == SetLast(Files(w), Last(Files(w))[..|Last(d.files)|])
  {
    SealedAreSynced(w.segments);
    forall i | 0 <= i < |d.files| - 1
      ensures d.files[i] == Files(w)[i]
    {
    }
  }

  /**
   Durability. Whatever the flush mode, a crash loses only a suffix of the history, nothing before
   the active segment, and no entry whose record has been synced. If everything is synced it
   loses nothing.
   */
  lemma {:induction false} CrashLosesOnlyASuffix(c: Codec, w: Log, h: seq<Entry>, d: Listing)
    returns (n: nat, tail: Bytes)
    requires Valid(c, w, h, []) && CrashImage(w, d)
    ensures Secured(c, w, h) <= n <= |h| && Layout(c, d.ids, d.files, h[..n], tail)
    ensures w.segments != [] ==> Last(w.segments).id - 1 <= n
    ensures AllSynced(w) ==> n == |h| && tail == []
  {
    if w.segments == [] {
      n, tail := 0, [];
      assert d.files == [] && h == [];
    } else {
      var k := |Last(d.files)|;
      CrashCutsNewest(w, d);
      n, tail := CutLayout(c, Ids(w), Files(w), h, k);
      WholeMonotone(c.crc, Marshalled(c, Part(Ids(w), h, |Ids(w)| - 1)), Last(w.segments).file.synced, k);
      PartBounds(Ids(w), h, |Ids(w)| - 1);
    }
  }

  /** Some of a record has reached the active file, and then the crash comes. */
  predicate CrashDuring(c: Codec, w: Log, e: Entry, d: Listing) {
    w.segments != [] &&
    var frame := Frame(c.crc, c.marshal(e.(seqId := w.nextSeq)));
    var bytes := Last(w.segments).file.bytes;
    && d.ids == Ids(w)
    && |d.files| == |w.segments|
    && (forall i :: 0 <= i < |d.files| - 1 ==>
         && w.segments[i].file.synced <= |d.files[i]| <= |w.segments[i].file.bytes|
         && d.files[i] == w.segments[i].file.bytes[..|d.files[i]|])
    && Last(w.segments).file.synced <= |Last(d.files)| <= |bytes + frame|
    && Last(d.files) == (bytes + frame)[..|Last(d.files)|]
  }

  lemma CrashDuringIsCrashAfterWrite(c: Codec, w: Log, e: Entry, d: Listing)
    requires w.segments != [] && CrashDuring(c, w, e, d)
    ensures CrashImage(Write(c, w, e), d)
  {
    assert Ids(Write(c, w, e)) == Ids(w);
  }

  /** A crash in the middle of an append loses none of the earlier entries that were synced. */
  lemma {:induction false} CrashInTheMiddle(c: Codec, w: Log, h: seq<Entry>, e: Entry, d: Listing)
    returns (n: nat, tail: Bytes)
    requires Valid(c, w, h, []) && w.segments != [] && Storable(c, e.(seqId := w.nextSeq)) && CrashDuring(c, w, e, d)
    ensures n <= |h| + 1 && Layout(c, d.ids, d.files, (h + [e.(seqId := w.nextSeq)])[..n], tail)
    ensures Last(w.segments).id - 1 <= n
    ensures AllSynced(w) ==> |h| <= n
  {
    var w', h' := Write(c, w, e), h + [e.(seqId := w.nextSeq)];
    CrashDuringIsCrashAfterWrite(c, w, e, d);
    WriteKeeps(c, w, h, e);
    n, tail := CrashLosesOnlyASuffix(c, w', h', d);
    if AllSynced(w) {
      SecuredAfterWrite(c, w, h, e);
    }
  }

  lemma {:induction false} SecuredAfterWrite(c: Codec, w: Log, h: seq<Entry>, e: Entry)
    requires Valid(c, w, h, []) && w.segments != [] && AllSynced(w)
    requires Ordered(Ids(Write(c, w, e)), h + [e.(seqId := w.nextSeq)])
    ensures Secured(c, Write(c, w, e), h + [e.(seqId := w.nextSeq)]) >= |h|
  {
    var e' := e.(seqId := w.nextSeq);
    var ids, z := Ids(w), |w.segments| - 1;
    assert Ids(Write(c, w, e)) == ids;
    PartBounds(ids, h, z);
    PartOfLonger(ids, h, e', z);
    var part := Part(ids, h, z);
    assert Files(w)[z] == Content(c, ids, h, [], z) == Encode(c, part);
    MarshalledConcat(c, part, [e']);
    WholeOfPrefix(c.crc, Marshalled(c, part), Marshalled(c, [e']));
    MarshalledPrefix(c, part, 0);
  }

  lemma {:induction false} WholeOfPrefix(crc: Checksum, a: seq<Bytes>, b: seq<Bytes>)
    ensures Whole(crc, a + b, |Frames(crc, a)|) >= |a|
    decreases |a|
  {
    if a != [] {
      assert (a + b)[1..] == a[1..] + b;
      WholeOfPrefix(crc, a[1..], b);
    }
  }

  /** In sync mode every append that has returned survives any crash, however many rolls there were. */
  lemma {:induction false} SyncModeSurvives(c: Codec, max: int, ops: seq<Op>, d: Listing)
    requires AllStorable(c, Flat([], ops))
    requires CrashImage(Run(c, Log([], 1, max, FlushSync), ops), d)
    ensures Layout(c, d.ids, d.files, Flat([], ops), [])
  {
    var w := Log([], 1, max, FlushSync);
    EmptyValid(c, max, FlushSync);
    RunKeeps(c, w, [], ops);
    RunKeepsMode(c, w, ops);
    var n, tail := CrashLosesOnlyASuffix(c, Run(c, w, ops), Flat([], ops), d);
    assert Flat([], ops)[..n] == Flat([], ops);
  }

  /** A tick of the flusher secures every append before it, in every mode. */
  lemma {:induction false} TickSecures(c: Codec, max: int, mode: FlushMode, ops: seq<Op>, d: Listing)
    requires AllStorable(c, Flat([], ops))
    requires CrashImage(Apply(c, Run(c, Log([], 1, max, mode), ops), Tick), d)
    ensures Layout(c, d.ids, d.files, Flat([], ops), [])
  {
    var w, h := Run(c, Log([], 1, max, mode), ops), Flat([], ops);
    EmptyValid(c, max, mode);
    RunKeeps(c, Log([], 1, max, mode), [], ops);
    SyncKeeps(c, w, h, []);
    var n, tail := CrashLosesOnlyASuffix(c, SyncActive(w), h, d);
    assert h[..n] == h;
  }

  lemma {:induction false} RunKeepsMode(c: Codec, w: Log, ops: seq<Op>)
    ensures Run(c, w, ops).mode == w.mode
    decreases |ops|
  {
    if ops != [] {
      ApplyKeepsMode(c, w, ops[0]);
      RunKeepsMode(c, Apply(c, w, ops[0]), ops[1..]);
    }
  }

  lemma ApplyKeepsMode(c: Codec, w: Log, op: Op)
    ensures Apply(c, w, op).mode == w.mode
  {
  }

  // ---- recovery ----

  lemma {:induction false} FoldLast(c: Codec, es: seq<Entry>, last: nat, end: End)
    requires AllStorable(c, es)
    ensures Fold(LastFn(c), last, Marshalled(c, es), end)
         == (if es == [] then last else Last(es).seqId, end)
    decreases |es|
  {
    if es != [] {
      assert Storable(c, es[0]);
      FoldLast(c, es[1..], es[0].seqId, end);
    }
  }

  lemma FileLast(c: Codec, es: seq<Entry>, tail: Bytes)
    requires AllStorable(c, es) && Inert(c.crc, tail)
    ensures LastSeq(c, Encode(c, es) + tail) == (if es == [] then 0 else Last(es).seqId, Clean)
  {
    MarshalledFit(c, es);
    FramesThenTail(c.crc, Marshalled(c, es), tail);
    FoldLast(c, es, 0, Clean);
  }

  lemma {:induction false} FoldLastStops(c: Codec, es: seq<Entry>, last: nat, bodies: seq<Bytes>, end: End)
    requires AllStorable(c, es) && bodies != [] && c.unmarshal(bodies[0]) == None
    ensures Fold(LastFn(c), last, Marshalled(c, es) + bodies, end).1 == Refused
    decreases |es|
  {
    if es == [] {
      assert Marshalled(c, es) + bodies == bodies;
    } else {
      assert Storable(c, es[0]);
      var all := Marshalled(c, es) + bodies;
      assert all[0] == c.marshal(es[0]) && all[1..] == Marshalled(c, es[1..]) + bodies;
      FoldLastStops(c, es[1..], es[0].seqId, bodies, end);
    }
  }

  /** A record that is whole but does not decode, in any file, makes the log impossible to open. */
  lemma {:induction false} UndecodableBlocksOpen(c: Codec, d: Listing, i: nat, es: seq<Entry>, body: Bytes, rest: Bytes, max: int, mode: FlushMode)
    requires AllStorable(c, es) && Fits(body) && c.unmarshal(body) == None
    requires i < |d.files| && d.files[i] == Encode(c, es) + (Frame(c.crc, body) + rest)
    ensures Recover(c, d, max, mode) == None
  {
    MarshalledFit(c, es);
    FramesThen(c.crc, Marshalled(c, es), Frame(c.crc, body) + rest);
    FrameThen(c.crc, body, rest);
    FoldLastStops(c, es, 0, [body] + Bodies(c.crc, rest), EndOf(c.crc, rest));
    assert LastSeq(c, d.files[i]).1 == Refused;
  }

  /** So does a record whose body was changed, if the checksum tells. */
  lemma {:induction false} ChangedBodyBlocksOpen(c: Codec, d: Listing, i: nat, es: seq<Entry>, body: Bytes, body': Bytes, rest: Bytes, max: int, mode: FlushMode)
    requires AllStorable(c, es) && Fits(body) && |body'| == |body| && c.crc(body') != c.crc(body) && i < |d.files|
    requires var w := c.crc(body);
             d.files[i] == Encode(c, es) + (Varint.Put(|body|) + body' + [w.b0, w.b1, w.b2, w.b3] + rest)
    ensures Recover(c, d, max, mode) == None
  {
    MarshalledFit(c, es);
    ChangedBodyStopsScan(c.crc, Marshalled(c, es), body, body', rest);
    FoldLast(c, es, 0, ChecksumError);
    assert LastSeq(c, d.files[i]).1 == ChecksumError;
  }

  /** The last seq found in segment `i` of a layout. */
  lemma {:induction false} LastSeqOfPart(c: Codec, ids: seq<nat>, files: seq<Bytes>, h: seq<Entry>, tail: Bytes, i: nat)
    requires Layout(c, ids, files, h, tail) && i < |ids|
    ensures LastSeq(c, files[i]) == (if Part(ids, h, i) == [] then 0 else Upper(ids, h, i) - 1, Clean)
  {
    var part := Part(ids, h, i);
    PartBounds(ids, h, i);
    assert files[i] == Content(c, ids, h, tail, i);
    EmptyIsInert(c.crc);
    FileLast(c, part, if i == |ids| - 1 then tail else []);
    if part != [] {
      assert Last(part) == h[Upper(ids, h, i) - 2];
    }
  }

  /** Loading a layout always succeeds and rebuilds the index. */
  lemma {:induction false} LoadIndexes(c: Codec, d: Listing, h: seq<Entry>, tail: Bytes)
    requires Layout(c, d.ids, d.files, h, tail)
    ensures Scans(c, d) && Indexed(Loaded(c, d))
  {
    var segs := Loaded(c, d);
    forall i | 0 <= i < |d.files|
      ensures LastSeq(c, d.files[i]).1 == Clean
    {
      LastSeqOfPart(c, d.ids, d.files, h, tail, i);
    }
    forall i, j | 0 <= i < |segs| && j == i + 1 && j < |segs|
      ensures SealedAt(segs[i], segs[j].id)
    {
      LastSeqOfPart(c, d.ids, d.files, h, tail, i);
      LoadedSealed(c, d, h, i);
    }
  }

  lemma LoadedSealed(c: Codec, d: Listing, h: seq<Entry>, i: nat)
    requires Ordered(d.ids, h) && i + 1 < |d.ids|
    requires LastSeq(c, d.files[i]).0 == if Part(d.ids, h, i) == [] then 0 else Upper(d.ids, h, i) - 1
    ensures SealedAt(LoadOne(c, d, i), d.ids[i + 1])
  {
    PartBounds(d.ids, h, i);
    assert d.ids[i] < d.ids[i + 1];
  }

  /** The newest file holds at least one whole record. */
  predicate NewestHasRecord(c: Codec, d: Listing)
  {
    d.files != [] && Bodies(c.crc, Last(d.files)) != []
  }

  /** What the newest file must be for the next seq to be found in it. */
  predicate KnowsNextSeq(c: Codec, d: Listing)
  {
    d.ids == [] || NewestHasRecord(c, d) || Last(d.ids) == 1
  }

  /** Whatever nextSeq it comes to, a reopened log reads as the history in its files. */
  lemma {:induction false} ReopenedReads(c: Codec, d: Listing, h: seq<Entry>, tail: Bytes, max: int, mode: FlushMode, f: nat, m: int)
    requires Layout(c, d.ids, d.files, h, tail) && m > 0
    ensures Recover(c, d, max, mode).Some?
    ensures ReadSegments(c, Recover(c, d, max, mode).value.segments, f, m, []) == Query(h, f, m)
  {
    LoadIndexes(c, d, h, tail);
    var w := Log(Loaded(c, d), |h| + 1, max, mode);
    assert Ids(w) == d.ids && Files(w) == d.files;
    ReadAgreesWithHistory(c, w, h, tail, f, m);
  }

  /**
   Recovery. The next seq of a reopened log is the right one exactly when the newest file has a
   whole record, or is the file of seq 1, or there is no file: otherwise numbering restarts at 1.
   */
  lemma {:induction false} RecoveryExact(c: Codec, d: Listing, h: seq<Entry>, tail: Bytes, max: int, mode: FlushMode)
    requires Layout(c, d.ids, d.files, h, tail)
    ensures Recover(c, d, max, mode).Some?
    ensures var w := Recover(c, d, max, mode).value;
            && (w.nextSeq == |h| + 1 <==> KnowsNextSeq(c, d))
            && (w.nextSeq != |h| + 1 ==> w.nextSeq == 1)
            && (w.nextSeq == |h| + 1 ==> Valid(c, w, h, tail))
  {
    LoadIndexes(c, d, h, tail);
    if d.ids != [] {
      NewestSeq(c, d, h, tail);
    }
    var w := Recover(c, d, max, mode).value;
    assert Ids(w) == d.ids && Files(w) == d.files;
  }

  /** What the newest file says is the last seq, and whether that is so. */
  lemma {:induction false} NewestSeq(c: Codec, d: Listing, h: seq<Entry>, tail: Bytes)
    requires Layout(c, d.ids, d.files, h, tail) && d.ids != []
    ensures LastSeq(c, Last(d.files)).0 == |h| <==> KnowsNextSeq(c, d)
    ensures LastSeq(c, Last(d.files)).0 == |h| || LastSeq(c, Last(d.files)).0 == 0
  {
    var z := |d.ids| - 1;
    NewestBodies(c, d, h, tail);
    LastSeqOfPart(c, d.ids, d.files, h, tail, z);
    PartBounds(d.ids, h, z);
  }

  lemma NewestBodies(c: Codec, d: Listing, h: seq<Entry>, tail: Bytes)
    requires Layout(c, d.ids, d.files, h, tail) && d.ids != []
    ensures NewestHasRecord(c, d) <==> Part(d.ids, h, |d.ids| - 1) != []
  {
    var part := Part(d.ids, h, |d.ids| - 1);
    assert Last(d.files) == Content(c, d.ids, h, tail, |d.ids| - 1);
    MarshalledFit(c, part);
    FramesThenTail(c.crc, Marshalled(c, part), tail);
  }

  /** What a reopened log holds is what is on disk. */
  lemma ReopenedIsSynced(c: Codec, d: Listing)
    ensures forall i :: 0 <= i < |Loaded(c, d)| ==>
              Loaded(c, d)[i].file.synced == |Loaded(c, d)[i].file.bytes|
  {
  }

  /** The newest file ends where a record ends. */
  predicate EndsBetweenRecords(c: Codec, d: Listing)
  {
    d.files != [] ==> Last(d.files) == Frames(c.crc, Bodies(c.crc, Last(d.files)))
  }

  lemma TailFollowsRecords(c: Codec, d: Listing, h: seq<Entry>, tail: Bytes)
    requires Layout(c, d.ids, d.files, h, tail)
    ensures EndsBetweenRecords(c, d) <==> tail == []
  {
    if d.ids != [] {
      var z := |d.ids| - 1;
      var part := Part(d.ids, h, z);
      assert d.files[z] == Content(c, d.ids, h, tail, z);
      MarshalledFit(c, part);
      FramesThenTail(c.crc, Marshalled(c, part), tail);
      assert Last(d.files) == Frames(c.crc, Marshalled(c, part)) + tail;
    }
  }

  /**
   A crash and a reopen, together: the reopened log reads as a prefix of the old history, which
   holds all that was synced. However many appends follow, they are numbered on from that prefix,
   without a gap and without using a seq twice, if and only if the next seq is known; and if the
   newest file also ends between records, the log reads as the prefix extended by them.
   */
  lemma {:induction false} CrashThenReopen(c: Codec, w: Log, h: seq<Entry>, d: Listing, max: int, mode: FlushMode, ops: seq<Op>, f: nat, m: int)
    returns (n: nat)
    requires Valid(c, w, h, []) && CrashImage(w, d) && m > 0
    ensures Secured(c, w, h) <= n <= |h| && Recover(c, d, max, mode).Some?
    ensures ReadSegments(c, Recover(c, d, max, mode).value.segments, f, m, []) == Query(h[..n], f, m)
    ensures KnowsNextSeq(c, d) && EndsBetweenRecords(c, d) && AllStorable(c, Flat(h[..n], ops)) ==>
              var later := Run(c, Recover(c, d, max, mode).value, ops);
              ReadSegments(c, later.segments, f, m, []) == Query(Flat(h[..n], ops), f, m)
    ensures KnowsNextSeq(c, d) <==>
              Run(c, Recover(c, d, max, mode).value, ops).nextSeq == |Flat(h[..n], ops)| + 1
  {
    var tail;
    n, tail := CrashLosesOnlyASuffix(c, w, h, d);
    RecoveryExact(c, d, h[..n], tail, max, mode);
    RunCounts(c, Recover(c, d, max, mode).value, h[..n], ops);
    ReopenedReads(c, d, h[..n], tail, max, mode, f, m);
    if KnowsNextSeq(c, d) && EndsBetweenRecords(c, d) && AllStorable(c, Flat(h[..n], ops)) {
      TailFollowsRecords(c, d, h[..n], tail);
      RecoveryExact(c, d, h[..n], [], max, mode);
      var v := Recover(c, d, max, mode).value;
      ReopenedIsSynced(c, d);
      RunKeeps(c, v, h[..n], ops);
      ReadAgreesWithHistory(c, Run(c, v, ops), Flat(h[..n], ops), [], f, m);
    }
  }

  /** Appends take one seq each, whatever the log holds. */
  lemma {:induction false} RunCounts(c: Codec, w: Log, h: seq<Entry>, ops: seq<Op>)
    ensures Run(c, w, ops).nextSeq - w.nextSeq == |Flat(h, ops)| - |h|
    decreases |ops|
  {
    if ops != [] {
      ApplyCounts(c, w, ops[0]);
      RunCounts(c, Apply(c, w, ops[0]), if ops[0].Tick? then h else h + [ops[0].e.(seqId := |h| + 1)], ops[1..]);
    }
  }

  lemma ApplyCounts(c: Codec, w: Log, op: Op)
    ensures Apply(c, w, op).nextSeq == w.nextSeq + if op.Tick? then 0 else 1
  {
  }

  // ---- exactly what a crash can lose ----

  /** A crash may keep nothing but the synced bytes; then exactly the secured entries are left. */
  lemma {:induction false} CrashMayLoseTheRest(c: Codec, w: Log, h: seq<Entry>) returns (d: Listing, tail: Bytes)
    requires Valid(c, w, h, [])
    ensures CrashImage(w, d)
    ensures Secured(c, w, h) <= |h| && Layout(c, d.ids, d.files, h[..Secured(c, w, h)], tail)
  {
    if w.segments == [] {
      d, tail := Listing([], []), [];
      assert Ids(w) == [] && h == [];
    } else {
      var k := Last(w.segments).file.synced;
      d := Listing(Ids(w), SetLast(Files(w), Last(Files(w))[..k]));
      CutIsCrash(w, k);
      SecuredIs(c, w, h);
      var n;
      n, tail := CutLayout(c, Ids(w), Files(w), h, k);
      assert n == Secured(c, w, h);
    }
  }

  lemma SecuredIs(c: Codec, w: Log, h: seq<Entry>)
    requires w.segments != [] && Ordered(Ids(w), h)
    ensures Secured(c, w, h) == Last(Ids(w)) - 1 + Intact(c, Ids(w), h, Last(w.segments).file.synced)
  {
    PartBounds(Ids(w), h, |Ids(w)| - 1);
  }

  lemma CutIsCrash(w: Log, k: nat)
    requires w.segments != [] && Indexed(w.segments)
    requires Last(w.segments).file.synced <= k <= |Last(w.segments).file.bytes|
    ensures CrashImage(w, Listing(Ids(w), SetLast(Files(w), Last(Files(w))[..k])))
  {
    SealedAreSynced(w.segments);
  }

  /** Whatever a crash leaves of the log, it can be opened again and entry `k` be read from it. */
  ghost predicate Survives(c: Codec, w: Log, h: seq<Entry>, k: nat, max: int, mode: FlushMode)
  {
    1 <= k <= |h| && forall d :: CrashImage(w, d) ==>
      && Recover(c, d, max, mode).Some?
      && ReadSegments(c, Recover(c, d, max, mode).value.segments, k, 1, []) == [h[k - 1]]
  }

  /** Reading one entry of a reopened log finds it exactly if it is among those left. */
  lemma {:induction false} ReopenedHas(c: Codec, d: Listing, h: seq<Entry>, n: nat, tail: Bytes, k: nat, max: int, mode: FlushMode)
    requires n <= |h| && Layout(c, d.ids, d.files, h[..n], tail) && 1 <= k <= |h|
    ensures Recover(c, d, max, mode).Some?
    ensures ReadSegments(c, Recover(c, d, max, mode).value.segments, k, 1, []) == [h[k - 1]] <==> k <= n
  {
    ReopenedReads(c, d, h[..n], tail, max, mode, k, 1);
    QueryIsSlice(c, h[..n], k, 1);
    if k <= n {
      assert h[..n][k - 1..][..1] == [h[k - 1]];
    }
  }

  /** Durability, exactly: an entry survives every crash if and only if its record has been synced. */
  lemma {:induction false} SurvivesExact(c: Codec, w: Log, h: seq<Entry>, k: nat, max: int, mode: FlushMode)
    requires Valid(c, w, h, []) && 1 <= k <= |h|
    ensures Survives(c, w, h, k, max, mode) <==> k <= Secured(c, w, h)
  {
    if k <= Secured(c, w, h) {
      forall d | CrashImage(w, d)
        ensures Recover(c, d, max, mode).Some?
        ensures ReadSegments(c, Recover(c, d, max, mode).value.segments, k, 1, []) == [h[k - 1]]
      {
        var n, tail := CrashLosesOnlyASuffix(c, w, h, d);
        ReopenedHas(c, d, h, n, tail, k, max, mode);
      }
    } else {
      var d, tail := CrashMayLoseTheRest(c, w, h);
      ReopenedHas(c, d, h, Secured(c, w, h), tail, k, max, mode);
    }
  }

  /** Outside sync mode, then, the first append to a log that does not roll may be lost after it returned. */
  lemma {:induction false} AppendMayBeLost(c: Codec, e: Entry, max: int, mode: FlushMode)
    requires Storable(c, e.(seqId := 1)) && mode != FlushSync && |Frame(c.crc, c.marshal(e.(seqId := 1)))| < max
    ensures !Survives(c, AppendLog(c, Log([], 1, max, mode), e), [e.(seqId := 1)], 1, max, mode)
  {
    var w := AppendLog(c, Log([], 1, max, mode), e);
    EmptyValid(c, max, mode);
    AppendKeeps(c, Log([], 1, max, mode), [], e);
    assert [] + [e.(seqId := 1)] == [e.(seqId := 1)];
    FirstAppendStays(c, e, max, mode);
    assert Ids(w) == [1];
    assert Part([1], [e.(seqId := 1)], 0) == [e.(seqId := 1)];
    SurvivesExact(c, w, [e.(seqId := 1)], 1, max, mode);
  }

  lemma FirstAppendStays(c: Codec, e: Entry, max: int, mode: FlushMode)
    requires mode != FlushSync && |Frame(c.crc, c.marshal(e.(seqId := 1)))| < max
    ensures var w := AppendLog(c, Log([], 1, max, mode), e);
            |w.segments| == 1 && w.segments[0].id == 1 && w.segments[0].file.synced == 0
  {
    var w0 := Log([], 1, max, mode);
    assert Start(w0).segments == [Segment(1, 0, 0, File([], 0))];
  }

  /** Numbering does restart: an append that fills its segment, a close and a reopen, and seq 1 is next again. */
  lemma {:induction false} RestartAfterRoll(c: Codec, e: Entry, mode: FlushMode)
    requires Storable(c, e.(seqId := 1))
    ensures var w := AppendLog(c, Log([], 1, 1, mode), e);
            && w.nextSeq == 2
            && Recover(c, Listing(Ids(w), Files(w)), 1, mode).Some?
            && Recover(c, Listing(Ids(w), Files(w)), 1, mode).value.nextSeq == 1
  {
    var w0 := Log([], 1, 1, mode);
    EmptyValid(c, 1, mode);
    AppendKeeps(c, w0, [], e);
    FirstAppendRolls(c, e, mode);
    var w := AppendLog(c, w0, e);
    RecoveryExact(c, Listing(Ids(w), Files(w)), [] + [e.(seqId := 1)], [], 1, mode);
  }

  lemma FirstAppendRolls(c: Codec, e: Entry, mode: FlushMode)
    ensures var w := AppendLog(c, Log([], 1, 1, mode), e);
            |w.segments| == 2 && w.segments[1].id == 2 && w.segments[1].file.bytes == []
  {
    var w0 := Log([], 1, 1, mode);
    assert Start(w0).segments == [Segment(1, 0, 0, File([], 0))];
    assert |Roll(Write(c, Start(w0), e)).segments| == 2;
  }
}
