/**
 The Subscribe loop against a log that is being appended to and rolled. Each step is one action of
 the appender or of the subscriber; the append mutex excludes only what it excludes in the source.
 */
module Streaming {
  import opened Bytes
  import opened RecordIO
  import opened WalModel
  import opened WalReading

  /**
   Where the subscriber is. A read in progress has visited `i` of its `k` segments, and `seen` counts
   the history entries these cover; `open` says that the index has sent it into the next file.
   */
  datatype Phase =
    | Ready
    | Reading(k: nat, i: nat, out: seq<Entry>, seen: nat, open: bool)
    | Sending(batch: seq<Entry>)
    | Waiting

  /**
   `h` is the history of completed appends. `writing` is an append in progress and `partial` the
   bytes of its record already in the file. `base` is |h| when the current read took its snapshot
   of the segments. `signal` is the subscriber's one-slot channel.
   */
  datatype State = State(
    w: Log, h: seq<Entry>, writing: Option<Entry>, partial: Bytes,
    signal: bool, from: nat, phase: Phase, base: nat, sent: seq<seq<Entry>>)

  datatype Step =
    | BeginAppend(e: Entry) | WriteSome(n: nat) | EndAppend | Tick
    | StartRead | SkipSegment | OpenSegment | ScanSegment | FinishRead | Send | Wake

  /** What a reader finds in the file of segment `i` at this moment. */
  function Visible(s: State, i: nat): Bytes
    requires i < |s.w.segments|
  {
    s.w.segments[i].file.bytes + if i == |s.w.segments| - 1 then s.partial else []
  }

  /** The subscriber has registered its channel and asked for seq `f`. */
  predicate Init(c: Codec, f: nat, s: State) {
    && Valid(c, s.w, s.h, [])
    && s.writing == None && s.partial == []
    && !s.signal && f >= 1 && s.from == f
    && s.phase == Ready && s.base == 0 && s.sent == []
  }

  /** The result of scanning one segment during a read. */
  function Scanned(c: Codec, m: int, s: State): seq<Entry>
    requires s.phase.Reading? && s.phase.i < |s.w.segments|
  {
    ReadFile(c, Visible(s, s.phase.i), s.from, m, s.phase.out)
  }

  /** A read has another segment to visit. */
  predicate Visits(m: int, s: State) {
    s.phase.Reading? && s.phase.i < s.phase.k && s.phase.i < |s.w.segments| && |s.phase.out| < m
  }

  /** The record being written is complete in the file, though its append is not. */
  predicate FullyWritten(c: Codec, s: State) {
    IsComplete(c, s.writing, s.partial)
  }

  predicate IsComplete(c: Codec, writing: Option<Entry>, partial: Bytes) {
    writing.Some? && partial == Frame(c.crc, c.marshal(writing.value))
  }

  function Recorded(c: Codec, h: seq<Entry>, writing: Option<Entry>, partial: Bytes): seq<Entry> {
    h + if IsComplete(c, writing, partial) then [writing.value] else []
  }

  /** Completed appends, then the one in progress if its record is complete. */
  function Written(c: Codec, s: State): seq<Entry> {
    Recorded(c, s.h, s.writing, s.partial)
  }

  /** How many written entries are covered once segment `i` has been visited. */
  function Covered(c: Codec, s: State, i: nat): nat {
    if i + 1 < |s.w.segments| then Max(s.w.segments[i + 1].id - 1, 0)
    else |Written(c, s)|
  }

  predicate Next(c: Codec, m: int, s: State, step: Step, s': State) {
    match step
    // Append takes the mutex, numbers the entry and starts writing its record.
    case BeginAppend(e) =>
      && s.writing == None
      && Storable(c, e.(seqId := s.w.nextSeq))
      && s' == s.(w := Start(s.w), writing := Some(e.(seqId := s.w.nextSeq)))
    // More of the record becomes visible, any number of bytes at a time.
    case WriteSome(n) =>
      && s.writing.Some?
      && |s.partial| <= n <= |Frame(c.crc, c.marshal(s.writing.value))|
      && s' == s.(partial := Frame(c.crc, c.marshal(s.writing.value))[..n])
    // Append rolls if the segment is full, signals the channel and releases the mutex.
    case EndAppend =>
      && FullyWritten(c, s) && s.w.segments != []
      && s' == s.(w := Finish(Write(c, s.w, s.writing.value)), h := s.h + [s.writing.value],
                  writing := None, partial := [], signal := true)
    case Tick =>
      s.writing == None && s' == s.(w := SyncActive(s.w))
    // ReadFrom copies the segment list under the mutex.
    case StartRead =>
      && s.phase == Ready && s.writing == None
      && s' == s.(phase := Reading(|s.w.segments|, 0, [], 0, false), base := |s.h|)
    // It then visits the segments one by one, without the mutex: the index first, the file later.
    case SkipSegment =>
      && Visits(m, s) && !s.phase.open && Skips(s.w.segments[s.phase.i], s.from)
      && s' == s.(phase := Reading(s.phase.k, s.phase.i + 1, s.phase.out, Covered(c, s, s.phase.i), false))
    case OpenSegment =>
      && Visits(m, s) && !s.phase.open && !Skips(s.w.segments[s.phase.i], s.from)
      && s' == s.(phase := s.phase.(open := true))
    case ScanSegment =>
      && Visits(m, s) && s.phase.open
      && s' == s.(phase := Reading(s.phase.k, s.phase.i + 1, Scanned(c, m, s), Covered(c, s, s.phase.i), false))
    case FinishRead =>
      && s.phase.Reading? && !s.phase.open && (s.phase.i == s.phase.k || |s.phase.out| >= m)
      && s' == s.(phase := if s.phase.out == [] then Waiting else Sending(s.phase.out))
    case Send =>
      && s.phase.Sending? && s.phase.batch != []
      && s' == s.(phase := Ready, sent := s.sent + [s.phase.batch],
                  from := s.phase.batch[|s.phase.batch| - 1].seqId + 1)
    case Wake =>
      && s.phase == Waiting && s.signal
      && s' == s.(phase := Ready, signal := false)
  }

  // ---- the invariant ----

  function Flatten(batches: seq<seq<Entry>>): seq<Entry> {
    if batches == [] then [] else Flatten(batches[..|batches| - 1]) + batches[|batches| - 1]
  }

  /** The appender's side. */
  predicate AppenderOk(c: Codec, w: Log, h: seq<Entry>, writing: Option<Entry>, partial: Bytes) {
    && Valid(c, w, h, [])
    && match writing
       case None => partial == []
       case Some(e) =>
         && w.segments != []
         && e.seqId == |h| + 1 && Storable(c, e)
         && |partial| <= |Frame(c.crc, c.marshal(e))|
         && partial == Frame(c.crc, c.marshal(e))[..|partial|]
  }

  predicate LogOk(c: Codec, s: State) {
    AppenderOk(c, s.w, s.h, s.writing, s.partial)
  }

  lemma WrittenIsHistory(c: Codec, s: State)
    requires LogOk(c, s)
    ensures History(c, Written(c, s))
  {
  }

  lemma WrittenPrefix(c: Codec, s: State, n: nat)
    requires n <= |s.h|
    ensures Written(c, s)[..n] == s.h[..n]
  {
  }

  /** A read in progress holds exactly the answer over the entries it has covered. */
  predicate ReadOk(c: Codec, m: int, s: State) {
    s.phase.Reading? ==>
      && s.phase.i <= s.phase.k <= |s.w.segments|
      && (s.phase.open ==> s.phase.i < s.phase.k && |s.phase.out| < m)
      && s.phase.seen <= |Written(c, s)|
      && s.phase.out == Query(Written(c, s)[..s.phase.seen], s.from, m)
      && (s.phase.i < s.phase.k && |s.phase.out| < m ==> s.phase.seen == Max(s.w.segments[s.phase.i].id - 1, 0))
      && (s.phase.i == s.phase.k ==> s.base <= s.phase.seen)
      && s.base <= |s.h|
      && (s.phase.k < |s.w.segments| ==> s.base < s.w.segments[s.phase.k].id)
  }

  /** What has been sent is the run of seqs from `f` up to `from`. */
  predicate SentOk(c: Codec, f: nat, s: State) {
    && 1 <= f <= s.from
    && (s.sent == [] ==> s.from == f)
    && (s.sent != [] ==> s.from <= |Written(c, s)| + 1 && Flatten(s.sent) == Seqs(Written(c, s), f, s.from))
    && (s.phase.Sending? ==> IsBatch(Written(c, s), s.from, s.phase.batch))
  }

  /** An unsignalled subscriber that has started a read knows of every completed append. */
  predicate WakeOk(s: State) {
    && (s.phase.Reading? || s.phase.Waiting? ==> s.signal || s.base == |s.h|)
    && (s.phase.Waiting? ==> s.base < s.from)
  }

  predicate Inv(c: Codec, m: int, f: nat, s: State) {
    LogOk(c, s) && ReadOk(c, m, s) && SentOk(c, f, s) && WakeOk(s)
  }

  // ---- the appender's steps ----

  lemma BeginAppendLog(c: Codec, s: State, e: Entry)
    requires LogOk(c, s) && s.writing == None && Storable(c, e.(seqId := s.w.nextSeq))
    ensures LogOk(c, s.(w := Start(s.w), writing := Some(e.(seqId := s.w.nextSeq))))
  {
    if s.w.segments == [] {
      RollKeeps(c, s.w, s.h);
    }
  }

  lemma EndAppendLog(c: Codec, s: State, s': State)
    requires LogOk(c, s) && Next(c, 1, s, EndAppend, s')
    ensures LogOk(c, s') && Written(c, s') == Written(c, s)
  {
    var e := s.writing.value;
    assert e == e.(seqId := s.w.nextSeq);
    WriteKeeps(c, s.w, s.h, e);
    FinishKeeps(c, Write(c, s.w, e), s.h + [e]);
  }

  /** Segments are only ever added, and a new one starts at or behind the next seq. */
  predicate Extends(w: Log, w': Log) {
    && |w.segments| <= |w'.segments|
    && w.nextSeq <= w'.nextSeq
    && (forall i :: 0 <= i < |w.segments| ==> w'.segments[i].id == w.segments[i].id)
    && (forall i :: |w.segments| <= i < |w'.segments| ==> w.nextSeq <= w'.segments[i].id)
  }

  lemma RollExtends(w: Log)
    ensures Extends(w, Roll(w))
  {
  }

  lemma FinishExtends(w: Log)
    ensures Extends(w, Finish(w))
  {
    RollExtends(w);
  }

  lemma AppendExtends(c: Codec, w: Log, e: Entry)
    requires w.segments != []
    ensures Extends(w, Finish(Write(c, w, e)))
  {
    FinishExtends(Write(c, w, e));
  }

  /** A read in progress is not disturbed by appends and rolls. */
  lemma ReadUndisturbed(c: Codec, m: int, s: State, s': State)
    requires ReadOk(c, m, s) && s'.phase == s.phase && s'.from == s.from && s'.base == s.base
    requires Extends(s.w, s'.w) && |s.h| < s.w.nextSeq && |s.h| <= |s'.h|
    requires Longer(Written(c, s), Written(c, s'))
    ensures ReadOk(c, m, s')
  {
    if s.phase.Reading? {
      assert Written(c, s')[..s.phase.seen] == Written(c, s)[..s.phase.seen];
    }
  }

  lemma SentUndisturbed(c: Codec, f: nat, s: State, s': State)
    requires SentOk(c, f, s) && s'.phase == s.phase && s'.from == s.from && s'.sent == s.sent
    requires Longer(Written(c, s), Written(c, s'))
    ensures SentOk(c, f, s')
  {
    if s.sent != [] {
      SeqsOfLonger(Written(c, s), Written(c, s'), f, s.from);
    }
    if s.phase.Sending? {
      SeqsOfLonger(Written(c, s), Written(c, s'), s.from, s.from + |s.phase.batch|);
    }
  }

  /** The appender's steps leave the subscriber's side of the invariant alone. */
  lemma {:induction false} AppenderKeepsReader(c: Codec, m: int, f: nat, s: State, s': State)
    requires Inv(c, m, f, s) && LogOk(c, s') && Extends(s.w, s'.w)
    requires s'.phase == s.phase && s'.from == s.from && s'.base == s.base && s'.sent == s.sent
    requires |s.h| <= |s'.h| && (s'.signal || (s'.signal == s.signal && s'.h == s.h))
    requires Longer(Written(c, s), Written(c, s'))
    ensures Inv(c, m, f, s')
  {
    ReadUndisturbed(c, m, s, s');
    SentUndisturbed(c, f, s, s');
  }

  lemma {:induction false} AppenderSteps(c: Codec, m: int, f: nat, s: State, step: Step, s': State)
    requires Inv(c, m, f, s) && Next(c, m, s, step, s')
    requires step.BeginAppend? || step.WriteSome? || step.EndAppend? || step.Tick?
    ensures Inv(c, m, f, s')
  {
    match step {
      case BeginAppend(e) =>
        BeginAppendLog(c, s, e);
        RollExtends(s.w);
      case WriteSome(n) =>
      case EndAppend =>
        EndAppendLog(c, s, s');
        AppendExtends(c, s.w, s.writing.value);
      case Tick =>
        SyncKeeps(c, s.w, s.h, []);
    }
    AppenderKeepsReader(c, m, f, s, s');
  }

  // ---- the subscriber's steps ----

  /** The part of the newest segment, and the record in progress if it is complete. */
  function NewestPart(c: Codec, s: State): seq<Entry>
    requires LogOk(c, s) && s.w.segments != []
  {
    Part(Ids(s.w), s.h, |s.w.segments| - 1) + if FullyWritten(c, s) then [s.writing.value] else []
  }

  /** The newest file, record in progress included, reads as the entries written in full. */
  lemma {:induction false} NewestReads(c: Codec, m: int, s: State, out: seq<Entry>)
    requires LogOk(c, s) && s.w.segments != [] && |out| < m
    ensures ReadFile(c, Visible(s, |s.w.segments| - 1), s.from, m, out) == out + Query(NewestPart(c, s), s.from, m - |out|)
  {
    var z := |s.w.segments| - 1;
    var ids := Ids(s.w);
    var part := Part(ids, s.h, z);
    assert Files(s.w)[z] == Content(c, ids, s.h, [], z);
    assert Visible(s, z) == Encode(c, part) + s.partial;
    if FullyWritten(c, s) {
      var e := s.writing.value;
      EncodeSnoc(c, part, e);
      EmptyIsInert(c.crc);
      assert Encode(c, part + [e]) + [] == Visible(s, z);
      FileReads(c, part + [e], [], s.from, m, out);
    } else {
      EmptyIsInert(c.crc);
      if s.partial != [] {
        PrefixTorn(c.crc, c.marshal(s.writing.value), |s.partial|);
      }
      assert NewestPart(c, s) == part;
      FileReads(c, part, s.partial, s.from, m, out);
    }
  }

  lemma {:induction false} VisitSealed(c: Codec, m: int, s: State)
    requires LogOk(c, s) && ReadOk(c, m, s) && Visits(m, s) && s.phase.i < |s.w.segments| - 1
    ensures Covered(c, s, s.phase.i) <= |s.h|
    ensures var answer := Query(Written(c, s)[..Covered(c, s, s.phase.i)], s.from, m);
            Scanned(c, m, s) == answer && (Skips(s.w.segments[s.phase.i], s.from) ==> s.phase.out == answer)
  {
    var i := s.phase.i;
    var ids := Ids(s.w);
    PartBounds(ids, s.h, i);
    WrittenPrefix(c, s, ids[i] - 1);
    assert s.phase.out == Query(Before(ids, s.h, i), s.from, m);
    SegmentReads(c, s.w, s.h, [], s.from, m, i);
    CoversSealed(c, s, i);
    assert Visible(s, i) == s.w.segments[i].file.bytes;
  }

  lemma CoversSealed(c: Codec, s: State, i: nat)
    requires LogOk(c, s) && i < |s.w.segments| - 1
    ensures Covered(c, s, i) <= |s.h| && Before(Ids(s.w), s.h, i + 1) == Written(c, s)[..Covered(c, s, i)]
  {
    var ids := Ids(s.w);
    PartBounds(ids, s.h, i + 1);
    WrittenPrefix(c, s, ids[i + 1] - 1);
  }

  lemma {:induction false} CoversNewest(c: Codec, s: State)
    requires LogOk(c, s) && s.w.segments != []
    ensures var z := |s.w.segments| - 1;
            Written(c, s)[..Covered(c, s, z)] == Before(Ids(s.w), s.h, z) + NewestPart(c, s)
  {
    var ids, z := Ids(s.w), |s.w.segments| - 1;
    BeforeNext(ids, s.h, z);
    Assoc(Before(ids, s.h, z), Part(ids, s.h, z), if FullyWritten(c, s) then [s.writing.value] else []);
  }

  lemma {:induction false} VisitNewest(c: Codec, m: int, s: State)
    requires LogOk(c, s) && ReadOk(c, m, s) && Visits(m, s) && s.phase.i == |s.w.segments| - 1
    ensures Scanned(c, m, s) == Query(Written(c, s)[..Covered(c, s, s.phase.i)], s.from, m)
  {
    var i := s.phase.i;
    var ids := Ids(s.w);
    PartBounds(ids, s.h, i);
    WrittenPrefix(c, s, ids[i] - 1);
    NewestReads(c, m, s, s.phase.out);
    CoversNewest(c, s);
    QueryConcat(Before(ids, s.h, i), NewestPart(c, s), s.from, m);
  }

  /** Visiting one more segment, by scanning or skipping it, extends the answer to the entries it covers. */
  lemma {:induction false} VisitCovers(c: Codec, m: int, s: State)
    requires LogOk(c, s) && ReadOk(c, m, s) && Visits(m, s)
    ensures Covered(c, s, s.phase.i) <= |Written(c, s)|
    ensures var answer := Query(Written(c, s)[..Covered(c, s, s.phase.i)], s.from, m);
            Scanned(c, m, s) == answer && (Skips(s.w.segments[s.phase.i], s.from) ==> s.phase.out == answer)
  {
    if s.phase.i < |s.w.segments| - 1 {
      VisitSealed(c, m, s);
    } else {
      VisitNewest(c, m, s);
    }
  }

  lemma {:induction false} VisitStep(c: Codec, m: int, f: nat, s: State, step: Step, s': State)
    requires Inv(c, m, f, s) && Next(c, m, s, step, s') && (step.SkipSegment? || step.ScanSegment?)
    ensures Inv(c, m, f, s')
  {
    VisitCovers(c, m, s);
  }

  lemma SliceTaken(es: seq<Entry>, seen: nat, lo: nat, m: int)
    requires lo <= seen <= |es|
    ensures var out := Take(es[..seen][lo..], m); lo + |out| <= |es| && out == es[lo..lo + |out|]
  {
  }

  /** The answer of a finished read, as a run of seqs. */
  lemma {:induction false} AnswerIsRun(c: Codec, es: seq<Entry>, seen: nat, from: nat, m: int)
    requires History(c, es) && seen <= |es| && m > 0 && from >= 1
    ensures var out := Query(es[..seen], from, m);
            && (out == [] ==> seen < from)
            && (out != [] ==> IsBatch(es, from, out))
  {
    QueryIsSlice(c, es[..seen], from, m);
    var out := Query(es[..seen], from, m);
    if out != [] {
      SliceTaken(es, seen, from - 1, m);
    }
  }

  lemma {:induction false} FinishReadStep(c: Codec, m: int, f: nat, s: State, s': State)
    requires Inv(c, m, f, s) && Next(c, m, s, FinishRead, s') && m > 0
    ensures Inv(c, m, f, s')
  {
    WrittenIsHistory(c, s);
    AnswerIsRun(c, Written(c, s), s.phase.seen, s.from, m);
  }

  lemma FlattenSnoc(batches: seq<seq<Entry>>, b: seq<Entry>)
    ensures Flatten(batches + [b]) == Flatten(batches) + b
  {
    assert (batches + [b])[..|batches|] == batches;
  }

  lemma SeqsJoin(es: seq<Entry>, lo: nat, mid: nat, hi: nat)
    requires 1 <= lo <= mid <= hi <= |es| + 1
    ensures Seqs(es, lo, mid) + Seqs(es, mid, hi) == Seqs(es, lo, hi)
  {
  }

  lemma LastOfSeqs(c: Codec, es: seq<Entry>, lo: nat, hi: nat)
    requires History(c, es) && 1 <= lo < hi <= |es| + 1
    ensures Last(Seqs(es, lo, hi)).seqId == hi - 1
  {
    assert Last(Seqs(es, lo, hi)) == es[hi - 2];
  }

  lemma SendExtendsRun(c: Codec, f: nat, s: State, s': State)
    requires SentOk(c, f, s) && History(c, Written(c, s)) && s.phase.Sending? && s.phase.batch != []
    requires s' == s.(phase := Ready, sent := s.sent + [s.phase.batch], from := Last(s.phase.batch).seqId + 1)
    ensures SentOk(c, f, s') && s'.from == s.from + |s.phase.batch|
  {
    var b := s.phase.batch;
    var hi := s.from + |b|;
    LastOfSeqs(c, Written(c, s), s.from, hi);
    FlattenSnoc(s.sent, b);
    SeqsJoin(Written(c, s), f, s.from, hi);
    if s.sent == [] {
      assert Flatten(s.sent) + b == b;
    }
  }

  lemma {:induction false} SendStep(c: Codec, m: int, f: nat, s: State, s': State)
    requires Inv(c, m, f, s) && Next(c, m, s, Send, s')
    ensures Inv(c, m, f, s') && s'.from == s.from + |s.phase.batch|
  {
    WrittenIsHistory(c, s);
    SendExtendsRun(c, f, s, s');
  }

  lemma {:induction false} StepKeeps(c: Codec, m: int, f: nat, s: State, step: Step, s': State)
    requires Inv(c, m, f, s) && Next(c, m, s, step, s') && m > 0
    ensures Inv(c, m, f, s')
  {
    match step {
      case StartRead => StartReadStep(c, m, f, s, s');
      case SkipSegment => VisitStep(c, m, f, s, step, s');
      case OpenSegment =>
      case ScanSegment => VisitStep(c, m, f, s, step, s');
      case FinishRead => FinishReadStep(c, m, f, s, s');
      case Send => SendStep(c, m, f, s, s');
      case Wake =>
      case _ => AppenderSteps(c, m, f, s, step, s');
    }
  }

  lemma {:induction false} StartReadStep(c: Codec, m: int, f: nat, s: State, s': State)
    requires Inv(c, m, f, s) && Next(c, m, s, StartRead, s')
    ensures Inv(c, m, f, s')
  {
    FirstSegment(c, s.w, s.h);
    StartReadOk(c, m, s, s');
    assert LogOk(c, s') && SentOk(c, f, s') && WakeOk(s');
  }

  lemma StartReadOk(c: Codec, m: int, s: State, s': State)
    requires s' == s.(phase := Reading(|s.w.segments|, 0, [], 0, false), base := |s.h|)
    requires s.w.segments == [] ==> s.h == []
    requires s.w.segments != [] ==> s.w.segments[0].id == 1
    ensures ReadOk(c, m, s')
  {
    assert Written(c, s')[..0] == [];
    assert Query([], s.from, m) == [];
  }

  lemma FirstSegment(c: Codec, w: Log, h: seq<Entry>)
    requires Valid(c, w, h, [])
    ensures w.segments == [] ==> h == []
    ensures w.segments != [] ==> w.segments[0].id == 1
  {
    if w.segments == [] {
      assert Ids(w) == [];
    } else {
      assert Ids(w)[0] == 1;
    }
  }

  // ---- every run ----

  predicate StepAt(c: Codec, m: int, states: seq<State>, steps: seq<Step>, i: nat) {
    i < |steps| < |states| && Next(c, m, states[i], steps[i], states[i + 1])
  }

  predicate IsPath(c: Codec, m: int, states: seq<State>, steps: seq<Step>) {
    |states| == |steps| + 1 && forall i :: 0 <= i < |steps| ==> StepAt(c, m, states, steps, i)
  }

  predicate IsRun(c: Codec, m: int, f: nat, states: seq<State>, steps: seq<Step>) {
    IsPath(c, m, states, steps) && Init(c, f, states[0])
  }

  lemma {:induction false} RunKeepsInv(c: Codec, m: int, f: nat, states: seq<State>, steps: seq<Step>, i: nat)
    requires IsRun(c, m, f, states, steps) && m > 0 && i < |states|
    ensures Inv(c, m, f, states[i])
  {
    if i > 0 {
      RunKeepsInv(c, m, f, states, steps, i - 1);
      assert StepAt(c, m, states, steps, i - 1);
      StepKeeps(c, m, f, states[i - 1], steps[i - 1], states[i]);
    }
  }

  /**
   Stream contiguity: under any interleaving of appends, rolls and reads, also of a half-written
   record, the batches of a stream asked from seq `f` are together the entries f, f + 1, ... of
   the log, each once and in order.
   */
  lemma {:induction false} StreamIsContiguous(c: Codec, m: int, f: nat, states: seq<State>, steps: seq<Step>, i: nat)
    requires IsRun(c, m, f, states, steps) && m > 0 && i < |states|
    ensures var s := states[i];
            && f <= s.from
            && (s.sent == [] ==> s.from == f)
            && (s.sent != [] ==> s.from <= |Written(c, s)| + 1 && Flatten(s.sent) == Seqs(Written(c, s), f, s.from))
            && History(c, Written(c, s))
  {
    RunKeepsInv(c, m, f, states, steps, i);
    WrittenIsHistory(c, states[i]);
  }

  /** Every batch sent continues the stream, and the next one starts right behind it. */
  lemma {:induction false} SentBatchContinues(c: Codec, m: int, f: nat, states: seq<State>, steps: seq<Step>, i: nat)
    requires IsRun(c, m, f, states, steps) && m > 0 && i < |steps| && steps[i] == Send
    ensures states[i].phase.Sending? && IsBatch(Written(c, states[i]), states[i].from, states[i].phase.batch)
    ensures states[i + 1].from == states[i].from + |states[i].phase.batch|
    ensures Last(states[i].phase.batch).seqId == states[i + 1].from - 1
  {
    RunKeepsInv(c, m, f, states, steps, i);
    assert StepAt(c, m, states, steps, i);
    SendStep(c, m, f, states[i], states[i + 1]);
  }

  /**
   No lost wake-up: a subscriber that waits on an empty channel has already sent every entry, from
   `f` on, whose append has completed.
   */
  lemma {:induction false} NoLostWakeUp(c: Codec, m: int, f: nat, states: seq<State>, steps: seq<Step>, i: nat)
    requires IsRun(c, m, f, states, steps) && m > 0 && i < |states|
    requires states[i].phase == Waiting && !states[i].signal
    ensures var s := states[i];
            && |s.h| < s.from
            && (f <= |s.h| ==> s.sent != [] && s.h[f - 1..] <= Flatten(s.sent))
  {
    RunKeepsInv(c, m, f, states, steps, i);
    var s := states[i];
    if f <= |s.h| {
      assert s.h[f - 1..] == Seqs(Written(c, s), f, |s.h| + 1);
    }
  }
}
