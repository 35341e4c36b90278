/** ReadFrom over segments, and its agreement with a query of the flat history. */
module WalReading {
  import opened Bytes
  import opened RecordIO
  import opened WalModel

  /** The entries with seq at least `f`, in order. */
  function AtLeast(es: seq<Entry>, f: nat): seq<Entry> {
    if es == [] then []
    else (if es[0].seqId >= f then [es[0]] else []) + AtLeast(es[1..], f)
  }

  /** The reference answer: the first `m` entries with seq at least `f`. */
  function Query(es: seq<Entry>, f: nat, m: int): seq<Entry> {
    Take(AtLeast(es, f), m)
  }

  /** ReadFrom's scan callback. */
  function ReadFn(c: Codec, f: nat, m: int): (seq<Entry>, Bytes) -> Verdict<seq<Entry>> {
    (out: seq<Entry>, body: Bytes) =>
      match c.unmarshal(body)
      case None => Refuse(out)
      case Some(e) =>
        if e.seqId < f then Continue(out)
        else if |out| + 1 >= m then Stop(out + [e])
        else Continue(out + [e])
  }

  /** Scanning one segment file; a scan error is ignored, as in the source. */
  function ReadFile(c: Codec, bytes: Bytes, f: nat, m: int, out: seq<Entry>): seq<Entry> {
    Fold(ReadFn(c, f, m), out, Bodies(c.crc, bytes), EndOf(c.crc, bytes)).0
  }

  predicate Skips(s: Segment, f: nat) {
    s.endSeq != 0 && s.endSeq < f
  }

  /** ReadFrom over the remaining segments. */
  function ReadSegments(c: Codec, segs: seq<Segment>, f: nat, m: int, out: seq<Entry>): seq<Entry> {
    if segs == [] then out
    else if Skips(segs[0], f) then ReadSegments(c, segs[1..], f, m, out)
    else
      var out' := ReadFile(c, segs[0].file.bytes, f, m, out);
      if |out'| >= m then out' else ReadSegments(c, segs[1..], f, m, out')
  }

  // ---- queries ----

  lemma {:induction false} AtLeastConcat(a: seq<Entry>, b: seq<Entry>, f: nat)
    ensures AtLeast(a + b, f) == AtLeast(a, f) + AtLeast(b, f)
    decreases |a|
  {
    if a == [] {
      assert a + b == b;
    } else {
      assert (a + b)[1..] == a[1..] + b;
      AtLeastConcat(a[1..], b, f);
      Assoc(if a[0].seqId >= f then [a[0]] else [], AtLeast(a[1..], f), AtLeast(b, f));
    }
  }

  lemma QueryConcat(a: seq<Entry>, b: seq<Entry>, f: nat, m: int)
    ensures Query(a + b, f, m) == Query(a, f, m) + Query(b, f, m - |Query(a, f, m)|)
  {
    AtLeastConcat(a, b, f);
  }

  /** Nothing qualifies among entries that all lie before `f`. */
  lemma {:induction false} AtLeastNone(es: seq<Entry>, f: nat)
    requires forall i :: 0 <= i < |es| ==> es[i].seqId < f
    ensures AtLeast(es, f) == []
    decreases |es|
  {
    if es != [] {
      AtLeastNone(es[1..], f);
    }
  }

  /** Everything qualifies among entries that all lie at or after `f`. */
  lemma {:induction false} AtLeastAll(es: seq<Entry>, f: nat)
    requires forall i :: 0 <= i < |es| ==> es[i].seqId >= f
    ensures AtLeast(es, f) == es
    decreases |es|
  {
    if es != [] {
      AtLeastAll(es[1..], f);
    }
  }

  /** On a contiguous history the query is a slice: exactly the seqs f, f + 1, ... */
  lemma {:induction false} QueryIsSlice(c: Codec, h: seq<Entry>, f: nat, m: int)
    requires History(c, h) && f >= 1
    ensures Query(h, f, m) == if f - 1 <= |h| then Take(h[f - 1..], m) else []
  {
    if f - 1 <= |h| {
      assert h == h[..f - 1] + h[f - 1..];
      AtLeastConcat(h[..f - 1], h[f - 1..], f);
      AtLeastNone(h[..f - 1], f);
      AtLeastAll(h[f - 1..], f);
    } else {
      AtLeastNone(h, f);
    }
  }

  // ---- scanning one file ----

  lemma QueryCons(es: seq<Entry>, f: nat, m: int)
    requires es != [] && m > 0
    ensures Query(es, f, m) == if es[0].seqId < f then Query(es[1..], f, m) else [es[0]] + Query(es[1..], f, m - 1)
  {
    if es[0].seqId < f {
      assert AtLeast(es, f) == AtLeast(es[1..], f);
    }
  }

  lemma QueryNothing(es: seq<Entry>, f: nat, out: seq<Entry>)
    ensures out + Query(es, f, 0) == out
  {
  }

  /** One step of the scan over a stored entry. */
  lemma FoldStep(c: Codec, e: Entry, rest: seq<Bytes>, end: End, f: nat, m: int, out: seq<Entry>)
    requires Storable(c, e)
    ensures Fold(ReadFn(c, f, m), out, [c.marshal(e)] + rest, end) ==
            if e.seqId < f then Fold(ReadFn(c, f, m), out, rest, end)
            else if |out| + 1 >= m then (out + [e], Clean)
            else Fold(ReadFn(c, f, m), out + [e], rest, end)
  {
    assert ([c.marshal(e)] + rest)[1..] == rest;
  }

  lemma {:induction false} FoldReads(c: Codec, es: seq<Entry>, f: nat, m: int, out: seq<Entry>)
    requires AllStorable(c, es) && |out| < m
    ensures Fold(ReadFn(c, f, m), out, Marshalled(c, es), Clean) == (out + Query(es, f, m - |out|), Clean)
    decreases |es|
  {
    if es == [] {
      assert out + Query(es, f, m - |out|) == out;
    } else {
      var e, rest := es[0], es[1..];
      assert Storable(c, e);
      FoldStep(c, e, Marshalled(c, rest), Clean, f, m, out);
      QueryCons(es, f, m - |out|);
      if e.seqId < f {
        FoldReads(c, rest, f, m, out);
      } else {
        Assoc(out, [e], Query(rest, f, m - |out| - 1));
        if |out| + 1 < m {
          FoldReads(c, rest, f, m, out + [e]);
        } else {
          QueryNothing(rest, f, out + [e]);
        }
      }
    }
  }

  /** A file that holds these entries and then no further record reads as these entries. */
  lemma {:induction false} FileReads(c: Codec, es: seq<Entry>, tail: Bytes, f: nat, m: int, out: seq<Entry>)
    requires AllStorable(c, es) && Inert(c.crc, tail) && |out| < m
    ensures ReadFile(c, Encode(c, es) + tail, f, m, out) == out + Query(es, f, m - |out|)
  {
    MarshalledFit(c, es);
    FramesThenTail(c.crc, Marshalled(c, es), tail);
    FoldReads(c, es, f, m, out);
  }

  /** A body that does not decode ends the scan: what was found before it is all there is. */
  lemma {:induction false} FoldStops(c: Codec, es: seq<Entry>, bodies: seq<Bytes>, end: End, f: nat, m: int, out: seq<Entry>)
    requires AllStorable(c, es) && |out| < m && bodies != [] && c.unmarshal(bodies[0]) == None
    ensures Fold(ReadFn(c, f, m), out, Marshalled(c, es) + bodies, end).0 == out + Query(es, f, m - |out|)
    decreases |es|
  {
    if es == [] {
      assert Marshalled(c, es) + bodies == bodies;
      assert out + Query(es, f, m - |out|) == out;
    } else {
      var e, rest := es[0], es[1..];
      assert Storable(c, e);
      Assoc([c.marshal(e)], Marshalled(c, rest), bodies);
      FoldStep(c, e, Marshalled(c, rest) + bodies, end, f, m, out);
      QueryCons(es, f, m - |out|);
      if e.seqId < f {
        FoldStops(c, rest, bodies, end, f, m, out);
      } else {
        Assoc(out, [e], Query(rest, f, m - |out| - 1));
        if |out| + 1 < m {
          FoldStops(c, rest, bodies, end, f, m, out + [e]);
        } else {
          QueryNothing(rest, f, out + [e]);
        }
      }
    }
  }

  /** So a record that is whole but does not decode hides the rest of its file, without an error. */
  lemma {:induction false} UndecodableHidesRest(c: Codec, es: seq<Entry>, body: Bytes, rest: Bytes, f: nat, m: int, out: seq<Entry>)
    requires AllStorable(c, es) && Fits(body) && c.unmarshal(body) == None && |out| < m
    ensures ReadFile(c, Encode(c, es) + (Frame(c.crc, body) + rest), f, m, out) == out + Query(es, f, m - |out|)
  {
    MarshalledFit(c, es);
    FramesThen(c.crc, Marshalled(c, es), Frame(c.crc, body) + rest);
    FrameThen(c.crc, body, rest);
    FoldStops(c, es, [body] + Bodies(c.crc, rest), EndOf(c.crc, rest), f, m, out);
  }

  // ---- the index agrees with the flat log ----

  /** The history before segment `i`. */
  function Before(ids: seq<nat>, h: seq<Entry>, i: nat): seq<Entry>
    requires Ordered(ids, h) && i <= |ids|
  {
    if i == |ids| then h
    else
      PartBounds(ids, h, i);
      h[..ids[i] - 1]
  }

  lemma BeforeNext(ids: seq<nat>, h: seq<Entry>, i: nat)
    requires Ordered(ids, h) && i < |ids|
    ensures Before(ids, h, i + 1) == Before(ids, h, i) + Part(ids, h, i)
  {
    PartBounds(ids, h, i);
  }

  /** Reading segment `i`, or skipping it if the index says so, carries the query from the history before it to the history after it. */
  lemma {:induction false} SegmentReads(c: Codec, w: Log, h: seq<Entry>, tail: Bytes, f: nat, m: int, i: nat)
    requires Valid(c, w, h, tail) && i < |w.segments|
    requires |Query(Before(Ids(w), h, i), f, m)| < m
    ensures var out := Query(Before(Ids(w), h, i), f, m);
            && ReadFile(c, w.segments[i].file.bytes, f, m, out) == Query(Before(Ids(w), h, i + 1), f, m)
            && (Skips(w.segments[i], f) ==> out == Query(Before(Ids(w), h, i + 1), f, m))
  {
    var ids := Ids(w);
    var out := Query(Before(ids, h, i), f, m);
    var part := Part(ids, h, i);
    BeforeNext(ids, h, i);
    PartBounds(ids, h, i);
    QueryConcat(Before(ids, h, i), part, f, m);
    if Skips(w.segments[i], f) {
      assert i < |w.segments| - 1;
      assert SealedAt(w.segments[i], w.segments[i + 1].id);
      AtLeastNone(part, f);
    }
    assert Files(w)[i] == Content(c, ids, h, tail, i);
    EmptyIsInert(c.crc);
    FileReads(c, part, if i == |ids| - 1 then tail else [], f, m, out);
  }

  lemma {:induction false} ReadFromSegment(c: Codec, w: Log, h: seq<Entry>, tail: Bytes, f: nat, m: int, i: nat)
    requires Valid(c, w, h, tail) && i <= |w.segments|
    requires |Query(Before(Ids(w), h, i), f, m)| < m
    ensures ReadSegments(c, w.segments[i..], f, m, Query(Before(Ids(w), h, i), f, m)) == Query(h, f, m)
    decreases |w.segments| - i
  {
    if i < |w.segments| {
      SegmentReads(c, w, h, tail, f, m, i);
      assert w.segments[i..][0] == w.segments[i] && w.segments[i..][1..] == w.segments[i + 1..];
      var next := Query(Before(Ids(w), h, i + 1), f, m);
      if |next| < m {
        ReadFromSegment(c, w, h, tail, f, m, i + 1);
      } else {
        QueryFull(c, w, h, f, m, i + 1);
      }
    }
  }

  /** A query that is already full does not change with more history. */
  lemma {:induction false} QueryFull(c: Codec, w: Log, h: seq<Entry>, f: nat, m: int, i: nat)
    requires Ordered(Ids(w), h) && i <= |w.segments| && m > 0
    requires |Query(Before(Ids(w), h, i), f, m)| >= m
    ensures Query(Before(Ids(w), h, i), f, m) == Query(h, f, m)
  {
    var prefix := Before(Ids(w), h, i);
    assert h == prefix + h[|prefix|..];
    QueryConcat(prefix, h[|prefix|..], f, m);
  }

  /** Index agrees with flat log: skipping by endSeq never changes what a read returns. */
  lemma {:induction false} ReadAgreesWithHistory(c: Codec, w: Log, h: seq<Entry>, tail: Bytes, f: nat, m: int)
    requires Valid(c, w, h, tail) && m > 0
    ensures ReadSegments(c, w.segments, f, m, []) == Query(h, f, m)
  {
    var ids := Ids(w);
    if ids != [] {
      assert Before(ids, h, 0) == [];
    }
    assert Query(Before(ids, h, 0), f, m) == [];
    ReadFromSegment(c, w, h, tail, f, m, 0);
    assert w.segments[0..] == w.segments;
  }

  // ---- every reachable log ----

  /** What can happen to an open log: an append, or a tick of the periodic flusher. */
  datatype Op = Append(e: Entry) | Tick

  function Apply(c: Codec, w: Log, op: Op): Log {
    match op
    case Append(e) => AppendLog(c, w, e)
    case Tick => SyncActive(w)
  }

  function Run(c: Codec, w: Log, ops: seq<Op>): Log
    decreases |ops|
  {
    if ops == [] then w else Run(c, Apply(c, w, ops[0]), ops[1..])
  }

  /** The flat history: the appended entries, numbered in order. */
  function Flat(h: seq<Entry>, ops: seq<Op>): seq<Entry>
    decreases |ops|
  {
    if ops == [] then h
    else
      match ops[0]
      case Append(e) => Flat(h + [e.(seqId := |h| + 1)], ops[1..])
      case Tick => Flat(h, ops[1..])
  }

  lemma {:induction false} RunKeeps(c: Codec, w: Log, h: seq<Entry>, ops: seq<Op>)
    requires Valid(c, w, h, []) && AllStorable(c, Flat(h, ops))
    requires w.mode.FlushSync? ==> AllSynced(w)
    ensures Valid(c, Run(c, w, ops), Flat(h, ops), [])
    ensures w.mode.FlushSync? ==> AllSynced(Run(c, w, ops))
    ensures |h| <= |Flat(h, ops)| && Flat(h, ops)[..|h|] == h
    decreases |ops|
  {
    if ops != [] {
      FlatExtends(h, ops);
      match ops[0] {
        case Append(e) =>
          var h' := h + [e.(seqId := |h| + 1)];
          FlatExtends(h', ops[1..]);
          assert Flat(h, ops)[..|h'|][|h|] == h'[|h|];
          assert Storable(c, h'[|h|]);
          AppendKeeps(c, w, h, e);
          RunKeeps(c, AppendLog(c, w, e), h', ops[1..]);
        case Tick =>
          SyncKeeps(c, w, h, []);
          RunKeeps(c, SyncActive(w), h, ops[1..]);
      }
    }
  }

  lemma {:induction false} FlatExtends(h: seq<Entry>, ops: seq<Op>)
    ensures |h| <= |Flat(h, ops)| && Flat(h, ops)[..|h|] == h
    decreases |ops|
  {
    if ops != [] {
      match ops[0] {
        case Append(e) =>
          FlatExtends(h + [e.(seqId := |h| + 1)], ops[1..]);
        case Tick =>
          FlatExtends(h, ops[1..]);
      }
    }
  }

  /**
   In every log reachable from an empty directory, with any segment size, flush mode and number of
   rolls, a read returns the first `m` entries with seq at least `f` of everything appended.
   */
  lemma {:induction false} ReachableReads(c: Codec, max: int, mode: FlushMode, ops: seq<Op>, f: nat, m: int)
    requires AllStorable(c, Flat([], ops)) && m > 0
    ensures var w := Run(c, Log([], 1, max, mode), ops);
            && ReadSegments(c, w.segments, f, m, []) == Query(Flat([], ops), f, m)
            && w.nextSeq == |Flat([], ops)| + 1
  {
    var w := Log([], 1, max, mode);
    EmptyValid(c, max, mode);
    RunKeeps(c, w, [], ops);
    ReadAgreesWithHistory(c, Run(c, w, ops), Flat([], ops), [], f, m);
  }
}
