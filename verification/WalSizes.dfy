/** When segments are rolled: the log is cut greedily, as soon as a file has reached the size limit. */
module WalSizes {
  import opened Bytes
  import opened RecordIO
  import opened WalModel
  import opened WalReading

  /** An append rolls exactly if its record brings the active file to the limit, whatever the log holds. */
  lemma {:induction false} RollsExact(c: Codec, w: Log, e: Entry)
    ensures var s := Start(w);
            var bytes := Last(s.segments).file.bytes + Frame(c.crc, c.marshal(e.(seqId := w.nextSeq)));
            |AppendLog(c, w, e).segments| == |s.segments| + if |bytes| >= w.segmentMax then 1 else 0
  {
    var s := Start(w);
    var v := Write(c, s, e);
    assert |v.segments| == |s.segments| && Last(v.segments).size == |Last(v.segments).file.bytes|;
    assert |Roll(v).segments| == |v.segments| + 1;
  }

  /** No record but the last brings the file to the limit. */
  predicate LastMayFill(c: Codec, part: seq<Entry>, max: int) {
    forall k :: 1 <= k < |part| ==> |Encode(c, part[..k])| < max
  }

  /** The entries of a sealed segment: its last record, and no earlier one, has brought it to the limit. */
  predicate Fills(c: Codec, part: seq<Entry>, max: int) {
    part != [] && LastMayFill(c, part, max) && |Encode(c, part)| >= max
  }

  /** The entries of the active segment: it is still below the limit, unless it has none. */
  predicate IsBelow(c: Codec, part: seq<Entry>, max: int) {
    LastMayFill(c, part, max) && (part != [] ==> |Encode(c, part)| < max)
  }

  predicate SealedFill(c: Codec, ids: seq<nat>, h: seq<Entry>, max: int) {
    Ordered(ids, h) && forall i :: 0 <= i < |ids| - 1 ==> Fills(c, Part(ids, h, i), max)
  }

  predicate CutGreedily(c: Codec, ids: seq<nat>, h: seq<Entry>, max: int) {
    SealedFill(c, ids, h, max) && (ids != [] ==> IsBelow(c, Part(ids, h, |ids| - 1), max))
  }

  predicate Greedy(c: Codec, w: Log, h: seq<Entry>) {
    CutGreedily(c, Ids(w), h, w.segmentMax)
  }

  lemma {:induction false} StartGreedy(c: Codec, w: Log, h: seq<Entry>)
    requires Valid(c, w, h, []) && Greedy(c, w, h)
    ensures Valid(c, Start(w), h, []) && Greedy(c, Start(w), h)
  {
    if w.segments == [] {
      RollKeeps(c, w, h);
      assert Ids(Start(w)) == [1];
    }
  }

  /** The write adds to the last part; every proper part of it is below the limit. */
  lemma {:induction false} WriteGreedy(c: Codec, w: Log, h: seq<Entry>, e: Entry)
    requires Valid(c, w, h, []) && w.segments != [] && Greedy(c, w, h) && Storable(c, e.(seqId := w.nextSeq))
    ensures var w', h' := Write(c, w, e), h + [e.(seqId := w.nextSeq)];
            && SealedFill(c, Ids(w'), h', w.segmentMax) && w'.segments != []
            && var part := Part(Ids(w'), h', |w'.segments| - 1);
               part != [] && LastMayFill(c, part, w.segmentMax) && Last(w'.segments).size == |Encode(c, part)|
  {
    var e' := e.(seqId := w.nextSeq);
    var w', h', z := Write(c, w, e), h + [e'], |w.segments| - 1;
    assert Ids(w') == Ids(w);
    WriteKeeps(c, w, h, e);
    forall i | 0 <= i < |w.segments|
      ensures Part(Ids(w'), h', i) == if i == z then Part(Ids(w), h, i) + [e'] else Part(Ids(w), h, i)
    {
      PartOfLonger(Ids(w), h, e', i);
    }
    PartBelow(c, Part(Ids(w), h, z), e', w.segmentMax);
    assert Files(w')[z] == Content(c, Ids(w'), h', [], z);
  }

  lemma PartBelow(c: Codec, part: seq<Entry>, e: Entry, max: int)
    requires IsBelow(c, part, max)
    ensures LastMayFill(c, part + [e], max)
  {
    forall k | 1 <= k < |part + [e]|
      ensures |Encode(c, (part + [e])[..k])| < max
    {
      assert (part + [e])[..k] == part[..k];
      assert k == |part| ==> part[..k] == part;
    }
  }

  lemma {:induction false} RollGreedy(c: Codec, w: Log, h: seq<Entry>)
    requires Valid(c, w, h, []) && w.segments != [] && SealedFill(c, Ids(w), h, w.segmentMax) && Last(w.segments).id < w.nextSeq
    requires var part := Part(Ids(w), h, |w.segments| - 1);
             part != [] && LastMayFill(c, part, w.segmentMax) && Last(w.segments).size == |Encode(c, part)|
    ensures Greedy(c, RollIfFull(w), h)
  {
    if Last(w.segments).size >= w.segmentMax {
      RollKeeps(c, w, h);
      assert Ids(Roll(w)) == Ids(w) + [w.nextSeq];
      RolledGreedily(c, Ids(w), h, w.segmentMax);
    }
  }

  lemma {:induction false} RolledGreedily(c: Codec, ids: seq<nat>, h: seq<Entry>, max: int)
    requires SealedFill(c, ids, h, max) && ids != [] && Last(ids) < |h| + 1 && Fills(c, Part(ids, h, |ids| - 1), max)
    ensures CutGreedily(c, ids + [|h| + 1], h, max)
  {
    var ids' := ids + [|h| + 1];
    assert Ordered(ids', h);
    forall i | 0 <= i < |ids'| - 1
      ensures Fills(c, Part(ids', h, i), max)
    {
      assert Part(ids', h, i) == Part(ids, h, i);
    }
    assert Part(ids', h, |ids|) == [];
  }

  lemma {:induction false} FlushGreedy(c: Codec, w: Log, h: seq<Entry>)
    requires Greedy(c, w, h)
    ensures Greedy(c, Flush(w), h) && Greedy(c, SyncActive(w), h)
  {
    assert Ids(SyncActive(w)) == Ids(w);
  }

  lemma {:induction false} AppendGreedy(c: Codec, w: Log, h: seq<Entry>, e: Entry)
    requires Valid(c, w, h, []) && Greedy(c, w, h) && Storable(c, e.(seqId := w.nextSeq))
    ensures Greedy(c, AppendLog(c, w, e), h + [e.(seqId := w.nextSeq)])
  {
    var s, h' := Start(w), h + [e.(seqId := w.nextSeq)];
    StartGreedy(c, w, h);
    WriteKeeps(c, s, h, e);
    WriteGreedy(c, s, h, e);
    RollGreedy(c, Write(c, s, e), h');
    FlushGreedy(c, RollIfFull(Write(c, s, e)), h');
  }

  lemma {:induction false} RunGreedy(c: Codec, w: Log, h: seq<Entry>, ops: seq<Op>)
    requires Valid(c, w, h, []) && Greedy(c, w, h) && AllStorable(c, Flat(h, ops))
    ensures Greedy(c, Run(c, w, ops), Flat(h, ops))
    decreases |ops|
  {
    if ops != [] {
      match ops[0] {
        case Append(e) =>
          var h' := h + [e.(seqId := |h| + 1)];
          FlatExtends(h', ops[1..]);
          assert Flat(h, ops)[..|h'|][|h|] == h'[|h|];
          assert Storable(c, h'[|h|]);
          AppendKeeps(c, w, h, e);
          AppendGreedy(c, w, h, e);
          RunGreedy(c, AppendLog(c, w, e), h', ops[1..]);
        case Tick =>
          SyncKeeps(c, w, h, []);
          FlushGreedy(c, w, h);
          RunGreedy(c, SyncActive(w), h, ops[1..]);
      }
    }
  }

  /**
   The sizes of the files of every log reachable from an empty directory. A sealed file has reached the
   limit with its last record and not before, and the active file, unless it is empty, has not. So with
   a limit that is not positive every append seals its own file.
   */
  lemma {:induction false} SizesExact(c: Codec, max: int, mode: FlushMode, ops: seq<Op>, i: nat)
    requires AllStorable(c, Flat([], ops)) && i < |Run(c, Log([], 1, max, mode), ops).segments|
    ensures var w, h := Run(c, Log([], 1, max, mode), ops), Flat([], ops);
            && Ordered(Ids(w), h)
            && var part, bytes := Part(Ids(w), h, i), w.segments[i].file.bytes;
               && bytes == Encode(c, part)
               && (i < |w.segments| - 1 ==>
                    && part != [] && |bytes| >= max
                    && (if max > 0 then |bytes| - |Frame(c.crc, c.marshal(Last(part)))| < max else |part| == 1))
               && (i == |w.segments| - 1 ==> if max > 0 then |bytes| < max else part == [])
  {
    var w0 := Log([], 1, max, mode);
    EmptyValid(c, max, mode);
    RunKeeps(c, w0, [], ops);
    RunGreedy(c, w0, [], ops);
    RunKeepsMax(c, w0, ops);
    var w, h := Run(c, w0, ops), Flat([], ops);
    assert Files(w)[i] == Content(c, Ids(w), h, [], i);
    PartSizes(c, Part(Ids(w), h, i), max, i < |w.segments| - 1);
  }

  lemma {:induction false} PartSizes(c: Codec, part: seq<Entry>, max: int, isSealed: bool)
    requires if isSealed then Fills(c, part, max) else IsBelow(c, part, max)
    ensures isSealed && max > 0 ==> |Encode(c, part)| - |Frame(c.crc, c.marshal(Last(part)))| < max
    ensures isSealed && max <= 0 ==> |part| == 1
    ensures !isSealed ==> if max > 0 then |Encode(c, part)| < max else part == []
  {
    if part != [] {
      var z := |part| - 1;
      assert part == part[..z] + [part[z]];
      EncodeSnoc(c, part[..z], part[z]);
      assert |part| > 1 ==> |Encode(c, part[..z])| < max && |Encode(c, part[..1])| < max;
      assert |part| == 1 ==> part[..z] == [];
    }
  }

  lemma {:induction false} RunKeepsMax(c: Codec, w: Log, ops: seq<Op>)
    ensures Run(c, w, ops).segmentMax == w.segmentMax
    decreases |ops|
  {
    if ops != [] {
      RunKeepsMax(c, Apply(c, w, ops[0]), ops[1..]);
    }
  }
}
