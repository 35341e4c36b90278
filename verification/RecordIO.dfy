/**
 The on-disk record codec: varint length, body, four checksum bytes. The checksum is an
 arbitrary function, so every statement holds for CRC-32 in particular.
 */
module RecordIO {
  import opened Bytes
  import Varint

  datatype Word = Word(b0: Byte, b1: Byte, b2: Byte, b3: Byte) {
    function ToBytes(): (s: Bytes)
      ensures |s| == 4
    {
      [b0, b1, b2, b3]
    }
  }

  type Checksum = Bytes -> Word

  /** A body the codec can carry: the reader adds 4 to its length in an int. */
  predicate Fits(body: Bytes) {
    |body| + 4 < TWO_63
  }

  function Frame(crc: Checksum, body: Bytes): (s: Bytes)
    ensures |s| >= 5
  {
    Varint.Put(|body|) + body + crc(body).ToBytes()
  }

  function Frames(crc: Checksum, bodies: seq<Bytes>): Bytes {
    if bodies == [] then [] else Frame(crc, bodies[0]) + Frames(crc, bodies[1..])
  }

  // ---- reading one record from a whole byte stream ----

  /** `Crash` is the run-time panic of allocating a body whose length is not a Go int. */
  datatype Parse = Eof | Torn | BadLength | Mismatch | Crash | Record(body: Bytes, width: nat)

  /** The bytes the reader asks for after the length: int(l) + 4, in Go's 64-bit arithmetic. */
  function Needed(l: nat): int {
    Int64(Int64(l) + 4)
  }

  lemma NeededExact(l: nat)
    requires l < TWO_64
    ensures l + 4 < TWO_63 ==> Needed(l) == l + 4
    ensures l + 4 >= TWO_63 ==> Needed(l) < 4
  {
  }

  function ParseRecord(crc: Checksum, s: Bytes): (p: Parse)
    ensures p.Record? ==> 0 < p.width <= |s|
  {
    if s == [] then Eof
    else
      match Varint.Get(s)
      case Incomplete => Torn
      case Overflow => BadLength
      case Value(l, n) =>
        Varint.GetBounded(s);
        match ParseBody(crc, l, s[n..])
        case Record(body, w) => Record(body, n + w)
        case other => other
  }

  function ParseBody(crc: Checksum, l: nat, t: Bytes): (p: Parse)
    requires l < TWO_64
    ensures p.Record? ==> p.width <= |t|
  {
    if Needed(l) > |t| then Torn
    else if l + 4 >= TWO_63 then Crash
    else if t[l..l + 4] != crc(t[..l]).ToBytes() then Mismatch
    else Record(t[..l], l + 4)
  }

  // ---- scanning ----

  datatype End = Clean | LengthError | ChecksumError | Panicked | Refused

  function Bodies(crc: Checksum, s: Bytes): seq<Bytes>
    decreases |s|
  {
    var p := ParseRecord(crc, s);
    if p.Record? then [p.body] + Bodies(crc, s[p.width..]) else []
  }

  /** How a scan that reads everything ends. A torn tail is a clean end. */
  function EndOf(crc: Checksum, s: Bytes): End
    decreases |s|
  {
    match ParseRecord(crc, s)
    case Record(_, width) => EndOf(crc, s[width..])
    case Eof => Clean
    case Torn => Clean
    case BadLength => LengthError
    case Mismatch => ChecksumError
    case Crash => Panicked
  }

  /** What a scan callback decides after one body. */
  datatype Verdict<+S> = Continue(state: S) | Stop(state: S) | Refuse(state: S)

  /** The callback's state after the bodies in order, and how the scan ends. */
  function Fold<S>(fn: (S, Bytes) -> Verdict<S>, state: S, bodies: seq<Bytes>, end: End): (S, End) {
    if bodies == [] then (state, end)
    else
      match fn(state, bodies[0])
      case Continue(s') => Fold(fn, s', bodies[1..], end)
      case Stop(s') => (s', Clean)
      case Refuse(s') => (s', Refused)
  }

  // ---- one frame ----

  /** A frame is read back whatever follows it. */
  lemma {:induction false} FrameParses(crc: Checksum, body: Bytes, rest: Bytes)
    requires Fits(body)
    ensures ParseRecord(crc, Frame(crc, body) + rest) == Record(body, |Frame(crc, body)|)
  {
    var s := Frame(crc, body) + rest;
    var head := Varint.Put(|body|);
    var tail := body + crc(body).ToBytes() + rest;
    Varint.PutGet(|body|, tail);
    assert s == head + tail;
    assert s[|head|..] == tail;
    NeededExact(|body|);
    assert tail[..|body|] == body;
    assert tail[|body|..|body| + 4] == crc(body).ToBytes();
  }

  /** The last four bytes of a frame are the four bytes of the body's checksum, in order. */
  lemma FrameEndsInChecksum(crc: Checksum, body: Bytes)
    ensures var f := Frame(crc, body);
            var w := crc(body);
            f[|f| - 4..] == [w.b0, w.b1, w.b2, w.b3]
  {
  }

  /**
   A frame whose body was changed afterwards, the length apart, is told from a record by the checksum:
   it reads as a mismatch if and only if the checksums of the two bodies differ.
   */
  lemma {:induction false} ChangedBodyExact(crc: Checksum, body: Bytes, body': Bytes, rest: Bytes)
    requires Fits(body) && |body'| == |body|
    ensures var w := crc(body);
            var s := Varint.Put(|body|) + body' + [w.b0, w.b1, w.b2, w.b3] + rest;
            ParseRecord(crc, s) == if crc(body') == w then Record(body', |Frame(crc, body)|) else Mismatch
  {
    var w := crc(body);
    var sum := [w.b0, w.b1, w.b2, w.b3];
    var head, tail := Varint.Put(|body|), body' + sum + rest;
    var s := head + body' + sum + rest;
    Varint.PutGet(|body|, tail);
    assert s == head + tail && s[|head|..] == tail;
    NeededExact(|body|);
    assert tail[..|body|] == body' && tail[|body|..|body| + 4] == sum;
    var w' := crc(body');
    assert w'.ToBytes() == sum ==> w'.ToBytes()[0] == w.b0 && w'.ToBytes()[1] == w.b1
                                   && w'.ToBytes()[2] == w.b2 && w'.ToBytes()[3] == w.b3;
  }

  /** A length that is not a Go int, once three bytes follow it, makes the reader panic. */
  lemma {:induction false} HugeLengthPanics(crc: Checksum, l: nat, rest: Bytes)
    requires TWO_63 - 4 <= l < TWO_64 && |rest| >= 3
    ensures ParseRecord(crc, Varint.Put(l) + rest) == Crash && EndOf(crc, Varint.Put(l) + rest) == Panicked
  {
    var head := Varint.Put(l);
    Varint.PutGet(l, rest);
    assert (head + rest)[|head|..] == rest;
    NeededExact(l);
  }

  /** Every nonempty strict prefix of a frame reads as a torn record. */
  lemma {:induction false} PrefixTorn(crc: Checksum, body: Bytes, k: nat)
    requires Fits(body) && 0 < k < |Frame(crc, body)|
    ensures ParseRecord(crc, Frame(crc, body)[..k]) == Torn
  {
    var s := Frame(crc, body)[..k];
    var head := Varint.Put(|body|);
    if k < |head| {
      Varint.PrefixIncomplete(|body|, k);
      assert s == head[..k];
    } else {
      assert s == head + s[|head|..];
      Varint.PutGet(|body|, s[|head|..]);
      NeededExact(|body|);
    }
  }

  // ---- many frames ----

  predicate AllFit(bodies: seq<Bytes>) {
    forall i :: 0 <= i < |bodies| ==> Fits(bodies[i])
  }

  /** Bytes that hold no further record: nothing, or the start of one. */
  predicate Inert(crc: Checksum, tail: Bytes) {
    ParseRecord(crc, tail).Eof? || ParseRecord(crc, tail).Torn?
  }

  /** Whatever follows the frames of some bodies, a scan delivers these bodies and then goes on behind them. */
  lemma {:induction false} FramesThen(crc: Checksum, bodies: seq<Bytes>, tail: Bytes)
    requires AllFit(bodies)
    ensures Bodies(crc, Frames(crc, bodies) + tail) == bodies + Bodies(crc, tail)
    ensures EndOf(crc, Frames(crc, bodies) + tail) == EndOf(crc, tail)
    decreases |bodies|
  {
    if bodies == [] {
      assert Frames(crc, bodies) + tail == tail;
    } else {
      var rest := Frames(crc, bodies[1..]) + tail;
      Assoc(Frame(crc, bodies[0]), Frames(crc, bodies[1..]), tail);
      FrameThen(crc, bodies[0], rest);
      FramesThen(crc, bodies[1..], tail);
      Assoc([bodies[0]], bodies[1..], Bodies(crc, tail));
      assert [bodies[0]] + bodies[1..] == bodies;
    }
  }

  lemma FrameThen(crc: Checksum, body: Bytes, rest: Bytes)
    requires Fits(body)
    ensures Bodies(crc, Frame(crc, body) + rest) == [body] + Bodies(crc, rest)
    ensures EndOf(crc, Frame(crc, body) + rest) == EndOf(crc, rest)
  {
    FrameParses(crc, body, rest);
    assert (Frame(crc, body) + rest)[|Frame(crc, body)|..] == rest;
  }

  /** Wherever it stands in the file: what is before it is delivered, and the scan ends with the error. */
  lemma {:induction false} ChangedBodyStopsScan(crc: Checksum, before: seq<Bytes>, body: Bytes, body': Bytes, rest: Bytes)
    requires AllFit(before) && Fits(body) && |body'| == |body| && crc(body') != crc(body)
    ensures var w := crc(body);
            var s := Varint.Put(|body|) + body' + [w.b0, w.b1, w.b2, w.b3] + rest;
            && Bodies(crc, Frames(crc, before) + s) == before
            && EndOf(crc, Frames(crc, before) + s) == ChecksumError
  {
    var w := crc(body);
    var s := Varint.Put(|body|) + body' + [w.b0, w.b1, w.b2, w.b3] + rest;
    ChangedBodyExact(crc, body, body', rest);
    FramesThen(crc, before, s);
    assert before + [] == before;
  }

  lemma {:induction false} FramesThenTail(crc: Checksum, bodies: seq<Bytes>, tail: Bytes)
    requires AllFit(bodies) && Inert(crc, tail)
    ensures Bodies(crc, Frames(crc, bodies) + tail) == bodies
    ensures EndOf(crc, Frames(crc, bodies) + tail) == Clean
  {
    FramesThen(crc, bodies, tail);
    assert bodies + [] == bodies;
  }

  lemma {:induction false} FramesConcat(crc: Checksum, a: seq<Bytes>, b: seq<Bytes>)
    ensures Frames(crc, a + b) == Frames(crc, a) + Frames(crc, b)
    decreases |a|
  {
    if a == [] {
      assert a + b == b;
    } else {
      assert (a + b)[1..] == a[1..] + b;
      FramesConcat(crc, a[1..], b);
    }
  }

  lemma FramesSnoc(crc: Checksum, a: seq<Bytes>, body: Bytes)
    ensures Frames(crc, a + [body]) == Frames(crc, a) + Frame(crc, body)
  {
    FramesConcat(crc, a, [body]);
    assert Frames(crc, [body]) == Frame(crc, body) + Frames(crc, []);
  }

  /** How many of the frames lie wholly within the first `k` bytes. */
  function Whole(crc: Checksum, bodies: seq<Bytes>, k: nat): (n: nat)
    ensures n <= |bodies|
    decreases |bodies|
  {
    if bodies == [] || k < |Frame(crc, bodies[0])| then 0
    else 1 + Whole(crc, bodies[1..], k - |Frame(crc, bodies[0])|)
  }

  /** `Whole` says what its name says: those frames end by `k`, the next one does not. */
  lemma {:induction false} WholeIsMaximal(crc: Checksum, bodies: seq<Bytes>, k: nat)
    ensures var n := Whole(crc, bodies, k);
            && |Frames(crc, bodies[..n])| <= k
            && (n < |bodies| ==> k < |Frames(crc, bodies[..n + 1])|)
    decreases |bodies|
  {
    if bodies != [] {
      assert bodies[..1][1..] == [];
      if k >= |Frame(crc, bodies[0])| {
        var n := Whole(crc, bodies, k);
        WholeIsMaximal(crc, bodies[1..], k - |Frame(crc, bodies[0])|);
        assert bodies[..n][1..] == bodies[1..][..n - 1];
        if n < |bodies| {
          assert bodies[..n + 1][1..] == bodies[1..][..n];
        }
      }
    }
  }

  /** What is left of the encoding after a cut: whole frames, then inert bytes. */
  lemma {:induction false} CutSplits(crc: Checksum, bodies: seq<Bytes>, k: nat) returns (tail: Bytes)
    requires AllFit(bodies) && k <= |Frames(crc, bodies)|
    ensures Inert(crc, tail)
    ensures Frames(crc, bodies)[..k] == Frames(crc, bodies[..Whole(crc, bodies, k)]) + tail
    ensures tail == [] <==> k == |Frames(crc, bodies[..Whole(crc, bodies, k)])|
    decreases |bodies|
  {
    if bodies == [] {
      tail := [];
    } else {
      var f := Frame(crc, bodies[0]);
      if k < |f| {
        tail := f[..k];
        assert Frames(crc, bodies)[..k] == f[..k];
        if k > 0 {
          PrefixTorn(crc, bodies[0], k);
        }
      } else {
        var n := Whole(crc, bodies, k);
        tail := CutSplits(crc, bodies[1..], k - |f|);
        FramesCut(crc, bodies, n, k, tail);
      }
    }
  }

  /** A cut behind the first frame is a cut of the others. */
  lemma FramesCut(crc: Checksum, bodies: seq<Bytes>, n: nat, k: nat, tail: Bytes)
    requires bodies != [] && 1 <= n <= |bodies| && |Frame(crc, bodies[0])| <= k <= |Frames(crc, bodies)|
    requires Frames(crc, bodies[1..])[..k - |Frame(crc, bodies[0])|] == Frames(crc, bodies[1..][..n - 1]) + tail
    ensures Frames(crc, bodies)[..k] == Frames(crc, bodies[..n]) + tail
    ensures |Frames(crc, bodies[..n])| == |Frame(crc, bodies[0])| + |Frames(crc, bodies[1..][..n - 1])|
  {
    var f := Frame(crc, bodies[0]);
    assert Frames(crc, bodies)[..k] == f + Frames(crc, bodies[1..])[..k - |f|];
    assert bodies[..n][1..] == bodies[1..][..n - 1];
    Assoc(f, Frames(crc, bodies[1..][..n - 1]), tail);
  }

  /**
   Torn tail: cut the encoding of any bodies at any byte, and a scan ends without error after
   delivering exactly the bodies whose frames lie wholly before the cut.
   */
  lemma {:induction false} TornTail(crc: Checksum, bodies: seq<Bytes>, k: nat)
    requires AllFit(bodies) && k <= |Frames(crc, bodies)|
    ensures Bodies(crc, Frames(crc, bodies)[..k]) == bodies[..Whole(crc, bodies, k)]
    ensures EndOf(crc, Frames(crc, bodies)[..k]) == Clean
  {
    var tail := CutSplits(crc, bodies, k);
    FramesThenTail(crc, bodies[..Whole(crc, bodies, k)], tail);
  }

  // ---- what is appended behind a torn record ----

  /**
   A record for a body of `l` bytes is cut after `k` bytes, and a record for a body of `x` bytes is
   written behind it. If the cut is inside the length, the two lengths are read as one.
   */
  function TornLength(l: nat, k: nat, x: nat): nat {
    if k < |Varint.Put(l)| then Varint.Glue(l, k, x) else l
  }

  /** Where the reader then looks for the body. */
  function TornHead(l: nat, k: nat, x: nat): nat {
    if k < |Varint.Put(l)| then k + |Varint.Put(x)| else |Varint.Put(l)|
  }

  predicate TornOverflows(l: nat, k: nat, x: nat) {
    k < |Varint.Put(l)| && k < Varint.MAX_LEN && x >= Varint.Room(k)
  }

  /** The bytes behind a torn length that are read as body and checksum. */
  function Mixed(l: nat, k: nat, x: nat, s: Bytes): Bytes {
    if TornHead(l, k, x) <= |s| then s[TornHead(l, k, x)..] else []
  }

  lemma {:induction false} TornLengthRead(l: nat, k: nat, x: nat, more: Bytes, rest: Bytes)
    requires l + 4 < TWO_63
    ensures !TornOverflows(l, k, x) ==> TornLength(l, k, x) < TWO_64
    ensures k < |Varint.Put(l)| ==>
              Varint.Get(Varint.Put(l)[..k] + (Varint.Put(x) + rest)) ==
              if TornOverflows(l, k, x) then Varint.Overflow else Varint.Value(TornLength(l, k, x), TornHead(l, k, x))
    ensures k >= |Varint.Put(l)| ==>
              Varint.Get(Varint.Put(l) + more) == Varint.Value(TornLength(l, k, x), TornHead(l, k, x))
  {
    if k < |Varint.Put(l)| {
      Varint.Glued(l, k, x, rest);
    } else {
      Varint.PutGet(l, more);
    }
  }

  /**
   What a reader makes of a record behind a torn one, for every cut: the torn length, or the two
   lengths run together, and then whatever bytes there are for the body.
   */
  lemma {:induction false} BehindTornReads(crc: Checksum, torn: Bytes, k: nat, body: Bytes, rest: Bytes)
    requires Fits(torn) && 0 < k < |Frame(crc, torn)|
    ensures !TornOverflows(|torn|, k, |body|) ==> TornLength(|torn|, k, |body|) < TWO_64
    ensures var s := Frame(crc, torn)[..k] + (Frame(crc, body) + rest);
            Varint.Get(s) ==
            if TornOverflows(|torn|, k, |body|) then Varint.Overflow
            else Varint.Value(TornLength(|torn|, k, |body|), TornHead(|torn|, k, |body|))
  {
    var s := Frame(crc, torn)[..k] + (Frame(crc, body) + rest);
    var head := Varint.Put(|torn|);
    if k < |head| {
      var behind := body + crc(body).ToBytes() + rest;
      assert s == head[..k] + (Varint.Put(|body|) + behind);
      TornLengthRead(|torn|, k, |body|, [], behind);
    } else {
      assert s == head + s[|head|..];
      TornLengthRead(|torn|, k, |body|, s[|head|..], []);
    }
  }

  /**
   The torn record is still short of bytes when the record behind it, and `more` bytes behind that,
   have been written: lengths alone decide.
   */
  predicate StaysShort(l: nat, k: nat, x: nat, more: nat) {
    && !TornOverflows(l, k, x)
    && Needed(TornLength(l, k, x)) > k + (|Varint.Put(x)| + x + 4) + more - TornHead(l, k, x)
  }

  /** The bytes that complete the torn record happen to have the right checksum. */
  predicate Coincides(crc: Checksum, l: nat, k: nat, x: nat, s: Bytes) {
    var n := TornLength(l, k, x);
    var t := Mixed(l, k, x, s);
    && !TornOverflows(l, k, x)
    && n + 4 <= |t| && n + 4 < TWO_63
    && t[n..n + 4] == crc(t[..n]).ToBytes()
  }

  /**
   A record behind a torn one, and whatever is written behind that, exactly, for every cut. The scan
   ends cleanly without any of it exactly while the torn record stays short, which lengths and cut
   decide. Otherwise it delivers a mixture if the checksum happens to fit, and fails if not.
   */
  lemma {:induction false} BehindTornExact(crc: Checksum, torn: Bytes, k: nat, body: Bytes, rest: Bytes)
    requires Fits(torn) && 0 < k < |Frame(crc, torn)|
    ensures var s := Frame(crc, torn)[..k] + (Frame(crc, body) + rest);
            var l := TornLength(|torn|, k, |body|);
            && (Inert(crc, s) <==> StaysShort(|torn|, k, |body|, |rest|))
            && (ParseRecord(crc, s).Record? <==>
                 !StaysShort(|torn|, k, |body|, |rest|) && Coincides(crc, |torn|, k, |body|, s))
            && (ParseRecord(crc, s).Record? ==>
                 l <= |Mixed(|torn|, k, |body|, s)| && ParseRecord(crc, s).body == Mixed(|torn|, k, |body|, s)[..l])
  {
    var s := Frame(crc, torn)[..k] + (Frame(crc, body) + rest);
    BehindTornReads(crc, torn, k, body, rest);
    if !TornOverflows(|torn|, k, |body|) {
      NeededExact(TornLength(|torn|, k, |body|));
      assert |s| == k + (|Varint.Put(|body|)| + |body| + 4) + |rest|;
    }
  }
}
