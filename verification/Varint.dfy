/** The unsigned varints of Go's encoding/binary, as the record codec uses them. */
module Varint {
  import opened Bytes

  const MAX_LEN := 10

  datatype Decoded = Incomplete | Overflow | Value(value: nat, width: nat)

  function Put(x: nat): (s: Bytes)
    ensures |s| >= 1
  {
    if x < 128 then [x] else [128 + x % 128] + Put(x / 128)
  }

  /** Decodes from `buf`, whose first byte is byte number `i` of the varint. */
  function GetAt(buf: Bytes, i: nat): (d: Decoded)
    ensures d.Value? ==> 1 <= d.width <= |buf|
  {
    if buf == [] then Incomplete
    else if i == MAX_LEN then Overflow
    else if buf[0] < 128 then
      if i == MAX_LEN - 1 && buf[0] > 1 then Overflow else Value(buf[0], 1)
    else
      match GetAt(buf[1..], i + 1)
      case Value(v, n) => Value(buf[0] - 128 + 128 * v, n + 1)
      case other => other
  }

  function Get(buf: Bytes): (d: Decoded)
    ensures d.Value? ==> 1 <= d.width <= |buf|
  {
    GetAt(buf, 0)
  }

  /** One more than the largest value whose encoding may start at byte `i`. */
  function Room(i: nat): (r: nat)
    ensures r >= 2
    decreases MAX_LEN - i
  {
    if i >= MAX_LEN - 1 then 2 else 128 * Room(i + 1)
  }

  lemma RoomAtStart()
    ensures Room(0) == TWO_64
  {
    assert Room(8) == 256;
    assert Room(6) == 128 * 128 * 256;
    assert Room(4) == 128 * 128 * 128 * 128 * 256;
    assert Room(2) == 128 * 128 * 128 * 128 * 128 * 128 * 256;
  }

  lemma {:induction false} PutGetAt(x: nat, i: nat, rest: Bytes)
    requires i < MAX_LEN && x < Room(i)
    ensures GetAt(Put(x) + rest, i) == Value(x, |Put(x)|)
    decreases x
  {
    var s := Put(x) + rest;
    if x >= 128 {
      PutGetAt(x / 128, i + 1, rest);
      assert s[1..] == Put(x / 128) + rest;
    }
  }

  /** Every uint64 is decoded from its encoding, whatever follows it. */
  lemma {:induction false} PutGet(x: nat, rest: Bytes)
    requires x < TWO_64
    ensures Get(Put(x) + rest) == Value(x, |Put(x)|)
  {
    RoomAtStart();
    PutGetAt(x, 0, rest);
  }

  lemma {:induction false} PutOverflowsAt(x: nat, i: nat, rest: Bytes)
    requires i < MAX_LEN && x >= Room(i)
    ensures GetAt(Put(x) + rest, i) == Overflow
    decreases x
  {
    var s := Put(x) + rest;
    if x >= 128 {
      assert s[1..] == Put(x / 128) + rest;
      if i + 1 < MAX_LEN {
        PutOverflowsAt(x / 128, i + 1, rest);
      }
    }
  }

  /** The value of the first `k` bytes of the encoding of `l` continued by the encoding of `x`. */
  function Glue(l: nat, k: nat, x: nat): nat {
    if k == 0 then x else l % 128 + 128 * Glue(l / 128, k - 1, x)
  }

  lemma {:induction false} PutFits(x: nat, i: nat)
    requires i < MAX_LEN && x < Room(i)
    ensures |Put(x)| <= MAX_LEN - i
    decreases x
  {
    if x >= 128 {
      PutFits(x / 128, i + 1);
    }
  }

  /** Behind the start of an encoding the reader goes on with whatever follows, and puts the two together. */
  lemma {:induction false} GluedAt(l: nat, i: nat, k: nat, t: Bytes)
    requires k < |Put(l)| && i + k <= MAX_LEN
    ensures GetAt(Put(l)[..k] + t, i) ==
            match GetAt(t, i + k)
            case Value(v, n) => Value(Glue(l, k, v), k + n)
            case other => other
    decreases k
  {
    if k == 0 {
      assert Put(l)[..k] + t == t;
    } else {
      CutPut(l, k, t);
      GluedAt(l / 128, i + 1, k - 1, t);
    }
  }

  lemma PutReads(x: nat, i: nat, rest: Bytes)
    requires i < MAX_LEN
    ensures GetAt(Put(x) + rest, i) == if x < Room(i) then Value(x, |Put(x)|) else Overflow
  {
    if x < Room(i) {
      PutGetAt(x, i, rest);
    } else {
      PutOverflowsAt(x, i, rest);
    }
  }

  lemma CutPut(l: nat, k: nat, t: Bytes)
    requires 0 < k < |Put(l)|
    ensures l >= 128 && k - 1 < |Put(l / 128)|
    ensures (Put(l)[..k] + t)[0] == 128 + l % 128 && (Put(l)[..k] + t)[1..] == Put(l / 128)[..k - 1] + t
  {
  }

  /** An encoding cut short and continued by another one is read as one value, or overflows. */
  lemma {:induction false} Glued(l: nat, k: nat, x: nat, rest: Bytes)
    requires l < TWO_64 && k < |Put(l)|
    ensures k < MAX_LEN
    ensures Get(Put(l)[..k] + (Put(x) + rest)) ==
            if x < Room(k) then Value(Glue(l, k, x), k + |Put(x)|) else Overflow
    ensures x < Room(k) ==> Glue(l, k, x) < TWO_64
  {
    RoomAtStart();
    PutFits(l, 0);
    GluedAt(l, 0, k, Put(x) + rest);
    PutReads(x, k, rest);
    if x < Room(k) {
      GetBounded(Put(l)[..k] + (Put(x) + rest));
    }
  }

  lemma {:induction false} PrefixIncompleteAt(x: nat, i: nat, k: nat)
    requires i < MAX_LEN && x < Room(i) && k < |Put(x)|
    ensures GetAt(Put(x)[..k], i) == Incomplete
    decreases x
  {
    if k > 0 {
      PrefixIncompleteAt(x / 128, i + 1, k - 1);
      assert Put(x)[..k][1..] == Put(x / 128)[..k - 1];
    }
  }

  /** No strict prefix of an encoding decodes to anything. */
  lemma {:induction false} PrefixIncomplete(x: nat, k: nat)
    requires x < TWO_64 && k < |Put(x)|
    ensures Get(Put(x)[..k]) == Incomplete
  {
    RoomAtStart();
    PrefixIncompleteAt(x, 0, k);
  }

  /** Once decoding has decided, further bytes do not change the decision. */
  lemma {:induction false} DecidedIsStable(buf: Bytes, i: nat, rest: Bytes)
    requires GetAt(buf, i) != Incomplete
    ensures GetAt(buf + rest, i) == GetAt(buf, i)
  {
    if i != MAX_LEN && buf[0] >= 128 {
      DecidedIsStable(buf[1..], i + 1, rest);
      assert (buf + rest)[1..] == buf[1..] + rest;
    }
  }

  lemma {:induction false} GetAtBounded(buf: Bytes, i: nat)
    requires i < MAX_LEN && GetAt(buf, i).Value?
    ensures GetAt(buf, i).value < Room(i)
  {
    if buf[0] >= 128 {
      if i + 1 < MAX_LEN {
        GetAtBounded(buf[1..], i + 1);
      }
    }
  }

  /** A decoded value is always a uint64. */
  lemma {:induction false} GetBounded(buf: Bytes)
    requires Get(buf).Value?
    ensures Get(buf).value < TWO_64
  {
    RoomAtStart();
    GetAtBounded(buf, 0);
  }
}
