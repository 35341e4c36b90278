/**
 The protobuf encoding of a WAL entry: seq_id (field 1), args (field 3), timestamp_ms (field 4).
 It is one codec for which every entry the bridge can hold is storable.
 */
module Protobuf {
  import opened Bytes
  import opened RecordIO
  import opened WalModel
  import Varint

  /** Field tags: number and wire type. */
  const SEQ_ID := 8
  const ARG := 26
  const TIMESTAMP := 32

  function VarintField(tag: nat, v: nat): Bytes {
    if v == 0 then [] else Varint.Put(tag) + Varint.Put(v)
  }

  function ArgField(a: Bytes): Bytes {
    Varint.Put(ARG) + Varint.Put(|a|) + a
  }

  function ArgFields(args: Args): Bytes {
    if args == [] then [] else ArgField(args[0]) + ArgFields(args[1..])
  }

  /** Fields in number order; zero values are omitted; a negative int64 is its two's complement. */
  function Marshal(e: Entry): Bytes {
    VarintField(SEQ_ID, e.seqId) + (ArgFields(e.args) + VarintField(TIMESTAMP, e.timestampMs % TWO_64))
  }

  /** The fields in `s`, read into `e`; a field of another number is not part of this model. */
  function Decode(s: Bytes, e: Entry): Option<Entry>
    decreases |s|
  {
    if s == [] then Some(e)
    else
      match Varint.Get(s)
      case Value(tag, n) => DecodeField(tag, s[n..], e)
      case _ => None
  }

  function DecodeField(tag: nat, s: Bytes, e: Entry): Option<Entry>
    decreases |s|, 1
  {
    match Varint.Get(s)
    case Value(v, n) =>
      var rest := s[n..];
      if tag == SEQ_ID then Decode(rest, e.(seqId := v))
      else if tag == TIMESTAMP then Decode(rest, e.(timestampMs := Int64(v)))
      else if tag == ARG && v <= |rest| then Decode(rest[v..], e.(args := e.args + [rest[..v]]))
      else None
    case _ => None
  }

  function Unmarshal(s: Bytes): Option<Entry> {
    Decode(s, Entry(0, [], 0))
  }

  lemma {:induction false} DecodeTag(tag: nat, rest: Bytes, e: Entry)
    requires tag < 128
    ensures Decode(Varint.Put(tag) + rest, e) == DecodeField(tag, rest, e)
  {
    var s := Varint.Put(tag) + rest;
    Varint.PutGet(tag, rest);
    assert s[1..] == rest;
  }

  lemma {:induction false} DecodeVarint(tag: nat, v: nat, rest: Bytes, e: Entry)
    requires tag == SEQ_ID || tag == TIMESTAMP
    requires v < TWO_64 && (v == 0 ==> if tag == SEQ_ID then e.seqId == 0 else e.timestampMs == 0)
    ensures Decode(VarintField(tag, v) + rest, e) ==
            Decode(rest, if tag == SEQ_ID then e.(seqId := v) else e.(timestampMs := Int64(v)))
  {
    if v == 0 {
      assert VarintField(tag, v) + rest == rest;
    } else {
      var value := Varint.Put(v) + rest;
      assert VarintField(tag, v) + rest == Varint.Put(tag) + value;
      DecodeTag(tag, value, e);
      Varint.PutGet(v, rest);
      assert value[|Varint.Put(v)|..] == rest;
    }
  }

  lemma {:induction false} DecodeArg(a: Bytes, rest: Bytes, e: Entry)
    requires |a| < TWO_64
    ensures Decode(ArgField(a) + rest, e) == Decode(rest, e.(args := e.args + [a]))
  {
    var value := Varint.Put(|a|) + (a + rest);
    assert ArgField(a) + rest == Varint.Put(ARG) + value;
    DecodeTag(ARG, value, e);
    DecodeBytes(a, rest, e);
  }

  lemma {:induction false} DecodeBytes(a: Bytes, rest: Bytes, e: Entry)
    requires |a| < TWO_64
    ensures DecodeField(ARG, Varint.Put(|a|) + (a + rest), e) == Decode(rest, e.(args := e.args + [a]))
  {
    var body := a + rest;
    Varint.PutGet(|a|, body);
    assert (Varint.Put(|a|) + body)[|Varint.Put(|a|)|..] == body;
    assert body[..|a|] == a && body[|a|..] == rest;
  }

  lemma {:induction false} DecodeArgs(args: Args, rest: Bytes, e: Entry)
    requires forall i :: 0 <= i < |args| ==> |args[i]| < TWO_64
    ensures Decode(ArgFields(args) + rest, e) == Decode(rest, e.(args := e.args + args))
    decreases |args|
  {
    if args == [] {
      assert ArgFields(args) + rest == rest && e.args + args == e.args;
    } else {
      var tail := ArgFields(args[1..]) + rest;
      Assoc(ArgField(args[0]), ArgFields(args[1..]), rest);
      DecodeArg(args[0], tail, e);
      DecodeArgs(args[1..], rest, e.(args := e.args + [args[0]]));
      Assoc(e.args, [args[0]], args[1..]);
      assert [args[0]] + args[1..] == args;
    }
  }

  /** The fields of the message type: a uint64, byte strings, an int64. */
  predicate IsMessage(e: Entry) {
    && e.seqId < TWO_64
    && IsInt64(e.timestampMs)
    && forall i :: 0 <= i < |e.args| ==> |e.args[i]| < TWO_64
  }

  lemma TwosComplement(x: int)
    requires IsInt64(x)
    ensures 0 <= x % TWO_64 < TWO_64 && Int64(x % TWO_64) == x
  {
    assert x % TWO_64 == if x >= 0 then x else x + TWO_64;
  }

  /** Every message is decoded from its encoding. */
  lemma {:induction false} MarshalRoundTrip(e: Entry)
    requires IsMessage(e)
    ensures Unmarshal(Marshal(e)) == Some(e)
  {
    var e0 := Entry(0, [], 0);
    var ts := e.timestampMs % TWO_64;
    var stamp := VarintField(TIMESTAMP, ts);
    TwosComplement(e.timestampMs);
    DecodeVarint(SEQ_ID, e.seqId, ArgFields(e.args) + stamp, e0);
    var e1 := e0.(seqId := e.seqId);
    DecodeArgs(e.args, stamp, e1);
    var e2 := e1.(args := e1.args + e.args);
    assert e1.args + e.args == e.args;
    DecodeVarint(TIMESTAMP, ts, [], e2);
    assert stamp + [] == stamp;
  }

  /** So with this codec, and any checksum, every message of a size the codec can carry is storable. */
  lemma {:induction false} MessagesAreStorable(crc: Checksum, e: Entry)
    requires IsMessage(e) && Fits(Marshal(e))
    ensures Storable(Codec(crc, Marshal, Unmarshal), e)
  {
    MarshalRoundTrip(e);
  }

  /** Fields 1, 3 and 4; numbers have wire type 0 and byte strings wire type 2. */
  lemma FieldNumbers()
    ensures SEQ_ID == 1 * 8 + 0 && ARG == 3 * 8 + 2 && TIMESTAMP == 4 * 8 + 0
  {
  }

  /** Entry 300 with the argument "a" at time 5. */
  lemma {:induction false} MarshalledBytes()
    ensures Marshal(Entry(300, [[97]], 5)) == [8, 172, 2, 26, 1, 97, 32, 5]
  {
    var args: Args := [[97]];
    assert args[1..] == [];
    assert Varint.Put(2) == [2] && Varint.Put(300) == [172, 2];
    assert ArgFields(args) == ArgField([97]) + ArgFields([]);
    assert VarintField(SEQ_ID, 300) == [8, 172, 2] && VarintField(TIMESTAMP, 5) == [32, 5];
  }
}
