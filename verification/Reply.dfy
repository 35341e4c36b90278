/** Replies: what writeReply emits, and a RESP2 reader that recovers it. */
module Reply {
  import opened Bytes
  import Decimal
  import Resp

  /** The values a backend may return. A nil byte slice is not an empty one. */
  datatype Value =
    | Nil
    | Str(s: Bytes)
    | Blob(b: Bytes)
    | NilBlob
    | Int(n: int)
    | Flag(on: bool)
    | Arr(items: seq<Value>)
    | Unsupported(typeName: Bytes)

  /** The error beside a value. */
  datatype Failure = NoFailure | NullReply | Message(text: Bytes)

  // ---- what is written ----

  function Line(kind: Byte, text: Bytes): Bytes {
    [kind] + text + CRLF
  }

  const NULL_BULK: Bytes := Line(DOLLAR, Decimal.Print(-1))

  predicate IsStatus(s: Bytes) {
    s == Lit("OK") || s == Lit("PONG") || s == Lit("QUEUED")
  }

  function UnsupportedText(typeName: Bytes): Bytes {
    Lit("ERR unsupported reply type ") + typeName
  }

  function Render(v: Value): (s: Bytes)
    decreases v, 0
  {
    match v
    case Nil => NULL_BULK
    case Str(s) => if IsStatus(s) then Line(PLUS, s) else Resp.EncodeBulk(s)
    case Blob(b) => Resp.EncodeBulk(b)
    case NilBlob => NULL_BULK
    case Int(n) => Line(COLON, Decimal.Print(n))
    case Flag(on) => Line(COLON, Decimal.Print(if on then 1 else 0))
    case Arr(items) => Line(STAR, Decimal.Print(|items|)) + RenderAll(items)
    case Unsupported(t) => Line(MINUS, UnsupportedText(t))
  }

  function RenderAll(items: seq<Value>): Bytes
    decreases items, 1
  {
    if items == [] then [] else Render(items[0]) + RenderAll(items[1..])
  }

  /** Position of the first space, or -1. */
  function FindSpace(s: Bytes): (n: int)
    ensures -1 <= n < |s|
  {
    if s == [] then -1
    else if s[0] == 32 then 0
    else
      var n := FindSpace(s[1..]);
      if n < 0 then -1 else n + 1
  }

  /** The text starts with an upper-case word, as Redis errors do. */
  predicate LooksLikeRespError(msg: Bytes) {
    var i := FindSpace(msg);
    var word := if i > 0 then msg[..i] else msg;
    word != [] && forall k :: 0 <= k < |word| ==> 65 <= word[k] <= 90
  }

  function ErrorText(msg: Bytes): Bytes {
    if LooksLikeRespError(msg) then msg else Lit("ERR ") + msg
  }

  /** writeReply. */
  function Written(v: Value, err: Failure): Bytes {
    match err
    case NoFailure => Render(v)
    case NullReply => NULL_BULK
    case Message(text) => Line(MINUS, ErrorText(text))
  }

  class Writer {
    var buf: Bytes

    constructor ()
      ensures buf == []
    {
      buf := [];
    }

    method Emit(b: Bytes)
      modifies this
      ensures buf == old(buf) + b
    {
      buf := buf + b;
    }
  }

  method WriteBulk(w: Writer, b: Bytes)
    modifies w
    ensures w.buf == old(w.buf) + Resp.EncodeBulk(b)
  {
    w.Emit(Line(DOLLAR, Decimal.Print(|b|)));
    w.Emit(b);
    w.Emit(CRLF);
  }

  /** writeReply, recursing through arrays as it writes. */
  method WriteReply(w: Writer, v: Value, err: Failure)
    modifies w
    ensures w.buf == old(w.buf) + Written(v, err)
    decreases v
  {
    match err {
      case NullReply =>
        w.Emit(NULL_BULK);
        return;
      case Message(text) =>
        w.Emit(Line(MINUS, ErrorText(text)));
        return;
      case NoFailure =>
    }
    match v {
      case Nil => w.Emit(NULL_BULK);
      case Str(s) =>
        if IsStatus(s) {
          w.Emit(Line(PLUS, s));
        } else {
          WriteBulk(w, s);
        }
      case Blob(b) => WriteBulk(w, b);
      case NilBlob => w.Emit(NULL_BULK);
      case Int(n) => w.Emit(Line(COLON, Decimal.Print(n)));
      case Flag(on) => w.Emit(Line(COLON, Decimal.Print(if on then 1 else 0)));
      case Arr(items) =>
        w.Emit(Line(STAR, Decimal.Print(|items|)));
        WriteItems(w, v);
        Assoc(old(w.buf), Line(STAR, Decimal.Print(|items|)), RenderAll(items));
      case Unsupported(t) => w.Emit(Line(MINUS, UnsupportedText(t)));
    }
  }

  lemma RenderNext(prefix: Bytes, items: seq<Value>, i: nat)
    requires i < |items|
    ensures prefix + RenderAll(items[i..]) == prefix + Render(items[i]) + RenderAll(items[i + 1..])
  {
    assert items[i..][0] == items[i] && items[i..][1..] == items[i + 1..];
  }

  method WriteItems(w: Writer, v: Value)
    requires v.Arr?
    modifies w
    ensures w.buf == old(w.buf) + RenderAll(v.items)
    decreases v, 0
  {
    ghost var goal := w.buf + RenderAll(v.items);
    var i := 0;
    assert v.items[0..] == v.items;
    while i < |v.items|
      invariant 0 <= i <= |v.items|
      invariant w.buf + RenderAll(v.items[i..]) == goal
    {
      RenderNext(w.buf, v.items, i);
      WriteReply(w, v.items[i], NoFailure);
      i := i + 1;
    }
    assert w.buf + [] == w.buf;
  }

  // ---- a RESP2 reader ----

  datatype Wire =
    | Simple(text: Bytes)
    | Fault(text: Bytes)
    | Integer(n: int)
    | Bulk(b: Bytes)
    | NullBulk
    | NullArray
    | Array(items: seq<Wire>)

  datatype Parsed<+T> = Done(value: T, rest: Bytes) | Malformed

  /** The position of the first CRLF, or |s|. */
  function FindCRLF(s: Bytes): (n: nat)
    ensures n <= |s|
    ensures n < |s| ==> n + 1 < |s| && s[n] == CR && s[n + 1] == LF
  {
    if |s| < 2 then |s| else if s[0] == CR && s[1] == LF then 0 else 1 + FindCRLF(s[1..])
  }

  function TakeLine(s: Bytes): (r: Parsed<Bytes>)
    ensures r.Done? ==> |r.rest| < |s|
  {
    var n := FindCRLF(s);
    if n == |s| then Malformed else Done(s[..n], s[n + 2..])
  }

  function ParseBulk(n: int, s: Bytes): (r: Parsed<Wire>)
    ensures r.Done? ==> |r.rest| <= |s|
  {
    if n == -1 then Done(NullBulk, s)
    else if n < 0 || |s| < n + 2 || s[n..n + 2] != CRLF then Malformed
    else Done(Bulk(s[..n]), s[n + 2..])
  }

  /** Exactly one RESP2 value from the front of the stream. */
  function ParseValue(s: Bytes): (r: Parsed<Wire>)
    ensures r.Done? ==> |r.rest| < |s|
    decreases |s|, 0
  {
    if s == [] then Malformed
    else
      match TakeLine(s[1..])
      case Malformed => Malformed
      case Done(text, rest) =>
        if s[0] == PLUS then Done(Simple(text), rest)
        else if s[0] == MINUS then Done(Fault(text), rest)
        else
          match Decimal.ParseInt(text)
          case Good(n) =>
            if s[0] == COLON then Done(Integer(n), rest)
            else if s[0] == DOLLAR then ParseBulk(n, rest)
            else if s[0] == STAR then ParseArray(n, rest)
            else Malformed
          case _ => Malformed
  }

  function ParseArray(n: int, s: Bytes): (r: Parsed<Wire>)
    ensures r.Done? ==> |r.rest| <= |s|
    decreases |s|, Max(n, 0) + 2
  {
    if n == -1 then Done(NullArray, s)
    else if n < 0 then Malformed
    else
      match ParseItems(n, s)
      case Malformed => Malformed
      case Done(items, rest) => Done(Array(items), rest)
  }

  function ParseItems(n: nat, s: Bytes): (r: Parsed<seq<Wire>>)
    ensures r.Done? ==> |r.rest| <= |s|
    decreases |s|, n + 1
  {
    if n == 0 then Done([], s)
    else
      match ParseValue(s)
      case Malformed => Malformed
      case Done(w, rest) =>
        match ParseItems(n - 1, rest)
        case Malformed => Malformed
        case Done(more, rest') => Done([w] + more, rest')
  }

  // ---- the reader recovers what was written ----

  /** What a client sees of a value. */
  function Image(v: Value): Wire
    decreases v, 0
  {
    match v
    case Nil => NullBulk
    case Str(s) => if IsStatus(s) then Simple(s) else Bulk(s)
    case Blob(b) => Bulk(b)
    case NilBlob => NullBulk
    case Int(n) => Integer(n)
    case Flag(on) => Integer(if on then 1 else 0)
    case Arr(items) => Array(Images(items))
    case Unsupported(t) => Fault(UnsupportedText(t))
  }

  function Images(items: seq<Value>): seq<Wire>
    decreases items, 1
  {
    if items == [] then [] else [Image(items[0])] + Images(items[1..])
  }

  /** Go values: int64 numbers, lengths that fit an int, type names on one line. */
  predicate IsGoValue(v: Value)
    decreases v, 0
  {
    match v
    case Str(s) => |s| < TWO_63
    case Blob(b) => |b| < TWO_63
    case Int(n) => IsInt64(n)
    case Arr(items) => |items| < TWO_63 && AreGoValues(items)
    case Unsupported(t) => HasNoCRLF(UnsupportedText(t))
    case _ => true
  }

  predicate AreGoValues(items: seq<Value>)
    decreases items, 1
  {
    items == [] || (IsGoValue(items[0]) && AreGoValues(items[1..]))
  }

  predicate HasNoCRLF(s: Bytes) {
    forall i :: 0 <= i < |s| - 1 ==> !(s[i] == CR && s[i + 1] == LF)
  }

  lemma {:induction false} FindCRLFAt(text: Bytes, rest: Bytes)
    requires HasNoCRLF(text)
    ensures FindCRLF(text + CRLF + rest) == |text|
    decreases |text|
  {
    var s := text + CRLF + rest;
    if text != [] {
      assert s[1..] == text[1..] + CRLF + rest;
      assert HasNoCRLF(text[1..]) by {
        forall i | 0 <= i < |text[1..]| - 1
          ensures !(text[1..][i] == CR && text[1..][i + 1] == LF)
        {
          assert text[1..][i] == text[i + 1] && text[1..][i + 1] == text[i + 1 + 1];
        }
      }
      FindCRLFAt(text[1..], rest);
      if |text| > 1 {
        assert s[0] == text[0] && s[1] == text[0 + 1];
      }
    }
  }

  lemma {:induction false} FindCRLFInside(text: Bytes, rest: Bytes)
    requires !HasNoCRLF(text)
    ensures FindCRLF(text + CRLF + rest) < |text|
    decreases |text|
  {
    var s := text + CRLF + rest;
    var i :| 0 <= i < |text| - 1 && text[i] == CR && text[i + 1] == LF;
    assert s[0] == text[0] && s[1] == text[1];
    if !(text[0] == CR && text[1] == LF) {
      assert s[1..] == text[1..] + CRLF + rest;
      var j := i - 1;
      assert text[1..][j] == CR && text[1..][j + 1] == LF;
      FindCRLFInside(text[1..], rest);
    }
  }

  lemma TakeLineOf(text: Bytes, rest: Bytes)
    requires HasNoCRLF(text)
    ensures TakeLine(text + CRLF + rest) == Done(text, rest)
  {
    var s := text + CRLF + rest;
    FindCRLFAt(text, rest);
    assert s[..|text|] == text && s[|text| + 2..] == rest;
  }

  lemma LineTail(kind: Byte, text: Bytes, rest: Bytes)
    ensures (Line(kind, text) + rest)[0] == kind && (Line(kind, text) + rest)[1..] == text + CRLF + rest
  {
  }

  lemma PrintHasNoCRLF(n: int)
    ensures HasNoCRLF(Decimal.Print(n))
  {
    forall i | 0 <= i < |Decimal.Print(n)|
      ensures Decimal.Print(n)[i] != CR
    {
    }
  }

  /** A header line with a number. */
  lemma NumberLine(kind: Byte, n: int, rest: Bytes)
    requires IsInt64(n) && kind != PLUS && kind != MINUS
    ensures ParseValue(Line(kind, Decimal.Print(n)) + rest) ==
            if kind == COLON then Done(Integer(n), rest)
            else if kind == DOLLAR then ParseBulk(n, rest)
            else if kind == STAR then ParseArray(n, rest)
            else Malformed
  {
    var s := Line(kind, Decimal.Print(n)) + rest;
    LineTail(kind, Decimal.Print(n), rest);
    PrintHasNoCRLF(n);
    TakeLineOf(Decimal.Print(n), rest);
    Decimal.PrintParse(n);
  }

  lemma TextLine(kind: Byte, text: Bytes, rest: Bytes)
    requires HasNoCRLF(text) && (kind == PLUS || kind == MINUS)
    ensures ParseValue(Line(kind, text) + rest) == Done(if kind == PLUS then Simple(text) else Fault(text), rest)
  {
    LineTail(kind, text, rest);
    TakeLineOf(text, rest);
  }

  lemma BulkLine(b: Bytes, rest: Bytes)
    requires |b| < TWO_63
    ensures ParseValue(Resp.EncodeBulk(b) + rest) == Done(Bulk(b), rest)
  {
    var tail := b + CRLF + rest;
    assert Resp.EncodeBulk(b) + rest == Line(DOLLAR, Decimal.Print(|b|)) + tail;
    NumberLine(DOLLAR, |b|, tail);
    assert tail[..|b|] == b && tail[|b|..|b| + 2] == CRLF && tail[|b| + 2..] == rest;
  }

  lemma StatusHasNoCRLF(s: Bytes)
    requires IsStatus(s)
    ensures HasNoCRLF(s)
  {
    assert Lit("OK")[0] != CR;
    forall i | 0 <= i < |s| - 1
      ensures s[i] != CR
    {
    }
  }

  /**
   Reply framing: for every tree of supported values the bytes written are exactly one RESP2
   value, whose reading is the tree's image and stops where the next reply starts.
   */
  lemma {:induction false} ReplyRoundTrip(v: Value, rest: Bytes)
    requires IsGoValue(v)
    ensures ParseValue(Render(v) + rest) == Done(Image(v), rest)
    decreases v, 0
  {
    match v {
      case Nil => NumberLine(DOLLAR, -1, rest);
      case Str(s) =>
        if IsStatus(s) {
          StatusHasNoCRLF(s);
          TextLine(PLUS, s, rest);
        } else {
          BulkLine(s, rest);
        }
      case Blob(b) => BulkLine(b, rest);
      case NilBlob => NumberLine(DOLLAR, -1, rest);
      case Int(n) => NumberLine(COLON, n, rest);
      case Flag(on) => NumberLine(COLON, if on then 1 else 0, rest);
      case Arr(items) =>
        var tail := RenderAll(items) + rest;
        assert Render(v) + rest == Line(STAR, Decimal.Print(|items|)) + tail;
        NumberLine(STAR, |items|, tail);
        ItemsRoundTrip(items, rest);
      case Unsupported(t) => TextLine(MINUS, UnsupportedText(t), rest);
    }
  }

  lemma {:induction false} ItemsRoundTrip(items: seq<Value>, rest: Bytes)
    requires AreGoValues(items)
    ensures ParseItems(|items|, RenderAll(items) + rest) == Done(Images(items), rest)
    decreases items, 1
  {
    if items == [] {
      assert RenderAll(items) + rest == rest;
    } else {
      var tail := RenderAll(items[1..]) + rest;
      assert RenderAll(items) + rest == Render(items[0]) + tail;
      ReplyRoundTrip(items[0], tail);
      ItemsRoundTrip(items[1..], rest);
    }
  }

  /**
   Error replies are framed correctly exactly if the error text has no CRLF in it. Otherwise part
   of the text is left to be read as the next reply.
   */
  lemma {:induction false} ErrorFramingExact(msg: Bytes, rest: Bytes)
    ensures ParseValue(Written(Nil, Message(msg)) + rest) == Done(Fault(ErrorText(msg)), rest)
            <==> HasNoCRLF(ErrorText(msg))
  {
    var text := ErrorText(msg);
    LineTail(MINUS, text, rest);
    if HasNoCRLF(text) {
      TextLine(MINUS, text, rest);
    } else {
      FindCRLFInside(text, rest);
      assert |(text + CRLF + rest)[..FindCRLF(text + CRLF + rest)]| < |text|;
    }
  }

  // ---- bytes, written out ----

  /** A null is "$-1", however it comes about. */
  lemma NullBytes(v: Value)
    ensures Written(v, NullReply) == [36, 45, 49, 13, 10]
    ensures Render(Nil) == [36, 45, 49, 13, 10] && Render(NilBlob) == [36, 45, 49, 13, 10]
  {
  }

  /** Only OK, PONG and QUEUED are written as simple strings; every other string is a bulk string. */
  lemma {:induction false} StatusBytes(s: Bytes)
    ensures Render(Str(s)) ==
            if s == [79, 75] || s == [80, 79, 78, 71] || s == [81, 85, 69, 85, 69, 68] then [43] + s + [13, 10]
            else [36] + Decimal.Print(|s|) + [13, 10] + s + [13, 10]
  {
    StatusWords();
  }

  lemma StatusWords()
    ensures Lit("OK") == [79, 75] && Lit("PONG") == [80, 79, 78, 71] && Lit("QUEUED") == [81, 85, 69, 85, 69, 68]
  {
  }

  /** Single values: "hi" is "$2", "hi"; flags are ":1" and ":0"; -7 is ":-7". */
  lemma ItemBytes()
    ensures Render(Blob([104, 105])) == [36, 50, 13, 10, 104, 105, 13, 10]
    ensures Render(Flag(true)) == [58, 49, 13, 10] && Render(Flag(false)) == [58, 48, 13, 10]
    ensures Render(Int(-7)) == [58, 45, 55, 13, 10]
  {
    assert Decimal.Print(-7) == [45, 55] && Decimal.Print(2) == [50];
  }

  /** An array is "*" and its length, and then its items: of [-7] it is "*1", ":-7". */
  lemma {:induction false} ArrayBytes()
    ensures Render(Arr([Int(-7)])) == [42, 49, 13, 10, 58, 45, 55, 13, 10]
  {
    var a := [Int(-7)];
    assert a[1..] == [];
    ItemBytes();
    assert RenderAll(a) == Render(a[0]) + RenderAll([]);
    assert RenderAll(a) == [58, 45, 55, 13, 10];
  }

  predicate IsUpperWord(s: Bytes) {
    s != [] && forall i :: 0 <= i < |s| ==> 65 <= s[i] <= 90
  }

  /** The text is one upper-case word, or starts with one and a space. */
  predicate HasCode(msg: Bytes, word: Bytes) {
    IsUpperWord(word) && word <= msg && (|word| < |msg| ==> msg[|word|] == 32)
  }

  lemma {:induction false} FindSpaceIs(s: Bytes)
    ensures var n := FindSpace(s);
            && (n < 0 ==> forall i :: 0 <= i < |s| ==> s[i] != 32)
            && (n >= 0 ==> s[n] == 32 && forall i :: 0 <= i < n ==> s[i] != 32)
  {
    if s != [] && s[0] != 32 {
      FindSpaceIs(s[1..]);
      var n := FindSpace(s[1..]);
      assert forall i :: 1 <= i < |s| ==> s[i] == s[1..][i - 1];
    }
  }

  /** An error text is sent as it is if and only if it starts with a code; otherwise "ERR " goes before it. */
  lemma {:induction false} ErrorBytes(v: Value, msg: Bytes)
    ensures Written(v, Message(msg)) ==
            if exists word :: HasCode(msg, word) then [45] + msg + [13, 10] else [45] + ([69, 82, 82, 32] + msg) + [13, 10]
  {
    assert Lit("ERR ") == [69, 82, 82, 32];
    if LooksLikeRespError(msg) {
      var word := CodeWasThere(msg);
    } else if word :| HasCode(msg, word) {
      CodeIsFound(msg, word);
    }
  }

  lemma {:induction false} CodeWasThere(msg: Bytes) returns (word: Bytes)
    requires LooksLikeRespError(msg)
    ensures HasCode(msg, word)
  {
    FindSpaceIs(msg);
    var n := FindSpace(msg);
    if n > 0 {
      word := msg[..n];
      forall k | 0 <= k < |word|
        ensures 65 <= word[k] <= 90
      {
        assert word[k] == msg[..n][k];
      }
    } else {
      word := msg;
      forall k | 0 <= k < |word|
        ensures 65 <= word[k] <= 90
      {
        assert word[k] == msg[k];
      }
    }
  }

  lemma {:induction false} CodeIsFound(msg: Bytes, word: Bytes)
    requires HasCode(msg, word)
    ensures LooksLikeRespError(msg)
  {
    FindSpaceIs(msg);
    var n := FindSpace(msg);
    assert forall i :: 0 <= i < |word| ==> msg[i] == word[i];
    assert n == if |word| < |msg| then |word| else -1;
  }

  /** A value of another type is the error "ERR unsupported reply type " and the type's name. */
  lemma UnsupportedBytes(t: Bytes)
    ensures Render(Unsupported(t)) == [45] + (Lit("ERR unsupported reply type ") + t) + [13, 10]
  {
  }
}
