/** The RESP codec: commands in, commands out, and the reader that undoes the encoder. */
module Resp {
  import opened Bytes
  import Decimal

  // ---- encoding ----

  function EncodeBulk(a: Bytes): Bytes {
    [DOLLAR] + Decimal.Print(|a|) + CRLF + a + CRLF
  }

  /** The encodings of the elements, one behind the other. */
  function Each<T>(encode: T -> Bytes, xs: seq<T>): Bytes {
    if xs == [] then [] else encode(xs[0]) + Each(encode, xs[1..])
  }

  /** EncodeCommand. */
  function Encode(args: Args): Bytes {
    [STAR] + Decimal.Print(|args|) + CRLF + Each(EncodeBulk, args)
  }

  /** A length that Go's int, and so the reader, can hold. */
  predicate Small(n: nat) {
    n < TWO_63
  }

  predicate Encodable(args: Args) {
    args != [] && Small(|args|) && forall i :: 0 <= i < |args| ==> Small(|args[i]|)
  }

  // ---- reading ----

  datatype Error = Eof | Protocol

  /** A result of reading from the front of a stream: `rest` is what has not been consumed. */
  datatype Read<+T> = Good(value: T, rest: Bytes) | Bad(error: Error)

  /** Position of the first LF, or |s|. */
  function FindLF(s: Bytes): (n: nat)
    ensures n <= |s|
    ensures n < |s| ==> s[n] == LF
    ensures forall i :: 0 <= i < n ==> s[i] != LF
  {
    if s == [] || s[0] == LF then 0 else 1 + FindLF(s[1..])
  }

  /** readLine: through the next LF, which must follow a CR. */
  function ReadLine(s: Bytes): (r: Read<Bytes>)
    ensures r.Good? ==> |r.rest| < |s|
  {
    var n := FindLF(s);
    if n == |s| then Bad(Eof)
    else if n == 0 || s[n - 1] != CR then Bad(Protocol)
    else Good(s[..n - 1], s[n + 1..])
  }

  /** A header line: the type byte and a length of at least `least`. */
  function ReadLength(s: Bytes, kind: Byte, least: nat): (r: Read<nat>)
    ensures r.Good? ==> |r.rest| < |s| && r.value >= least
  {
    match ReadLine(s)
    case Bad(e) => Bad(e)
    case Good(line, rest) =>
      if line == [] || line[0] != kind then Bad(Protocol)
      else
        match Decimal.ParseInt(line[1..])
        case Good(n) => if n < least then Bad(Protocol) else Good(n, rest)
        case _ => Bad(Protocol)
  }

  /** One bulk string. The two bytes behind it are dropped unseen. */
  function ReadBulk(s: Bytes): (r: Read<Bytes>)
    ensures r.Good? ==> |r.rest| < |s|
  {
    match ReadLength(s, DOLLAR, 0)
    case Bad(e) => Bad(e)
    case Good(l, rest) => if |rest| < l + 2 then Bad(Eof) else Good(rest[..l], rest[l + 2..])
  }

  /** `n` reads in a row. */
  function Several<T>(read: Bytes -> Read<T>, s: Bytes, n: nat): (r: Read<seq<T>>)
    ensures r.Good? ==> |r.value| == n
    decreases n
  {
    if n == 0 then Good([], s)
    else
      match read(s)
      case Bad(e) => Bad(e)
      case Good(x, rest) =>
        match Several(read, rest, n - 1)
        case Bad(e) => Bad(e)
        case Good(more, rest') => Good([x] + more, rest')
  }

  predicate IsSpace(b: Byte) {
    b == 32 || 9 <= b <= 13
  }

  /** The fields of an inline command: maximal runs of bytes that are not white space. */
  function Fields(s: Bytes, current: Bytes): Args
    decreases |s|
  {
    if s == [] then if current == [] then [] else [current]
    else if IsSpace(s[0]) then (if current == [] then [] else [current]) + Fields(s[1..], [])
    else Fields(s[1..], current + [s[0]])
  }

  /** ReadCommand. */
  function ReadCommand(s: Bytes): Read<Args> {
    match ReadLine(s)
    case Bad(e) => Bad(e)
    case Good(line, rest) =>
      if line == [] then Bad(Protocol)
      else if line[0] != STAR then Good(Fields(line, []), rest)
      else
        match ReadLength(s, STAR, 1)
        case Bad(e) => Bad(e)
        case Good(n, body) => Several(ReadBulk, body, n)
  }

  // ---- the reader undoes the encoder ----

  predicate NoLF(s: Bytes) {
    forall i :: 0 <= i < |s| ==> s[i] != LF
  }

  lemma {:induction false} FindLFAt(s: Bytes, t: Bytes)
    requires NoLF(s)
    ensures FindLF(s + [LF] + t) == |s|
    decreases |s|
  {
    if s != [] {
      assert (s + [LF] + t)[1..] == s[1..] + [LF] + t;
      FindLFAt(s[1..], t);
    }
  }

  lemma ReadLineOf(line: Bytes, rest: Bytes)
    requires NoLF(line)
    ensures ReadLine(line + CRLF + rest) == Good(line, rest)
  {
    var s := line + CRLF + rest;
    FindLFAt(line + [CR], rest);
    assert s == line + [CR] + [LF] + rest;
    assert s[..|line|] == line && s[|line| + 2..] == rest;
  }

  lemma ReadLengthOf(kind: Byte, n: nat, least: int, rest: Bytes)
    requires Small(n) && 0 <= least <= n && kind != LF
    ensures ReadLength([kind] + Decimal.Print(n) + CRLF + rest, kind, least) == Good(n, rest)
  {
    var line := [kind] + Decimal.Print(n);
    ReadLineOf(line, rest);
    assert line[1..] == Decimal.Print(n);
    Decimal.PrintParse(n);
  }

  lemma ReadBulkOf(a: Bytes, rest: Bytes)
    requires Small(|a|)
    ensures ReadBulk(EncodeBulk(a) + rest) == Good(a, rest)
  {
    var body := a + CRLF + rest;
    ReadLengthOf(DOLLAR, |a|, 0, body);
    assert EncodeBulk(a) + rest == [DOLLAR] + Decimal.Print(|a|) + CRLF + body;
    assert body[..|a|] == a && body[|a| + 2..] == rest;
  }

  /** `read` gives back `x` from its encoding, and leaves alone what follows. */
  ghost predicate Undoes<T>(read: Bytes -> Read<T>, encode: T -> Bytes, x: T) {
    forall rest :: read(encode(x) + rest) == Good(x, rest)
  }

  lemma {:induction false} SeveralUndoesEach<T>(read: Bytes -> Read<T>, encode: T -> Bytes, xs: seq<T>, rest: Bytes)
    requires forall i :: 0 <= i < |xs| ==> Undoes(read, encode, xs[i])
    ensures Several(read, Each(encode, xs) + rest, |xs|) == Good(xs, rest)
    decreases |xs|
  {
    if xs == [] {
      assert Each(encode, xs) + rest == rest;
    } else {
      assert Undoes(read, encode, xs[0]);
      Assoc(encode(xs[0]), Each(encode, xs[1..]), rest);
      SeveralUndoesEach(read, encode, xs[1..], rest);
      assert [xs[0]] + xs[1..] == xs;
    }
  }

  lemma ReadBulksOf(args: Args, rest: Bytes)
    requires forall i :: 0 <= i < |args| ==> Small(|args[i]|)
    ensures Several(ReadBulk, Each(EncodeBulk, args) + rest, |args|) == Good(args, rest)
  {
    forall i | 0 <= i < |args|
      ensures Undoes(ReadBulk, EncodeBulk, args[i])
    {
      forall after ensures ReadBulk(EncodeBulk(args[i]) + after) == Good(args[i], after) {
        ReadBulkOf(args[i], after);
      }
    }
    SeveralUndoesEach(ReadBulk, EncodeBulk, args, rest);
  }

  /** One encoded command is read back, and what follows it is left alone. */
  lemma {:induction false} RoundTrip(args: Args, rest: Bytes)
    requires Encodable(args)
    ensures ReadCommand(Encode(args) + rest) == Good(args, rest)
  {
    var body := Each(EncodeBulk, args) + rest;
    var s := Encode(args) + rest;
    var line := [STAR] + Decimal.Print(|args|);
    assert s == line + CRLF + body;
    ReadLineOf(line, body);
    ReadLengthOf(STAR, |args|, 1, body);
    ReadBulksOf(args, rest);
  }

  /** Pipelining: any commands, of any bytes, one behind the other, and then anything at all. */
  lemma {:induction false} PipelinedRoundTrip(cmds: seq<Args>, rest: Bytes)
    requires forall i :: 0 <= i < |cmds| ==> Encodable(cmds[i])
    ensures Several(ReadCommand, Each(Encode, cmds) + rest, |cmds|) == Good(cmds, rest)
  {
    forall i | 0 <= i < |cmds|
      ensures Undoes(ReadCommand, Encode, cmds[i])
    {
      forall after ensures ReadCommand(Encode(cmds[i]) + after) == Good(cmds[i], after) {
        RoundTrip(cmds[i], after);
      }
    }
    SeveralUndoesEach(ReadCommand, Encode, cmds, rest);
  }

  // ---- inline commands ----

  predicate IsWord(s: Bytes) {
    s != [] && forall i :: 0 <= i < |s| ==> !IsSpace(s[i])
  }

  predicate AllWords(words: Args) {
    forall i :: 0 <= i < |words| ==> IsWord(words[i])
  }

  /** The words, each followed by a space but the last. */
  function Join(words: Args): Bytes {
    if words == [] then [] else if |words| == 1 then words[0] else words[0] + [32] + Join(words[1..])
  }

  lemma {:induction false} FieldsOfWord(word: Bytes, rest: Bytes, current: Bytes)
    requires forall i :: 0 <= i < |word| ==> !IsSpace(word[i])
    ensures Fields(word + rest, current) == Fields(rest, current + word)
    decreases |word|
  {
    if word == [] {
      assert word + rest == rest && current + word == current;
    } else {
      assert (word + rest)[1..] == word[1..] + rest;
      FieldsOfWord(word[1..], rest, current + [word[0]]);
      assert current + [word[0]] + word[1..] == current + word;
    }
  }

  lemma {:induction false} FieldsOfJoin(words: Args)
    requires AllWords(words)
    ensures Fields(Join(words), []) == words
    decreases |words|
  {
    if words != [] {
      var w := words[0];
      assert IsWord(w) && [] + w == w;
      if |words| == 1 {
        assert w + [] == w;
        FieldsOfWord(w, [], []);
      } else {
        var tail := [32] + Join(words[1..]);
        assert Join(words) == w + tail;
        FieldsOfWord(w, tail, []);
        assert tail[1..] == Join(words[1..]);
        FieldsOfJoin(words[1..]);
        assert [w] + words[1..] == words;
      }
    }
  }

  lemma {:induction false} JoinHasNoLF(words: Args)
    requires AllWords(words)
    ensures NoLF(Join(words))
    decreases |words|
  {
    if words != [] {
      assert IsWord(words[0]);
      JoinHasNoLF(words[1..]);
    }
  }

  /** An inline line of words is read as those words, unless it starts like an array. */
  lemma {:induction false} InlineRoundTrip(words: Args, rest: Bytes)
    requires words != [] && AllWords(words) && words[0][0] != STAR
    ensures ReadCommand(Join(words) + CRLF + rest) == Good(words, rest)
  {
    JoinHasNoLF(words);
    ReadLineOf(Join(words), rest);
    FieldsOfJoin(words);
    assert IsWord(words[0]) && Join(words)[0] == words[0][0];
  }

  // ---- the source's loops ----

  /** EncodeCommand, writing into a buffer. */
  method EncodeCommand(args: Args) returns (buf: Bytes)
    ensures buf == Encode(args)
  {
    buf := [STAR] + Decimal.Print(|args|) + CRLF;
    var i := 0;
    assert args[0..] == args;
    while i < |args|
      invariant 0 <= i <= |args|
      invariant buf + Each(EncodeBulk, args[i..]) == Encode(args)
    {
      EachStep(EncodeBulk, args, i, buf);
      buf := WriteBulk(buf, args[i]);
      i := i + 1;
    }
    assert args[i..] == [] && buf + [] == buf;
  }

  lemma EachStep<T>(encode: T -> Bytes, xs: seq<T>, i: nat, before: Bytes)
    requires i < |xs|
    ensures before + Each(encode, xs[i..]) == before + encode(xs[i]) + Each(encode, xs[i + 1..])
  {
    assert xs[i..][1..] == xs[i + 1..];
    Assoc(before, encode(xs[i]), Each(encode, xs[i + 1..]));
  }

  method WriteBulk(buf: Bytes, a: Bytes) returns (buf': Bytes)
    ensures buf' == buf + EncodeBulk(a)
  {
    buf' := buf + ([DOLLAR] + Decimal.Print(|a|) + CRLF);
    buf' := buf' + a;
    buf' := buf' + CRLF;
  }

  class Reader {
    /** What the stream still holds. */
    var input: Bytes

    constructor (input: Bytes)
      ensures this.input == input
    {
      this.input := input;
    }

    /** On success the input is what the function says is left. */
    method Line() returns (r: Read<Bytes>)
      modifies this
      ensures r == ReadLine(old(input)) && (r.Good? ==> input == r.rest)
    {
      var n := FindLF(input);
      if n == |input| {
        input := [];
        return Bad(Eof);
      }
      var line := input[..n + 1];
      input := input[n + 1..];
      if |line| < 2 || line[|line| - 2] != CR {
        return Bad(Protocol);
      }
      assert line[..|line| - 2] == old(input)[..n - 1];
      return Good(line[..|line| - 2], input);
    }

    method Bulk() returns (r: Read<Bytes>)
      modifies this
      ensures r == ReadBulk(old(input)) && (r.Good? ==> input == r.rest)
    {
      var head := Line();
      if head.Bad? {
        return Bad(head.error);
      }
      if |head.value| == 0 || head.value[0] != DOLLAR {
        return Bad(Protocol);
      }
      var l := Decimal.ParseInt(head.value[1..]);
      if !l.Good? || l.value < 0 {
        return Bad(Protocol);
      }
      if |input| < l.value + 2 {
        return Bad(Eof);
      }
      r := Good(input[..l.value], input[l.value + 2..]);
      input := input[l.value + 2..];
    }

    /** ReadCommand: a multi-bulk array, or an inline command. */
    method Command() returns (r: Read<Args>)
      modifies this
      ensures r == ReadCommand(old(input)) && (r.Good? ==> input == r.rest)
    {
      var line := Line();
      if line.Bad? {
        return Bad(line.error);
      }
      if |line.value| == 0 {
        return Bad(Protocol);
      }
      if line.value[0] != STAR {
        return Good(Fields(line.value, []), input);
      }
      var n := Decimal.ParseInt(line.value[1..]);
      if !n.Good? || n.value < 1 {
        return Bad(Protocol);
      }
      r := Arguments(n.value);
    }

    /** The loop that fills the arguments. */
    method Arguments(n: nat) returns (r: Read<Args>)
      modifies this
      ensures r == Several(ReadBulk, old(input), n) && (r.Good? ==> input == r.rest)
    {
      ghost var start := input;
      var args: Args := [];
      var left := n;
      NothingRead(ReadBulk, start, n);
      while left > 0
        invariant 0 <= left <= n
        invariant Reaches(ReadBulk, start, n, args, input, left)
      {
        ghost var before := input;
        var a := Bulk();
        if a.Bad? {
          OneBad(ReadBulk, start, n, args, before, left, a.error);
          return Bad(a.error);
        }
        OneMore(ReadBulk, start, n, args, before, left, a.value, a.rest);
        args := args + [a.value];
        left := left - 1;
      }
      AllRead(ReadBulk, start, n, args, input);
      return Good(args, input);
    }
  }

  function Prepend<T>(xs: seq<T>, r: Read<seq<T>>): Read<seq<T>> {
    match r
    case Bad(e) => Bad(e)
    case Good(more, rest) => Good(xs + more, rest)
  }

  /** Of the `n` reads from `s`, those but for `left` have given `xs` and have led to `s'`. */
  ghost predicate Reaches<T>(read: Bytes -> Read<T>, s: Bytes, n: nat, xs: seq<T>, s': Bytes, left: nat) {
    Several(read, s, n) == Prepend(xs, Several(read, s', left))
  }

  lemma NothingRead<T>(read: Bytes -> Read<T>, s: Bytes, n: nat)
    ensures Reaches(read, s, n, [], s, n)
  {
    var r := Several(read, s, n);
    if r.Good? {
      assert [] + r.value == r.value;
    }
  }

  lemma OneMore<T>(read: Bytes -> Read<T>, s: Bytes, n: nat, xs: seq<T>, s': Bytes, left: nat, x: T, rest: Bytes)
    requires Reaches(read, s, n, xs, s', left) && left > 0 && read(s') == Good(x, rest)
    ensures Reaches(read, s, n, xs + [x], rest, left - 1)
  {
    var r := Several(read, rest, left - 1);
    if r.Good? {
      Assoc(xs, [x], r.value);
    }
  }

  lemma OneBad<T>(read: Bytes -> Read<T>, s: Bytes, n: nat, xs: seq<T>, s': Bytes, left: nat, e: Error)
    requires Reaches(read, s, n, xs, s', left) && left > 0 && read(s') == Bad(e)
    ensures Several(read, s, n) == Bad(e)
  {
  }

  lemma AllRead<T>(read: Bytes -> Read<T>, s: Bytes, n: nat, xs: seq<T>, s': Bytes)
    requires Reaches(read, s, n, xs, s', 0)
    ensures Several(read, s, n) == Good(xs, s')
  {
    assert xs + [] == xs;
  }
}
