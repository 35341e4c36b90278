/** Exactly which bytes are read as which lines, bulk strings and commands. */
module RespExact {
  import opened Bytes
  import opened Resp
  import Decimal

  // ---- bytes, written out ----

  /** GET k is "*2", "$3", "GET", "$1", "k", each with CR and LF behind it. */
  lemma {:induction false} EncodedBytes()
    ensures Encode([[71, 69, 84], [107]]) ==
            [42, 50, 13, 10, 36, 51, 13, 10, 71, 69, 84, 13, 10, 36, 49, 13, 10, 107, 13, 10]
  {
    var k: Args := [[107]];
    var all: Args := [[71, 69, 84], [107]];
    assert all[1..] == k && k[1..] == [];
    BulkBytes();
    assert Each(EncodeBulk, k) == EncodeBulk([107]) + Each(EncodeBulk, []);
    assert Each(EncodeBulk, k) == EncodeBulk([107]);
  }

  lemma BulkBytes()
    ensures EncodeBulk([107]) == [36, 49, 13, 10, 107, 13, 10]
    ensures EncodeBulk([71, 69, 84]) == [36, 51, 13, 10, 71, 69, 84, 13, 10]
  {
  }

  // ---- lines ----

  /** A line is read if and only if it ends in the first LF and a CR stands before that. */
  lemma {:induction false} LineExact(s: Bytes, line: Bytes, rest: Bytes)
    ensures ReadLine(s) == Good(line, rest) <==> NoLF(line) && s == line + [13, 10] + rest
  {
    if NoLF(line) && s == line + [13, 10] + rest {
      ReadLineOf(line, rest);
    }
    if ReadLine(s) == Good(line, rest) {
      var n := FindLF(s);
      assert s == s[..n - 1] + [13, 10] + s[n + 1..];
    }
  }

  /** Without any LF it is the end of input; with a first LF that has no CR before it, a protocol error. */
  lemma {:induction false} LineErrors(s: Bytes)
    ensures ReadLine(s) == Bad(Eof) <==> NoLF(s)
    ensures ReadLine(s) == Bad(Protocol) <==> exists n :: 0 <= n < |s| && s[n] == 10 && NoLF(s[..n]) && (n == 0 || s[n - 1] != 13)
  {
    var n := FindLF(s);
    if n < |s| {
      assert s[n] == 10 && NoLF(s[..n]);
      forall k | 0 <= k < |s| && s[k] == 10 && NoLF(s[..k])
        ensures k == n
      {
        assert s == s[..k] + [LF] + s[k + 1..];
        FindLFAt(s[..k], s[k + 1..]);
      }
    }
  }

  /** The header of an array or of a bulk string: its type, a number, CR and LF. */
  predicate IsHeader(s: Bytes, kind: Byte, n: nat, text: Bytes, rest: Bytes) {
    NoLF(text) && Decimal.ParseInt(text) == Decimal.Good(n) && s == [kind] + text + [13, 10] + rest
  }

  lemma {:induction false} HeaderIsRead(s: Bytes, kind: Byte, least: nat, n: nat, text: Bytes, rest: Bytes)
    requires kind != 10 && IsHeader(s, kind, n, text, rest) && least <= n
    ensures ReadLength(s, kind, least) == Good(n, rest) && ReadLine(s) == Good([kind] + text, rest)
  {
    LineExact(s, [kind] + text, rest);
    assert ([kind] + text)[1..] == text;
  }

  lemma {:induction false} HeaderWasThere(s: Bytes, kind: Byte, least: nat, n: nat, rest: Bytes) returns (text: Bytes)
    requires ReadLength(s, kind, least) == Good(n, rest)
    ensures IsHeader(s, kind, n, text, rest) && least <= n
  {
    var line := ReadLine(s).value;
    LineExact(s, line, rest);
    text := line[1..];
    assert line == [kind] + text;
  }

  lemma {:induction false} LengthExact(s: Bytes, kind: Byte, least: nat, n: nat, rest: Bytes)
    requires kind != 10
    ensures ReadLength(s, kind, least) == Good(n, rest) <==> least <= n && exists text :: IsHeader(s, kind, n, text, rest)
  {
    if ReadLength(s, kind, least) == Good(n, rest) {
      var text := HeaderWasThere(s, kind, least, n, rest);
    }
    if text :| least <= n && IsHeader(s, kind, n, text, rest) {
      HeaderIsRead(s, kind, least, n, text, rest);
    }
  }

  /** A '$' and a length, so many bytes, and any two more. */
  predicate IsBulk(s: Bytes, a: Bytes, text: Bytes, x: Byte, y: Byte, rest: Bytes) {
    IsHeader(s, 36, |a|, text, a + [x, y] + rest)
  }

  lemma {:induction false} BulkIsRead(s: Bytes, a: Bytes, text: Bytes, x: Byte, y: Byte, rest: Bytes)
    requires IsBulk(s, a, text, x, y, rest)
    ensures ReadBulk(s) == Good(a, rest)
  {
    var body := a + [x, y] + rest;
    HeaderIsRead(s, 36, 0, |a|, text, body);
    assert body[..|a|] == a && body[|a| + 2..] == rest;
  }

  lemma {:induction false} BulkWasThere(s: Bytes, a: Bytes, rest: Bytes) returns (text: Bytes, x: Byte, y: Byte)
    requires ReadBulk(s) == Good(a, rest)
    ensures IsBulk(s, a, text, x, y, rest)
  {
    var body := ReadLength(s, 36, 0).rest;
    text := HeaderWasThere(s, 36, 0, |a|, body);
    x, y := body[|a|], body[|a| + 1];
    assert body == a + [x, y] + rest;
  }

  /** A bulk string is read if and only if it is there. */
  lemma {:induction false} BulkExact(s: Bytes, a: Bytes, rest: Bytes)
    ensures ReadBulk(s) == Good(a, rest) <==> exists text, x, y :: IsBulk(s, a, text, x, y, rest)
  {
    if ReadBulk(s) == Good(a, rest) {
      var text, x, y := BulkWasThere(s, a, rest);
    }
    if text, x, y :| IsBulk(s, a, text, x, y, rest) {
      BulkIsRead(s, a, text, x, y, rest);
    }
  }

  /** A '*' and a count that is not 0, and so many bulk strings. */
  predicate IsArray(s: Bytes, args: Args, text: Bytes, body: Bytes, rest: Bytes) {
    args != [] && IsHeader(s, 42, |args|, text, body) && Several(ReadBulk, body, |args|) == Good(args, rest)
  }

  lemma {:induction false} ArrayIsRead(s: Bytes, args: Args, text: Bytes, body: Bytes, rest: Bytes)
    requires IsArray(s, args, text, body, rest)
    ensures ReadCommand(s) == Good(args, rest)
  {
    HeaderIsRead(s, 42, 1, |args|, text, body);
  }

  lemma {:induction false} ArrayWasThere(s: Bytes, args: Args, rest: Bytes) returns (text: Bytes, body: Bytes)
    requires ReadCommand(s) == Good(args, rest) && s != [] && s[0] == 42
    ensures IsArray(s, args, text, body, rest)
  {
    var line := ReadLine(s);
    LineExact(s, line.value, line.rest);
    assert line.value != [] && line.value[0] == s[0];
    var h := ReadLength(s, 42, 1);
    body := h.rest;
    text := HeaderWasThere(s, 42, 1, h.value, body);
  }

  /** Input that starts with '*' is read as a command if and only if it is such an array. */
  lemma {:induction false} ArrayExact(s: Bytes, args: Args, rest: Bytes)
    requires s != [] && s[0] == 42
    ensures ReadCommand(s) == Good(args, rest) <==> exists text, body :: IsArray(s, args, text, body, rest)
  {
    if ReadCommand(s) == Good(args, rest) {
      var text, body := ArrayWasThere(s, args, rest);
    }
    if text, body :| IsArray(s, args, text, body, rest) {
      ArrayIsRead(s, args, text, body, rest);
    }
  }

  // ---- inline commands ----

  /** White space: tab, LF, VT, FF, CR and space. */
  predicate IsWhite(b: Byte) {
    b == 9 || b == 10 || b == 11 || b == 12 || b == 13 || b == 32
  }

  predicate IsGap(s: Bytes) {
    forall i :: 0 <= i < |s| ==> IsWhite(s[i])
  }

  predicate IsPlain(s: Bytes) {
    s != [] && forall i :: 0 <= i < |s| ==> !IsWhite(s[i])
  }

  /** Words with a gap before each and one behind the last; gaps between words are not empty. */
  predicate IsSpread(gaps: seq<Bytes>, words: Args) {
    && |gaps| == |words| + 1
    && (forall i :: 0 <= i < |gaps| ==> IsGap(gaps[i]))
    && (forall i :: 0 <= i < |words| ==> IsPlain(words[i]))
    && (forall i :: 0 < i < |words| ==> gaps[i] != [])
  }

  function Spread(gaps: seq<Bytes>, words: Args): Bytes
    requires |gaps| == |words| + 1
    decreases |words|
  {
    if words == [] then gaps[0] else gaps[0] + (words[0] + Spread(gaps[1..], words[1..]))
  }

  lemma {:induction false} FieldsOfGap(gap: Bytes, rest: Bytes)
    requires IsGap(gap)
    ensures Fields(gap + rest, []) == Fields(rest, [])
    decreases |gap|
  {
    if gap == [] {
      assert gap + rest == rest;
    } else {
      assert (gap + rest)[1..] == gap[1..] + rest;
      FieldsOfGap(gap[1..], rest);
    }
  }

  /** A word ends at the end of the line, or where white space follows. */
  lemma {:induction false} WordEnds(word: Bytes, rest: Bytes)
    requires word != [] && (rest == [] || IsWhite(rest[0]))
    ensures Fields(rest, word) == [word] + Fields(rest, [])
  {
  }

  lemma SpreadTail(gaps: seq<Bytes>, words: Args)
    requires IsSpread(gaps, words) && words != []
    ensures IsSpread(gaps[1..], words[1..])
    ensures var rest := Spread(gaps[1..], words[1..]); rest == [] || IsWhite(rest[0])
  {
    var g, w := gaps[1..], words[1..];
    forall i | 0 < i < |w|
      ensures g[i] != []
    {
      assert g[i] == gaps[i + 1];
    }
    assert IsGap(gaps[1]);
  }

  /** However they are spaced, the words are the fields. */
  lemma {:induction false} FieldsOfSpread(gaps: seq<Bytes>, words: Args)
    requires IsSpread(gaps, words)
    ensures Fields(Spread(gaps, words), []) == words
    decreases |words|
  {
    assert IsGap(gaps[0]);
    if words == [] {
      FieldsOfGap(gaps[0], []);
      assert gaps[0] + [] == gaps[0];
    } else {
      var rest := Spread(gaps[1..], words[1..]);
      assert IsPlain(words[0]) && [] + words[0] == words[0];
      FieldsOfGap(gaps[0], words[0] + rest);
      FieldsOfWord(words[0], rest, []);
      SpreadTail(gaps, words);
      WordEnds(words[0], rest);
      FieldsOfSpread(gaps[1..], words[1..]);
      assert [words[0]] + words[1..] == words;
    }
  }

  /** The length of the white space at the front; of the word there. */
  function GapLength(s: Bytes): (n: nat)
    ensures n <= |s| && IsGap(s[..n]) && (n < |s| ==> !IsWhite(s[n]))
  {
    if s == [] || !IsWhite(s[0]) then 0
    else
      var n := GapLength(s[1..]);
      assert forall i :: 1 <= i < n + 1 ==> s[i] == s[1..][..n][i - 1];
      n + 1
  }

  function WordLength(s: Bytes): (n: nat)
    ensures n <= |s| && (forall i :: 0 <= i < n ==> !IsWhite(s[i])) && (n < |s| ==> IsWhite(s[n]))
  {
    if s == [] || IsWhite(s[0]) then 0 else 1 + WordLength(s[1..])
  }

  /** Every line is words and gaps. */
  lemma {:induction false} Decompose(s: Bytes) returns (gaps: seq<Bytes>, words: Args)
    ensures IsSpread(gaps, words) && Spread(gaps, words) == s
    ensures words != [] && (s == [] || IsWhite(s[0])) ==> gaps[0] != []
    decreases |s|
  {
    var n := GapLength(s);
    if n == |s| {
      gaps, words := [s], [];
      assert s[..n] == s;
    } else {
      var t := s[n..];
      var k := WordLength(t);
      var gs, ws := Decompose(t[k..]);
      gaps, words := [s[..n]] + gs, [t[..k]] + ws;
      assert gaps[1..] == gs && words[1..] == ws;
      assert t == t[..k] + t[k..] && s == s[..n] + t;
      JoinsSpread(s[..n], t[..k], gs, ws);
    }
  }

  lemma JoinsSpread(gap: Bytes, word: Bytes, gs: seq<Bytes>, ws: Args)
    requires IsSpread(gs, ws) && IsGap(gap) && IsPlain(word) && (ws != [] ==> gs[0] != [])
    ensures IsSpread([gap] + gs, [word] + ws)
  {
    var gaps, words := [gap] + gs, [word] + ws;
    forall i | 0 < i < |words|
      ensures gaps[i] != []
    {
      assert gaps[i] == gs[i - 1];
    }
  }

  /** So for every line the fields are the words in it: none is empty, none holds white space, none is missing. */
  lemma {:induction false} FieldsExact(s: Bytes) returns (gaps: seq<Bytes>)
    ensures IsSpread(gaps, Fields(s, [])) && Spread(gaps, Fields(s, [])) == s
  {
    var words;
    gaps, words := Decompose(s);
    FieldsOfSpread(gaps, words);
  }

  /** A line that does not start with '*' is read as its words, however they are spaced. */
  lemma {:induction false} InlineExact(gaps: seq<Bytes>, words: Args, rest: Bytes)
    requires IsSpread(gaps, words)
    requires var line := Spread(gaps, words); line != [] && line[0] != 42 && NoLF(line)
    ensures ReadCommand(Spread(gaps, words) + [13, 10] + rest) == Good(words, rest)
  {
    var line := Spread(gaps, words);
    LineExact(line + [13, 10] + rest, line, rest);
    FieldsOfSpread(gaps, words);
  }
}
