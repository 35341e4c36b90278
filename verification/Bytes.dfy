/** Bytes, fixed-width integers and the few sequence helpers the other modules share. */
module Bytes {

  datatype Option<+T> = None | Some(value: T)

  type Byte = b: int | 0 <= b < 256
  type Bytes = seq<Byte>

  /** A command and its arguments. */
  type Args = seq<Bytes>

  const TWO_63 := 0x8000_0000_0000_0000
  const TWO_64 := 0x1_0000_0000_0000_0000

  /** The value of an integer expression after Go truncates it to int64. */
  function Int64(x: int): int {
    (x + TWO_63) % TWO_64 - TWO_63
  }

  predicate IsInt64(x: int) {
    -TWO_63 <= x < TWO_63
  }

  lemma Int64Id(x: int)
    requires IsInt64(x)
    ensures Int64(x) == x
  {
  }

  /** An ASCII literal as bytes. */
  function Lit(s: string): Bytes {
    seq(|s|, i requires 0 <= i < |s| => s[i] as int % 256)
  }

  const CR: Byte := 13
  const LF: Byte := 10
  const CRLF: Bytes := [CR, LF]
  const PLUS: Byte := 43
  const MINUS: Byte := 45
  const COLON: Byte := 58
  const DOLLAR: Byte := 36
  const STAR: Byte := 42

  function Max(a: int, b: int): int {
    if a < b then b else a
  }

  function Min(a: int, b: int): int {
    if a < b then a else b
  }

  function Take<T>(s: seq<T>, n: int): seq<T> {
    if n <= 0 then [] else if n < |s| then s[..n] else s
  }

  lemma Assoc<T>(a: seq<T>, b: seq<T>, c: seq<T>)
    ensures a + b + c == a + (b + c)
  {
  }
}
