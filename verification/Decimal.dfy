/** Decimal integers: what fmt prints and what strconv reads back. */
module Decimal {
  import opened Bytes

  predicate IsDigit(b: Byte) {
    48 <= b <= 57
  }

  function PrintNat(n: nat): (s: Bytes)
    ensures |s| >= 1
    ensures forall i :: 0 <= i < |s| ==> IsDigit(s[i])
  {
    if n < 10 then [48 + n] else PrintNat(n / 10) + [48 + n % 10]
  }

  /** fmt's rendering of an integer (%d, and Sprint of an int64). */
  function Print(n: int): (s: Bytes)
    ensures |s| >= 1
    ensures forall i :: 0 <= i < |s| ==> IsDigit(s[i]) || s[i] == MINUS
  {
    if n < 0 then [MINUS] + PrintNat(-n) else PrintNat(n)
  }

  /** The value strconv returns and the error beside it: a value is returned on a range error too. */
  datatype Parsed = Good(value: int) | Syntax | Range(value: int) {
    /** What a caller that drops the error sees. */
    function ValueOrZero(): int {
      if Syntax? then 0 else value
    }
  }

  /** ParseUint's digit loop: the accumulator so far is `acc`. */
  function ScanDigits(s: Bytes, acc: nat): Parsed
    decreases |s|
  {
    if s == [] then Good(acc)
    else if !IsDigit(s[0]) then Syntax
    else
      var n := acc * 10 + (s[0] - 48);
      if n >= TWO_64 then Range(TWO_64 - 1) else ScanDigits(s[1..], n)
  }

  function ParseUint(s: Bytes): Parsed {
    if s == [] then Syntax else ScanDigits(s, 0)
  }

  /** strconv.ParseInt(s, 10, 64). */
  function ParseInt(s: Bytes): (p: Parsed)
  {
    var neg := s != [] && s[0] == MINUS;
    var digits := if s != [] && (s[0] == MINUS || s[0] == PLUS) then s[1..] else s;
    var u := ParseUint(digits);
    if u.Syntax? then Syntax
    else if !neg && u.value >= TWO_63 then Range(TWO_63 - 1)
    else if neg && u.value > TWO_63 then Range(-TWO_63)
    else Good(if neg then -u.value else u.value)
  }

  lemma {:induction false} ScanDigitsNonNegative(s: Bytes, acc: nat)
    ensures var u := ScanDigits(s, acc); !u.Syntax? ==> 0 <= u.value
    decreases |s|
  {
    if s != [] && IsDigit(s[0]) && acc * 10 + (s[0] - 48) < TWO_64 {
      ScanDigitsNonNegative(s[1..], acc * 10 + (s[0] - 48));
    }
  }

  /** ParseInt never leaves int64, error or not. */
  lemma ParseIntInRange(s: Bytes)
    ensures IsInt64(ParseInt(s).ValueOrZero())
  {
    var digits := if s != [] && (s[0] == MINUS || s[0] == PLUS) then s[1..] else s;
    if digits != [] {
      ScanDigitsNonNegative(digits, 0);
    }
  }

  /** The digit loop handles one more digit at the right end. */
  lemma {:induction false} ScanDigitsSnoc(s: Bytes, d: Byte, acc: nat)
    requires IsDigit(d) && ScanDigits(s, acc).Good?
    requires ScanDigits(s, acc).value >= 0
    requires ScanDigits(s, acc).value * 10 + (d - 48) < TWO_64
    ensures ScanDigits(s + [d], acc) == Good(ScanDigits(s, acc).value * 10 + (d - 48))
    decreases |s|
  {
    if s == [] {
      assert (s + [d])[1..] == [];
    } else {
      assert (s + [d])[1..] == s[1..] + [d];
      ScanDigitsSnoc(s[1..], d, acc * 10 + (s[0] - 48));
    }
  }

  lemma {:induction false} ScanPrinted(n: nat)
    requires n < TWO_64
    ensures ScanDigits(PrintNat(n), 0) == Good(n)
  {
    if n < 10 {
      assert PrintNat(n)[1..] == [];
    } else {
      ScanPrinted(n / 10);
      ScanDigitsSnoc(PrintNat(n / 10), 48 + n % 10, 0);
    }
  }

  /** Reading back a printed int64 gives it exactly. */
  lemma {:induction false} PrintParse(n: int)
    requires IsInt64(n)
    ensures ParseInt(Print(n)) == Good(n)
  {
    if n < 0 {
      ScanPrinted(-n);
      assert Print(n)[1..] == PrintNat(-n);
    } else {
      ScanPrinted(n);
      assert IsDigit(PrintNat(n)[0]);
    }
  }

  // ---- what is too large, or signed ----

  lemma {:induction false} ScanLarge(n: nat)
    requires n >= TWO_64
    ensures ScanDigits(PrintNat(n), 0) == Range(TWO_64 - 1)
  {
    if n / 10 >= TWO_64 {
      ScanLarge(n / 10);
      ScanRangeSnoc(PrintNat(n / 10), 48 + n % 10, 0);
    } else {
      ScanPrinted(n / 10);
      ScanOverflowSnoc(PrintNat(n / 10), 48 + n % 10, 0);
    }
  }

  lemma {:induction false} ScanRangeSnoc(s: Bytes, d: Byte, acc: nat)
    requires ScanDigits(s, acc).Range?
    ensures ScanDigits(s + [d], acc) == ScanDigits(s, acc)
    decreases |s|
  {
    assert (s + [d])[1..] == s[1..] + [d];
    if acc * 10 + (s[0] - 48) < TWO_64 {
      ScanRangeSnoc(s[1..], d, acc * 10 + (s[0] - 48));
    }
  }

  lemma {:induction false} ScanOverflowSnoc(s: Bytes, d: Byte, acc: nat)
    requires IsDigit(d) && ScanDigits(s, acc).Good? && ScanDigits(s, acc).value * 10 + (d - 48) >= TWO_64
    ensures ScanDigits(s + [d], acc) == Range(TWO_64 - 1)
    decreases |s|
  {
    if s == [] {
      assert (s + [d])[1..] == [];
    } else {
      assert (s + [d])[1..] == s[1..] + [d];
      ScanOverflowSnoc(s[1..], d, acc * 10 + (s[0] - 48));
    }
  }

  function Signed(sign: Byte, n: nat): Bytes {
    [sign] + PrintNat(n)
  }

  /**
   Every whole number, printed, with or without a sign: what fits an int64 is read exactly, and what
   does not is an error beside the nearest int64.
   */
  lemma {:induction false} ParsePrinted(n: nat)
    ensures ParseInt(PrintNat(n)) == if n < TWO_63 then Good(n) else Range(TWO_63 - 1)
  {
    ScanAny(n);
    ParseSigned(PrintNat(n));
  }

  lemma {:induction false} ParsePlus(n: nat)
    ensures ParseInt(Signed(PLUS, n)) == if n < TWO_63 then Good(n) else Range(TWO_63 - 1)
  {
    ScanAny(n);
    ParseSigned(PrintNat(n));
  }

  lemma {:induction false} ParseMinus(n: nat)
    ensures ParseInt(Signed(MINUS, n)) == if n <= TWO_63 then Good(0 - n) else Range(-TWO_63)
  {
    ScanAny(n);
    ParseSigned(PrintNat(n));
  }

  lemma ScanAny(n: nat)
    ensures ParseUint(PrintNat(n)) == if n < TWO_64 then Good(n) else Range(TWO_64 - 1)
  {
    if n < TWO_64 {
      ScanPrinted(n);
    } else {
      ScanLarge(n);
    }
  }

  /** What a sign does to the digits behind it. */
  lemma ParseSigned(digits: Bytes)
    requires digits != [] && IsDigit(digits[0]) && !ParseUint(digits).Syntax?
    ensures var u := ParseUint(digits).value;
            && ParseInt(digits) == (if u >= TWO_63 then Range(TWO_63 - 1) else Good(u))
            && ParseInt([PLUS] + digits) == ParseInt(digits)
            && ParseInt([MINUS] + digits) == (if u > TWO_63 then Range(-TWO_63) else Good(-u))
  {
    assert ([PLUS] + digits)[1..] == digits && ([MINUS] + digits)[1..] == digits;
  }

  /** A byte that is not a digit, behind a sign or at the front, is a syntax error, and so is nothing at all. */
  lemma ParseNothing(s: Bytes)
    requires s != [] ==> !IsDigit(s[0])
    ensures ParseInt(s).Syntax? || s[0] == PLUS || s[0] == MINUS
    ensures ParseInt([PLUS] + s) == Syntax && ParseInt([MINUS] + s) == Syntax
  {
    assert ([PLUS] + s)[1..] == s && ([MINUS] + s)[1..] == s;
  }

  lemma {:induction false} ScanJunk(s: Bytes, b: Byte, rest: Bytes, acc: nat)
    requires !IsDigit(b) && ScanDigits(s, acc).Good?
    ensures ScanDigits(s + ([b] + rest), acc) == Syntax
    decreases |s|
  {
    if s == [] {
      assert s + ([b] + rest) == [b] + rest;
    } else {
      assert (s + ([b] + rest))[1..] == s[1..] + ([b] + rest);
      ScanJunk(s[1..], b, rest, acc * 10 + (s[0] - 48));
    }
  }

  /** Nor is a number read that has anything but digits behind its first ones. */
  lemma {:induction false} ParseJunk(n: nat, b: Byte, rest: Bytes)
    requires n < TWO_64 && !IsDigit(b)
    ensures ParseInt(PrintNat(n) + ([b] + rest)) == Syntax
  {
    ScanPrinted(n);
    ScanJunk(PrintNat(n), b, rest, 0);
    assert IsDigit(PrintNat(n)[0]);
  }

  /** The digits are the usual ones: 907 is "907" and -45 is "-45". */
  lemma PrintedDigits()
    ensures Print(907) == [57, 48, 55] && Print(-45) == [45, 52, 53] && Print(0) == [48]
  {
    assert PrintNat(90) == [57, 48] && PrintNat(4) == [52];
  }
}
