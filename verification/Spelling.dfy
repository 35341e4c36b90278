/**
 Commands by their letters: what is rewritten into what, with the names, the options and the amounts
 written out, in any letter case.
 */
module Spelling {
  import opened Bytes
  import opened Store
  import opened Normalize
  import Decimal

  /** These letters, each in upper or lower case; the word itself is in upper case. */
  predicate Spells(a: Bytes, word: string) {
    |a| == |word| && forall i :: 0 <= i < |word| ==> a[i] == word[i] as int || a[i] == word[i] as int + 32
  }

  predicate IsUpper(word: string) {
    forall i :: 0 <= i < |word| ==> 'A' <= word[i] <= 'Z'
  }

  lemma {:induction false} UpperSpells(a: Bytes, word: string)
    requires IsUpper(word)
    ensures ToUpper(a) == Lit(word) <==> Spells(a, word)
  {
    if Spells(a, word) {
      assert ToUpper(a) == Lit(word);
    }
    if ToUpper(a) == Lit(word) {
      assert |ToUpper(a)| == |a| && |Lit(word)| == |word|;
      forall i | 0 <= i < |word|
        ensures a[i] == word[i] as int || a[i] == word[i] as int + 32
      {
        assert ToUpper(a)[i] == Lit(word)[i];
      }
    }
  }

  // ---- the tables ----

  lemma SetBytes()
    ensures Lit("SET") == [83, 69, 84] && Lit("SETEX") == [83, 69, 84, 69, 88] && Lit("PSETEX") == [80, 83, 69, 84, 69, 88]
    ensures Lit("DEL") == [68, 69, 76] && Lit("APPEND") == [65, 80, 80, 69, 78, 68]
  {
  }

  lemma ExpireBytes()
    ensures Lit("EXPIRE") == [69, 88, 80, 73, 82, 69] && Lit("PEXPIRE") == [80, 69, 88, 80, 73, 82, 69]
    ensures Lit("EXPIREAT") == [69, 88, 80, 73, 82, 69, 65, 84]
    ensures Lit("PEXPIREAT") == [80, 69, 88, 80, 73, 82, 69, 65, 84]
    ensures Lit("PERSIST") == [80, 69, 82, 83, 73, 83, 84]
  {
  }

  lemma NamesDiffer(u: Bytes)
    ensures (u == Lit("SET") ==> u[0] == 83 && |u| == 3) && (u == Lit("SETEX") ==> |u| == 5)
    ensures u == Lit("PSETEX") ==> u[0] == 80 && |u| == 6
    ensures u == Lit("EXPIRE") ==> u[0] == 69 && |u| == 6
    ensures u == Lit("APPEND") ==> u[0] == 65 && |u| == 6
    ensures u == Lit("PEXPIRE") ==> u[2] == 88 && |u| == 7
    ensures u == Lit("PERSIST") ==> u[2] == 82 && |u| == 7
    ensures (u == Lit("EXPIREAT") ==> |u| == 8) && (u == Lit("PEXPIREAT") ==> |u| == 9)
    ensures u == Lit("DEL") ==> u[0] == 68 && |u| == 3
  {
    SetBytes();
    ExpireBytes();
  }

  lemma {:induction false} NameIs(a: Bytes)
    ensures (NameOf(a) == Set <==> ToUpper(a) == Lit("SET")) && (NameOf(a) == SetEx <==> ToUpper(a) == Lit("SETEX"))
    ensures (NameOf(a) == PSetEx <==> ToUpper(a) == Lit("PSETEX")) && (NameOf(a) == Expire <==> ToUpper(a) == Lit("EXPIRE"))
    ensures (NameOf(a) == PExpire <==> ToUpper(a) == Lit("PEXPIRE")) && (NameOf(a) == ExpireAt <==> ToUpper(a) == Lit("EXPIREAT"))
    ensures (NameOf(a) == PExpireAt <==> ToUpper(a) == Lit("PEXPIREAT")) && (NameOf(a) == Persist <==> ToUpper(a) == Lit("PERSIST"))
    ensures (NameOf(a) == Del <==> ToUpper(a) == Lit("DEL")) && (NameOf(a) == Append <==> ToUpper(a) == Lit("APPEND"))
  {
    NamesDiffer(ToUpper(a));
  }

  /** Which words are which commands; in both directions, so no other word is one of them. */
  lemma {:induction false} NamesExact(a: Bytes)
    ensures (NameOf(a) == Set <==> Spells(a, "SET")) && (NameOf(a) == SetEx <==> Spells(a, "SETEX"))
    ensures (NameOf(a) == PSetEx <==> Spells(a, "PSETEX")) && (NameOf(a) == Expire <==> Spells(a, "EXPIRE"))
    ensures (NameOf(a) == PExpire <==> Spells(a, "PEXPIRE")) && (NameOf(a) == ExpireAt <==> Spells(a, "EXPIREAT"))
    ensures (NameOf(a) == PExpireAt <==> Spells(a, "PEXPIREAT")) && (NameOf(a) == Persist <==> Spells(a, "PERSIST"))
    ensures (NameOf(a) == Del <==> Spells(a, "DEL")) && (NameOf(a) == Append <==> Spells(a, "APPEND"))
  {
    FirstNames(a);
    OtherNames(a);
  }

  lemma {:induction false} FirstNames(a: Bytes)
    ensures (NameOf(a) == Set <==> Spells(a, "SET")) && (NameOf(a) == SetEx <==> Spells(a, "SETEX"))
    ensures (NameOf(a) == PSetEx <==> Spells(a, "PSETEX")) && (NameOf(a) == Expire <==> Spells(a, "EXPIRE"))
    ensures NameOf(a) == PExpire <==> Spells(a, "PEXPIRE")
  {
    NameIs(a);
    UpperSpells(a, "SET");
    UpperSpells(a, "SETEX");
    UpperSpells(a, "PSETEX");
    UpperSpells(a, "EXPIRE");
    UpperSpells(a, "PEXPIRE");
  }

  lemma {:induction false} OtherNames(a: Bytes)
    ensures NameOf(a) == ExpireAt <==> Spells(a, "EXPIREAT")
    ensures (NameOf(a) == PExpireAt <==> Spells(a, "PEXPIREAT")) && (NameOf(a) == Persist <==> Spells(a, "PERSIST"))
    ensures (NameOf(a) == Del <==> Spells(a, "DEL")) && (NameOf(a) == Append <==> Spells(a, "APPEND"))
  {
    NameIs(a);
    UpperSpells(a, "EXPIREAT");
    UpperSpells(a, "PEXPIREAT");
    UpperSpells(a, "PERSIST");
    UpperSpells(a, "DEL");
    UpperSpells(a, "APPEND");
  }

  lemma OptionsDiffer(u: Bytes)
    ensures (u == Lit("EX") ==> |u| == 2 && u[0] == 69) && (u == Lit("PX") ==> |u| == 2 && u[0] == 80)
    ensures (u == Lit("NX") ==> |u| == 2 && u[0] == 78) && (u == Lit("XX") ==> |u| == 2 && u[0] == 88)
    ensures (u == Lit("GT") ==> |u| == 2 && u[0] == 71) && (u == Lit("LT") ==> |u| == 2 && u[0] == 76)
    ensures (u == Lit("EXAT") ==> |u| == 4 && u[0] == 69) && (u == Lit("PXAT") ==> |u| == 4 && u[0] == 80)
    ensures (u == Lit("KEEPTTL") ==> |u| == 7) && (u == Lit("GET") ==> |u| == 3)
  {
    assert Lit("EX")[0] == 69 && Lit("PX")[0] == 80 && Lit("NX")[0] == 78 && Lit("XX")[0] == 88;
    assert Lit("GT")[0] == 71 && Lit("LT")[0] == 76 && Lit("EXAT")[0] == 69 && Lit("PXAT")[0] == 80;
  }

  lemma {:induction false} OptionIs(a: Bytes)
    ensures (OptionOf(a) == Ex <==> ToUpper(a) == Lit("EX")) && (OptionOf(a) == Px <==> ToUpper(a) == Lit("PX"))
    ensures (OptionOf(a) == ExAt <==> ToUpper(a) == Lit("EXAT")) && (OptionOf(a) == PxAt <==> ToUpper(a) == Lit("PXAT"))
    ensures (OptionOf(a) == Nx <==> ToUpper(a) == Lit("NX")) && (OptionOf(a) == Xx <==> ToUpper(a) == Lit("XX"))
    ensures (OptionOf(a) == KeepTtl <==> ToUpper(a) == Lit("KEEPTTL")) && (OptionOf(a) == Get <==> ToUpper(a) == Lit("GET"))
    ensures (OptionOf(a) == Gt <==> ToUpper(a) == Lit("GT")) && (OptionOf(a) == Lt <==> ToUpper(a) == Lit("LT"))
  {
    OptionsDiffer(ToUpper(a));
  }

  lemma {:induction false} OptionsExact(a: Bytes)
    ensures (OptionOf(a) == Ex <==> Spells(a, "EX")) && (OptionOf(a) == Px <==> Spells(a, "PX"))
    ensures (OptionOf(a) == ExAt <==> Spells(a, "EXAT")) && (OptionOf(a) == PxAt <==> Spells(a, "PXAT"))
    ensures (OptionOf(a) == Nx <==> Spells(a, "NX")) && (OptionOf(a) == Xx <==> Spells(a, "XX"))
    ensures (OptionOf(a) == KeepTtl <==> Spells(a, "KEEPTTL")) && (OptionOf(a) == Get <==> Spells(a, "GET"))
    ensures (OptionOf(a) == Gt <==> Spells(a, "GT")) && (OptionOf(a) == Lt <==> Spells(a, "LT"))
  {
    TimedOptions(a);
    OtherOptions(a);
  }

  lemma {:induction false} TimedOptions(a: Bytes)
    ensures (OptionOf(a) == Ex <==> Spells(a, "EX")) && (OptionOf(a) == Px <==> Spells(a, "PX"))
    ensures (OptionOf(a) == ExAt <==> Spells(a, "EXAT")) && (OptionOf(a) == PxAt <==> Spells(a, "PXAT"))
  {
    OptionIs(a);
    UpperSpells(a, "EX");
    UpperSpells(a, "PX");
    UpperSpells(a, "EXAT");
    UpperSpells(a, "PXAT");
  }

  lemma {:induction false} OtherOptions(a: Bytes)
    ensures (OptionOf(a) == Nx <==> Spells(a, "NX")) && (OptionOf(a) == Xx <==> Spells(a, "XX"))
    ensures (OptionOf(a) == KeepTtl <==> Spells(a, "KEEPTTL")) && (OptionOf(a) == Get <==> Spells(a, "GET"))
    ensures (OptionOf(a) == Gt <==> Spells(a, "GT")) && (OptionOf(a) == Lt <==> Spells(a, "LT"))
  {
    OptionIs(a);
    UpperSpells(a, "NX");
    UpperSpells(a, "XX");
    UpperSpells(a, "KEEPTTL");
    UpperSpells(a, "GET");
    UpperSpells(a, "GT");
    UpperSpells(a, "LT");
  }

  // ---- the rewriting ----

  /** The letters S, E, T. */
  const THE_SET: Bytes := [83, 69, 84]

  /** The letters P, E, X, P, I, R, E, A, T. */
  const THE_PEXPIREAT: Bytes := [80, 69, 88, 80, 73, 82, 69, 65, 84]

  lemma LoggedNames()
    ensures SET == THE_SET && PEXPIREAT == THE_PEXPIREAT
  {
    SetBytes();
    ExpireBytes();
  }

  function Expiry(key: Bytes, ms: int): Args {
    [THE_PEXPIREAT, key, Decimal.Print(ms)]
  }

  /** Milliseconds that a word of SET stands for, given its amount. */
  function SetMillis(opt: Bytes, n: int, now: int): Option<int> {
    if Spells(opt, "EX") then Some(now + n * 1000)
    else if Spells(opt, "PX") then Some(now + n)
    else if Spells(opt, "EXAT") then Some(n * 1000)
    else if Spells(opt, "PXAT") then Some(n)
    else None
  }

  /** Nothing overflows: the amount in milliseconds, and the deadline. */
  predicate FitsAll(n: int, ms: int) {
    IsInt64(n) && IsInt64(n * 1000) && IsInt64(ms)
  }

  lemma {:induction false} SpelledDeadline(opt: Bytes, n: int, now: int)
    requires SetMillis(opt, n, now).Some? && FitsAll(n, SetMillis(opt, n, now).value)
    ensures TakesValue(OptionOf(opt)) && GoDeadline(OptionOf(opt), n, now) == SetMillis(opt, n, now).value
  {
    OptionsExact(opt);
    Int64Id(n * 1000);
    Int64Id(SetMillis(opt, n, now).value);
  }

  lemma SpelledName(name: Bytes)
    ensures (Spells(name, "SET") ==> NameOf(name) == Set) && (Spells(name, "SETEX") ==> NameOf(name) == SetEx)
    ensures Spells(name, "PSETEX") ==> NameOf(name) == PSetEx
  {
    NamesExact(name);
  }

  /** How the rewriting scans a deadline, and a word before it. */
  lemma {:induction false} ScanDeadline(opt: Bytes, n: int, now: int, s: Scanned)
    requires TakesValue(OptionOf(opt)) && IsInt64(n)
    ensures ScanSet([opt, Decimal.Print(n)], now, s) == Scanned(GoDeadline(OptionOf(opt), n, now), s.flags)
  {
    var opts: Args := [opt, Decimal.Print(n)];
    Decimal.PrintParse(n);
    assert opts[2..] == [];
  }

  lemma {:induction false} ScanWord(word: Bytes, opts: Args, now: int, s: Scanned)
    requires !TakesValue(OptionOf(word))
    ensures ScanSet([word] + opts, now, s) == ScanSet(opts, now, if IsKept(OptionOf(word)) then s.(flags := s.flags + [word]) else s)
  {
    assert ([word] + opts)[1..] == opts;
  }

  lemma {:induction false} SetLogs(args: Args, now: int)
    requires |args| >= 3 && NameOf(args[0]) == Set && ScanSet(args[3..], now, Scanned(0, [])).expireAtMs > 0
    ensures !Panics(args)
    ensures var r := ScanSet(args[3..], now, Scanned(0, []));
            NormalizeExpiry(args, now) == [args[..3] + r.flags, Expiry(args[1], r.expireAtMs)]
  {
    LoggedNames();
  }

  /** SET key value, one word for the deadline and its amount: the deadline is taken out and logged beside it. */
  lemma {:induction false} SpelledSet(name: Bytes, key: Bytes, value: Bytes, opt: Bytes, n: int, now: int)
    requires Spells(name, "SET") && SetMillis(opt, n, now).Some?
    requires FitsAll(n, SetMillis(opt, n, now).value) && SetMillis(opt, n, now).value > 0
    ensures var args := [name, key, value, opt, Decimal.Print(n)];
            !Panics(args) &&
            NormalizeExpiry(args, now) == [[name, key, value], Expiry(key, SetMillis(opt, n, now).value)]
  {
    var args: Args := [name, key, value, opt, Decimal.Print(n)];
    SpelledName(name);
    SpelledDeadline(opt, n, now);
    ScanDeadline(opt, n, now, Scanned(0, []));
    assert args[3..] == [opt, Decimal.Print(n)] && args[..3] == [name, key, value];
    assert args[..3] + [] == args[..3];
    SetLogs(args, now);
  }

  /** A flag in front of the deadline is kept if it is NX, XX, KEEPTTL or GET. */
  predicate IsFlag(flag: Bytes) {
    Spells(flag, "NX") || Spells(flag, "XX") || Spells(flag, "KEEPTTL") || Spells(flag, "GET")
  }

  lemma {:induction false} SpelledSetWithFlag(name: Bytes, key: Bytes, value: Bytes, flag: Bytes, opt: Bytes, n: int, now: int)
    requires Spells(name, "SET") && SetMillis(opt, n, now).Some? && SetMillis(flag, n, now).None?
    requires FitsAll(n, SetMillis(opt, n, now).value) && SetMillis(opt, n, now).value > 0
    ensures var args := [name, key, value, flag, opt, Decimal.Print(n)];
            !Panics(args) &&
            NormalizeExpiry(args, now) ==
            [[name, key, value] + (if IsFlag(flag) then [flag] else []), Expiry(key, SetMillis(opt, n, now).value)]
  {
    var args: Args := [name, key, value, flag, opt, Decimal.Print(n)];
    SpelledName(name);
    SpelledFlag(flag, n, now);
    SpelledDeadline(opt, n, now);
    var kept: Args := if IsFlag(flag) then [flag] else [];
    assert [] + [flag] == [flag];
    ScanDeadline(opt, n, now, Scanned(0, kept));
    ScanWord(flag, [opt, Decimal.Print(n)], now, Scanned(0, []));
    assert args[3..] == [flag] + [opt, Decimal.Print(n)] && args[..3] == [name, key, value];
    SetLogs(args, now);
  }

  lemma SpelledFlag(flag: Bytes, n: int, now: int)
    requires SetMillis(flag, n, now).None?
    ensures !TakesValue(OptionOf(flag)) && (IsKept(OptionOf(flag)) <==> IsFlag(flag))
  {
    OptionsExact(flag);
  }

  /** SETEX and PSETEX become a SET and a deadline. */
  lemma {:induction false} SpelledSetEx(name: Bytes, key: Bytes, value: Bytes, n: int, now: int)
    requires Spells(name, "SETEX") || Spells(name, "PSETEX")
    requires FitsAll(n, if Spells(name, "SETEX") then now + n * 1000 else now + n)
    ensures var args := [name, key, Decimal.Print(n), value];
            !Panics(args) &&
            NormalizeExpiry(args, now) ==
            [[THE_SET, key, value], Expiry(key, if Spells(name, "SETEX") then now + n * 1000 else now + n)]
  {
    SpelledName(name);
    LoggedNames();
    Decimal.PrintParse(n);
    Int64Id(n * 1000);
    Int64Id(if Spells(name, "SETEX") then now + n * 1000 else now + n);
  }

  /** Milliseconds that a command of the EXPIRE family stands for. */
  function ExpireMillis(name: Bytes, n: int, now: int): Option<int> {
    if Spells(name, "EXPIRE") then Some(now + n * 1000)
    else if Spells(name, "PEXPIRE") then Some(now + n)
    else if Spells(name, "EXPIREAT") then Some(n * 1000)
    else if Spells(name, "PEXPIREAT") then Some(n)
    else None
  }

  /** The EXPIRE family becomes PEXPIREAT, with whatever options there are. */
  lemma {:induction false} SpelledExpire(name: Bytes, key: Bytes, n: int, opts: Args, now: int)
    requires ExpireMillis(name, n, now).Some? && FitsAll(n, ExpireMillis(name, n, now).value)
    ensures var args := [name, key, Decimal.Print(n)] + opts;
            !Panics(args) &&
            NormalizeExpiry(args, now) == [Expiry(key, ExpireMillis(name, n, now).value) + opts]
  {
    var args := [name, key, Decimal.Print(n)] + opts;
    var unit := ExpireUnit(name, n, now);
    LoggedNames();
    Decimal.PrintParse(n);
    assert args[0] == name && args[1] == key && args[2] == Decimal.Print(n) && args[3..] == opts;
    assert NormalizeExpiry(args, now) == ExpireResult(args, unit, now);
  }

  lemma {:induction false} ExpireUnit(name: Bytes, n: int, now: int) returns (unit: Opt)
    requires ExpireMillis(name, n, now).Some? && FitsAll(n, ExpireMillis(name, n, now).value)
    ensures NameOf(name) == match unit case Ex => Expire case Px => PExpire case ExAt => ExpireAt case _ => PExpireAt
    ensures GoDeadline(unit, n, now) == ExpireMillis(name, n, now).value && TakesValue(unit)
  {
    NamesExact(name);
    Int64Id(n * 1000);
    Int64Id(ExpireMillis(name, n, now).value);
    unit := if Spells(name, "EXPIRE") then Ex else if Spells(name, "PEXPIRE") then Px
            else if Spells(name, "EXPIREAT") then ExAt else PxAt;
  }

  /** Every other word, and every command with one word alone, is logged as it is. */
  lemma {:induction false} SpelledOtherwise(args: Args, now: int)
    requires args != [] && !Spells(args[0], "SET") && !Spells(args[0], "SETEX") && !Spells(args[0], "PSETEX")
    requires ExpireMillis(args[0], 0, 0).None?
    ensures !Panics(args) && NormalizeExpiry(args, now) == [args]
  {
    NamesExact(args[0]);
  }
}
