/**
 Expiry normalisation: relative deadlines become absolute ones before a command is logged. The
 rewriting is exact about the cases in which it changes the meaning of a command.
 */
module Normalize {
  import opened Bytes
  import opened Store
  import Decimal

  // ---- what the rewriting computes ----

  /** A deadline in Go's int64 arithmetic, which wraps. */
  function GoDeadline(unit: Opt, n: int, now: int): int {
    var ms := if InSeconds(unit) then Int64(n * 1000) else n;
    if IsRelative(unit) then Int64(now + ms) else ms
  }

  /** The options of a SET as the rewriting sees them: last deadline (0 if none) and kept flags. */
  datatype Scanned = Scanned(expireAtMs: int, flags: Args)

  predicate IsKept(f: Opt) {
    f.Nx? || f.Xx? || f.KeepTtl? || f.Get?
  }

  function ScanSet(opts: Args, now: int, s: Scanned): Scanned
    decreases |opts|
  {
    if opts == [] then s
    else
      var f := OptionOf(opts[0]);
      if TakesValue(f) then
        if |opts| < 2 then s
        else
          var n := Decimal.ParseInt(opts[1]).ValueOrZero();
          ScanSet(opts[2..], now, s.(expireAtMs := GoDeadline(f, n, now)))
      else ScanSet(opts[1..], now, if IsKept(f) then s.(flags := s.flags + [opts[0]]) else s)
  }

  function ExpireAtCommand(key: Bytes, ms: int): Args {
    [PEXPIREAT, key, Decimal.Print(ms)]
  }

  function SetResult(args: Args, now: int): seq<Args>
    requires |args| >= 3
  {
    var s := ScanSet(args[3..], now, Scanned(0, []));
    if s.expireAtMs > 0 then [args[..3] + s.flags, ExpireAtCommand(args[1], s.expireAtMs)] else [args]
  }

  function SetExResult(args: Args, unit: Opt, now: int): seq<Args> {
    if |args| < 4 then [args]
    else
      match Decimal.ParseInt(args[2])
      case Good(n) => [[SET, args[1], args[3]], ExpireAtCommand(args[1], GoDeadline(unit, n, now))]
      case _ => [args]
  }

  function ExpireResult(args: Args, unit: Opt, now: int): seq<Args> {
    if |args| < 3 then [args]
    else
      match Decimal.ParseInt(args[2])
      case Good(n) => [ExpireAtCommand(args[1], GoDeadline(unit, n, now)) + args[3..]]
      case _ => [args]
  }

  /** A SET with no value, on which the rewriting panics. */
  predicate Panics(args: Args) {
    |args| == 2 && NameOf(args[0]) == Set
  }

  /** normalizeExpiry. */
  function NormalizeExpiry(args: Args, now: int): seq<Args>
    requires !Panics(args)
  {
    if |args| < 2 then [args]
    else
      match NameOf(args[0])
      case Set => SetResult(args, now)
      case SetEx => SetExResult(args, Ex, now)
      case PSetEx => SetExResult(args, Px, now)
      case Expire => ExpireResult(args, Ex, now)
      case PExpire => ExpireResult(args, Px, now)
      case ExpireAt => ExpireResult(args, ExAt, now)
      case PExpireAt => ExpireResult(args, PxAt, now)
      case _ => [args]
  }

  // ---- the source's loops ----

  /** normalizeSet, as the loop over the options. */
  method NormalizeSet(args: Args, now: int) returns (cmds: seq<Args>)
    requires |args| >= 3
    ensures cmds == SetResult(args, now)
  {
    var expireAtMs := 0;
    var writeArgs := args[..3];
    var i := 3;
    assert writeArgs[3..] == [];
    ghost var whole := ScanSet(args[3..], now, Scanned(0, []));
    while i < |args|
      invariant 3 <= i <= |args|
      invariant |writeArgs| >= 3 && writeArgs[..3] == args[..3]
      invariant ScanSet(args[i..], now, Scanned(expireAtMs, writeArgs[3..])) == whole
    {
      var opt := OptionOf(args[i]);
      assert args[i..][0] == args[i] && args[i..][1..] == args[i + 1..];
      if TakesValue(opt) {
        if i + 1 < |args| {
          assert args[i..][2..] == args[i + 2..];
          var n := Decimal.ParseInt(args[i + 1]).ValueOrZero();
          expireAtMs := GoDeadline(opt, n, now);
          i := i + 1;
        } else {
          assert args[i + 1..] == [];
        }
      } else if IsKept(opt) {
        assert (writeArgs + [args[i]])[3..] == writeArgs[3..] + [args[i]];
        writeArgs := writeArgs + [args[i]];
      }
      i := i + 1;
    }
    assert writeArgs == args[..3] + writeArgs[3..];
    if expireAtMs > 0 {
      return [writeArgs, ExpireAtCommand(args[1], expireAtMs)];
    }
    return [args];
  }

  /** normalizeExpireCmd, as the loop that copies the options. */
  method NormalizeExpireCommand(args: Args, unit: Opt, now: int) returns (cmds: seq<Args>)
    ensures cmds == ExpireResult(args, unit, now)
  {
    if |args| < 3 {
      return [args];
    }
    var p := Decimal.ParseInt(args[2]);
    if !p.Good? {
      return [args];
    }
    var pexArgs := ExpireAtCommand(args[1], GoDeadline(unit, p.value, now));
    var i := 3;
    while i < |args|
      invariant 3 <= i <= |args|
      invariant pexArgs == ExpireAtCommand(args[1], GoDeadline(unit, p.value, now)) + args[3..i]
    {
      pexArgs := pexArgs + [args[i]];
      i := i + 1;
    }
    assert args[3..i] == args[3..];
    return [pexArgs];
  }

  /** normalizeExpiry, with the loops. */
  method Normalized(args: Args, now: int) returns (cmds: seq<Args>)
    requires !Panics(args)
    ensures cmds == NormalizeExpiry(args, now)
  {
    if |args| < 2 {
      return [args];
    }
    match NameOf(args[0]) {
      case Set => cmds := NormalizeSet(args, now);
      case SetEx => cmds := SetExResult(args, Ex, now);
      case PSetEx => cmds := SetExResult(args, Px, now);
      case Expire => cmds := NormalizeExpireCommand(args, Ex, now);
      case PExpire => cmds := NormalizeExpireCommand(args, Px, now);
      case ExpireAt => cmds := NormalizeExpireCommand(args, ExAt, now);
      case PExpireAt => cmds := NormalizeExpireCommand(args, PxAt, now);
      case _ => cmds := [args];
    }
  }
}
