/** When the logged entries no longer depend on any clock. */
module TimeIndependence {
  import opened Bytes
  import opened Store
  import opened Normalize
  import opened NormalizeTheorems
  import Decimal

  /** Every logged entry is a fixed point of normalisation, whatever the clock says then. */
  ghost predicate Final(args: Args, now: int)
    requires !Panics(args)
  {
    forall e, t :: e in NormalizeExpiry(args, now) ==> !Panics(e) && NormalizeExpiry(e, t) == [e]
  }

  /** A SET is settled when it is rewritten, or when no EX or PX decides its deadline. */
  predicate IsSettled(args: Args, now: int) {
    |args| >= 3 && NameOf(args[0]) == Set ==>
      var last := LastTiming(args[3..], None);
      ScanSet(args[3..], now, Scanned(0, [])).expireAtMs > 0 || last.None? || !IsRelative(last.value.unit)
  }

  predicate NoAmounts(flags: Args) {
    forall i :: 0 <= i < |flags| ==> !TakesValue(OptionOf(flags[i]))
  }

  lemma {:induction false} KeptFlagsHaveNoAmounts(opts: Args, now: int, s: Scanned)
    requires NoAmounts(s.flags)
    ensures NoAmounts(ScanSet(opts, now, s).flags)
    decreases |opts|
  {
    if opts != [] {
      var f := OptionOf(opts[0]);
      if TakesValue(f) {
        if |opts| >= 2 {
          var n := Decimal.ParseInt(opts[1]).ValueOrZero();
          KeptFlagsHaveNoAmounts(opts[2..], now, s.(expireAtMs := GoDeadline(f, n, now)));
        }
      } else {
        KeptFlagsHaveNoAmounts(opts[1..], now, if IsKept(f) then s.(flags := s.flags + [opts[0]]) else s);
      }
    }
  }

  lemma {:induction false} NoAmountsNoTiming(flags: Args)
    requires NoAmounts(flags)
    ensures LastTiming(flags, None) == None
    decreases |flags|
  {
    if flags != [] {
      assert !TakesValue(OptionOf(flags[0]));
      NoAmountsNoTiming(flags[1..]);
    }
  }

  /** A logged PEXPIREAT is final. */
  lemma ExpireAtFinal(key: Bytes, ms: int, opts: Args, t: int)
    requires IsInt64(ms)
    ensures var e := ExpireAtCommand(key, ms) + opts; !Panics(e) && NormalizeExpiry(e, t) == [e]
  {
    var e := ExpireAtCommand(key, ms) + opts;
    LiteralNames();
    Decimal.PrintParse(ms);
    assert e[0] == PEXPIREAT && e[1] == key && e[2] == Decimal.Print(ms) && e[3..] == opts;
  }

  lemma PlainExpireAtFinal(key: Bytes, ms: int, t: int)
    requires IsInt64(ms)
    ensures var e := ExpireAtCommand(key, ms); !Panics(e) && NormalizeExpiry(e, t) == [e]
  {
    assert ExpireAtCommand(key, ms) + [] == ExpireAtCommand(key, ms);
    ExpireAtFinal(key, ms, [], t);
  }

  /** A SET without amounts is final. */
  lemma UntimedSetFinal(args: Args, t: int)
    requires |args| >= 3 && NameOf(args[0]) == Set && LastTiming(args[3..], None).None?
    ensures NormalizeExpiry(args, t) == [args]
  {
    ScanIsLastTiming(args[3..], t, Scanned(0, []), None);
  }

  lemma {:induction false} SetFinal(args: Args, now: int, e: Args, t: int)
    requires |args| >= 3 && NameOf(args[0]) == Set && IsSettled(args, now)
    requires e in SetResult(args, now)
    ensures !Panics(e) && NormalizeExpiry(e, t) == [e]
  {
    var s := ScanSet(args[3..], now, Scanned(0, []));
    if s.expireAtMs > 0 {
      if e == ExpireAtCommand(args[1], s.expireAtMs) {
        ScanSetInRange(args[3..], now, Scanned(0, []));
        PlainExpireAtFinal(args[1], s.expireAtMs, t);
      } else {
        assert e == args[..3] + s.flags;
        KeptFlagsHaveNoAmounts(args[3..], now, Scanned(0, []));
        NoAmountsNoTiming(s.flags);
        assert e[3..] == s.flags;
        UntimedSetFinal(e, t);
      }
    } else {
      ScanIsLastTiming(args[3..], now, Scanned(0, []), None);
      ScanIsLastTiming(args[3..], t, Scanned(0, []), None);
    }
  }

  lemma {:induction false} SetExFinal(args: Args, unit: Opt, now: int, e: Args, t: int)
    requires |args| >= 2 && NameOf(args[0]) == (if unit == Ex then SetEx else PSetEx)
    requires unit == Ex || unit == Px
    requires e in SetExResult(args, unit, now)
    ensures !Panics(e) && NormalizeExpiry(e, t) == [e]
  {
    if |args| >= 4 && Decimal.ParseInt(args[2]).Good? {
      var n := Decimal.ParseInt(args[2]).value;
      Decimal.ParseIntInRange(args[2]);
      GoDeadlineInRange(unit, n, now);
      if e == ExpireAtCommand(args[1], GoDeadline(unit, n, now)) {
        PlainExpireAtFinal(args[1], GoDeadline(unit, n, now), t);
      } else {
        LiteralNames();
        assert e[3..] == [];
        UntimedSetFinal(e, t);
      }
    }
  }

  lemma {:induction false} ExpireFinal(args: Args, now: int, e: Args, t: int)
    requires |args| >= 2 && IsExpire(NameOf(args[0]))
    requires e in ExpireResult(args, UnitOf(NameOf(args[0])), now)
    ensures !Panics(e) && NormalizeExpiry(e, t) == [e]
  {
    var unit := UnitOf(NameOf(args[0]));
    if |args| >= 3 && Decimal.ParseInt(args[2]).Good? {
      var n := Decimal.ParseInt(args[2]).value;
      Decimal.ParseIntInRange(args[2]);
      GoDeadlineInRange(unit, n, now);
      ExpireAtFinal(args[1], GoDeadline(unit, n, now), args[3..], t);
    }
  }

  lemma {:induction false} SettledIsFinal(args: Args, now: int, e: Args, t: int)
    requires !Panics(args) && IsSettled(args, now) && e in NormalizeExpiry(args, now)
    ensures !Panics(e) && NormalizeExpiry(e, t) == [e]
  {
    if |args| >= 2 {
      match NameOf(args[0]) {
        case Set => SetFinal(args, now, e, t);
        case SetEx => SetExFinal(args, Ex, now, e, t);
        case PSetEx => SetExFinal(args, Px, now, e, t);
        case Expire => ExpireFinal(args, now, e, t);
        case PExpire => ExpireFinal(args, now, e, t);
        case ExpireAt => ExpireFinal(args, now, e, t);
        case PExpireAt => ExpireFinal(args, now, e, t);
        case _ =>
      }
    }
  }

  /** A clock at which a relative amount gives the deadline 1. */
  lemma SomeClockIsEarly(unit: Opt, n: int)
    requires IsRelative(unit)
    ensures var ms := if InSeconds(unit) then Int64(n * 1000) else n; GoDeadline(unit, n, 1 - ms) == 1
  {
  }

  /**
   Time independence, exactly: a logged entry can be normalised again at another clock without
   change unless it is a SET left as it was although EX or PX decides its deadline.
   */
  lemma {:induction false} TimeIndependenceExact(args: Args, now: int)
    requires !Panics(args)
    ensures Final(args, now) <==> IsSettled(args, now)
  {
    if IsSettled(args, now) {
      forall e, t | e in NormalizeExpiry(args, now)
        ensures !Panics(e) && NormalizeExpiry(e, t) == [e]
      {
        SettledIsFinal(args, now, e, t);
      }
    } else {
      var t := TimedSetNotFinal(args);
      assert args in NormalizeExpiry(args, now);
    }
  }

  // ---- execution ----

  /** A SET that no EX or PX times runs the same at every clock. */
  lemma SetClockFree(x: Others, args: Args)
    requires |args| >= 3 && NameOf(args[0]) == Set
    requires var last := LastTiming(args[3..], None); last.None? || !IsRelative(last.value.unit)
    ensures ClockFree(Redis(x), args)
  {
    if ParseSet(args[3..], NO_OPTIONS).Some? {
      ParsedTiming(args[3..], NO_OPTIONS, None);
    }
  }

  lemma TimedSetNotFinal(e: Args) returns (t: int)
    requires |e| >= 3 && NameOf(e[0]) == Set
    requires var last := LastTiming(e[3..], None); last.Some? && IsRelative(last.value.unit)
    ensures NormalizeExpiry(e, t) != [e]
  {
    var last := LastTiming(e[3..], None).value;
    var n := Decimal.ParseInt(last.amount).ValueOrZero();
    SomeClockIsEarly(last.unit, n);
    t := 1 - if InSeconds(last.unit) then Int64(n * 1000) else n;
    ScanIsLastTiming(e[3..], t, Scanned(0, []), None);
    assert |NormalizeExpiry(e, t)| == 2;
  }

  lemma RelativeExpireFails(x: Others, e: Args, st: Store, t: int)
    requires |e| >= 2 && !NameOf(e[0]).Set? && NormalizeExpiry(e, 0) == [e]
    requires NameOf(e[0]).SetEx? || NameOf(e[0]).PSetEx? || NameOf(e[0]).Expire? || NameOf(e[0]).PExpire?
    ensures Exec(x, st, e, t) == Outcome(st, Error)
  {
    LiteralNames();
    assert |NormalizeExpiry(e, 0)| == 1 && NormalizeExpiry(e, 0)[0] == e;
  }

  /** A command that normalisation never changes runs the same at every clock. */
  lemma {:induction false} FinalIsClockFree(x: Others, e: Args)
    requires !Panics(e) && forall t :: NormalizeExpiry(e, t) == [e]
    ensures ClockFree(Redis(x), e)
  {
    if |e| >= 2 {
      var name := NameOf(e[0]);
      if name == Set {
        var last := LastTiming(e[3..], None);
        if last.Some? && IsRelative(last.value.unit) {
          var t := TimedSetNotFinal(e);
        }
        SetClockFree(x, e);
      } else if name == SetEx || name == PSetEx || name == Expire || name == PExpire {
        forall st, t, u
          ensures Exec(x, st, e, t) == Exec(x, st, e, u)
        {
          RelativeExpireFails(x, e, st, t);
          RelativeExpireFails(x, e, st, u);
        }
      }
    }
  }

  /** The entries logged for a settled command run the same at every clock. */
  lemma {:induction false} LoggedClockFree(x: Others, args: Args, now: int, e: Args)
    requires !Panics(args) && IsSettled(args, now) && e in NormalizeExpiry(args, now)
    ensures ClockFree(Redis(x), e)
  {
    forall t
      ensures !Panics(e) && NormalizeExpiry(e, t) == [e]
    {
      SettledIsFinal(args, now, e, t);
    }
    SettledIsFinal(args, now, e, 0);
    FinalIsClockFree(x, e);
  }

  lemma SinceSame(run: Backend, t0: int, st: Store, args: Args, t: int)
    requires t0 <= t
    ensures Since(run, t0)(st, args, t) == run(st, args, t)
  {
    assert Max(t, t0) == t;
  }

  // ---- which commands read the clock ----

  /** An amount that SET, SETEX and PSETEX take at this clock. */
  predicate TakesSet(unit: Opt, amount: Bytes, t: int) {
    match RedisInt(amount)
    case None => false
    case Some(n) => SetDeadline(unit, n, t).Some?
  }

  /** An amount that the EXPIRE family takes at this clock. */
  predicate TakesExpire(unit: Opt, amount: Bytes, t: int) {
    match RedisInt(amount)
    case None => false
    case Some(n) => ExpireDeadline(unit, n, t).Some?
  }

  /** What is taken at a clock was taken at every clock before it. */
  lemma TakenBefore(unit: Opt, amount: Bytes, t0: int, t: int)
    requires 0 <= t0 <= t
    ensures TakesSet(unit, amount, t) ==> TakesSet(unit, amount, t0)
    ensures TakesExpire(unit, amount, t) ==> TakesExpire(unit, amount, t0)
  {
  }

  predicate SetReadsClock(args: Args, t0: int) {
    |args| >= 3 &&
    match ParseSet(args[3..], NO_OPTIONS)
    case None => false
    case Some(o) => o.unit.Some? && IsRelative(o.unit.value) && TakesSet(o.unit.value, o.amount, t0)
  }

  predicate ExpireReadsClock(args: Args, unit: Opt, t0: int) {
    |args| >= 3 && ParseExpire(args[3..], NO_CONDITIONS).Some? && TakesExpire(unit, args[2], t0)
  }

  /** The command has a relative deadline that Redis acts on at `t0`, if not for ever after. */
  predicate ReadsClock(args: Args, t0: int) {
    args != [] &&
    match NameOf(args[0])
    case Set => SetReadsClock(args, t0)
    case SetEx => |args| == 4 && TakesSet(Ex, args[2], t0)
    case PSetEx => |args| == 4 && TakesSet(Px, args[2], t0)
    case Expire => ExpireReadsClock(args, Ex, t0)
    case PExpire => ExpireReadsClock(args, Px, t0)
    case _ => false
  }

  /** The first clock at which a relative amount is too much. */
  function TooLate(unit: Opt, n: int): int {
    TWO_63 - Millis(unit, n)
  }

  lemma SetTells(st: Store, args: Args, t0: int) returns (u: int)
    requires SetReadsClock(args, t0)
    ensures t0 < u && ExecSet(st, args, t0) != ExecSet(st, args, u)
  {
    var o := ParseSet(args[3..], NO_OPTIONS).value;
    u := TooLate(o.unit.value, RedisInt(o.amount).value);
    assert ExecSet(st, args, t0).reply != Error && ExecSet(st, args, u).reply == Error;
  }

  lemma SetExTells(st: Store, args: Args, unit: Opt, t0: int) returns (u: int)
    requires |args| == 4 && IsRelative(unit) && TakesSet(unit, args[2], t0)
    ensures t0 < u && ExecSetEx(st, args, unit, t0) != ExecSetEx(st, args, unit, u)
  {
    u := TooLate(unit, RedisInt(args[2]).value);
    assert ExecSetEx(st, args, unit, u).reply == Error;
  }

  lemma ExpireTells(st: Store, args: Args, unit: Opt, t0: int) returns (u: int)
    requires IsRelative(unit) && ExpireReadsClock(args, unit, t0)
    ensures t0 < u && ExecExpire(st, args, unit, t0) != ExecExpire(st, args, unit, u)
  {
    u := TooLate(unit, RedisInt(args[2]).value);
    assert ExecExpire(st, args, unit, t0).reply == Done && ExecExpire(st, args, unit, u).reply == Error;
  }

  /** A command that reads the clock replies differently at a later clock, on any store. */
  lemma {:induction false} ClockTells(x: Others, st: Store, args: Args, t0: int) returns (u: int)
    requires ReadsClock(args, t0)
    ensures t0 < u && Exec(x, st, args, t0) != Exec(x, st, args, u)
  {
    match NameOf(args[0]) {
      case Set => u := SetTells(st, args, t0);
      case SetEx => u := SetExTells(st, args, Ex, t0);
      case PSetEx => u := SetExTells(st, args, Px, t0);
      case Expire => u := ExpireTells(st, args, Ex, t0);
      case PExpire => u := ExpireTells(st, args, Px, t0);
    }
  }

  /** Clocks that count: those from `t0` on, or all if `t0` is 0. */
  predicate Counts(t0: int, t: int) {
    0 <= t0 && (t0 == 0 || t0 <= t)
  }

  lemma SetSilent(st: Store, args: Args, t0: int, t: int, u: int)
    requires !SetReadsClock(args, t0) && Counts(t0, t) && Counts(t0, u)
    ensures ExecSet(st, args, t) == ExecSet(st, args, u)
  {
  }

  lemma SetExSilent(st: Store, args: Args, unit: Opt, t0: int, t: int, u: int)
    requires !(|args| == 4 && TakesSet(unit, args[2], t0)) && IsRelative(unit) && Counts(t0, t) && Counts(t0, u)
    ensures ExecSetEx(st, args, unit, t) == ExecSetEx(st, args, unit, u)
  {
  }

  lemma ExpireSilent(st: Store, args: Args, unit: Opt, t0: int, t: int, u: int)
    requires (IsRelative(unit) ==> !ExpireReadsClock(args, unit, t0)) && Counts(t0, t) && Counts(t0, u)
    ensures ExecExpire(st, args, unit, t) == ExecExpire(st, args, unit, u)
  {
  }

  lemma {:induction false} ClockSilent(x: Others, st: Store, args: Args, t0: int, t: int, u: int)
    requires !ReadsClock(args, t0) && Counts(t0, t) && Counts(t0, u)
    ensures Exec(x, st, args, t) == Exec(x, st, args, u)
  {
    if args != [] {
      match NameOf(args[0]) {
        case Set => SetSilent(st, args, t0, t, u);
        case SetEx => SetExSilent(st, args, Ex, t0, t, u);
        case PSetEx => SetExSilent(st, args, Px, t0, t, u);
        case Expire => ExpireSilent(st, args, Ex, t0, t, u);
        case PExpire => ExpireSilent(st, args, Px, t0, t, u);
        case ExpireAt => ExpireSilent(st, args, ExAt, t0, t, u);
        case PExpireAt => ExpireSilent(st, args, PxAt, t0, t, u);
        case _ =>
      }
    }
  }

  /**
   A command runs the same at every clock from `t0` on, on every store, exactly if it reads no clock in
   this sense; and it runs the same at every clock whatever exactly if this is so from 0 on.
   */
  lemma {:induction false} ClockFreeExact(x: Others, args: Args, t0: int)
    requires 0 <= t0
    ensures ClockFree(Since(Redis(x), t0), args) <==> !ReadsClock(args, t0)
    ensures ClockFree(Redis(x), args) <==> !ReadsClock(args, 0)
  {
    SinceExact(x, args, t0);
    if ReadsClock(args, 0) {
      var u := ClockTells(x, map[], args, 0);
      assert Redis(x)(map[], args, 0) != Redis(x)(map[], args, u);
    } else {
      forall st, t, u
        ensures Redis(x)(st, args, t) == Redis(x)(st, args, u)
      {
        ClockSilent(x, st, args, 0, t, u);
      }
    }
  }

  lemma {:induction false} SinceExact(x: Others, args: Args, t0: int)
    requires 0 <= t0
    ensures ClockFree(Since(Redis(x), t0), args) <==> !ReadsClock(args, t0)
  {
    var run := Since(Redis(x), t0);
    if ReadsClock(args, t0) {
      var u := ClockTells(x, map[], args, t0);
      SinceSame(Redis(x), t0, map[], args, t0);
      SinceSame(Redis(x), t0, map[], args, u);
      assert run(map[], args, t0) != run(map[], args, u);
    } else {
      forall st, t, u
        ensures run(st, args, t) == run(st, args, u)
      {
        ClockSilent(x, st, args, t0, Max(t, t0), Max(u, t0));
      }
    }
  }
}
