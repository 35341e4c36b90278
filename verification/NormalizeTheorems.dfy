/** Exactly when normalisation preserves the meaning of a command, and when its result is final. */
module NormalizeTheorems {
  import opened Bytes
  import opened Store
  import opened Normalize
  import Decimal

  /** The logged entries do to every store what the original command does to it at the same clock. */
  ghost predicate SameMeaning(x: Others, args: Args, now: int)
    requires !Panics(args)
  {
    forall st :: Exec(x, st, args, now).store == ExecAll(Redis(x), st, NormalizeExpiry(args, now), now)
  }

  // ---- executing one and two entries ----

  lemma ExecOne(x: Others, st: Store, a: Args, now: int)
    ensures ExecAll(Redis(x), st, [a], now) == Exec(x, st, a, now).store
  {
    assert [a][1..] == [];
  }

  lemma ExecTwo(x: Others, st: Store, a: Args, b: Args, now: int)
    ensures ExecAll(Redis(x), st, [a, b], now) == Exec(x, Exec(x, st, a, now).store, b, now).store
  {
    assert [a, b][1..] == [b];
    ExecOne(x, Exec(x, st, a, now).store, b, now);
  }

  /** A logged PEXPIREAT sets exactly the deadline it prints, under the options it carries. */
  lemma ExecExpireAt(x: Others, st: Store, key: Bytes, ms: int, opts: Args, now: int)
    requires IsInt64(ms)
    ensures Exec(x, st, ExpireAtCommand(key, ms) + opts, now) ==
            match ParseExpire(opts, NO_CONDITIONS)
            case None => Outcome(st, Error)
            case Some(o) => DoExpire(st, key, o, ms)
  {
    var a := ExpireAtCommand(key, ms) + opts;
    LiteralNames();
    assert a[0] == PEXPIREAT && a[1] == key && a[2] == Decimal.Print(ms) && a[3..] == opts;
    RedisIntOfPrinted(ms);
  }

  lemma ExecPlainExpireAt(x: Others, st: Store, key: Bytes, ms: int, now: int)
    requires IsInt64(ms)
    ensures Exec(x, st, ExpireAtCommand(key, ms), now).store ==
            if key in st then st[key := st[key].(deadline := Some(ms))] else st
  {
    assert ExpireAtCommand(key, ms) + [] == ExpireAtCommand(key, ms);
    ExecExpireAt(x, st, key, ms, [], now);
  }

  lemma GoDeadlineInRange(unit: Opt, n: int, now: int)
    requires IsInt64(n)
    ensures IsInt64(GoDeadline(unit, n, now))
  {
  }

  // ---- SET ----

  /** Redis takes the SET as valid, it names a deadline, and it is not conditional on absence. */
  predicate ExpiringSet(args: Args, now: int) {
    |args| >= 3 &&
    var p := ParseSet(args[3..], NO_OPTIONS);
    p.Some? && p.value.unit.Some? && OptionsDeadline(p.value, now).Some? && !p.value.nx
  }

  predicate SetIsSafe(args: Args, now: int) {
    |args| >= 3 && (ScanSet(args[3..], now, Scanned(0, [])).expireAtMs <= 0 || ExpiringSet(args, now))
  }

  /** Appending one flag to a flag list that Redis accepts. */
  lemma {:induction false} ParseSetSnoc(flags: Args, f: Bytes, o: SetOptions)
    requires !TakesValue(OptionOf(f)) && ParseSet(flags, o).Some?
    ensures ParseSet(flags + [f], o) == AddFlag(ParseSet(flags, o).value, OptionOf(f))
    decreases |flags|
  {
    if flags == [] {
      assert (flags + [f])[1..] == [];
    } else if TakesValue(OptionOf(flags[0])) {
      assert (flags + [f])[2..] == flags[2..] + [f];
      ParseSetSnoc(flags[2..], f, o.(unit := Some(OptionOf(flags[0])), amount := flags[1]));
    } else {
      assert (flags + [f])[1..] == flags[1..] + [f];
      ParseSetSnoc(flags[1..], f, AddFlag(o, OptionOf(flags[0])).value);
    }
  }

  function Untimed(o: SetOptions): SetOptions {
    o.(unit := None, amount := [])
  }

  lemma AddFlagUntimed(o: SetOptions, f: Opt)
    requires AddFlag(o, f).Some?
    ensures IsKept(f) && AddFlag(Untimed(o), f) == Some(Untimed(AddFlag(o, f).value))
  {
  }

  /** On options Redis accepts, the rewriting keeps exactly the ones without an amount. */
  lemma {:induction false} KeptFlagsMatch(opts: Args, now: int, o: SetOptions, s: Scanned)
    requires ParseSet(opts, o).Some?
    requires ParseSet(s.flags, NO_OPTIONS) == Some(Untimed(o))
    ensures ParseSet(ScanSet(opts, now, s).flags, NO_OPTIONS) == Some(Untimed(ParseSet(opts, o).value))
    decreases |opts|
  {
    if opts != [] {
      var f := OptionOf(opts[0]);
      if TakesValue(f) {
        var n := Decimal.ParseInt(opts[1]).ValueOrZero();
        KeptFlagsMatch(opts[2..], now, o.(unit := Some(f), amount := opts[1]),
                       s.(expireAtMs := GoDeadline(f, n, now)));
      } else {
        AddFlagUntimed(o, f);
        ParseSetSnoc(s.flags, opts[0], NO_OPTIONS);
        KeptFlagsMatch(opts[1..], now, AddFlag(o, f).value, s.(flags := s.flags + [opts[0]]));
      }
    }
  }

  datatype Timing = Timing(unit: Opt, amount: Bytes)

  /** The last option of a SET that carries an amount. */
  function LastTiming(opts: Args, last: Option<Timing>): Option<Timing>
    decreases |opts|
  {
    if opts == [] then last
    else if TakesValue(OptionOf(opts[0])) then
      if |opts| < 2 then last else LastTiming(opts[2..], Some(Timing(OptionOf(opts[0]), opts[1])))
    else LastTiming(opts[1..], last)
  }

  function DeadlineOf(last: Option<Timing>, now: int, none: int): int {
    match last
    case None => none
    case Some(t) => GoDeadline(t.unit, Decimal.ParseInt(t.amount).ValueOrZero(), now)
  }

  lemma {:induction false} ScanIsLastTiming(opts: Args, now: int, s: Scanned, last: Option<Timing>)
    requires s.expireAtMs == DeadlineOf(last, now, 0)
    ensures ScanSet(opts, now, s).expireAtMs == DeadlineOf(LastTiming(opts, last), now, 0)
    decreases |opts|
  {
    if opts != [] {
      var f := OptionOf(opts[0]);
      if TakesValue(f) {
        if |opts| >= 2 {
          var n := Decimal.ParseInt(opts[1]).ValueOrZero();
          ScanIsLastTiming(opts[2..], now, s.(expireAtMs := GoDeadline(f, n, now)), Some(Timing(f, opts[1])));
        }
      } else {
        ScanIsLastTiming(opts[1..], now, if IsKept(f) then s.(flags := s.flags + [opts[0]]) else s, last);
      }
    }
  }

  lemma {:induction false} ParsedTiming(opts: Args, o: SetOptions, last: Option<Timing>)
    requires ParseSet(opts, o).Some?
    requires last == if o.unit.Some? then Some(Timing(o.unit.value, o.amount)) else None
    ensures var p := ParseSet(opts, o).value;
            LastTiming(opts, last) == if p.unit.Some? then Some(Timing(p.unit.value, p.amount)) else None
    decreases |opts|
  {
    if opts != [] {
      var f := OptionOf(opts[0]);
      if TakesValue(f) {
        ParsedTiming(opts[2..], o.(unit := Some(f), amount := opts[1]), Some(Timing(f, opts[1])));
      } else {
        ParsedTiming(opts[1..], AddFlag(o, f).value, last);
      }
    }
  }

  /** Where Redis accepts a deadline, Go's arithmetic has not wrapped. */
  lemma DeadlinesAgree(unit: Opt, n: int, now: int)
    requires TakesValue(unit) && IsInt64(n) && SetDeadline(unit, n, now).Some?
    ensures GoDeadline(unit, n, now) == SetDeadline(unit, n, now).value
  {
    var ms := if InSeconds(unit) then n * 1000 else n;
    Int64Id(ms);
  }

  predicate Coherent(o: SetOptions) {
    o.unit.Some? ==> TakesValue(o.unit.value) && !o.keep
  }

  lemma {:induction false} ParseSetCoherent(opts: Args, o: SetOptions)
    requires ParseSet(opts, o).Some? && Coherent(o)
    ensures Coherent(ParseSet(opts, o).value)
    decreases |opts|
  {
    if opts != [] {
      var f := OptionOf(opts[0]);
      if TakesValue(f) {
        ParseSetCoherent(opts[2..], o.(unit := Some(f), amount := opts[1]));
      } else {
        ParseSetCoherent(opts[1..], AddFlag(o, f).value);
      }
    }
  }

  /** What the logged SET does. */
  lemma ExecFlagged(x: Others, st: Store, args: Args, flags: Args, now: int)
    requires |args| >= 3 && NameOf(args[0]) == Set
    ensures ParseSet(flags, NO_OPTIONS).Some? && ParseSet(flags, NO_OPTIONS).value.unit.None? ==>
              Exec(x, st, args[..3] + flags, now) ==
              DoSet(st, args[1], args[2], ParseSet(flags, NO_OPTIONS).value, None)
    ensures args[1] in st ==> args[1] in Exec(x, st, args[..3] + flags, now).store
  {
    assert (args[..3] + flags)[3..] == flags;
  }

  /** The logged pair of an expiring SET. */
  lemma SetPreserved(x: Others, st: Store, args: Args, now: int)
    requires |args| >= 3 && NameOf(args[0]) == Set && ExpiringSet(args, now)
    ensures Exec(x, st, args, now).store == ExecAll(Redis(x), st, SetResult(args, now), now)
  {
    var opts := args[3..];
    var r := ScanSet(opts, now, Scanned(0, []));
    var p := ParseSet(opts, NO_OPTIONS).value;
    KeptFlagsMatch(opts, now, NO_OPTIONS, Scanned(0, []));
    ScanIsLastTiming(opts, now, Scanned(0, []), None);
    ParsedTiming(opts, NO_OPTIONS, None);
    ParseSetCoherent(opts, NO_OPTIONS);
    var n := RedisInt(p.amount).value;
    DeadlinesAgree(p.unit.value, n, now);
    ExecFlagged(x, st, args, r.flags, now);
    var d := r.expireAtMs;
    ExecTwo(x, st, args[..3] + r.flags, ExpireAtCommand(args[1], d), now);
    ExecPlainExpireAt(x, Exec(x, st, args[..3] + r.flags, now).store, args[1], d, now);
    assert Exec(x, st, args, now) == DoSet(st, args[1], args[2], p, Some(d));
  }

  lemma ScanSetInRange(opts: Args, now: int, s: Scanned)
    requires IsInt64(s.expireAtMs)
    ensures IsInt64(ScanSet(opts, now, s).expireAtMs)
    decreases |opts|
  {
    if opts != [] {
      var f := OptionOf(opts[0]);
      if TakesValue(f) {
        if |opts| >= 2 {
          var n := Decimal.ParseInt(opts[1]).ValueOrZero();
          Decimal.ParseIntInRange(opts[1]);
          GoDeadlineInRange(f, n, now);
          ScanSetInRange(opts[2..], now, s.(expireAtMs := GoDeadline(f, n, now)));
        }
      } else {
        ScanSetInRange(opts[1..], now, if IsKept(f) then s.(flags := s.flags + [opts[0]]) else s);
      }
    }
  }

  /** A store that holds the key without a deadline tells the two apart in every other case. */
  lemma SetBroken(x: Others, args: Args, now: int)
    requires |args| >= 3 && NameOf(args[0]) == Set && !SetIsSafe(args, now)
    ensures var st: Store := map[args[1] := Slot([], None)];
            Exec(x, st, args, now).store != ExecAll(Redis(x), st, SetResult(args, now), now)
  {
    var st: Store := map[args[1] := Slot([], None)];
    var r := ScanSet(args[3..], now, Scanned(0, []));
    ScanSetInRange(args[3..], now, Scanned(0, []));
    ExecFlagged(x, st, args, r.flags, now);
    ExecTwo(x, st, args[..3] + r.flags, ExpireAtCommand(args[1], r.expireAtMs), now);
    ExecPlainExpireAt(x, Exec(x, st, args[..3] + r.flags, now).store, args[1], r.expireAtMs, now);
    assert ExecAll(Redis(x), st, SetResult(args, now), now)[args[1]].deadline == Some(r.expireAtMs);
    SetUnchanged(x, st, args, now);
  }

  /** A SET that is not an expiring one leaves a key that is present without a deadline. */
  lemma SetUnchanged(x: Others, st: Store, args: Args, now: int)
    requires |args| >= 3 && NameOf(args[0]) == Set && !SetIsSafe(args, now)
    requires args[1] in st && st[args[1]].deadline == None
    ensures args[1] in Exec(x, st, args, now).store
    ensures Exec(x, st, args, now).store[args[1]].deadline == None
  {
  }

  lemma {:induction false} SetExact(x: Others, args: Args, now: int)
    requires |args| >= 3 && NameOf(args[0]) == Set
    ensures SameMeaning(x, args, now) <==> SetIsSafe(args, now)
  {
    if SetIsSafe(args, now) {
      forall st
        ensures Exec(x, st, args, now).store == ExecAll(Redis(x), st, NormalizeExpiry(args, now), now)
      {
        if ScanSet(args[3..], now, Scanned(0, [])).expireAtMs <= 0 {
          ExecOne(x, st, args, now);
        } else {
          SetPreserved(x, st, args, now);
        }
      }
    } else {
      SetBroken(x, args, now);
    }
  }

  // ---- SETEX and PSETEX ----

  predicate SetExIsSafe(args: Args, unit: Opt, now: int) {
    || |args| < 4
    || !Decimal.ParseInt(args[2]).Good?
    || (|args| == 4 && RedisInt(args[2]).Some? && SetDeadline(unit, RedisInt(args[2]).value, now).Some?)
  }

  lemma SetExStep(x: Others, st: Store, args: Args, unit: Opt, now: int)
    requires |args| >= 4 && Decimal.ParseInt(args[2]).Good? && (unit == Ex || unit == Px)
    ensures ExecAll(Redis(x), st, SetExResult(args, unit, now), now) ==
            st[args[1] := Slot(args[3], Some(GoDeadline(unit, Decimal.ParseInt(args[2]).value, now)))]
  {
    var d := GoDeadline(unit, Decimal.ParseInt(args[2]).value, now);
    Decimal.ParseIntInRange(args[2]);
    GoDeadlineInRange(unit, Decimal.ParseInt(args[2]).value, now);
    LiteralNames();
    var a := [SET, args[1], args[3]];
    assert a[3..] == [];
    assert Exec(x, st, a, now).store == st[args[1] := Slot(args[3], None)];
    ExecTwo(x, st, a, ExpireAtCommand(args[1], d), now);
    ExecPlainExpireAt(x, st[args[1] := Slot(args[3], None)], args[1], d, now);
  }

  lemma {:induction false} SetExExact(x: Others, args: Args, unit: Opt, now: int)
    requires |args| >= 2 && NameOf(args[0]) == (if unit == Ex then SetEx else PSetEx)
    requires unit == Ex || unit == Px
    ensures SameMeaning(x, args, now) <==> SetExIsSafe(args, unit, now)
  {
    if |args| < 4 || !Decimal.ParseInt(args[2]).Good? {
      forall st
        ensures Exec(x, st, args, now).store == ExecAll(Redis(x), st, NormalizeExpiry(args, now), now)
      {
        ExecOne(x, st, args, now);
      }
    } else if SetExIsSafe(args, unit, now) {
      DeadlinesAgree(unit, RedisInt(args[2]).value, now);
      forall st
        ensures Exec(x, st, args, now).store == ExecAll(Redis(x), st, NormalizeExpiry(args, now), now)
      {
        SetExStep(x, st, args, unit, now);
      }
    } else {
      var st: Store := map[];
      SetExStep(x, st, args, unit, now);
      assert Exec(x, st, args, now).store == st;
      assert args[1] in ExecAll(Redis(x), st, NormalizeExpiry(args, now), now);
    }
  }

  // ---- the EXPIRE family ----

  predicate ExpireIsSafe(args: Args, unit: Opt, now: int) {
    || |args| < 3
    || !Decimal.ParseInt(args[2]).Good?
    || ParseExpire(args[3..], NO_CONDITIONS).None?
    || (RedisInt(args[2]).Some? && ExpireDeadline(unit, RedisInt(args[2]).value, now).Some?)
  }

  function UnitOf(n: Name): Opt {
    match n
    case Expire => Ex
    case PExpire => Px
    case ExpireAt => ExAt
    case _ => PxAt
  }

  predicate IsExpire(n: Name) {
    n.Expire? || n.PExpire? || n.ExpireAt? || n.PExpireAt?
  }

  /** A slot on which a deadline acts under the given options. */
  function Movable(o: ExpireOptions, d: int): Slot {
    Slot([], if o.gt then Some(d - 1) else if o.xx then Some(d + 1) else None)
  }

  lemma {:induction false} ParseExpireConsistent(opts: Args, o: ExpireOptions)
    requires ParseExpire(opts, o).Some?
    ensures var p := ParseExpire(opts, o).value; !(p.nx && (p.xx || p.gt || p.lt)) && !(p.gt && p.lt)
    decreases |opts|
  {
    if opts != [] {
      match OptionOf(opts[0]) {
        case Nx => ParseExpireConsistent(opts[1..], o.(nx := true));
        case Xx => ParseExpireConsistent(opts[1..], o.(xx := true));
        case Gt => ParseExpireConsistent(opts[1..], o.(gt := true));
        case Lt => ParseExpireConsistent(opts[1..], o.(lt := true));
      }
    }
  }

  lemma ExpireStep(x: Others, st: Store, args: Args, unit: Opt, now: int)
    requires |args| >= 3 && Decimal.ParseInt(args[2]).Good?
    ensures ExecAll(Redis(x), st, ExpireResult(args, unit, now), now) ==
            match ParseExpire(args[3..], NO_CONDITIONS)
            case None => st
            case Some(o) => DoExpire(st, args[1], o, GoDeadline(unit, Decimal.ParseInt(args[2]).value, now)).store
  {
    var d := GoDeadline(unit, Decimal.ParseInt(args[2]).value, now);
    Decimal.ParseIntInRange(args[2]);
    GoDeadlineInRange(unit, Decimal.ParseInt(args[2]).value, now);
    ExecOne(x, st, ExpireAtCommand(args[1], d) + args[3..], now);
    ExecExpireAt(x, st, args[1], d, args[3..], now);
  }

  lemma ExpireDeadlinesAgree(unit: Opt, n: int, now: int)
    requires IsInt64(n) && ExpireDeadline(unit, n, now).Some?
    ensures GoDeadline(unit, n, now) == ExpireDeadline(unit, n, now).value
  {
    var ms := if InSeconds(unit) then n * 1000 else n;
    Int64Id(ms);
    if IsRelative(unit) {
      Int64Id(ms + now);
    }
  }

  lemma {:induction false} ExpireExact(x: Others, args: Args, now: int)
    requires |args| >= 2 && IsExpire(NameOf(args[0]))
    ensures SameMeaning(x, args, now) <==> ExpireIsSafe(args, UnitOf(NameOf(args[0])), now)
  {
    var unit := UnitOf(NameOf(args[0]));
    if |args| < 3 || !Decimal.ParseInt(args[2]).Good? {
      forall st
        ensures Exec(x, st, args, now).store == ExecAll(Redis(x), st, NormalizeExpiry(args, now), now)
      {
        ExecOne(x, st, args, now);
      }
    } else if ExpireIsSafe(args, unit, now) {
      forall st
        ensures Exec(x, st, args, now).store == ExecAll(Redis(x), st, NormalizeExpiry(args, now), now)
      {
        ExpireStep(x, st, args, unit, now);
        if ParseExpire(args[3..], NO_CONDITIONS).Some? {
          ExpireDeadlinesAgree(unit, RedisInt(args[2]).value, now);
        }
      }
    } else {
      var o := ParseExpire(args[3..], NO_CONDITIONS).value;
      var d := GoDeadline(unit, Decimal.ParseInt(args[2]).value, now);
      var st: Store := map[args[1] := Movable(o, d)];
      ParseExpireConsistent(args[3..], NO_CONDITIONS);
      ExpireStep(x, st, args, unit, now);
      assert Exec(x, st, args, now).store == st;
      assert ExecAll(Redis(x), st, NormalizeExpiry(args, now), now)[args[1]].deadline == Some(d);
    }
  }

  // ---- every command ----

  /** What a caller can check before logging a command. */
  predicate IsSafe(args: Args, now: int) {
    || |args| < 2
    || match NameOf(args[0])
       case Set => SetIsSafe(args, now)
       case SetEx => SetExIsSafe(args, Ex, now)
       case PSetEx => SetExIsSafe(args, Px, now)
       case Expire => ExpireIsSafe(args, Ex, now)
       case PExpire => ExpireIsSafe(args, Px, now)
       case ExpireAt => ExpireIsSafe(args, ExAt, now)
       case PExpireAt => ExpireIsSafe(args, PxAt, now)
       case _ => true
  }

  /**
   Normalisation preserves meaning, on every store, exactly for the safe commands: for any other
   command some store tells the original and the logged entries apart.
   */
  lemma {:induction false} NormalizationExact(x: Others, args: Args, now: int)
    requires !Panics(args)
    ensures SameMeaning(x, args, now) <==> IsSafe(args, now)
  {
    if |args| >= 2 && NameOf(args[0]) == Set {
      SetExact(x, args, now);
    } else if |args| >= 2 && NameOf(args[0]) == SetEx {
      SetExExact(x, args, Ex, now);
    } else if |args| >= 2 && NameOf(args[0]) == PSetEx {
      SetExExact(x, args, Px, now);
    } else if |args| >= 2 && IsExpire(NameOf(args[0])) {
      ExpireExact(x, args, now);
    } else {
      forall st
        ensures Exec(x, st, args, now).store == ExecAll(Redis(x), st, NormalizeExpiry(args, now), now)
      {
        ExecOne(x, st, args, now);
      }
    }
  }
}
