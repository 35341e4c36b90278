/**
 Replaying commands a second time. On one key, an absolute command overwrites, deletes, overwrites
 what is present, or keeps the deadline of what is present within bounds; these effects compose.
 */
module Redelivery {
  import opened Bytes
  import opened Store
  import opened NormalizeTheorems
  import opened TimeIndependence
  import opened Replaying
  import Decimal

  // ---- effects on one key ----

  /** Deadlines in order. No deadline is later than any; `Bottom` is below all of them. */
  datatype Time = Bottom | At(t: int) | Never

  predicate Le(a: Time, b: Time) {
    a.Bottom? || b.Never? || (a.At? && b.At? && a.t <= b.t)
  }

  function ToTime(d: Option<int>): Time {
    if d.None? then Never else At(d.value)
  }

  function FromTime(t: Time): Option<int> {
    if t.At? then Some(t.t) else None
  }

  /** `x`, but not before `lo` and not after `hi`. */
  function Clamped(lo: Time, hi: Time, x: Time): Time {
    if Le(x, lo) then lo else if Le(hi, x) then hi else x
  }

  /** A key gets a fixed state; or, if present, perhaps a new value, and its deadline is kept within bounds. */
  datatype RawEffect = Becomes(result: Option<Slot>) | Present(value: Option<Bytes>, lo: Time, hi: Time)

  predicate IsEffect(f: RawEffect) {
    f.Present? ==> Le(f.lo, f.hi) && !f.hi.Bottom?
  }

  const KEEP := Present(None, Bottom, Never)

  type Effect = f: RawEffect | IsEffect(f) witness KEEP

  /** The deadline becomes `d`, whatever it was. */
  function Fixed(value: Option<Bytes>, d: Option<int>): Effect {
    Present(value, ToTime(d), ToTime(d))
  }

  function Act(f: Effect, v: Option<Slot>): Option<Slot> {
    match f
    case Becomes(r) => r
    case Present(value, lo, hi) =>
      match v
      case None => None
      case Some(s) =>
        Some(Slot(if value.Some? then value.value else s.value, FromTime(Clamped(lo, hi, ToTime(s.deadline)))))
  }

  /** First `f`, then `g`. */
  function Compose(f: Effect, g: Effect): Effect {
    if g.Becomes? then g
    else if f.Becomes? then Becomes(Act(g, f.result))
    else
      Present(if g.value.Some? then g.value else f.value, Clamped(g.lo, g.hi, f.lo), Clamped(g.lo, g.hi, f.hi))
  }

  /** Bounds within bounds are bounds. */
  lemma ClampTwice(l: Time, h: Time, l': Time, h': Time, x: Time)
    requires Le(l, h) && Le(l', h')
    ensures Clamped(l', h', Clamped(l, h, x)) == Clamped(Clamped(l', h', l), Clamped(l', h', h), x)
  {
  }

  lemma ComposeActs(f: Effect, g: Effect, v: Option<Slot>)
    ensures Act(Compose(f, g), v) == Act(g, Act(f, v))
  {
    if f.Present? && g.Present? && v.Some? {
      ClampTwice(f.lo, f.hi, g.lo, g.hi, ToTime(v.value.deadline));
    }
  }

  /** The heart of the matter, for deadlines. */
  lemma ClampAgain(l: Time, h: Time, l': Time, h': Time, y: Time, z: Time)
    requires Le(l, h) && Le(l', h') && Clamped(l', h', y) == Clamped(l', h', Clamped(l, h, z))
    ensures Clamped(l', h', Clamped(l, h, y)) == Clamped(l', h', Clamped(l, h, z))
  {
  }

  /**
   The heart of redelivery. If `y` is on its way to `x` through `b`, and `x` is what `a` then `b`
   make of some value, then starting over with `a` from `y` still leads to `x`.
   */
  lemma {:induction false} StartingOverIsHarmless(a: Effect, b: Effect, y: Option<Slot>, z: Option<Slot>)
    requires Act(b, y) == Act(Compose(a, b), z)
    ensures Act(Compose(a, b), y) == Act(Compose(a, b), z)
  {
    ComposeActs(a, b, y);
    ComposeActs(a, b, z);
    if a.Present? && b.Present? && y.Some? && z.Some? {
      var y', z' := ToTime(y.value.deadline), ToTime(z.value.deadline);
      ClampedIsTime(a, z');
      ClampedIsTime(a, y');
      ClampedIsTime(b, y');
      ClampedIsTime(b, Clamped(a.lo, a.hi, z'));
      ClampAgain(a.lo, a.hi, b.lo, b.hi, y', z');
    }
  }

  lemma ClampedIsTime(f: Effect, x: Time)
    requires f.Present? && !x.Bottom?
    ensures !Clamped(f.lo, f.hi, x).Bottom? && ToTime(FromTime(Clamped(f.lo, f.hi, x))) == Clamped(f.lo, f.hi, x)
  {
  }

  // ---- absolute commands ----

  /** A SET that Redis rejects, or one without NX, EX and PX, and with KEEPTTL only beside XX. */
  predicate IsAbsoluteSet(args: Args) {
    |args| >= 3 ==>
      match ParseSet(args[3..], NO_OPTIONS)
      case None => true
      case Some(o) =>
        || (o.unit.Some? && !TakesSet(o.unit.value, o.amount, 0))
        || (!o.nx && (o.keep ==> o.xx) && (o.unit.Some? ==> !IsRelative(o.unit.value)))
  }

  /** An EXPIREAT or PEXPIREAT that Redis rejects, or one without NX, and with XX only beside GT. */
  predicate IsAbsoluteExpire(args: Args, unit: Opt) {
    |args| >= 3 ==>
      match ParseExpire(args[3..], NO_CONDITIONS)
      case None => true
      case Some(o) => !TakesExpire(unit, args[2], 0) || (!o.nx && (o.xx ==> o.gt))
  }

  /** A command whose outcome depends on what it meets only in ways that starting over does not disturb. */
  predicate IsAbsolute(args: Args) {
    args == [] ||
    match NameOf(args[0])
    case Set => IsAbsoluteSet(args)
    case SetEx => !ReadsClock(args, 0)
    case PSetEx => !ReadsClock(args, 0)
    case Expire => !ReadsClock(args, 0)
    case PExpire => !ReadsClock(args, 0)
    case ExpireAt => IsAbsoluteExpire(args, ExAt)
    case PExpireAt => IsAbsoluteExpire(args, PxAt)
    case Persist => true
    case Del => true
    case Append => |args| != 3
    case Other => false
  }

  function Lookup(st: Store, key: Bytes): Option<Slot> {
    if key in st then Some(st[key]) else None
  }

  function SetEffect(args: Args): Effect {
    if |args| < 3 then KEEP
    else
      match ParseSet(args[3..], NO_OPTIONS)
      case None => KEEP
      case Some(o) =>
        var d := if o.unit.None? then None else OptionsDeadline(o, 0);
        if o.unit.Some? && d.None? then KEEP
        else if o.xx then (if o.keep then Present(Some(args[2]), Bottom, Never) else Fixed(Some(args[2]), d))
        else Becomes(Some(Slot(args[2], d)))
  }

  function ExpireEffect(args: Args, unit: Opt): Effect {
    if |args| < 3 || ParseExpire(args[3..], NO_CONDITIONS).None? || !TakesExpire(unit, args[2], 0) then KEEP
    else
      var o := ParseExpire(args[3..], NO_CONDITIONS).value;
      DeadlineEffect(o, ExpireDeadline(unit, RedisInt(args[2]).value, 0).value)
  }

  /** GT raises a deadline, LT lowers it, and neither sets it. */
  function DeadlineEffect(o: ExpireOptions, d: int): Effect {
    if o.gt then Present(None, At(d), Never)
    else if o.lt then Present(None, Bottom, At(d))
    else Fixed(None, Some(d))
  }

  /** What an absolute command does to one key. */
  function EffectOn(args: Args, key: Bytes): Effect {
    if args == [] then KEEP
    else
      match NameOf(args[0])
      case Set => if |args| >= 2 && args[1] == key then SetEffect(args) else KEEP
      case ExpireAt => if |args| >= 2 && args[1] == key then ExpireEffect(args, ExAt) else KEEP
      case PExpireAt => if |args| >= 2 && args[1] == key then ExpireEffect(args, PxAt) else KEEP
      case Persist => if |args| == 2 && args[1] == key then Fixed(None, None) else KEEP
      case Del => if |args| >= 2 && key in args[1..] then Becomes(None) else KEEP
      case _ => KEEP
  }

  lemma KeepKeeps(v: Option<Slot>)
    ensures Act(KEEP, v) == v
  {
  }

  lemma {:induction false} SetActs(st: Store, args: Args, key: Bytes)
    requires IsAbsoluteSet(args)
    ensures Lookup(ExecSet(st, args, 0).store, key) ==
            Act(if |args| >= 2 && args[1] == key then SetEffect(args) else KEEP, Lookup(st, key))
  {
    KeepKeeps(Lookup(st, key));
    if |args| >= 3 && ParseSet(args[3..], NO_OPTIONS).Some? {
      ParseSetCoherent(args[3..], NO_OPTIONS);
    }
  }

  lemma {:induction false} DeadlineActs(st: Store, key: Bytes, o: ExpireOptions, d: int)
    requires !o.nx && (o.xx ==> o.gt) && !(o.gt && o.lt)
    ensures Lookup(DoExpire(st, key, o, d).store, key) == Act(DeadlineEffect(o, d), Lookup(st, key))
    ensures forall other :: other != key ==> Lookup(DoExpire(st, key, o, d).store, other) == Lookup(st, other)
  {
    if key in st {
      var v := st[key].deadline;
      assert FromTime(ToTime(v)) == v;
    }
  }

  lemma {:induction false} ExpireActs(st: Store, args: Args, unit: Opt, key: Bytes)
    requires IsAbsoluteExpire(args, unit)
    ensures Lookup(ExecExpire(st, args, unit, 0).store, key) ==
            Act(if |args| >= 2 && args[1] == key then ExpireEffect(args, unit) else KEEP, Lookup(st, key))
  {
    KeepKeeps(Lookup(st, key));
    if |args| >= 3 && ParseExpire(args[3..], NO_CONDITIONS).Some? && TakesExpire(unit, args[2], 0) {
      ParseExpireConsistent(args[3..], NO_CONDITIONS);
      var o := ParseExpire(args[3..], NO_CONDITIONS).value;
      DeadlineActs(st, args[1], o, ExpireDeadline(unit, RedisInt(args[2]).value, 0).value);
    }
  }

  lemma {:induction false} ExecActs(x: Others, st: Store, args: Args, key: Bytes)
    requires IsAbsolute(args)
    ensures Lookup(Exec(x, st, args, 0).store, key) == Act(EffectOn(args, key), Lookup(st, key))
  {
    KeepKeeps(Lookup(st, key));
    if args != [] {
      match NameOf(args[0]) {
        case Set => SetActs(st, args, key);
        case ExpireAt => ExpireActs(st, args, ExAt, key);
        case PExpireAt => ExpireActs(st, args, PxAt, key);
        case _ =>
      }
    }
  }

  /** Absolute commands do not read the clock. */
  lemma {:induction false} AbsoluteIsClockFree(x: Others, args: Args)
    requires IsAbsolute(args)
    ensures ClockFree(Redis(x), args)
  {
    ClockFreeExact(x, args, 0);
  }

  predicate AllAbsolute(cmds: seq<Args>) {
    forall i :: 0 <= i < |cmds| ==> IsAbsolute(cmds[i])
  }

  /** Composing effects in order. */
  function ComposeAll(fs: seq<Effect>): Effect {
    if fs == [] then KEEP else Compose(ComposeAll(fs[..|fs| - 1]), fs[|fs| - 1])
  }

  lemma {:induction false} ComposeAssociates(f: Effect, g: Effect, h: Effect)
    ensures Compose(Compose(f, g), h) == Compose(f, Compose(g, h))
  {
    if h.Present? && g.Present? {
      if f.Present? {
        ClampTwice(g.lo, g.hi, h.lo, h.hi, f.lo);
        ClampTwice(g.lo, g.hi, h.lo, h.hi, f.hi);
      } else {
        ComposeActs(g, h, f.result);
      }
    }
  }

  lemma ComposeKeep(f: Effect)
    ensures Compose(f, KEEP) == f
  {
  }

  lemma {:induction false} ComposeAllConcat(fs: seq<Effect>, gs: seq<Effect>)
    ensures ComposeAll(fs + gs) == Compose(ComposeAll(fs), ComposeAll(gs))
    decreases |gs|
  {
    if gs == [] {
      assert fs + gs == fs;
      ComposeKeep(ComposeAll(fs));
    } else {
      var z := |gs| - 1;
      ComposeAllConcat(fs, gs[..z]);
      assert gs == gs[..z] + [gs[z]];
      Assoc(fs, gs[..z], [gs[z]]);
      ComposeAllSnoc(gs[..z], gs[z]);
      ComposeAllSnoc(fs + gs[..z], gs[z]);
      ComposeAssociates(ComposeAll(fs), ComposeAll(gs[..z]), gs[z]);
    }
  }

  lemma ComposeAllSnoc(fs: seq<Effect>, f: Effect)
    ensures ComposeAll(fs + [f]) == Compose(ComposeAll(fs), f)
  {
    assert (fs + [f])[..|fs|] == fs;
  }

  function Effects(cmds: seq<Args>, key: Bytes): seq<Effect> {
    seq(|cmds|, i requires 0 <= i < |cmds| => EffectOn(cmds[i], key))
  }

  function EffectOfAll(cmds: seq<Args>, key: Bytes): Effect {
    ComposeAll(Effects(cmds, key))
  }

  lemma EffectOfAllSnoc(cmds: seq<Args>, key: Bytes)
    requires cmds != []
    ensures var z := |cmds| - 1;
            EffectOfAll(cmds, key) == Compose(EffectOfAll(cmds[..z], key), EffectOn(cmds[z], key))
  {
    assert Effects(cmds, key)[..|cmds| - 1] == Effects(cmds[..|cmds| - 1], key);
  }

  lemma ReplayLast(x: Others, st: Store, cmds: seq<Args>)
    requires cmds != []
    ensures var z := |cmds| - 1;
            Replay(Redis(x), st, cmds) == Exec(x, Replay(Redis(x), st, cmds[..z]), cmds[z], 0).store
  {
    var z := |cmds| - 1;
    ReplaySnoc(Redis(x), st, cmds[..z], cmds[z]);
    assert cmds[..z] + [cmds[z]] == cmds;
  }

  lemma {:induction false} ReplayActs(x: Others, st: Store, cmds: seq<Args>, key: Bytes)
    requires AllAbsolute(cmds)
    ensures Lookup(Replay(Redis(x), st, cmds), key) == Act(EffectOfAll(cmds, key), Lookup(st, key))
    decreases |cmds|
  {
    if cmds != [] {
      var z := |cmds| - 1;
      ReplayActs(x, st, cmds[..z], key);
      ReplayLast(x, st, cmds);
      ExecActs(x, Replay(Redis(x), st, cmds[..z]), cmds[z], key);
      EffectOfAllSnoc(cmds, key);
      ComposeActs(EffectOfAll(cmds[..z], key), EffectOn(cmds[z], key), Lookup(st, key));
    }
  }

  lemma {:induction false} EffectConcat(a: seq<Args>, b: seq<Args>, key: Bytes)
    ensures EffectOfAll(a + b, key) == Compose(EffectOfAll(a, key), EffectOfAll(b, key))
  {
    EffectsConcat(a, b, key);
    ComposeAllConcat(Effects(a, key), Effects(b, key));
  }

  lemma EffectsConcat(a: seq<Args>, b: seq<Args>, key: Bytes)
    ensures Effects(a + b, key) == Effects(a, key) + Effects(b, key)
  {
    var ab := Effects(a + b, key);
    forall i | 0 <= i < |ab|
      ensures ab[i] == (Effects(a, key) + Effects(b, key))[i]
    {
      assert i < |a| ==> (a + b)[i] == a[i];
      assert i >= |a| ==> (a + b)[i] == b[i - |a|];
    }
  }

  lemma StoresEqual(a: Store, b: Store)
    requires forall key :: Lookup(a, key) == Lookup(b, key)
    ensures a == b
  {
    forall key
      ensures key in a <==> key in b
      ensures key in a ==> a[key] == b[key]
    {
      assert Lookup(a, key) == Lookup(b, key);
    }
  }

  /**
   Starting over. A store that `rest` still leads to the right result is led there by `redone`
   followed by `rest` as well, for absolute commands.
   */
  lemma {:induction false} RedeliveryHarmless(x: Others, origin: Store, redone: seq<Args>, rest: seq<Args>, st: Store)
    requires AllAbsolute(redone) && AllAbsolute(rest)
    requires Replay(Redis(x), st, rest) == Replay(Redis(x), origin, redone + rest)
    ensures Replay(Redis(x), st, redone + rest) == Replay(Redis(x), origin, redone + rest)
  {
    var goal := Replay(Redis(x), origin, redone + rest);
    forall key
      ensures Lookup(Replay(Redis(x), st, redone + rest), key) == Lookup(goal, key)
    {
      ReplayActs(x, st, rest, key);
      ReplayActs(x, st, redone + rest, key);
      ReplayActs(x, origin, redone + rest, key);
      EffectConcat(redone, rest, key);
      StartingOverIsHarmless(EffectOfAll(redone, key), EffectOfAll(rest, key), Lookup(st, key), Lookup(origin, key));
    }
    StoresEqual(Replay(Redis(x), st, redone + rest), goal);
  }

  lemma {:induction false} AbsoluteIsRestartable(x: Others, cmds: seq<Args>)
    requires AllAbsolute(cmds)
    ensures Restartable(Redis(x), cmds)
  {
    forall lo, at, hi, origin, st |
      0 <= lo <= at <= hi <= |cmds| &&
      Replay(Redis(x), st, cmds[at..hi]) == Replay(Redis(x), origin, cmds[lo..hi])
      ensures Replay(Redis(x), st, cmds[lo..hi]) == Replay(Redis(x), origin, cmds[lo..hi])
    {
      assert cmds[lo..hi] == cmds[lo..at] + cmds[at..hi];
      RedeliveryHarmless(x, origin, cmds[lo..at], cmds[at..hi], st);
    }
  }

  // ---- commands that are not absolute ----

  lemma MoreLiterals()
    ensures NameOf(Lit("APPEND")) == Append && OptionOf(Lit("NX")) == Nx
  {
    assert ToUpper(Lit("APPEND")) == Lit("APPEND") && ToUpper(Lit("NX")) == Lit("NX");
    assert Lit("APPEND")[0] == 65 && Lit("PSETEX")[0] == 80 && Lit("EXPIRE")[0] == 69;
    assert Lit("NX")[0] == 78 && Lit("EX")[0] == 69 && Lit("PX")[0] == 80;
  }

  /** An APPEND that is delivered twice shows. */
  lemma {:induction false} AppendNotHarmless(x: Others, key: Bytes, value: Bytes)
    requires value != []
    ensures var cmds := [[Lit("APPEND"), key, value]];
            Replay(Redis(x), Replay(Redis(x), map[], cmds), cmds) != Replay(Redis(x), map[], cmds)
  {
    var a := [Lit("APPEND"), key, value];
    MoreLiterals();
    ReplayOne(Redis(x), map[], a);
    var once: Store := map[key := Slot(value, None)];
    ReplayOne(Redis(x), once, a);
    assert Replay(Redis(x), once, [a])[key].value == value + value;
    assert |value + value| != |value|;
  }

  /** So does a SET NX behind a PEXPIREAT, although each alone is idempotent. */
  lemma {:induction false} SetNxNotHarmless(x: Others, key: Bytes, value: Bytes, d: int)
    requires IsInt64(d)
    ensures var cmds := [[PEXPIREAT, key, Decimal.Print(d)], [SET, key, value, Lit("NX")]];
            Replay(Redis(x), Replay(Redis(x), map[], cmds), cmds) != Replay(Redis(x), map[], cmds)
  {
    var a: Args, b: Args := [PEXPIREAT, key, Decimal.Print(d)], [SET, key, value, Lit("NX")];
    LiteralNames();
    MoreLiterals();
    RedisIntOfPrinted(d);
    assert a[3..] == [] && b[3..] == [Lit("NX")];
    assert ParseExpire(a[3..], NO_CONDITIONS) == Some(NO_CONDITIONS);
    assert ParseSet(b[3..], NO_OPTIONS) == Some(NO_OPTIONS.(nx := true));
    var once: Store := map[key := Slot(value, None)];
    PairReplays(x, map[], a, b);
    PairReplays(x, once, a, b);
    assert Exec(x, map[], a, 0).store == map[];
    assert Exec(x, map[], b, 0).store == once;
    assert Exec(x, once, a, 0).store == map[key := Slot(value, Some(d))];
  }

  lemma PairReplays(x: Others, st: Store, a: Args, b: Args)
    ensures Replay(Redis(x), st, [a, b]) == Exec(x, Exec(x, st, a, 0).store, b, 0).store
  {
    ReplayOne(Redis(x), st, a);
    ReplaySnoc(Redis(x), st, [a], b);
    assert [a] + [b] == [a, b];
  }
}
