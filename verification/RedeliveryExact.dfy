/** For which commands redelivery is harmless: each by itself, and in any company. */
module RedeliveryExact {
  import opened Bytes
  import opened Store
  import opened WalModel
  import opened Normalize
  import opened NormalizeTheorems
  import opened TimeIndependence
  import opened Replaying
  import opened Redelivery
  import opened Replication
  import opened Stalling
  import Dispatch
  import Simulation

  // ---- a command by itself ----

  /** Executing the command twice is executing it once, on every store and at every clock. */
  ghost predicate IsIdempotent(x: Others, args: Args) {
    forall st, t :: Exec(x, Exec(x, st, args, t).store, args, t).store == Exec(x, st, args, t).store
  }

  predicate IsModelled(args: Args) {
    args != [] ==> !NameOf(args[0]).Other?
  }

  predicate AppendsSomething(args: Args) {
    |args| == 3 && NameOf(args[0]) == Append && args[2] != []
  }

  lemma {:induction false} TwiceIsOnce(x: Others, st: Store, args: Args, t: int)
    requires IsModelled(args) && !AppendsSomething(args)
    ensures Exec(x, Exec(x, st, args, t).store, args, t).store == Exec(x, st, args, t).store
  {
    if args != [] {
      match NameOf(args[0]) {
        case Set => SetTwice(st, args, t);
        case Del => DelTwice(st, args);
        case Append => AppendTwice(st, args);
        case Expire => ExpireTwice(st, args, Ex, t);
        case PExpire => ExpireTwice(st, args, Px, t);
        case ExpireAt => ExpireTwice(st, args, ExAt, t);
        case PExpireAt => ExpireTwice(st, args, PxAt, t);
        case _ =>
      }
    }
  }

  lemma {:induction false} SetTwice(st: Store, args: Args, t: int)
    ensures ExecSet(ExecSet(st, args, t).store, args, t).store == ExecSet(st, args, t).store
  {
  }

  lemma {:induction false} ExpireTwice(st: Store, args: Args, unit: Opt, t: int)
    ensures ExecExpire(ExecExpire(st, args, unit, t).store, args, unit, t).store == ExecExpire(st, args, unit, t).store
  {
  }

  lemma {:induction false} AppendTwice(st: Store, args: Args)
    requires |args| == 3 ==> args[2] == []
    ensures ExecAppend(ExecAppend(st, args).store, args).store == ExecAppend(st, args).store
  {
    if |args| == 3 {
      var once := ExecAppend(st, args).store;
      assert once[args[1]].value + [] == once[args[1]].value;
      assert once[args[1] := once[args[1]]] == once;
    }
  }

  lemma {:induction false} DelTwice(st: Store, args: Args)
    ensures ExecDel(ExecDel(st, args).store, args).store == ExecDel(st, args).store
  {
  }

  /** Each modelled command by itself may be executed twice, APPEND of something alone excepted. */
  lemma {:induction false} IdempotentExact(x: Others, args: Args)
    requires IsModelled(args)
    ensures IsIdempotent(x, args) <==> !AppendsSomething(args)
  {
    if AppendsSomething(args) {
      var once: Store := map[args[1] := Slot(args[2], None)];
      assert Exec(x, map[], args, 0).store == once;
      assert Exec(x, once, args, 0).store[args[1]].value == args[2] + args[2];
      assert |args[2] + args[2]| != |args[2]|;
    } else {
      forall st, t
        ensures Exec(x, Exec(x, st, args, t).store, args, t).store == Exec(x, st, args, t).store
      {
        TwiceIsOnce(x, st, args, t);
      }
    }
  }

  // ---- a command in any company ----

  predicate AllOf(cmds: seq<Args>, c: Args) {
    forall i :: 0 <= i < |cmds| ==> cmds[i] == c || IsAbsolute(cmds[i])
  }

  /** Every log of this command and absolute ones may be redelivered. */
  ghost predicate JoinsSafely(x: Others, c: Args) {
    forall cmds :: AllOf(cmds, c) ==> MayRedeliver(Redis(x), cmds)
  }

  /** A second replay of the two that shows. */
  lemma {:induction false} PairBreaks(x: Others, a: Args, b: Args, origin: Store)
    requires var once := Replay(Redis(x), origin, [a, b]); Replay(Redis(x), once, [a, b]) != once
    ensures !MayRedeliver(Redis(x), [a, b])
  {
    var cmds, once := [a, b], Replay(Redis(x), origin, [a, b]);
    assert cmds[2..2] == [] && cmds[0..2] == cmds;
    assert Replay(Redis(x), once, cmds[2..2]) == Replay(Redis(x), origin, cmds[0..2]);
    assert Replay(Redis(x), once, cmds[0..2]) != Replay(Redis(x), origin, cmds[0..2]);
  }

  function One(key: Bytes, value: Bytes, d: Option<int>): Store {
    map[key := Slot(value, d)]
  }

  lemma {:induction false} PlainIsAbsolute(key: Bytes, ms: int)
    requires IsInt64(ms)
    ensures IsAbsolute(ExpireAtCommand(key, ms))
  {
    LiteralNames();
    assert ExpireAtCommand(key, ms)[3..] == [];
  }

  /** A command that creates its key, and leaves alone the deadline of one that is there. */
  lemma {:induction false} CreatorBreaks(x: Others, c: Args, key: Bytes, value: Bytes, d: Option<int>, value': Bytes)
    requires d != Some(0)
    requires Exec(x, map[], c, 0).store == One(key, value, d)
    requires Exec(x, One(key, value, Some(0)), c, 0).store == One(key, value', Some(0))
    ensures !JoinsSafely(x, c)
  {
    var a := ExpireAtCommand(key, 0);
    ExecPlainExpireAt(x, map[], key, 0, 0);
    ExecPlainExpireAt(x, One(key, value, d), key, 0, 0);
    PairReplays(x, map[], a, c);
    PairReplays(x, One(key, value, d), a, c);
    assert One(key, value, d)[key := Slot(value, Some(0))] == One(key, value, Some(0));
    assert One(key, value', Some(0))[key].deadline != One(key, value, d)[key].deadline;
    PairBreaks(x, a, c, map[]);
    PlainIsAbsolute(key, 0);
    assert AllOf([a, c], c);
  }

  lemma Conditions()
    ensures OptionOf(Lit("GT")) == Gt && OptionOf(Lit("LT")) == Lt
  {
    assert ToUpper(Lit("GT")) == Lit("GT") && ToUpper(Lit("LT")) == Lit("LT");
    assert Lit("GT")[0] == 71 && Lit("LT")[0] == 76 && Lit("EX")[0] == 69 && Lit("PX")[0] == 80;
    assert Lit("NX")[0] == 78 && Lit("XX")[0] == 88;
  }

  const RAISES := NO_CONDITIONS.(gt := true)
  const LOWERS := NO_CONDITIONS.(lt := true)

  /** A PEXPIREAT with GT or LT. */
  function Bounding(key: Bytes, ms: int, gt: bool): Args {
    ExpireAtCommand(key, ms) + [if gt then Lit("GT") else Lit("LT")]
  }

  lemma {:induction false} BoundingExecutes(x: Others, st: Store, key: Bytes, ms: int, gt: bool)
    requires IsInt64(ms)
    ensures Exec(x, st, Bounding(key, ms, gt), 0).store == DoExpire(st, key, if gt then RAISES else LOWERS, ms).store
    ensures IsAbsolute(Bounding(key, ms, gt))
  {
    var opts := [if gt then Lit("GT") else Lit("LT")];
    Conditions();
    LiteralNames();
    assert opts[1..] == [];
    ExecExpireAt(x, st, key, ms, opts, 0);
    assert Bounding(key, ms, gt)[3..] == opts;
  }

  /** A command that sets a deadline where there is none, and only there. */
  lemma {:induction false} NxBreaks(x: Others, c: Args, key: Bytes, o: ExpireOptions, d: int)
    requires o.nx && !o.xx && !o.gt && !o.lt && IsInt64(d) && IsInt64(d + 1)
    requires forall st: Store :: Exec(x, st, c, 0).store == DoExpire(st, key, o, d).store
    ensures !JoinsSafely(x, c)
  {
    var a := Bounding(key, d + 1, true);
    var s0, s1, s2 := One(key, [], None), One(key, [], Some(d)), One(key, [], Some(d + 1));
    BoundingExecutes(x, s0, key, d + 1, true);
    BoundingExecutes(x, s1, key, d + 1, true);
    PairReplays(x, s0, a, c);
    PairReplays(x, s1, a, c);
    assert DoExpire(s0, key, RAISES, d + 1).store == s0 && DoExpire(s0, key, o, d).store == s1;
    assert DoExpire(s1, key, RAISES, d + 1).store == s2 && DoExpire(s2, key, o, d).store == s2;
    assert s1[key].deadline != s2[key].deadline;
    PairBreaks(x, a, c, s0);
    assert AllOf([a, c], c);
  }

  /** A command that changes a deadline only where there is one. */
  lemma {:induction false} XxBreaks(x: Others, c: Args, key: Bytes, o: ExpireOptions, d: int)
    requires o.xx && !o.nx && !o.gt && IsInt64(d) && IsInt64(d + 1)
    requires forall st: Store :: Exec(x, st, c, 0).store == DoExpire(st, key, o, d).store
    ensures !JoinsSafely(x, c)
  {
    var b := Bounding(key, d + 1, false);
    var s0, s1, s2 := One(key, [], None), One(key, [], Some(d + 1)), One(key, [], Some(d));
    BoundingExecutes(x, s0, key, d + 1, false);
    BoundingExecutes(x, s2, key, d + 1, false);
    PairReplays(x, s0, c, b);
    PairReplays(x, s1, c, b);
    assert DoExpire(s0, key, o, d).store == s0 && DoExpire(s0, key, LOWERS, d + 1).store == s1;
    assert DoExpire(s1, key, o, d).store == s2 && DoExpire(s2, key, LOWERS, d + 1).store == s2;
    assert s1[key].deadline != s2[key].deadline;
    PairBreaks(x, c, b, s0);
    assert AllOf([c, b], c);
  }

  lemma {:induction false} SetBreaks(x: Others, c: Args)
    requires |c| >= 3 && NameOf(c[0]) == Set && !IsAbsoluteSet(c) && !ReadsClock(c, 0)
    ensures !JoinsSafely(x, c)
  {
    var o := ParseSet(c[3..], NO_OPTIONS).value;
    ParseSetCoherent(c[3..], NO_OPTIONS);
    ParseSetExclusive(c[3..], NO_OPTIONS);
    var d := if o.unit.None? then None else OptionsDeadline(o, 0);
    CreatorBreaks(x, c, c[1], c[2], d, c[2]);
  }

  lemma {:induction false} ParseSetExclusive(opts: Args, o: SetOptions)
    requires ParseSet(opts, o).Some? && !(o.nx && o.xx)
    ensures var p := ParseSet(opts, o).value; !(p.nx && p.xx)
    decreases |opts|
  {
    if opts != [] {
      var f := OptionOf(opts[0]);
      if TakesValue(f) {
        ParseSetExclusive(opts[2..], o.(unit := Some(f), amount := opts[1]));
      } else {
        ParseSetExclusive(opts[1..], AddFlag(o, f).value);
      }
    }
  }

  /** The deadline that an EXPIREAT or PEXPIREAT names is the last that can be named. */
  predicate IsLast(args: Args) {
    |args| >= 3 &&
    match RedisInt(args[2])
    case None => false
    case Some(n) =>
      || (NameOf(args[0]) == ExpireAt && Millis(ExAt, n) == TWO_63 - 1)
      || (NameOf(args[0]) == PExpireAt && Millis(PxAt, n) == TWO_63 - 1)
  }

  lemma {:induction false} ExpireBreaks(x: Others, c: Args, unit: Opt)
    requires |c| >= 3 && NameOf(c[0]) == (if unit == ExAt then ExpireAt else PExpireAt) && (unit == ExAt || unit == PxAt)
    requires !IsAbsoluteExpire(c, unit) && !IsLast(c)
    ensures !JoinsSafely(x, c)
  {
    var o := ParseExpire(c[3..], NO_CONDITIONS).value;
    var d := ExpireDeadline(unit, RedisInt(c[2]).value, 0).value;
    ParseExpireConsistent(c[3..], NO_CONDITIONS);
    if o.nx {
      NxBreaks(x, c, c[1], o, d);
    } else {
      XxBreaks(x, c, c[1], o, d);
    }
  }

  lemma {:induction false} AppendBreaks(x: Others, c: Args)
    requires |c| == 3 && NameOf(c[0]) == Append
    ensures !JoinsSafely(x, c)
  {
    CreatorBreaks(x, c, c[1], c[2], None, c[2] + c[2]);
  }

  lemma {:induction false} ClockBreaks(x: Others, c: Args)
    requires ReadsClock(c, 0)
    ensures !JoinsSafely(x, c)
  {
    ClockFreeExact(x, c, 0);
    assert AllOf([c], c);
    assert [c][0] == c;
  }

  lemma {:induction false} OtherwiseBreaks(x: Others, c: Args)
    requires IsModelled(c) && !IsAbsolute(c) && !IsLast(c)
    ensures !JoinsSafely(x, c)
  {
    if ReadsClock(c, 0) {
      ClockBreaks(x, c);
    } else {
      match NameOf(c[0]) {
        case Set => SetBreaks(x, c);
        case ExpireAt => ExpireBreaks(x, c, ExAt);
        case PExpireAt => ExpireBreaks(x, c, PxAt);
        case Append => AppendBreaks(x, c);
      }
    }
  }

  /**
   Which commands may be redelivered in any company. Every log of absolute commands and this one can be
   redelivered if and only if this one is absolute too. So a set of commands that holds the absolute
   ones and any other is harmful.
   */
  lemma {:induction false} CompanyExact(x: Others, c: Args)
    requires IsModelled(c) && !IsLast(c)
    ensures JoinsSafely(x, c) <==> IsAbsolute(c)
  {
    if IsAbsolute(c) {
      forall cmds | AllOf(cmds, c)
        ensures MayRedeliver(Redis(x), cmds)
      {
        AbsoluteMayBeRedelivered(x, cmds);
      }
    } else {
      OtherwiseBreaks(x, c);
    }
  }

  lemma {:induction false} AbsoluteMayBeRedelivered(x: Others, cmds: seq<Args>)
    requires AllAbsolute(cmds)
    ensures MayRedeliver(Redis(x), cmds)
  {
    AbsoluteIsRestartable(x, cmds);
    forall i | 0 <= i < |cmds|
      ensures ClockFree(Redis(x), cmds[i])
    {
      AbsoluteIsClockFree(x, cmds[i]);
    }
  }

  // ---- harm done, in a run ----

  /** An entry is applied, the follower crashes before the watermark is written, and applies it again. */
  lemma {:induction false} AppliedTwice(run: Backend, s: State) returns (states: seq<State>, steps: seq<Step>)
    requires Inv(s) && s.f.work == Idle && s.f.durable < |s.p.log| && s.high <= s.f.durable
    requires var args := s.p.log[s.f.durable].args;
             run(s.f.store, args, 0).reply == Done && run(run(s.f.store, args, 0).store, args, 0).reply == Done
    ensures IsPath(run, states, steps) && states[0] == s && Last(states).p == s.p
    ensures Position(Last(states).f) == s.f.durable + 1 == Last(states).high
    ensures var args := s.p.log[s.f.durable].args;
            Last(states).f.store == run(run(s.f.store, args, 0).store, args, 0).store
  {
    var a, as' := Approach(run, s);
    var s1, s2 := CrashAfterApply(run, s);
    var b, bs := [Last(a), s1, s2], [Step.Apply(0), Crash];
    assert StepAt(run, b, bs, 0) && StepAt(run, b, bs, 1);
    PathsJoin(run, a, as', b, bs);
    var d, ds := Approach(run, s2);
    PathsJoin(run, a + b[1..], as' + bs, d, ds);
    var s3 := ApplyOffered(run, s2);
    assert StepAt(run, [Last(d), s3], [Step.Apply(0)], 0);
    PathsJoin(run, a + b[1..] + d[1..], as' + bs + ds, [Last(d), s3], [Step.Apply(0)]);
    states, steps := a + b[1..] + d[1..] + [Last(d), s3][1..], as' + bs + ds + [Step.Apply(0)];
  }

  lemma {:induction false} ApplyOffered(run: Backend, s: State) returns (s': State)
    requires Numbered(s.p.log) && s.f.work == Idle && s.f.durable < |s.p.log|
    requires run(s.f.store, s.p.log[s.f.durable].args, 0).reply == Done
    ensures Next(run, Offered(s), Step.Apply(0), s') && s'.p == s.p && s'.f.durable == s.f.durable
    ensures Position(s'.f) == s.f.durable + 1 && s'.high == Max(s.high, s.f.durable + 1)
    ensures s'.f.store == run(s.f.store, s.p.log[s.f.durable].args, 0).store
  {
    var o, p := Offered(s), s.f.durable;
    assert Current(o.f) == s.p.log[p];
    s' := o.(f := o.f.(work := o.f.work.(idx := 1, want := p + 2), store := Attempt(run, o.f, 0).replica.store),
             trace := o.trace + [p + 1], high := Max(o.high, p + 1));
  }

  lemma {:induction false} CrashAfterApply(run: Backend, s: State) returns (s1: State, s2: State)
    requires Numbered(s.p.log) && s.f.work == Idle && s.f.durable < |s.p.log|
    requires run(s.f.store, s.p.log[s.f.durable].args, 0).reply == Done
    ensures Next(run, Offered(s), Step.Apply(0), s1) && Next(run, s1, Crash, s2)
    ensures s2.p == s.p && s2.f.work == Idle && s2.f.durable == s.f.durable && s2.high == Max(s.high, s.f.durable + 1)
    ensures s2.f.store == run(s.f.store, s.p.log[s.f.durable].args, 0).store
  {
    s1 := ApplyOffered(run, s);
    s2 := s1.(f := s1.f.(conn := Closed, work := Idle));
  }

  /** The primary has appended something to a missing key. */
  lemma {:induction false} AppendWritten(x: Others, args: Args) returns (s: State, states: seq<State>, steps: seq<Step>)
    requires AppendsSomething(args)
    ensures IsRun(Redis(x), map[], states, steps) && Last(states) == s
    ensures Commands(s.p.log) == [args] && s.p.store == One(args[1], args[2], None)
    ensures s.f == Replicated(0, Closed, Idle, map[]) && s.high == 0
  {
    var s0 := State(Primary([], map[], None), Replicated(0, Closed, Idle, map[]), Acks({}, [], 0), [], 0);
    assert Logged(args, 0, false) == [args];
    states, steps := Simulation.WriteIsPath(Redis(x), s0, args, 0, false);
    s := Last(states);
    Dispatch.AppendsAddCommands([], [args], 0);
    assert Commands([]) + [args] == [args];
  }

  /**
   The harm in a run: one APPEND, one crash of the follower between applying it and persisting the
   watermark. The replay has reached the highest seq ever executed, and the store is another one.
   */
  lemma {:induction false} AppendHarm(x: Others, args: Args) returns (states: seq<State>, steps: seq<Step>)
    requires AppendsSomething(args)
    ensures IsRun(Redis(x), map[], states, steps)
    ensures var s := Last(states);
            && Commands(s.p.log) == [args] && Position(s.f) == s.high == 1
            && s.p.store == One(args[1], args[2], None)
            && s.f.store == One(args[1], args[2] + args[2], None)
            && s.f.store != s.p.store
  {
    var s, a, as' := AppendWritten(x, args);
    RunInv(Redis(x), map[], a, as', |as'|);
    assert Commands(s.p.log)[0] == s.p.log[0].args;
    var once := One(args[1], args[2], None);
    assert Exec(x, map[], args, 0) == Outcome(once, Done);
    assert Exec(x, once, args, 0) == Outcome(One(args[1], args[2] + args[2], None), Done);
    var b, bs := AppliedTwice(Redis(x), s);
    PathsJoin(Redis(x), a, as', b, bs);
    states, steps := a + b[1..], as' + bs;
    assert |args[2] + args[2]| != |args[2]|;
    assert Last(states).f.store[args[1]].value != once[args[1]].value;
  }
}
