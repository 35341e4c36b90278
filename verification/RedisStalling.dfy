/** Which commands stop a follower for good on Redis. */
module RedisStalling {
  import opened Bytes
  import opened Store
  import opened Normalize
  import opened NormalizeTheorems
  import opened TimeIndependence
  import opened Replication
  import opened Stalling
  import opened Cluster
  import Decimal

  /** A conditional SET that is not performed, unless it returns an old value. */
  predicate Unperformed(o: SetOptions, present: bool) {
    ((o.nx && present) || (o.xx && !present)) && !(o.get && present)
  }

  predicate SetIsRefused(st: Store, args: Args, t0: int) {
    || |args| < 3
    || match ParseSet(args[3..], NO_OPTIONS)
       case None => true
       case Some(o) => (o.unit.Some? && !TakesSet(o.unit.value, o.amount, t0)) || Unperformed(o, args[1] in st)
  }

  predicate ExpireIsRefused(args: Args, unit: Opt, t0: int) {
    |args| < 3 || ParseExpire(args[3..], NO_CONDITIONS).None? || !TakesExpire(unit, args[2], t0)
  }

  /**
   The command is malformed, has an amount that Redis does not take at `t0`, and so at no later clock,
   or is a SET whose condition is not met.
   */
  predicate IsRefused(x: Others, st: Store, args: Args, t0: int) {
    args == [] ||
    match NameOf(args[0])
    case Set => SetIsRefused(st, args, t0)
    case SetEx => |args| != 4 || !TakesSet(Ex, args[2], t0)
    case PSetEx => |args| != 4 || !TakesSet(Px, args[2], t0)
    case Expire => ExpireIsRefused(args, Ex, t0)
    case PExpire => ExpireIsRefused(args, Px, t0)
    case ExpireAt => ExpireIsRefused(args, ExAt, t0)
    case PExpireAt => ExpireIsRefused(args, PxAt, t0)
    case Persist => |args| != 2
    case Del => |args| < 2
    case Append => |args| != 3
    case Other => x(st, args).store == st && x(st, args).reply != Done
  }

  /** Whether a SET is performed does not depend on the clock, and what is not taken at `t0` is not taken later. */
  lemma {:induction false} SetRefused(st: Store, args: Args, t0: int, t: int)
    requires SetIsRefused(st, args, t0) && 0 <= t0 <= t
    ensures ExecSet(st, args, t).store == st && ExecSet(st, args, t).reply != Done
  {
    if |args| >= 3 && ParseSet(args[3..], NO_OPTIONS).Some? {
      var o := ParseSet(args[3..], NO_OPTIONS).value;
      if o.unit.Some? {
        TakenBefore(o.unit.value, o.amount, t0, t);
      }
    }
  }

  lemma {:induction false} RefusedMeansRefuses(x: Others, st: Store, args: Args, t0: int, t: int)
    requires IsRefused(x, st, args, t0) && 0 <= t0 <= t
    ensures Exec(x, st, args, t).store == st && Exec(x, st, args, t).reply != Done
  {
    if args != [] {
      var name := NameOf(args[0]);
      if name == Set {
        SetRefused(st, args, t0, t);
      } else if |args| >= 3 {
        TakenBefore(Ex, args[2], t0, t);
        TakenBefore(Px, args[2], t0, t);
        TakenBefore(ExAt, args[2], t0, t);
        TakenBefore(PxAt, args[2], t0, t);
      }
    }
  }

  /** What is not refused succeeds at `t0`, or is a SET GET that creates its key. */
  lemma {:induction false} SetNotRefused(st: Store, args: Args, t0: int)
    requires !SetIsRefused(st, args, t0)
    ensures var r := ExecSet(st, args, t0);
            r.reply == Done || (r.store != st && ExecSet(r.store, args, t0).reply == Done)
  {
  }

  /** For a command outside the set, the second try may fail too. */
  lemma {:induction false} NotRefused(x: Others, st: Store, args: Args, t0: int)
    requires !IsRefused(x, st, args, t0)
    ensures var r := Exec(x, st, args, t0);
            r.reply == Done || (r.store != st && (NameOf(args[0]).Other? || Exec(x, r.store, args, t0).reply == Done))
  {
    if NameOf(args[0]) == Set {
      SetNotRefused(st, args, t0);
    }
  }

  /** On Redis, exactly these commands are refused by a store at every clock from `t0` on. */
  lemma {:induction false} RefusalExact(x: Others, st: Store, args: Args, t0: int)
    requires 0 <= t0
    ensures Refuses(Redis(x), st, args, t0) <==> IsRefused(x, st, args, t0)
  {
    if IsRefused(x, st, args, t0) {
      forall t | t0 <= t
        ensures Redis(x)(st, args, t).store == st && Redis(x)(st, args, t).reply != Done
      {
        RefusedMeansRefuses(x, st, args, t0, t);
      }
    } else {
      NotRefused(x, st, args, t0);
      assert Redis(x)(st, args, t0).store != st || Redis(x)(st, args, t0).reply == Done;
    }
  }

  /** And of the commands modelled, every other one succeeds by the second try. */
  lemma {:induction false} PassableExact(x: Others, st: Store, args: Args, t0: int)
    requires 0 <= t0 && (args != [] ==> !NameOf(args[0]).Other?)
    ensures Passable(Redis(x), st, args, t0) <==> !IsRefused(x, st, args, t0)
  {
    var run := Redis(x);
    RefusalExact(x, st, args, t0);
    if IsRefused(x, st, args, t0) {
      RefusedIsNotPassable(run, st, args, t0);
    } else {
      NotRefused(x, st, args, t0);
      if run(st, args, t0).reply == Done {
        assert TryAgain(run, st, args, t0, [], 0).reply == Done;
      } else {
        RetriedOnce(run, st, args, t0);
        assert TryAgain(run, st, args, t0, [0], 0).reply == Done;
      }
    }
  }

  /**
   Stalling on Redis, exactly: from `t0` on an idle follower never gets past its next entry, in any
   continuation, if and only if the store it has refuses the command.
   */
  lemma {:induction false} RedisStallExact(x: Others, s0: Store, states: seq<State>, steps: seq<Step>, i: nat, t0: int)
    requires IsRun(Redis(x), s0, states, steps) && i < |states| && 0 <= t0
    requires states[i].f.work == Idle && states[i].f.durable < |states[i].p.log|
    requires var args := states[i].p.log[states[i].f.durable].args; args != [] ==> !NameOf(args[0]).Other?
    ensures var s := states[i];
            !GetsPast(Redis(x), s, s.f.durable, t0) <==> IsRefused(x, s.f.store, s.p.log[s.f.durable].args, t0)
  {
    var s := states[i];
    StallExact(Redis(x), s0, states, steps, i, t0);
    PassableExact(x, s.f.store, s.p.log[s.f.durable].args, t0);
  }

  /** Then neither its watermark nor its store ever changes again. */
  lemma {:induction false} RefusedCommandStalls(x: Others, s0: Store, states: seq<State>, steps: seq<Step>, i: nat, j: nat, t0: int)
    requires IsRun(Redis(x), s0, states, steps) && i <= j < |states| && 0 <= t0 && AllReplayFrom(steps[i..], t0)
    requires states[i].f.work == Idle && states[i].f.durable < |states[i].p.log|
    requires IsRefused(x, states[i].f.store, states[i].p.log[states[i].f.durable].args, t0)
    ensures states[j].f.durable == states[i].f.durable && states[j].f.store == states[i].f.store
  {
    RefusalExact(x, states[i].f.store, states[i].p.log[states[i].f.durable].args, t0);
    RefusedEntryStalls(Redis(x), s0, states, steps, i, j, t0);
  }

  // ---- clients can bring this about ----

  /** How one option reads, to Redis and to the rewriting. */
  lemma XxAlone(opts: Args, now: int)
    requires |opts| == 1 && OptionOf(opts[0]) == Xx
    ensures ParseSet(opts, NO_OPTIONS) == Some(NO_OPTIONS.(xx := true))
    ensures ScanSet(opts, now, Scanned(0, [])).expireAtMs == 0
    ensures LastTiming(opts, None) == None
  {
    assert opts[1..] == [];
  }

  /** A SET XX on a missing key is logged faithfully, and refused. */
  lemma {:induction false} MissedXx(x: Others, st: Store, args: Args, now: int, t0: int)
    requires |args| == 4 && NameOf(args[0]) == Set && OptionOf(args[3]) == Xx && args[1] !in st && 0 <= t0 <= now
    ensures MayWrite(Since(Redis(x), t0), args, now, false) && Refuses(Redis(x), st, args, t0)
  {
    XxAlone(args[3..], now);
    WritesExact(x, args, now, false, t0);
    RefusalExact(x, st, args, t0);
  }

  const LAST := TWO_63 - 1

  lemma PxAlone(opts: Args, now: int)
    requires |opts| == 2 && OptionOf(opts[0]) == Px && opts[1] == Decimal.Print(LAST) && 1 <= now < TWO_63
    ensures ParseSet(opts, NO_OPTIONS) == Some(NO_OPTIONS.(unit := Some(Px), amount := opts[1]))
    ensures ScanSet(opts, now, Scanned(0, [])).expireAtMs <= 0
  {
    assert opts[2..] == [];
    Decimal.PrintParse(LAST);
    assert GoDeadline(Px, LAST, now) == now + LAST - TWO_64;
  }

  /**
   So is a SET with a PX amount that only a clock at 0 could take. The deadline wraps, so the command
   is logged as it is; every store then refuses it.
   */
  lemma {:induction false} LongPx(x: Others, st: Store, args: Args, now: int, t0: int)
    requires |args| == 5 && NameOf(args[0]) == Set && OptionOf(args[3]) == Px && args[4] == Decimal.Print(LAST)
    requires 1 <= t0 <= now < TWO_63
    ensures NormalizeExpiry(args, now) == [args]
    ensures MayWrite(Since(Redis(x), t0), args, now, false) && Refuses(Redis(x), st, args, t0)
  {
    PxAlone(args[3..], now);
    RedisIntOfPrinted(LAST);
    WritesExact(x, args, now, false, t0);
    RefusalExact(x, st, args, t0);
  }
}
