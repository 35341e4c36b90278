/** The replication theorems for the Redis backend and the bridge's own normalisation. */
module Cluster {
  import opened Bytes
  import opened Store
  import opened Normalize
  import opened NormalizeTheorems
  import opened TimeIndependence
  import opened Replaying
  import opened Redelivery
  import opened Replication
  import Decimal

  lemma {:induction false} ExecAllClockFree(run: Backend, st: Store, cmds: seq<Args>, t: int)
    requires AllClockFree(run, cmds)
    ensures ExecAll(run, st, cmds, t) == Replay(run, st, cmds)
    decreases |cmds|
  {
    if cmds != [] {
      assert ClockFree(run, cmds[0]);
      ExecAllClockFree(run, run(st, cmds[0], 0).store, cmds[1..], t);
    }
  }

  /**
   What a write must be for its log to stand for it from `t0` on: a condition on its arguments and the
   clock.
   */
  predicate LogsFaithfully(args: Args, now: int, forwarded: bool, t0: int) {
    if forwarded then !ReadsClock(args, t0)
    else !Panics(args) && IsSafe(args, now) && (IsSettled(args, now) || !ReadsClock(args, t0))
  }

  lemma {:induction false} ExecAllSince(run: Backend, st: Store, cmds: seq<Args>, t0: int, t: int)
    requires t0 <= t
    ensures ExecAll(Since(run, t0), st, cmds, t) == ExecAll(run, st, cmds, t)
    decreases |cmds|
  {
    if cmds != [] {
      SinceSame(run, t0, st, cmds[0], t);
      ExecAllSince(run, run(st, cmds[0], t).store, cmds[1..], t0, t);
    }
  }

  /** The log of a settled command runs at any clock, so it is faithful exactly if it means the same. */
  lemma {:induction false} SettledWrites(x: Others, args: Args, now: int, t0: int)
    requires !Panics(args) && IsSettled(args, now) && t0 <= now
    ensures MayWrite(Since(Redis(x), t0), args, now, false) <==> IsSafe(args, now)
  {
    var run, cmds := Since(Redis(x), t0), NormalizeExpiry(args, now);
    NormalizationExact(x, args, now);
    forall i | 0 <= i < |cmds|
      ensures ClockFree(run, cmds[i])
    {
      LoggedClockFree(x, args, now, cmds[i]);
    }
    forall st
      ensures ExecAll(Redis(x), st, cmds, now) == Replay(run, st, cmds)
    {
      ExecAllClockFree(run, st, cmds, now);
      ExecAllSince(Redis(x), st, cmds, t0, now);
    }
    FaithfulIsSameMeaning(x, args, now, t0);
  }

  /** A command logged as it is is faithful exactly if it does not read the clock. */
  lemma {:induction false} RawWrites(x: Others, args: Args, now: int, t0: int)
    requires 0 <= t0 <= now
    ensures Faithful(Since(Redis(x), t0), args, now, [args]) <==> !ReadsClock(args, t0)
  {
    var run := Since(Redis(x), t0);
    ClockFreeExact(x, args, t0);
    assert [args][0] == args;
    if ClockFree(run, args) {
      forall st
        ensures Replay(run, st, [args]) == run(st, args, now).store
      {
        ReplayOne(run, st, args);
      }
    }
  }

  /**
   Which writes the log stands for, client writes and forwarded ones alike, when no clock is before
   `t0`: exactly those that meet the condition on their arguments.
   */
  lemma {:induction false} WritesExact(x: Others, args: Args, now: int, forwarded: bool, t0: int)
    requires 0 <= t0 <= now
    ensures MayWrite(Since(Redis(x), t0), args, now, forwarded) <==> LogsFaithfully(args, now, forwarded, t0)
  {
    if forwarded {
      RawWrites(x, args, now, t0);
    } else if !Panics(args) {
      if IsSettled(args, now) {
        SettledWrites(x, args, now, t0);
      } else {
        assert NormalizeExpiry(args, now) == [args] && IsSafe(args, now);
        RawWrites(x, args, now, t0);
      }
    }
  }

  lemma FaithfulIsSameMeaning(x: Others, args: Args, now: int, t0: int)
    requires !Panics(args) && t0 <= now && AllClockFree(Since(Redis(x), t0), NormalizeExpiry(args, now))
    requires var run, cmds := Since(Redis(x), t0), NormalizeExpiry(args, now);
             forall st :: ExecAll(Redis(x), st, cmds, now) == Replay(run, st, cmds)
    ensures SameMeaning(x, args, now) <==> Faithful(Since(Redis(x), t0), args, now, NormalizeExpiry(args, now))
  {
    var run, cmds := Since(Redis(x), t0), NormalizeExpiry(args, now);
    if SameMeaning(x, args, now) {
      forall st
        ensures Replay(run, st, cmds) == run(st, args, now).store
      {
        SinceSame(Redis(x), t0, st, args, now);
        assert Exec(x, st, args, now).store == ExecAll(Redis(x), st, cmds, now);
      }
    }
    if Faithful(run, args, now, cmds) {
      forall st
        ensures Exec(x, st, args, now).store == ExecAll(Redis(x), st, cmds, now)
      {
        SinceSame(Redis(x), t0, st, args, now);
        assert Replay(run, st, cmds) == run(st, args, now).store;
      }
    }
  }

  /** Forwarding an EXPIRE, say: a follower that replays it later gets another deadline. */
  lemma {:induction false} ForwardedExpire(x: Others, key: Bytes, value: Bytes, now: int, later: int)
    requires 0 <= now < later < TWO_63 - 10_000
    ensures var args := [Lit("EXPIRE"), key, Decimal.Print(10)];
            var st: Store := map[key := Slot(value, None)];
            && !MayWrite(Since(Redis(x), now), args, now, true)
            && Exec(x, st, args, now).store == map[key := Slot(value, Some(now + 10_000))]
            && Exec(x, st, args, later).store == map[key := Slot(value, Some(later + 10_000))]
  {
    var args := [Lit("EXPIRE"), key, Decimal.Print(10)];
    assert ToUpper(Lit("EXPIRE")) == Lit("EXPIRE") && Lit("EXPIRE")[0] == 69 && Lit("PSETEX")[0] == 80;
    assert NameOf(args[0]) == Expire;
    assert args[3..] == [];
    RedisIntOfPrinted(10);
    WritesExact(x, args, now, true, now);
  }

  // ---- convergence ----

  predicate AllLogFaithfully(steps: seq<Step>, t0: int) {
    forall i :: 0 <= i < |steps| && steps[i].BeginWrite? ==>
      LogsFaithfully(steps[i].args, steps[i].now, steps[i].forwarded, t0)
  }

  /** No write in progress has a clock before `t0`. */
  predicate WriteFrom(s: State, t0: int) {
    s.p.write.Some? ==> t0 <= s.p.write.value.now
  }

  lemma {:induction false} StepSince(run: Backend, s: State, step: Step, s': State, t0: int)
    requires Next(run, s, step, s') && ClockFrom(step, t0) && WriteFrom(s, t0)
    ensures Next(Since(run, t0), s, step, s') && WriteFrom(s', t0)
  {
    if step.EndWrite? {
      SinceSame(run, t0, s.p.store, s.p.write.value.args, s.p.write.value.now);
    } else if step.Apply? || step.FailApply? {
      SinceSame(run, t0, s.f.store, Current(s.f).args, step.t);
    }
  }

  lemma {:induction false} WritesFrom(run: Backend, s0: Store, states: seq<State>, steps: seq<Step>, i: nat, t0: int)
    requires IsRun(run, s0, states, steps) && AllClocksFrom(steps, t0) && i < |states|
    ensures WriteFrom(states[i], t0)
  {
    if i > 0 {
      WritesFrom(run, s0, states, steps, i - 1, t0);
      assert StepAt(run, states, steps, i - 1);
      StepSince(run, states[i - 1], steps[i - 1], states[i], t0);
    }
  }

  /** A run in which no clock is before `t0` is a run of the backend as it is from then on. */
  lemma {:induction false} RunSince(run: Backend, s0: Store, states: seq<State>, steps: seq<Step>, t0: int)
    requires IsRun(run, s0, states, steps) && AllClocksFrom(steps, t0)
    ensures IsRun(Since(run, t0), s0, states, steps)
  {
    forall i | 0 <= i < |steps|
      ensures StepAt(Since(run, t0), states, steps, i)
    {
      WritesFrom(run, s0, states, steps, i, t0);
      assert StepAt(run, states, steps, i);
      StepSince(run, states[i], steps[i], states[i + 1], t0);
    }
  }

  /**
   Convergence of the bridge on Redis: in a run without crashes and failures, with no clock before `t0`,
   whose writes meet the condition on their arguments, the follower's store at each batch boundary is
   the log replayed up to its watermark, and once it has caught up it is the primary's store.
   */
  lemma {:induction false} RedisConvergence(x: Others, s0: Store, states: seq<State>, steps: seq<Step>, i: nat, t0: int)
    requires IsRun(Redis(x), s0, states, steps) && AllSmooth(steps) && i < |states| && states[i].f.work == Idle
    requires 0 <= t0 && AllClocksFrom(steps, t0) && AllLogFaithfully(steps, t0)
    ensures var s := states[i];
            && s.f.durable <= |s.p.log|
            && s.f.store == Replay(Since(Redis(x), t0), s0, Slice(s.p.log, 0, s.f.durable))
            && (s.f.durable == |s.p.log| && s.p.write == None ==> s.f.store == s.p.store)
  {
    var run := Since(Redis(x), t0);
    RunSince(Redis(x), s0, states, steps, t0);
    forall k | 0 <= k < |steps| && steps[k].BeginWrite?
      ensures MayWrite(run, steps[k].args, steps[k].now, steps[k].forwarded)
    {
      assert ClockFrom(steps[k], t0);
      WritesExact(x, steps[k].args, steps[k].now, steps[k].forwarded, t0);
    }
    Convergence(run, s0, states, steps, i);
  }

  // ---- redelivery ----

  /**
   Redelivery is harmless: with any number of follower crashes and failures, if the entries ever executed
   are absolute commands, the follower's store equals a single replay of them whenever the current
   replay has reached the highest seq ever executed.
   */
  lemma {:induction false} HarmlessRedelivery(x: Others, s0: Store, states: seq<State>, steps: seq<Step>, i: nat)
    requires IsRun(Redis(x), s0, states, steps) && i < |states| && Position(states[i].f) == states[i].high
    ensures var s := states[i];
            && s.high <= |s.p.log|
            && (AllAbsolute(Slice(s.p.log, 0, s.high)) ==>
                 s.f.store == Replay(Redis(x), s0, Slice(s.p.log, 0, s.high)))
  {
    RestartedReplay(Redis(x), s0, states, steps, i);
    var cmds := Slice(states[i].p.log, 0, states[i].high);
    if AllAbsolute(cmds) {
      AbsoluteIsRestartable(x, cmds);
      forall k | 0 <= k < |cmds|
        ensures ClockFree(Redis(x), cmds[k])
      {
        AbsoluteIsClockFree(x, cmds[k]);
      }
    }
  }
}
