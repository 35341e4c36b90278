/**
 Followers that stop for good: a null or error reply counts as a failed replay, and a failed entry
 is delivered again and again.
 */
module Stalling {
  import opened Bytes
  import opened Store
  import opened WalModel
  import opened Follower
  import opened Replication

  /** The store after executing a command again and again, each time so long after `t0`. */
  function Retried(run: Backend, st: Store, args: Args, t0: int, delays: seq<nat>): Store
    decreases |delays|
  {
    if delays == [] then st else Retried(run, run(st, args, t0 + delays[0]).store, args, t0, delays[1..])
  }

  /** One more try after those. */
  function TryAgain(run: Backend, st: Store, args: Args, t0: int, delays: seq<nat>, d: nat): Outcome {
    run(Retried(run, st, args, t0, delays), args, t0 + d)
  }

  /** After some number of tries, perhaps none, a try succeeds; all at clocks from `t0` on. */
  ghost predicate Passable(run: Backend, st: Store, args: Args, t0: int) {
    exists delays, d :: TryAgain(run, st, args, t0, delays, d).reply == Done
  }

  lemma {:induction false} RetriedSnoc(run: Backend, st: Store, args: Args, t0: int, delays: seq<nat>, d: nat)
    ensures Retried(run, st, args, t0, delays + [d]) == TryAgain(run, st, args, t0, delays, d).store
    decreases |delays|
  {
    if delays == [] {
      assert (delays + [d])[1..] == [];
    } else {
      assert (delays + [d])[1..] == delays[1..] + [d];
      RetriedSnoc(run, run(st, args, t0 + delays[0]).store, args, t0, delays[1..], d);
    }
  }

  lemma RetriedOnce(run: Backend, st: Store, args: Args, t0: int)
    ensures Retried(run, st, args, t0, [0]) == run(st, args, t0).store
  {
    var delays: seq<nat> := [0];
    assert delays[1..] == [];
    assert Retried(run, st, args, t0, delays) == Retried(run, run(st, args, t0 + 0).store, args, t0, []);
  }

  /** The run can go on, at clocks from `t0` on, so that the watermark passes `p`. */
  ghost predicate GetsPast(run: Backend, s: State, p: nat, t0: int) {
    exists states, steps ::
      IsPath(run, states, steps) && AllReplayFrom(steps, t0) && states[0] == s && Last(states).f.durable > p
  }

  /** The follower has tried entry p + 1 some number of times since its store was `st`. */
  ghost predicate Held(run: Backend, s: State, p: nat, st: Store, args: Args, t0: int) {
    && s.f.durable == p < |s.p.log| && s.p.log[p].args == args
    && (s.f.work.Applying? ==> s.f.work.idx == 0)
    && exists delays :: s.f.store == Retried(run, st, args, t0, delays)
  }

  lemma {:induction false} HeldAttempt(run: Backend, s: State, p: nat, st: Store, args: Args, t0: int, t: int)
    requires Inv(s) && Held(run, s, p, st, args, t0) && s.f.work.Applying? && t0 <= t
    ensures |s.f.work.batch.entries| > 0 && Current(s.f).seqId == s.f.work.want
    ensures exists delays :: Attempt(run, s.f, t).replica.store == Retried(run, st, args, t0, delays)
    ensures !Passable(run, st, args, t0) ==> !Attempt(run, s.f, t).ok
  {
    CurrentIsNext(s.p.log, s.f);
    var delays :| s.f.store == Retried(run, st, args, t0, delays);
    var d: nat := t - t0;
    RetriedSnoc(run, st, args, t0, delays, d);
    assert Attempt(run, s.f, t).replica.store == Retried(run, st, args, t0, delays + [d]);
    assert Attempt(run, s.f, t).ok ==> TryAgain(run, st, args, t0, delays, d).reply == Done;
  }

  lemma {:induction false} HeldStep(run: Backend, s: State, p: nat, st: Store, args: Args, t0: int, step: Step, s': State)
    requires Inv(s) && Held(run, s, p, st, args, t0) && !Passable(run, st, args, t0)
    requires Next(run, s, step, s') && ReplaysFrom(step, t0)
    ensures Held(run, s', p, st, args, t0)
  {
    LogGrows(run, s, step, s');
    assert s'.p.log[..|s.p.log|][p] == s.p.log[p];
    if s.f.work.Applying? {
      HeldAttempt(run, s, p, st, args, t0, if step.Apply? || step.FailApply? then step.t else t0);
    }
  }

  lemma {:induction false} HeldForever(run: Backend, states: seq<State>, steps: seq<Step>, p: nat, st: Store, args: Args, t0: int, i: nat, j: nat)
    requires IsPath(run, states, steps) && i <= j < |states| && AllReplayFrom(steps[i..], t0)
    requires Inv(states[i]) && Held(run, states[i], p, st, args, t0) && !Passable(run, st, args, t0)
    ensures Inv(states[j]) && Held(run, states[j], p, st, args, t0)
    decreases j
  {
    if i < j {
      HeldForever(run, states, steps, p, st, args, t0, i, j - 1);
      assert steps[i..][j - 1 - i] == steps[j - 1];
      HeldOneMore(run, states, steps, p, st, args, t0, j - 1);
    }
  }

  lemma {:induction false} HeldOneMore(run: Backend, states: seq<State>, steps: seq<Step>, p: nat, st: Store, args: Args, t0: int, j: nat)
    requires IsPath(run, states, steps) && j < |steps| && ReplaysFrom(steps[j], t0)
    requires Inv(states[j]) && Held(run, states[j], p, st, args, t0) && !Passable(run, st, args, t0)
    ensures Inv(states[j + 1]) && Held(run, states[j + 1], p, st, args, t0)
  {
    assert StepAt(run, states, steps, j);
    StepInv(run, states[j], steps[j], states[j + 1]);
    HeldStep(run, states[j], p, st, args, t0, steps[j], states[j + 1]);
  }

  /** The idle follower with the next entry, and nothing else, delivered to it. */
  function Offered(s: State): State
    requires s.f.durable < |s.p.log|
  {
    var p := s.f.durable;
    s.(f := s.f.(conn := Open([], p + 2), work := Applying(Batch([s.p.log[p]], p + 1), 0, p + 1)))
  }

  /** A reconnect, a batch of one entry and its delivery. */
  lemma {:induction false} Approach(run: Backend, s: State) returns (states: seq<State>, steps: seq<Step>)
    requires s.f.work == Idle && s.f.durable < |s.p.log|
    ensures IsPath(run, states, steps) && states[0] == s && Last(states) == Offered(s)
    ensures steps == [Connect, SendBatch(1), Receive]
  {
    var p := s.f.durable;
    var b := Batch([s.p.log[p]], p + 1);
    assert Seqs(s.p.log, p + 1, p + 2) == [s.p.log[p]];
    var s1 := s.(f := s.f.(conn := Open([], p + 1)));
    var s2 := s.(f := s.f.(conn := Open([b], p + 2)));
    assert [] + [b] == [b] && [b][1..] == [];
    states, steps := [s, s1, s2, Offered(s)], [Connect, SendBatch(1), Receive];
    assert Next(run, s, Connect, s1);
    assert Next(run, s1, SendBatch(1), s2);
    assert Next(run, s2, Receive, Offered(s));
  }

  /** A try that fails after it was executed. */
  lemma {:induction false} FailedTry(run: Backend, s: State, t: int) returns (states: seq<State>, steps: seq<Step>)
    requires Inv(s) && s.f.work == Idle && s.f.durable < |s.p.log|
    ensures IsPath(run, states, steps) && states[0] == s && AllReplayFrom(steps, t)
    ensures Last(states).p == s.p && Last(states).f.durable == s.f.durable && Last(states).f.work == Idle
    ensures Last(states).f.store == run(s.f.store, s.p.log[s.f.durable].args, t).store
  {
    var a, as' := Approach(run, s);
    var o := Offered(s);
    var s' := o.(f := o.f.(conn := Closed, work := Idle, store := Attempt(run, o.f, t).replica.store),
                 high := Max(o.high, s.f.durable + 1));
    assert Current(o.f) == s.p.log[s.f.durable];
    assert Next(run, o, FailApply(t, true), s');
    PathsJoin(run, a, as', [o, s'], [FailApply(t, true)]);
    states, steps := a + [o, s'][1..], as' + [FailApply(t, true)];
  }

  /** A try that succeeds. */
  lemma {:induction false} GoodTry(run: Backend, s: State, t: int) returns (states: seq<State>, steps: seq<Step>)
    requires Inv(s) && s.f.work == Idle && s.f.durable < |s.p.log|
    requires run(s.f.store, s.p.log[s.f.durable].args, t).reply == Done
    ensures IsPath(run, states, steps) && AllReplayFrom(steps, t) && states[0] == s && Last(states).f.durable == s.f.durable + 1
  {
    var a, as' := Approach(run, s);
    var o, p := Offered(s), s.f.durable;
    assert Current(o.f) == s.p.log[p];
    var s1 := o.(f := o.f.(work := o.f.work.(idx := 1, want := p + 2), store := Attempt(run, o.f, t).replica.store),
                 trace := o.trace + [p + 1], high := Max(o.high, p + 1));
    var s2 := s1.(f := s1.f.(durable := p + 1, work := Idle));
    assert Next(run, o, Apply(t), s1);
    assert Next(run, s1, Step.Persist, s2);
    PathsJoin(run, a, as', [o, s1, s2], [Apply(t), Step.Persist]);
    states, steps := a + [o, s1, s2][1..], as' + [Apply(t), Step.Persist];
  }

  lemma {:induction false} TriesLead(run: Backend, s: State, t0: int, delays: seq<nat>, d: nat) returns (states: seq<State>, steps: seq<Step>)
    requires Inv(s) && s.f.work == Idle && s.f.durable < |s.p.log|
    requires TryAgain(run, s.f.store, s.p.log[s.f.durable].args, t0, delays, d).reply == Done
    ensures IsPath(run, states, steps) && AllReplayFrom(steps, t0) && states[0] == s
    ensures Last(states).f.durable == s.f.durable + 1
    decreases |delays|
  {
    if delays == [] {
      states, steps := GoodTry(run, s, t0 + d);
    } else {
      var a, as' := FailedTry(run, s, t0 + delays[0]);
      PathKeepsInv(run, a, as', |as'|);
      var b, bs := TriesLead(run, Last(a), t0, delays[1..], d);
      PathsJoin(run, a, as', b, bs);
      states, steps := a + b[1..], as' + bs;
    }
  }

  lemma {:induction false} PathKeepsInv(run: Backend, states: seq<State>, steps: seq<Step>, j: nat)
    requires IsPath(run, states, steps) && j < |states| && Inv(states[0])
    ensures Inv(states[j])
    decreases j
  {
    if j > 0 {
      PathKeepsInv(run, states, steps, j - 1);
      assert StepAt(run, states, steps, j - 1);
      StepInv(run, states[j - 1], steps[j - 1], states[j]);
    }
  }

  /**
   Stalling, exactly. Over any backend and in any run: from time `t0` on an idle follower can get past
   its next entry if and only if some number of executions of it from then on, from the store the
   follower has, ends in success.
   */
  lemma {:induction false} StallExact(run: Backend, s0: Store, states: seq<State>, steps: seq<Step>, i: nat, t0: int)
    requires IsRun(run, s0, states, steps) && i < |states|
    requires states[i].f.work == Idle && states[i].f.durable < |states[i].p.log|
    ensures var s := states[i];
            GetsPast(run, s, s.f.durable, t0) <==> Passable(run, s.f.store, s.p.log[s.f.durable].args, t0)
  {
    RunInv(run, s0, states, steps, i);
    PassExact(run, states[i], t0);
  }

  lemma {:induction false} PassExact(run: Backend, s: State, t0: int)
    requires Inv(s) && s.f.work == Idle && s.f.durable < |s.p.log|
    ensures GetsPast(run, s, s.f.durable, t0) <==> Passable(run, s.f.store, s.p.log[s.f.durable].args, t0)
  {
    var p, args := s.f.durable, s.p.log[s.f.durable].args;
    if Passable(run, s.f.store, args, t0) {
      var delays, d :| TryAgain(run, s.f.store, args, t0, delays, d).reply == Done;
      var states, steps := TriesLead(run, s, t0, delays, d);
    } else if GetsPast(run, s, p, t0) {
      var states, steps :|
        IsPath(run, states, steps) && AllReplayFrom(steps, t0) && states[0] == s && Last(states).f.durable > p;
      assert s.f.store == Retried(run, s.f.store, args, t0, []);
      assert steps[0..] == steps;
      HeldForever(run, states, steps, p, s.f.store, args, t0, 0, |steps|);
      assert false;
    }
  }

  // ---- entries that are refused outright ----

  /** From `t0` on the command has no effect on this store, and its reply counts as a failure. */
  ghost predicate Refuses(run: Backend, st: Store, args: Args, t0: int) {
    forall t :: t0 <= t ==> run(st, args, t).store == st && run(st, args, t).reply != Done
  }

  lemma RefusedOnce(run: Backend, st: Store, args: Args, t0: int, t: int)
    requires Refuses(run, st, args, t0) && t0 <= t
    ensures run(st, args, t).store == st && run(st, args, t).reply != Done
  {
  }

  lemma {:induction false} RefusedStays(run: Backend, st: Store, args: Args, t0: int, delays: seq<nat>)
    requires Refuses(run, st, args, t0)
    ensures Retried(run, st, args, t0, delays) == st
    decreases |delays|
  {
    if delays != [] {
      RefusedOnce(run, st, args, t0, t0 + delays[0]);
      RefusedStays(run, st, args, t0, delays[1..]);
    }
  }

  lemma {:induction false} RefusedIsNotPassable(run: Backend, st: Store, args: Args, t0: int)
    requires Refuses(run, st, args, t0)
    ensures !Passable(run, st, args, t0)
  {
    forall delays, d
      ensures TryAgain(run, st, args, t0, delays, d).reply != Done
    {
      RefusedStays(run, st, args, t0, delays);
      RefusedOnce(run, st, args, t0, t0 + d);
    }
  }

  /** The follower stands before entry p + 1, with this store, and the entry is refused. */
  ghost predicate Stalled(run: Backend, s: State, p: nat, st: Store, t0: int) {
    && s.f.durable == p < |s.p.log| && s.f.store == st
    && Refuses(run, st, s.p.log[p].args, t0)
    && (s.f.work.Applying? ==> s.f.work.idx == 0)
  }

  /**
   A follower that reaches an entry its store refuses from `t0` on stays before it, and its store stays
   as it is, in every continuation of the run: no reconnect or restart helps.
   */
  lemma {:induction false} RefusedEntryStalls(run: Backend, s0: Store, states: seq<State>, steps: seq<Step>, i: nat, j: nat, t0: int)
    requires IsRun(run, s0, states, steps) && i <= j < |states| && AllReplayFrom(steps[i..], t0)
    requires states[i].f.work == Idle && states[i].f.durable < |states[i].p.log|
    requires Refuses(run, states[i].f.store, states[i].p.log[states[i].f.durable].args, t0)
    ensures Stalled(run, states[j], states[i].f.durable, states[i].f.store, t0)
  {
    var p, st := states[i].f.durable, states[i].f.store;
    var args := states[i].p.log[p].args;
    RunInv(run, s0, states, steps, i);
    RefusedIsNotPassable(run, st, args, t0);
    assert st == Retried(run, st, args, t0, []);
    HeldForever(run, states, steps, p, st, args, t0, i, j);
    var delays :| states[j].f.store == Retried(run, st, args, t0, delays);
    RefusedStays(run, st, args, t0, delays);
  }
}
