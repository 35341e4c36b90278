/** What the methods of the primary and of the follower do, as paths of the replication machine. */
module Simulation {
  import opened Bytes
  import opened Store
  import opened WalModel
  import opened WalReading
  import opened Normalize
  import opened Follower
  import opened Replication
  import opened Dispatch

  // ---- a write ----

  /** The state with the rest of the write logged. */
  function LoggedRest(s: State): State
    requires s.p.write.Some?
  {
    var w := s.p.write.value;
    s.(p := s.p.(log := Flat(s.p.log, Appends(w.pending, w.now)), write := Some(w.(pending := []))))
  }

  lemma {:induction false} LogRest(run: Backend, s: State) returns (states: seq<State>, steps: seq<Step>)
    requires s.p.write.Some?
    ensures IsPath(run, states, steps) && states[0] == s && Last(states) == LoggedRest(s)
    decreases |s.p.write.value.pending|
  {
    var w := s.p.write.value;
    if w.pending == [] {
      states, steps := [s], [];
    } else {
      var e := Entry(|s.p.log| + 1, w.pending[0], w.now);
      var s' := s.(p := s.p.(log := s.p.log + [e], write := Some(w.(pending := w.pending[1..]))));
      assert Next(run, s, LogOne, s');
      var b, bs := LogRest(run, s');
      FlatStep(s.p.log, w.pending, w.now);
      assert StepAt(run, [s, s'], [LogOne], 0);
      PathsJoin(run, [s, s'], [LogOne], b, bs);
      states, steps := [s, s'] + b[1..], [LogOne] + bs;
    }
  }

  lemma FlatStep(h: seq<Entry>, cmds: seq<Args>, now: int)
    requires cmds != []
    ensures Flat(h, Appends(cmds, now)) == Flat(h + [Entry(|h| + 1, cmds[0], now)], Appends(cmds[1..], now))
  {
    var op, rest := Op.Append(Entry(0, cmds[0], now)), Appends(cmds[1..], now);
    assert ([op] + rest)[1..] == rest;
  }

  /**
   A write as the dispatcher does it, on the flat log its appends stand for, is a path of the machine:
   the log grows by the same appends, and the store becomes what the dispatcher's does.
   */
  lemma {:induction false} WriteIsPath(run: Backend, s: State, args: Args, now: int, forwarded: bool)
    returns (states: seq<State>, steps: seq<Step>)
    requires s.p.write == None && (!forwarded ==> !Panics(args))
    ensures IsPath(run, states, steps) && states[0] == s
    ensures Last(states) ==
            s.(p := Primary(Flat(s.p.log, Appends(Logged(args, now, forwarded), now)), run(s.p.store, args, now).store, None))
  {
    var step := BeginWrite(args, now, forwarded);
    var s1 := s.(p := s.p.(write := Some(Write(args, now, Logged(args, now, forwarded)))));
    var b, bs := LogRest(run, s1);
    var s2 := LoggedRest(s1);
    var s3 := s2.(p := s2.p.(store := run(s2.p.store, args, now).store, write := None));
    assert StepAt(run, [s, s1], [step], 0);
    PathsJoin(run, [s, s1], [step], b, bs);
    assert StepAt(run, [s2, s3], [EndWrite], 0);
    PathsJoin(run, [s, s1] + b[1..], [step] + bs, [s2, s3], [EndWrite]);
    states, steps := [s, s1] + b[1..] + [s2, s3][1..], [step] + bs + [EndWrite];
  }

  // ---- a batch ----

  function AsReplica(f: Replicated): Replica {
    Replica(f.durable, [], f.store)
  }

  /** One entry of the batch: skipped, applied or failed. */
  lemma {:induction false} OneEntry(run: Backend, s: State, t: int) returns (s': State, step: Step)
    requires s.f.work.Applying? && s.f.work.idx < |s.f.work.batch.entries|
    ensures Next(run, s, step, s') && s'.p == s.p && s'.f.durable == s.f.durable
    ensures var w := s.f.work;
            var a := Attempt(run, s.f, t);
            if Current(s.f).seqId < w.want then s'.f.work == w.(idx := w.idx + 1) && s'.f.store == s.f.store
            else if a.ok then s'.f.work == w.(idx := w.idx + 1, want := a.seqId + 1) && s'.f.store == a.replica.store
            else s'.f.work == Idle && s'.f.conn == Closed && s'.f.store == a.replica.store
  {
    var w, e, a := s.f.work, Current(s.f), Attempt(run, s.f, t);
    if e.seqId < w.want {
      s', step := s.(f := s.f.(work := w.(idx := w.idx + 1))), Step.Apply(t);
    } else if a.ok {
      s' := s.(f := s.f.(work := w.(idx := w.idx + 1, want := e.seqId + 1), store := a.replica.store),
               trace := s.trace + [e.seqId], high := Max(s.high, e.seqId));
      step := Step.Apply(t);
    } else {
      s' := s.(f := s.f.(conn := Closed, work := Idle, store := a.replica.store), high := Max(s.high, e.seqId));
      step := FailApply(t, true);
    }
  }

  /** What is left of the batch, through the function that the loop computes. */
  function Rest(run: Backend, f: Replicated, clocks: seq<int>): (Replica, bool)
    requires f.work.Applying? && f.work.idx <= |f.work.batch.entries|
    requires |clocks| == |f.work.batch.entries| - f.work.idx
  {
    ApplyEntries(run, DIRECT, AsReplica(f), f.work.batch.entries[f.work.idx..], clocks, f.work.want)
  }

  lemma RestStep(run: Backend, f: Replicated, clocks: seq<int>, f': Replicated)
    requires f.work.Applying? && f.work.idx < |f.work.batch.entries|
    requires |clocks| == |f.work.batch.entries| - f.work.idx && f'.durable == f.durable
    requires var w := f.work;
             var a := Attempt(run, f, clocks[0]);
             if Current(f).seqId < w.want then f'.work == w.(idx := w.idx + 1) && f'.store == f.store
             else if a.ok then f'.work == w.(idx := w.idx + 1, want := a.seqId + 1) && f'.store == a.replica.store
             else f'.work == Idle && f'.store == a.replica.store
    ensures Rest(run, f, clocks) ==
            if f'.work.Applying? then Rest(run, f', clocks[1..]) else (AsReplica(f'), false)
  {
    var entries := f.work.batch.entries[f.work.idx..];
    assert entries[0] == Current(f) && entries[1..] == f.work.batch.entries[f.work.idx + 1..];
  }

  lemma {:induction false} EntriesArePath(run: Backend, s: State, clocks: seq<int>) returns (states: seq<State>, steps: seq<Step>)
    requires s.f.work.Applying? && s.f.work.idx <= |s.f.work.batch.entries|
    requires |clocks| == |s.f.work.batch.entries| - s.f.work.idx
    ensures IsPath(run, states, steps) && states[0] == s
    ensures var f, res := Last(states).f, Rest(run, s.f, clocks);
            && Last(states).p == s.p && AsReplica(f) == res.0
            && if res.1 then f.work.Applying? && f.work.batch == s.f.work.batch && f.work.idx == |f.work.batch.entries|
               else f.work == Idle
    decreases |clocks|
  {
    if clocks == [] {
      states, steps := [s], [];
    } else {
      var s', step := OneEntry(run, s, clocks[0]);
      RestStep(run, s.f, clocks, s'.f);
      assert StepAt(run, [s, s'], [step], 0);
      if s'.f.work.Applying? {
        var b, bs := EntriesArePath(run, s', clocks[1..]);
        PathsJoin(run, [s, s'], [step], b, bs);
        states, steps := [s, s'] + b[1..], [step] + bs;
      } else {
        states, steps := [s, s'], [step];
      }
    }
  }

  /**
   Replaying a received batch as applyBatch does it is a path of the machine, successful or not: it
   ends idle, with the store and the durable watermark that the function of the batch gives.
   */
  lemma {:induction false} BatchIsPath(run: Backend, s: State, batch: Batch, clocks: seq<int>)
    returns (states: seq<State>, steps: seq<Step>)
    requires s.f.work == Applying(batch, 0, s.f.durable + 1) && |clocks| == |batch.entries|
    ensures IsPath(run, states, steps) && states[0] == s
    ensures Last(states).f.work == Idle && Last(states).p == s.p
    ensures AsReplica(Last(states).f) == ApplyBatch(run, DIRECT, AsReplica(s.f), batch, clocks).0
  {
    assert batch.entries[0..] == batch.entries;
    states, steps := EntriesArePath(run, s, clocks);
    var res := Rest(run, s.f, clocks);
    if res.1 {
      var s1 := Last(states);
      var s2 := s1.(f := s1.f.(durable := Advance(s1.f.durable, batch.upTo), work := Idle));
      assert StepAt(run, [s1, s2], [Step.Persist], 0);
      PathsJoin(run, states, steps, [s1, s2], [Step.Persist]);
      states, steps := states + [s1, s2][1..], steps + [Step.Persist];
    }
  }
}
