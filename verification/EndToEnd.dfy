/** What the joined machine comes to: from the bytes of the log to the follower's store. */
module EndToEnd {
  import opened Bytes
  import opened Store
  import opened WalModel
  import opened Replaying
  import opened Redelivery
  import opened Cluster
  import opened Bridge
  import S = Streaming
  import R = Replication

  predicate IsSmooth(step: Step) {
    step.Node? ==> R.IsSmooth(step.act)
  }

  predicate AllSmooth(steps: seq<Step>) {
    forall step :: step in steps ==> IsSmooth(step)
  }

  predicate AllFaithful(steps: seq<Step>, t0: int) {
    forall step :: step in steps && step.BeginWrite? ==> LogsFaithfully(step.args, step.now, step.forwarded, t0)
  }

  /** No clock is before `t0`, the primary's or the follower's. */
  predicate ClockFrom(step: Step, t0: int) {
    (step.BeginWrite? ==> t0 <= step.now) && (step.Node? ==> R.ReplaysFrom(step.act, t0))
  }

  predicate AllClocksFrom(steps: seq<Step>, t0: int) {
    forall step :: step in steps ==> ClockFrom(step, t0)
  }

  lemma {:induction false} RefinedSteps(steps: seq<Step>, rsteps: seq<R.Step>, t0: int)
    requires AllSmooth(steps) && AllFaithful(steps, t0) && AllClocksFrom(steps, t0) && Covered(steps, rsteps)
    ensures R.AllSmooth(rsteps) && AllLogFaithfully(rsteps, t0) && R.AllClocksFrom(rsteps, t0)
  {
    forall i | 0 <= i < |rsteps|
      ensures R.IsSmooth(rsteps[i]) && R.ClockFrom(rsteps[i], t0)
      ensures rsteps[i].BeginWrite? ==> LogsFaithfully(rsteps[i].args, rsteps[i].now, rsteps[i].forwarded, t0)
    {
      assert rsteps[i] in rsteps;
      var step :| step in steps && Answers(step, rsteps[i]);
      assert IsSmooth(step) && ClockFrom(step, t0);
    }
  }

  /**
   Convergence, end to end. The segment files hold exactly the history `h`. In a run without crashes
   and failures, with no clock before `t0`, whose writes meet the condition on their arguments, an idle
   follower's store is what the files hold, replayed up to its watermark; once it has caught up it is
   the primary's store.
   */
  lemma {:induction false} Converges(x: Others, c: Codec, m: int, s0: Store, ys: seq<System>, steps: seq<Step>, i: nat, t0: int)
    requires IsRun(Redis(x), c, m, s0, ys, steps) && i < |ys| && ys[i].f.work == R.Idle
    requires AllSmooth(steps) && 0 <= t0 && AllFaithful(steps, t0) && AllClocksFrom(steps, t0)
    ensures var y := ys[i];
            var log := S.Written(c, y.ss);
            && Layout(c, Ids(y.ss.w), Files(y.ss.w), y.ss.h, []) && y.ss.h <= log
            && y.f.durable <= |log|
            && y.f.store == Replay(Since(Redis(x), t0), s0, R.Slice(log, 0, y.f.durable))
            && (y.f.durable == |log| && y.write == None ==> y.f.store == y.store)
  {
    var y := ys[i];
    var states, rsteps := Refines(Redis(x), c, m, s0, ys, steps, i);
    RefinedSteps(steps, rsteps, t0);
    RedisConvergence(x, s0, states, rsteps, |rsteps|, t0);
  }

  // ---- crashes and failures included ----

  /** Watermark safety, of the files: all entries up to the watermark have been applied, in order and without a gap. */
  lemma {:induction false} WatermarkIsSafe(run: Backend, c: Codec, m: int, s0: Store, ys: seq<System>, steps: seq<Step>, i: nat)
    requires IsRun(run, c, m, s0, ys, steps) && i < |ys|
    ensures var y := ys[i];
            && y.f.durable <= |S.Written(c, y.ss)|
            && (forall j :: 1 <= j <= y.f.durable ==> j in y.trace)
            && (forall j :: j in y.trace <==> 1 <= j <= R.Peak(y.trace))
            && (forall j, k :: 0 <= k < |y.trace| && 1 <= j < y.trace[k] ==> j in y.trace[..k])
  {
    var states, rsteps := Refines(run, c, m, s0, ys, steps, i);
    R.WatermarkSafety(run, s0, states, rsteps, |rsteps|);
  }

  /** Ack bound: no ack is ahead of what the files hold. */
  lemma {:induction false} AcksAreBounded(run: Backend, c: Codec, m: int, s0: Store, ys: seq<System>, steps: seq<Step>, i: nat)
    requires IsRun(run, c, m, s0, ys, steps) && i < |ys|
    ensures var y := ys[i];
            && y.acks.recorded == R.Peak(y.acks.received) <= y.f.durable
            && (forall a :: a in y.acks.sent || a in y.acks.received ==> a < |S.Written(c, y.ss)| + 1)
  {
    var states, rsteps := Refines(run, c, m, s0, ys, steps, i);
    R.AckBound(run, s0, states, rsteps, |rsteps|);
  }

  /** Redelivery: with any crashes and failures, if the entries ever executed are absolute commands. */
  lemma {:induction false} RedeliveryIsHarmless(x: Others, c: Codec, m: int, s0: Store, ys: seq<System>, steps: seq<Step>, i: nat)
    requires IsRun(Redis(x), c, m, s0, ys, steps) && i < |ys| && R.Position(ys[i].f) == ys[i].high
    ensures var y := ys[i];
            var log := S.Written(c, y.ss);
            && y.high <= |log|
            && (AllAbsolute(R.Slice(log, 0, y.high)) ==>
                 y.f.store == Replay(Redis(x), s0, R.Slice(log, 0, y.high)))
  {
    var states, rsteps := Refines(Redis(x), c, m, s0, ys, steps, i);
    HarmlessRedelivery(x, s0, states, rsteps, |rsteps|);
  }

  // ---- quiescence ----

  /** There is nothing left to do: no write, nothing on the way, and the subscriber waits for a signal. */
  predicate IsQuiescent(y: System) {
    && y.write == None
    && y.f.conn.Open? && y.f.conn.queue == [] && y.f.work == R.Idle
    && y.ss.phase == S.Waiting && !y.ss.signal
  }

  /** Then no wake-up has been lost: the follower has applied every entry there is. */
  lemma {:induction false} QuiescentIsCaughtUp(run: Backend, c: Codec, m: int, s0: Store, ys: seq<System>, steps: seq<Step>, i: nat)
    requires IsRun(run, c, m, s0, ys, steps) && i < |ys| && IsQuiescent(ys[i])
    ensures ys[i].f.durable == |ys[i].ss.h| && S.Written(c, ys[i].ss) == ys[i].ss.h
  {
    var y := ys[i];
    var states, rsteps := Refines(run, c, m, s0, ys, steps, i);
    R.RunInv(run, s0, states, rsteps, |rsteps|);
    assert y.ss.writing == None;
    assert S.Written(c, y.ss) == y.ss.h;
    assert R.Chain(y.ss.h, y.f.durable + 1, [], y.ss.from);
  }

  /**
   Quiescence. Whatever appends, rolls, reads of half-written records, reconnects and deliveries there
   were: when there is nothing left to do the follower's store is the primary's.
   */
  lemma {:induction false} QuiescentConverged(x: Others, c: Codec, m: int, s0: Store, ys: seq<System>, steps: seq<Step>, i: nat, t0: int)
    requires IsRun(Redis(x), c, m, s0, ys, steps) && i < |ys| && IsQuiescent(ys[i])
    requires AllSmooth(steps) && 0 <= t0 && AllFaithful(steps, t0) && AllClocksFrom(steps, t0)
    ensures ys[i].f.store == ys[i].store
  {
    QuiescentIsCaughtUp(Redis(x), c, m, s0, ys, steps, i);
    Converges(x, c, m, s0, ys, steps, i, t0);
  }
}
