/**
 The primary, one stream and one direct follower, step by step: writes, sends, deliveries, replay,
 persisting the watermark, dropped streams, failures, follower crashes and acks.
 */
module Replication {
  import opened Bytes
  import opened Store
  import opened WalModel
  import opened Follower
  import opened Normalize
  import opened Replaying

  /** A write in progress under the write mutex: what is still to be logged, then the execution. */
  datatype Write = Write(args: Args, now: int, pending: seq<Args>)

  datatype Primary = Primary(log: seq<Entry>, store: Store, write: Option<Write>)

  /** The stream: batches sent but not yet received, and the next seq the server will send. */
  datatype Conn = Closed | Open(queue: seq<Batch>, next: nat)

  datatype Work = Idle | Applying(batch: Batch, idx: nat, want: nat)

  /** `durable` is the watermark. The follower's backend outlives a crash of the follower. */
  datatype Replicated = Replicated(durable: nat, conn: Conn, work: Work, store: Store)

  /** The server's record of one follower's acks; `sent` are acks on the way, in any order. */
  datatype Acks = Acks(sent: set<nat>, received: seq<nat>, recorded: nat)

  /** `trace` lists the seqs applied successfully, in order; `high` is the highest seq ever executed. */
  datatype State = State(p: Primary, f: Replicated, acks: Acks, trace: seq<nat>, high: nat)

  datatype Step =
    | BeginWrite(args: Args, now: int, forwarded: bool) | LogOne | EndWrite
    | Connect | SendBatch(n: nat) | Receive
    | Apply(t: int) | Persist
    | Drop
    | FailApply(t: int, executed: bool) | FailPersist | Crash
    | SendAck | ReceiveAck(a: nat, kept: bool)

  predicate Init(s0: Store, s: State) {
    && s.p == Primary([], s0, None)
    && s.f == Replicated(0, Closed, Idle, s0)
    && s.acks == Acks({}, [], 0)
    && s.trace == [] && s.high == 0
  }

  /** The commands logged for a write: the forwarded path does not normalise. */
  function Logged(args: Args, now: int, forwarded: bool): seq<Args>
    requires !forwarded ==> !Panics(args)
  {
    if forwarded then [args] else NormalizeExpiry(args, now)
  }

  ghost predicate AllClockFree(run: Backend, cmds: seq<Args>) {
    forall i :: 0 <= i < |cmds| ==> ClockFree(run, cmds[i])
  }

  /** What is logged runs the same at every clock, and does what the write does. */
  ghost predicate Faithful(run: Backend, args: Args, now: int, cmds: seq<Args>) {
    && AllClockFree(run, cmds)
    && forall st :: Replay(run, st, cmds) == run(st, args, now).store
  }

  /** A write whose log stands for it. */
  ghost predicate MayWrite(run: Backend, args: Args, now: int, forwarded: bool) {
    (!forwarded ==> !Panics(args)) && Faithful(run, args, now, Logged(args, now, forwarded))
  }

  function Current(f: Replicated): Entry
    requires f.work.Applying? && f.work.idx < |f.work.batch.entries|
  {
    f.work.batch.entries[f.work.idx]
  }

  function Attempt(run: Backend, f: Replicated, t: int): Applied
    requires f.work.Applying? && f.work.idx < |f.work.batch.entries|
  {
    ApplyEntry(run, DIRECT, Replica(f.durable, [], f.store), Current(f), t)
  }

  /** Any command may be written that does not make the rewriting panic. */
  predicate Next(run: Backend, s: State, step: Step, s': State) {
    match step
    case BeginWrite(args, now, forwarded) =>
      && s.p.write == None && (!forwarded ==> !Panics(args))
      && s' == s.(p := s.p.(write := Some(Write(args, now, Logged(args, now, forwarded)))))
    case LogOne =>
      && s.p.write.Some? && s.p.write.value.pending != []
      && var w := s.p.write.value;
         s' == s.(p := s.p.(log := s.p.log + [Entry(|s.p.log| + 1, w.pending[0], w.now)],
                            write := Some(w.(pending := w.pending[1..]))))
    case EndWrite =>
      && s.p.write.Some? && s.p.write.value.pending == []
      && var w := s.p.write.value;
         s' == s.(p := s.p.(store := run(s.p.store, w.args, w.now).store, write := None))
    // A reconnect asks for the watermark's next seq.
    case Connect =>
      && s.f.work == Idle
      && s' == s.(f := s.f.(conn := Open([], s.f.durable + 1)))
    case SendBatch(n) =>
      && s.f.conn.Open? && n >= 1 && 1 <= s.f.conn.next && s.f.conn.next + n <= |s.p.log| + 1
      && var b := Batch(Seqs(s.p.log, s.f.conn.next, s.f.conn.next + n), s.f.conn.next + n - 1);
         s' == s.(f := s.f.(conn := Open(s.f.conn.queue + [b], s.f.conn.next + n)))
    case Receive =>
      && s.f.conn.Open? && s.f.conn.queue != [] && s.f.work == Idle
      && s' == s.(f := s.f.(conn := Open(s.f.conn.queue[1..], s.f.conn.next),
                            work := Applying(s.f.conn.queue[0], 0, s.f.durable + 1)))
    case Apply(t) =>
      && s.f.work.Applying? && s.f.work.idx < |s.f.work.batch.entries|
      && var w, e := s.f.work, Current(s.f);
         if e.seqId < w.want then s' == s.(f := s.f.(work := w.(idx := w.idx + 1)))
         else
           && Attempt(run, s.f, t).ok
           && s' == s.(f := s.f.(work := w.(idx := w.idx + 1, want := e.seqId + 1),
                                 store := Attempt(run, s.f, t).replica.store),
                       trace := s.trace + [e.seqId], high := Max(s.high, e.seqId))
    case Persist =>
      && s.f.work.Applying? && s.f.work.idx == |s.f.work.batch.entries|
      && s' == s.(f := s.f.(durable := Advance(s.f.durable, s.f.work.batch.upTo), work := Idle))
    // A dropped stream loses what it carried; a batch already received is still applied.
    case Drop =>
      s' == s.(f := s.f.(conn := Closed))
    // Apply fails: the command may have been executed all the same.
    case FailApply(t, executed) =>
      && s.f.work.Applying? && s.f.work.idx < |s.f.work.batch.entries|
      && Current(s.f).seqId >= s.f.work.want
      && s' == s.(f := s.f.(conn := Closed, work := Idle,
                            store := if executed then Attempt(run, s.f, t).replica.store else s.f.store),
                  high := if executed then Max(s.high, Current(s.f).seqId) else s.high)
    case FailPersist =>
      && s.f.work.Applying? && s.f.work.idx == |s.f.work.batch.entries|
      && s' == s.(f := s.f.(conn := Closed, work := Idle))
    case Crash =>
      s' == s.(f := s.f.(conn := Closed, work := Idle))
    case SendAck =>
      s' == s.(acks := s.acks.(sent := s.acks.sent + {s.f.durable}))
    // Acks may be delayed, reordered and repeated.
    case ReceiveAck(a, kept) =>
      && a in s.acks.sent
      && s' == s.(acks := Acks(if kept then s.acks.sent else s.acks.sent - {a},
                               s.acks.received + [a], Max(s.acks.recorded, a)))
  }

  predicate StepAt(run: Backend, states: seq<State>, steps: seq<Step>, i: nat) {
    i < |steps| < |states| && Next(run, states[i], steps[i], states[i + 1])
  }

  predicate IsPath(run: Backend, states: seq<State>, steps: seq<Step>) {
    |states| == |steps| + 1 && forall i :: 0 <= i < |steps| ==> StepAt(run, states, steps, i)
  }

  predicate IsRun(run: Backend, s0: Store, states: seq<State>, steps: seq<Step>) {
    IsPath(run, states, steps) && Init(s0, states[0])
  }

  lemma PathsJoin(run: Backend, a: seq<State>, as': seq<Step>, b: seq<State>, bs: seq<Step>)
    requires IsPath(run, a, as') && IsPath(run, b, bs) && Last(a) == b[0]
    ensures IsPath(run, a + b[1..], as' + bs) && (a + b[1..])[0] == a[0] && Last(a + b[1..]) == Last(b)
  {
    var states, steps := a + b[1..], as' + bs;
    forall i | 0 <= i < |steps|
      ensures StepAt(run, states, steps, i)
    {
      if i < |as'| {
        assert StepAt(run, a, as', i);
      } else {
        var k := i - |as'|;
        assert StepAt(run, b, bs, k);
        assert states[i] == b[k];
      }
    }
  }

  /** A step that executes an entry does so at a clock from `t0` on. */
  predicate ReplaysFrom(step: Step, t0: int) {
    step.Apply? || step.FailApply? ==> t0 <= step.t
  }

  /** And so does a step that begins a write. */
  predicate ClockFrom(step: Step, t0: int) {
    ReplaysFrom(step, t0) && (step.BeginWrite? ==> t0 <= step.now)
  }

  predicate AllReplayFrom(steps: seq<Step>, t0: int) {
    forall i :: 0 <= i < |steps| ==> ReplaysFrom(steps[i], t0)
  }

  predicate AllClocksFrom(steps: seq<Step>, t0: int) {
    forall i :: 0 <= i < |steps| ==> ClockFrom(steps[i], t0)
  }

  // ---- the log and the primary's store ----

  /** Everything logged, and everything about to be. */
  function Announced(p: Primary): seq<Args> {
    Commands(p.log) + if p.write.Some? then p.write.value.pending else []
  }

  /** The primary's store, after the write in progress, is the log replayed. */
  ghost predicate PrimaryOk(run: Backend, s0: Store, p: Primary) {
    && AllClockFree(run, Announced(p))
    && Replay(run, s0, Announced(p)) ==
       match p.write
       case None => p.store
       case Some(w) => run(p.store, w.args, w.now).store
  }

  lemma {:induction false} BeginWriteOk(run: Backend, s0: Store, s: State, step: Step, s': State)
    requires PrimaryOk(run, s0, s.p) && step.BeginWrite? && Next(run, s, step, s')
    requires MayWrite(run, step.args, step.now, step.forwarded)
    ensures PrimaryOk(run, s0, s'.p)
  {
    assert Announced(s.p) == Commands(s.p.log);
    ReplayConcat(run, s0, Commands(s.p.log), Logged(step.args, step.now, step.forwarded));
  }

  lemma {:induction false} LogOneOk(run: Backend, s0: Store, s: State, s': State)
    requires PrimaryOk(run, s0, s.p) && Next(run, s, LogOne, s')
    ensures PrimaryOk(run, s0, s'.p)
  {
    assert Announced(s'.p) == Announced(s.p);
  }

  lemma {:induction false} EndWriteOk(run: Backend, s0: Store, s: State, s': State)
    requires PrimaryOk(run, s0, s.p) && Next(run, s, EndWrite, s')
    ensures PrimaryOk(run, s0, s'.p)
  {
    assert Announced(s'.p) == Announced(s.p);
  }

  // ---- the follower's position ----

  /** Entries replayed since the last time the watermark was read: the follower is at this seq. */
  function Position(f: Replicated): nat {
    f.durable + if f.work.Applying? then f.work.idx else 0
  }

  /** The seq at which the next batch of the stream must start. */
  function Ahead(f: Replicated): nat {
    (if f.work.Applying? then f.work.batch.upTo else f.durable) + 1
  }

  /** Batches on the way continue one another up to the server's next seq. */
  predicate Chain(log: seq<Entry>, start: nat, queue: seq<Batch>, next: nat)
    decreases |queue|
  {
    if queue == [] then start == next
    else
      && IsBatch(log, start, queue[0].entries)
      && queue[0].upTo == start + |queue[0].entries| - 1
      && Chain(log, queue[0].upTo + 1, queue[1..], next)
  }

  predicate FollowerOk(log: seq<Entry>, f: Replicated) {
    && f.durable <= |log|
    && (f.conn.Open? ==> Chain(log, Ahead(f), f.conn.queue, f.conn.next))
    && (f.work.Applying? ==>
          && IsBatch(log, f.durable + 1, f.work.batch.entries)
          && f.work.batch.upTo == f.durable + |f.work.batch.entries|
          && f.work.idx <= |f.work.batch.entries|
          && f.work.want == f.durable + f.work.idx + 1)
  }

  lemma {:induction false} ChainOfLonger(log: seq<Entry>, log': seq<Entry>, start: nat, queue: seq<Batch>, next: nat)
    requires Chain(log, start, queue, next) && Longer(log, log')
    ensures Chain(log', start, queue, next)
    decreases |queue|
  {
    if queue != [] {
      SeqsOfLonger(log, log', start, start + |queue[0].entries|);
      ChainOfLonger(log, log', queue[0].upTo + 1, queue[1..], next);
    }
  }

  lemma {:induction false} ChainSnoc(log: seq<Entry>, start: nat, queue: seq<Batch>, next: nat, b: Batch)
    requires Chain(log, start, queue, next)
    requires IsBatch(log, next, b.entries) && b.upTo == next + |b.entries| - 1
    ensures Chain(log, start, queue + [b], b.upTo + 1)
    decreases |queue|
  {
    if queue == [] {
      assert (queue + [b])[1..] == [];
    } else {
      assert (queue + [b])[1..] == queue[1..] + [b];
      ChainSnoc(log, queue[0].upTo + 1, queue[1..], next, b);
    }
  }

  lemma FollowerOkOfLonger(log: seq<Entry>, log': seq<Entry>, f: Replicated)
    requires FollowerOk(log, f) && Longer(log, log')
    ensures FollowerOk(log', f)
  {
    if f.conn.Open? {
      ChainOfLonger(log, log', Ahead(f), f.conn.queue, f.conn.next);
    }
    if f.work.Applying? {
      SeqsOfLonger(log, log', f.durable + 1, f.durable + 1 + |f.work.batch.entries|);
    }
  }

  /** The entry being applied is the one behind the follower's position. */
  lemma CurrentIsNext(log: seq<Entry>, f: Replicated)
    requires FollowerOk(log, f) && Numbered(log) && f.work.Applying? && f.work.idx < |f.work.batch.entries|
    ensures Position(f) < |log| && Current(f) == log[Position(f)] && Current(f).seqId == f.work.want
  {
  }

  predicate IsPrimaryStep(step: Step) {
    step.BeginWrite? || step.LogOne? || step.EndWrite?
  }

  lemma {:induction false} SendBatchOk(run: Backend, s: State, step: Step, s': State)
    requires FollowerOk(s.p.log, s.f) && step.SendBatch? && Next(run, s, step, s')
    ensures FollowerOk(s'.p.log, s'.f)
  {
    var next := s.f.conn.next;
    var b := Batch(Seqs(s.p.log, next, next + step.n), next + step.n - 1);
    SentOk(s.p.log, s.f, b);
  }

  lemma {:induction false} SentOk(log: seq<Entry>, f: Replicated, b: Batch)
    requires FollowerOk(log, f) && f.conn.Open?
    requires IsBatch(log, f.conn.next, b.entries) && b.upTo == f.conn.next + |b.entries| - 1
    ensures FollowerOk(log, f.(conn := Open(f.conn.queue + [b], b.upTo + 1)))
  {
    ChainSnoc(log, Ahead(f), f.conn.queue, f.conn.next, b);
  }

  lemma {:induction false} ApplyOk(run: Backend, s: State, step: Step, s': State)
    requires FollowerOk(s.p.log, s.f) && Numbered(s.p.log) && step.Apply? && Next(run, s, step, s')
    ensures FollowerOk(s'.p.log, s'.f) && Position(s'.f) == Position(s.f) + 1
    ensures Attempt(run, s.f, step.t).ok
    ensures s' == s.(f := s.f.(work := s'.f.work, store := Attempt(run, s.f, step.t).replica.store),
                     trace := s.trace + [Position(s.f) + 1], high := Max(s.high, Position(s.f) + 1))
  {
    CurrentIsNext(s.p.log, s.f);
  }

  lemma {:induction false} FollowerSteps(run: Backend, s: State, step: Step, s': State)
    requires FollowerOk(s.p.log, s.f) && Numbered(s.p.log) && Next(run, s, step, s')
    ensures FollowerOk(s'.p.log, s'.f)
  {
    match step {
      case BeginWrite(_, _, _) =>
      case LogOne => FollowerOkOfLonger(s.p.log, s'.p.log, s.f);
      case EndWrite =>
      case SendBatch(_) => SendBatchOk(run, s, step, s');
      case Apply(_) => ApplyOk(run, s, step, s');
      case Receive => ReceiveOk(run, s, s');
      case _ => OtherStepsOk(run, s, step, s');
    }
  }

  lemma {:induction false} OtherStepsOk(run: Backend, s: State, step: Step, s': State)
    requires FollowerOk(s.p.log, s.f) && Next(run, s, step, s')
    requires !IsPrimaryStep(step) && !step.SendBatch? && !step.Apply? && !step.Receive?
    ensures FollowerOk(s'.p.log, s'.f)
  {
  }

  /** The first batch on the way starts behind the watermark, and the others continue it. */
  lemma ChainHead(log: seq<Entry>, start: nat, queue: seq<Batch>, next: nat)
    requires Chain(log, start, queue, next) && queue != []
    ensures IsBatch(log, start, queue[0].entries) && queue[0].upTo == start + |queue[0].entries| - 1
    ensures Chain(log, queue[0].upTo + 1, queue[1..], next)
  {
  }

  lemma {:induction false} ReceiveOk(run: Backend, s: State, s': State)
    requires FollowerOk(s.p.log, s.f) && Next(run, s, Receive, s')
    ensures FollowerOk(s'.p.log, s'.f)
  {
    ReceivedOk(s.p.log, s.f, s'.f);
  }

  lemma {:induction false} ReceivedOk(log: seq<Entry>, f: Replicated, f': Replicated)
    requires FollowerOk(log, f) && f.conn.Open? && f.conn.queue != [] && f.work == Idle
    requires f' == f.(conn := Open(f.conn.queue[1..], f.conn.next), work := Applying(f.conn.queue[0], 0, f.durable + 1))
    ensures FollowerOk(log, f')
  {
    ChainHead(log, f.durable + 1, f.conn.queue, f.conn.next);
  }

  // ---- what has been applied ----

  function Peak(trace: seq<nat>): (m: nat)
    ensures forall i :: 0 <= i < |trace| ==> trace[i] <= m
  {
    if trace == [] then 0 else Max(Peak(trace[..|trace| - 1]), trace[|trace| - 1])
  }

  /** No seq is applied before all smaller ones have been. */
  predicate Dense(trace: seq<nat>) {
    trace == [] || (Dense(trace[..|trace| - 1]) && 1 <= trace[|trace| - 1] <= Peak(trace[..|trace| - 1]) + 1)
  }

  lemma {:induction false} DenseSnoc(trace: seq<nat>, n: nat)
    requires Dense(trace) && 1 <= n <= Peak(trace) + 1
    ensures Dense(trace + [n]) && Peak(trace + [n]) == Max(Peak(trace), n)
  {
    assert (trace + [n])[..|trace|] == trace;
  }

  /** In a dense trace every seq up to the peak occurs, and occurs first before any larger one. */
  lemma {:induction false} DenseMeansInOrder(trace: seq<nat>, j: nat, i: nat)
    requires Dense(trace) && i < |trace| && 1 <= j < trace[i]
    ensures j in trace[..i]
    decreases |trace|
  {
    var z := |trace| - 1;
    assert trace[..z] + [trace[z]] == trace;
    if i < z {
      DenseMeansInOrder(trace[..z], j, i);
      assert trace[..z][..i] == trace[..i];
    } else {
      DenseHasAll(trace[..z], j);
    }
  }

  lemma {:induction false} DenseHasAll(trace: seq<nat>, j: nat)
    requires Dense(trace) && 1 <= j <= Peak(trace)
    ensures j in trace
    decreases |trace|
  {
    var z := |trace| - 1;
    assert trace == trace[..z] + [trace[z]];
    if j <= Peak(trace[..z]) {
      DenseHasAll(trace[..z], j);
    }
  }

  predicate TraceOk(s: State) {
    && Dense(s.trace)
    && Position(s.f) <= Peak(s.trace) <= s.high <= |s.p.log|
  }

  /** Steps that neither execute an entry nor make the follower start over. */
  predicate IsQuiet(step: Step) {
    !step.Apply? && !step.FailApply? && !step.FailPersist? && !step.Crash?
  }

  lemma QuietStep(run: Backend, s: State, step: Step, s': State)
    requires FollowerOk(s.p.log, s.f) && Next(run, s, step, s') && IsQuiet(step)
    ensures Position(s'.f) == Position(s.f) && s'.f.store == s.f.store
    ensures s'.trace == s.trace && s'.high == s.high && |s.p.log| <= |s'.p.log|
  {
  }

  lemma ResetStep(run: Backend, s: State, step: Step, s': State)
    requires Next(run, s, step, s') && (step.FailPersist? || step.Crash?)
    ensures s'.p == s.p && Position(s'.f) == s.f.durable <= Position(s.f) && s'.f.store == s.f.store
    ensures s'.trace == s.trace && s'.high == s.high
  {
  }

  lemma FailApplyStep(run: Backend, s: State, step: Step, s': State)
    requires FollowerOk(s.p.log, s.f) && Numbered(s.p.log) && step.FailApply? && Next(run, s, step, s')
    ensures s'.p == s.p && Position(s'.f) == s.f.durable <= Position(s.f) < |s.p.log|
    ensures s'.f.store == if step.executed then Attempt(run, s.f, step.t).replica.store else s.f.store
    ensures s'.high == if step.executed then Max(s.high, Position(s.f) + 1) else s.high
    ensures s'.trace == s.trace
  {
    CurrentIsNext(s.p.log, s.f);
  }

  lemma {:induction false} TraceSteps(run: Backend, s: State, step: Step, s': State)
    requires FollowerOk(s.p.log, s.f) && Numbered(s.p.log) && TraceOk(s) && Next(run, s, step, s')
    ensures TraceOk(s')
  {
    if IsQuiet(step) {
      QuietStep(run, s, step, s');
    } else if step.Apply? {
      ApplyOk(run, s, step, s');
      DenseSnoc(s.trace, Position(s.f) + 1);
      CurrentIsNext(s.p.log, s.f);
    } else if step.FailApply? {
      FailApplyStep(run, s, step, s');
    } else {
      ResetStep(run, s, step, s');
    }
  }

  // ---- acks ----

  predicate AcksOk(s: State) {
    && (forall a :: a in s.acks.sent ==> a <= s.f.durable)
    && (forall i :: 0 <= i < |s.acks.received| ==> s.acks.received[i] <= s.f.durable)
    && s.acks.recorded == Peak(s.acks.received)
    && s.acks.recorded <= s.f.durable
  }

  lemma {:induction false} AckSteps(run: Backend, s: State, step: Step, s': State)
    requires AcksOk(s) && Next(run, s, step, s')
    ensures AcksOk(s')
  {
    match step {
      case ReceiveAck(a, _) =>
        assert s'.acks.received[..|s.acks.received|] == s.acks.received;
      case _ =>
    }
  }

  // ---- the follower's store ----

  /** The commands with seqs lo + 1 .. hi. */
  function Slice(log: seq<Entry>, lo: nat, hi: nat): seq<Args>
    requires lo <= hi <= |log|
  {
    Commands(log)[lo..hi]
  }

  lemma SliceOfLonger(log: seq<Entry>, log': seq<Entry>, lo: nat, hi: nat)
    requires Longer(log, log') && lo <= hi <= |log|
    ensures Slice(log', lo, hi) == Slice(log, lo, hi)
  {
    assert forall i :: 0 <= i < |log| ==> log'[i] == log'[..|log|][i];
  }

  lemma LogGrows(run: Backend, s: State, step: Step, s': State)
    requires Next(run, s, step, s')
    ensures Longer(s.p.log, s'.p.log)
  {
  }

  /** Executing the next entry at any clock is replaying it. */
  lemma ApplyReplays(run: Backend, s: State, t: int)
    requires FollowerOk(s.p.log, s.f) && Numbered(s.p.log)
    requires s.f.work.Applying? && s.f.work.idx < |s.f.work.batch.entries|
    requires Position(s.f) < |s.p.log| ==> ClockFree(run, s.p.log[Position(s.f)].args)
    ensures Position(s.f) < |s.p.log|
    ensures Attempt(run, s.f, t).replica.store == run(s.f.store, Commands(s.p.log)[Position(s.f)], 0).store
  {
    CurrentIsNext(s.p.log, s.f);
  }

  /** A command among the first `n` of a clock-free log. */
  lemma ClockFreeAt(run: Backend, log: seq<Entry>, n: nat, i: nat)
    requires n <= |log| && i < n && AllClockFree(run, Slice(log, 0, n))
    ensures ClockFree(run, log[i].args)
  {
    assert Slice(log, 0, n)[i] == log[i].args;
  }

  /** Steps of a run without crashes and failures. */
  predicate IsSmooth(step: Step) {
    !step.FailApply? && !step.FailPersist? && !step.Crash?
  }

  /** The follower's store is the log replayed up to its position. */
  ghost predicate InStep(run: Backend, s0: Store, s: State) {
    && Position(s.f) <= |s.p.log|
    && s.f.store == Replay(run, s0, Slice(s.p.log, 0, Position(s.f)))
  }

  lemma {:induction false} SmoothSteps(run: Backend, s0: Store, s: State, step: Step, s': State)
    requires FollowerOk(s.p.log, s.f) && Numbered(s.p.log) && InStep(run, s0, s)
    requires Next(run, s, step, s') && IsSmooth(step)
    requires step.Apply? && Position(s.f) < |s.p.log| ==> ClockFree(run, s.p.log[Position(s.f)].args)
    ensures InStep(run, s0, s')
  {
    LogGrows(run, s, step, s');
    SliceOfLonger(s.p.log, s'.p.log, 0, Position(s.f));
    if step.Apply? {
      ApplyOk(run, s, step, s');
      ApplyReplays(run, s, step.t);
      var n := Position(s.f);
      assert Slice(s.p.log, 0, n + 1) == Slice(s.p.log, 0, n) + [Commands(s.p.log)[n]];
      ReplaySnoc(run, s0, Slice(s.p.log, 0, n), Commands(s.p.log)[n]);
    } else {
      QuietStep(run, s, step, s');
    }
  }

  /** Without crashes the position never falls back. */
  lemma {:induction false} SmoothPosition(run: Backend, s: State, step: Step, s': State)
    requires FollowerOk(s.p.log, s.f) && Numbered(s.p.log) && Next(run, s, step, s') && IsSmooth(step)
    ensures Longer(s.p.log, s'.p.log)
    ensures Position(s'.f) == Position(s.f) + if step.Apply? then 1 else 0
  {
    LogGrows(run, s, step, s');
    if step.Apply? {
      ApplyOk(run, s, step, s');
    } else {
      QuietStep(run, s, step, s');
    }
  }

  lemma ClockFreePrefix(run: Backend, log: seq<Entry>, log': seq<Entry>, n: nat, n': nat)
    requires Longer(log, log') && n <= |log| && n <= n' <= |log'| && AllClockFree(run, Slice(log', 0, n'))
    ensures AllClockFree(run, Slice(log, 0, n))
  {
    SliceOfLonger(log, log', 0, n);
    assert forall i :: 0 <= i < n ==> Slice(log, 0, n)[i] == Slice(log', 0, n')[i];
  }

  lemma AnnouncedClockFree(run: Backend, s0: Store, p: Primary)
    requires PrimaryOk(run, s0, p)
    ensures AllClockFree(run, Commands(p.log))
  {
    assert forall i :: 0 <= i < |p.log| ==> Commands(p.log)[i] == Announced(p)[i];
  }

  /** Replaying the rest of what was ever executed leads to the log replayed that far. */
  ghost predicate OnTheWay(run: Backend, s0: Store, log: seq<Entry>, st: Store, at: nat, high: nat) {
    && at <= high <= |log|
    && Replay(run, st, Slice(log, at, high)) == Replay(run, s0, Slice(log, 0, high))
  }

  /** Executing one more entry. */
  lemma {:induction false} OneMore(run: Backend, s0: Store, log: seq<Entry>, st: Store, at: nat, high: nat)
    requires OnTheWay(run, s0, log, st, at, high) && at < |log|
    ensures OnTheWay(run, s0, log, run(st, Commands(log)[at], 0).store, at + 1, Max(high, at + 1))
  {
    var a := Commands(log)[at];
    if at < high {
      assert Slice(log, at, high) == [a] + Slice(log, at + 1, high);
      ReplayConcat(run, st, [a], Slice(log, at + 1, high));
      ReplayOne(run, st, a);
    } else {
      assert Slice(log, at, at) == [] && Slice(log, at + 1, at + 1) == [];
      assert Slice(log, 0, at + 1) == Slice(log, 0, at) + [a];
      ReplaySnoc(run, s0, Slice(log, 0, at), a);
    }
  }

  /** Falling back to an earlier position. */
  lemma {:induction false} FallBack(run: Backend, s0: Store, log: seq<Entry>, st: Store, at: nat, high: nat, back: nat)
    requires OnTheWay(run, s0, log, st, at, high) && back <= at && Restartable(run, Slice(log, 0, high))
    ensures OnTheWay(run, s0, log, st, back, high)
  {
    var redone, rest := Slice(log, back, at), Slice(log, at, high);
    var origin := Replay(run, s0, Slice(log, 0, back));
    assert redone + rest == Slice(log, back, high);
    assert Slice(log, 0, back) + (redone + rest) == Slice(log, 0, high);
    ReplayConcat(run, s0, Slice(log, 0, back), redone + rest);
    var cmds := Slice(log, 0, high);
    assert cmds[back..high] == redone + rest && cmds[at..high] == rest;
  }

  lemma {:induction false} OnTheWayOfLonger(run: Backend, s0: Store, log: seq<Entry>, log': seq<Entry>, st: Store, at: nat, high: nat)
    requires OnTheWay(run, s0, log, st, at, high) && Longer(log, log')
    ensures OnTheWay(run, s0, log', st, at, high)
  {
    SliceOfLonger(log, log', at, high);
    SliceOfLonger(log, log', 0, high);
  }

  ghost predicate StoreOk(run: Backend, s0: Store, s: State) {
    OnTheWay(run, s0, s.p.log, s.f.store, Position(s.f), s.high)
  }

  lemma {:induction false} RedeliverySteps(run: Backend, s0: Store, s: State, step: Step, s': State)
    requires Inv(s) && StoreOk(run, s0, s) && Next(run, s, step, s')
    requires s.high <= s'.high <= |s'.p.log| && MayRedeliver(run, Slice(s'.p.log, 0, s'.high))
    ensures StoreOk(run, s0, s')
  {
    if IsQuiet(step) {
      LogGrows(run, s, step, s');
      QuietStep(run, s, step, s');
      OnTheWayOfLonger(run, s0, s.p.log, s'.p.log, s.f.store, Position(s.f), s.high);
    } else if step.Apply? {
      ApplyOk(run, s, step, s');
      ClockFreeAt(run, s.p.log, s'.high, Position(s.f));
      ApplyReplays(run, s, step.t);
      OneMore(run, s0, s.p.log, s.f.store, Position(s.f), s.high);
    } else if step.FailApply? {
      FailApplyStore(run, s0, s, step, s');
    } else {
      ResetStep(run, s, step, s');
      FallBack(run, s0, s.p.log, s.f.store, Position(s.f), s.high, s.f.durable);
    }
  }

  /** The entry was executed, and then the follower started over. */
  lemma {:induction false} ExecutedThenFailed(run: Backend, s0: Store, log: seq<Entry>, st: Store, at: nat, high: nat, back: nat)
    requires OnTheWay(run, s0, log, st, at, high) && at < |log| && back <= at
    requires Restartable(run, Slice(log, 0, Max(high, at + 1)))
    ensures OnTheWay(run, s0, log, run(st, Commands(log)[at], 0).store, back, Max(high, at + 1))
  {
    OneMore(run, s0, log, st, at, high);
    FallBack(run, s0, log, run(st, Commands(log)[at], 0).store, at + 1, Max(high, at + 1), back);
  }

  lemma {:induction false} FailApplyStore(run: Backend, s0: Store, s: State, step: Step, s': State)
    requires Inv(s) && StoreOk(run, s0, s) && step.FailApply? && Next(run, s, step, s')
    requires s'.high <= |s'.p.log| && MayRedeliver(run, Slice(s'.p.log, 0, s'.high))
    ensures StoreOk(run, s0, s')
  {
    FailApplyStep(run, s, step, s');
    if step.executed {
      ClockFreeAt(run, s.p.log, s'.high, Position(s.f));
      ApplyReplays(run, s, step.t);
      ExecutedThenFailed(run, s0, s.p.log, s.f.store, Position(s.f), s.high, s.f.durable);
    } else {
      FallBack(run, s0, s.p.log, s.f.store, Position(s.f), s.high, s.f.durable);
    }
  }

  /** These commands can be executed at any clock, and again from any earlier point. */
  ghost predicate MayRedeliver(run: Backend, cmds: seq<Args>) {
    AllClockFree(run, cmds) && Restartable(run, cmds)
  }

  lemma {:induction false} RedeliverPrefix(run: Backend, cmds: seq<Args>, n: nat)
    requires MayRedeliver(run, cmds) && n <= |cmds|
    ensures MayRedeliver(run, cmds[..n])
  {
    forall lo, at, hi, origin, st |
      0 <= lo <= at <= hi <= n && Replay(run, st, cmds[..n][at..hi]) == Replay(run, origin, cmds[..n][lo..hi])
      ensures Replay(run, st, cmds[..n][lo..hi]) == Replay(run, origin, cmds[..n][lo..hi])
    {
      assert cmds[..n][at..hi] == cmds[at..hi] && cmds[..n][lo..hi] == cmds[lo..hi];
    }
  }

  /** If what was ever executed can be redelivered, the store is always on the way. */
  ghost predicate StoreIfRestartable(run: Backend, s0: Store, s: State) {
    s.high <= |s.p.log| && MayRedeliver(run, Slice(s.p.log, 0, s.high)) ==> StoreOk(run, s0, s)
  }

  lemma {:induction false} ExecutedGrows(run: Backend, s: State, step: Step, s': State)
    requires Inv(s) && Inv(s') && Next(run, s, step, s')
    ensures s.high <= s'.high && Slice(s'.p.log, 0, s'.high)[..s.high] == Slice(s.p.log, 0, s.high)
  {
    LogGrows(run, s, step, s');
    SliceOfLonger(s.p.log, s'.p.log, 0, s.high);
    assert Slice(s'.p.log, 0, s'.high)[..s.high] == Slice(s'.p.log, 0, s.high);
  }

  lemma {:induction false} StoreIfRestartableSteps(run: Backend, s0: Store, s: State, step: Step, s': State)
    requires Inv(s) && StoreIfRestartable(run, s0, s) && Next(run, s, step, s')
    ensures StoreIfRestartable(run, s0, s')
  {
    StepInv(run, s, step, s');
    if MayRedeliver(run, Slice(s'.p.log, 0, s'.high)) {
      ExecutedGrows(run, s, step, s');
      RedeliverPrefix(run, Slice(s'.p.log, 0, s'.high), s.high);
      RedeliverySteps(run, s0, s, step, s');
    }
  }

  // ---- every run ----

  /** What holds in every run, whatever is written. */
  predicate Inv(s: State) {
    Numbered(s.p.log) && FollowerOk(s.p.log, s.f) && TraceOk(s) && AcksOk(s)
  }

  lemma {:induction false} StepInv(run: Backend, s: State, step: Step, s': State)
    requires Inv(s) && Next(run, s, step, s')
    ensures Inv(s')
  {
    FollowerSteps(run, s, step, s');
    TraceSteps(run, s, step, s');
    AckSteps(run, s, step, s');
  }

  lemma {:induction false} PrimarySteps(run: Backend, s0: Store, s: State, step: Step, s': State)
    requires PrimaryOk(run, s0, s.p) && Next(run, s, step, s')
    requires step.BeginWrite? ==> MayWrite(run, step.args, step.now, step.forwarded)
    ensures PrimaryOk(run, s0, s'.p)
  {
    match step {
      case BeginWrite(_, _, _) => BeginWriteOk(run, s0, s, step, s');
      case LogOne => LogOneOk(run, s0, s, s');
      case EndWrite => EndWriteOk(run, s0, s, s');
      case _ => assert s'.p == s.p;
    }
  }

  lemma {:induction false} RunInv(run: Backend, s0: Store, states: seq<State>, steps: seq<Step>, i: nat)
    requires IsRun(run, s0, states, steps) && i < |states|
    ensures Inv(states[i])
  {
    if i > 0 {
      RunInv(run, s0, states, steps, i - 1);
      assert StepAt(run, states, steps, i - 1);
      StepInv(run, states[i - 1], steps[i - 1], states[i]);
    }
  }

  lemma {:induction false} RestartableRun(run: Backend, s0: Store, states: seq<State>, steps: seq<Step>, i: nat)
    requires IsRun(run, s0, states, steps) && i < |states|
    ensures StoreIfRestartable(run, s0, states[i])
  {
    if i == 0 {
      InitStore(run, s0, states[0]);
    } else {
      RestartableRun(run, s0, states, steps, i - 1);
      RestartableOneMore(run, s0, states, steps, i - 1);
    }
  }

  lemma InitStore(run: Backend, s0: Store, s: State)
    requires Init(s0, s)
    ensures StoreOk(run, s0, s) && InStep(run, s0, s)
  {
    assert Slice(s.p.log, 0, 0) == [];
  }

  lemma {:induction false} RestartableOneMore(run: Backend, s0: Store, states: seq<State>, steps: seq<Step>, i: nat)
    requires IsRun(run, s0, states, steps) && i < |steps| && StoreIfRestartable(run, s0, states[i])
    ensures StoreIfRestartable(run, s0, states[i + 1])
  {
    RunInv(run, s0, states, steps, i);
    assert StepAt(run, states, steps, i);
    StoreIfRestartableSteps(run, s0, states[i], steps[i], states[i + 1]);
  }

  /** Every write of the run has a log that stands for it. */
  ghost predicate AllMayWrite(run: Backend, steps: seq<Step>) {
    forall i :: 0 <= i < |steps| && steps[i].BeginWrite? ==>
      MayWrite(run, steps[i].args, steps[i].now, steps[i].forwarded)
  }

  lemma {:induction false} PrimaryRun(run: Backend, s0: Store, states: seq<State>, steps: seq<Step>, i: nat)
    requires IsRun(run, s0, states, steps) && AllMayWrite(run, steps) && i < |states|
    ensures PrimaryOk(run, s0, states[i].p)
  {
    if i == 0 {
      assert Announced(states[0].p) == [];
    } else {
      PrimaryRun(run, s0, states, steps, i - 1);
      assert StepAt(run, states, steps, i - 1);
      PrimarySteps(run, s0, states[i - 1], steps[i - 1], states[i]);
    }
  }

  predicate AllSmooth(steps: seq<Step>) {
    forall i :: 0 <= i < |steps| ==> IsSmooth(steps[i])
  }

  lemma {:induction false} SmoothRun(run: Backend, s0: Store, states: seq<State>, steps: seq<Step>, i: nat)
    requires IsRun(run, s0, states, steps) && AllSmooth(steps) && i < |states|
    requires Position(states[i].f) <= |states[i].p.log|
    requires AllClockFree(run, Slice(states[i].p.log, 0, Position(states[i].f)))
    ensures InStep(run, s0, states[i])
  {
    if i == 0 {
      InitStore(run, s0, states[0]);
    } else {
      assert StepAt(run, states, steps, i - 1);
      RunInv(run, s0, states, steps, i - 1);
      var s, step, s' := states[i - 1], steps[i - 1], states[i];
      SmoothPosition(run, s, step, s');
      ClockFreePrefix(run, s.p.log, s'.p.log, Position(s.f), Position(s'.f));
      SmoothRun(run, s0, states, steps, i - 1);
      if step.Apply? {
        ClockFreeAt(run, s'.p.log, Position(s'.f), Position(s.f));
      }
      SmoothSteps(run, s0, s, step, s');
    }
  }

  /**
   In a run without crashes and failures, whatever is written, as long as the entries applied run the
   same at every clock: at each batch boundary the follower's store is the log replayed up to its
   watermark.
   */
  lemma {:induction false} FollowerReplaysLog(run: Backend, s0: Store, states: seq<State>, steps: seq<Step>, i: nat)
    requires IsRun(run, s0, states, steps) && AllSmooth(steps) && i < |states| && states[i].f.work == Idle
    ensures var s := states[i];
            && s.f.durable <= |s.p.log|
            && (AllClockFree(run, Slice(s.p.log, 0, s.f.durable)) ==>
                 s.f.store == Replay(run, s0, Slice(s.p.log, 0, s.f.durable)))
  {
    RunInv(run, s0, states, steps, i);
    if AllClockFree(run, Slice(states[i].p.log, 0, states[i].f.durable)) {
      SmoothRun(run, s0, states, steps, i);
    }
  }

  /**
   Convergence: if moreover each write's log stands for it, then once the follower has caught up its
   store is the primary's store, although the primary executed the original commands.
   */
  lemma {:induction false} Convergence(run: Backend, s0: Store, states: seq<State>, steps: seq<Step>, i: nat)
    requires IsRun(run, s0, states, steps) && AllSmooth(steps) && AllMayWrite(run, steps) && i < |states|
    requires states[i].f.work == Idle
    ensures var s := states[i];
            && s.f.durable <= |s.p.log|
            && s.f.store == Replay(run, s0, Slice(s.p.log, 0, s.f.durable))
            && (s.f.durable == |s.p.log| && s.p.write == None ==> s.f.store == s.p.store)
  {
    var s := states[i];
    PrimaryRun(run, s0, states, steps, i);
    AnnouncedClockFree(run, s0, s.p);
    FollowerReplaysLog(run, s0, states, steps, i);
    assert AllClockFree(run, Slice(s.p.log, 0, s.f.durable));
    assert s.p.write == None ==> Announced(s.p) == Slice(s.p.log, 0, |s.p.log|);
  }

  /**
   With any number of crashes and failures: if what was ever executed can be redelivered, the follower's
   store equals a single replay whenever the current replay has reached the highest seq ever executed.
   */
  lemma {:induction false} RestartedReplay(run: Backend, s0: Store, states: seq<State>, steps: seq<Step>, i: nat)
    requires IsRun(run, s0, states, steps) && i < |states| && Position(states[i].f) == states[i].high
    ensures var s := states[i];
            && s.high <= |s.p.log|
            && (MayRedeliver(run, Slice(s.p.log, 0, s.high)) ==>
                 s.f.store == Replay(run, s0, Slice(s.p.log, 0, s.high)))
  {
    RunInv(run, s0, states, steps, i);
    RestartableRun(run, s0, states, steps, i);
    assert Slice(states[i].p.log, states[i].high, states[i].high) == [];
  }

  /**
   Watermark safety, in every run: all entries up to the durable watermark have been applied
   successfully, the applied seqs have no gap, and first applications happen in seq order.
   */
  lemma {:induction false} WatermarkSafety(run: Backend, s0: Store, states: seq<State>, steps: seq<Step>, i: nat)
    requires IsRun(run, s0, states, steps) && i < |states|
    ensures var s := states[i];
            && s.f.durable <= |s.p.log|
            && (forall j :: 1 <= j <= s.f.durable ==> j in s.trace)
            && (forall j :: j in s.trace <==> 1 <= j <= Peak(s.trace))
            && (forall j, k :: 0 <= k < |s.trace| && 1 <= j < s.trace[k] ==> j in s.trace[..k])
  {
    RunInv(run, s0, states, steps, i);
    var s := states[i];
    forall j | 1 <= j <= Peak(s.trace)
      ensures j in s.trace
    {
      DenseHasAll(s.trace, j);
    }
    forall j, k | 0 <= k < |s.trace| && 1 <= j < s.trace[k]
      ensures j in s.trace[..k]
    {
      DenseMeansInOrder(s.trace, j, k);
    }
    DensePositive(s.trace);
  }

  lemma {:induction false} DensePositive(trace: seq<nat>)
    requires Dense(trace)
    ensures forall i :: 0 <= i < |trace| ==> 1 <= trace[i]
    decreases |trace|
  {
    if trace != [] {
      DensePositive(trace[..|trace| - 1]);
    }
  }

  /**
   Ack bound: however acks are delayed, reordered or repeated, the server records the largest one
   received, which is at most the follower's watermark; every ack stays below the next seq, so
   the lag nextSeq - ack does not wrap.
   */
  lemma {:induction false} AckBound(run: Backend, s0: Store, states: seq<State>, steps: seq<Step>, i: nat)
    requires IsRun(run, s0, states, steps) && i < |states|
    ensures var s := states[i];
            && s.acks.recorded == Peak(s.acks.received) <= s.f.durable
            && (forall a :: a in s.acks.sent || a in s.acks.received ==> a < |s.p.log| + 1)
  {
    RunInv(run, s0, states, steps, i);
  }
}
