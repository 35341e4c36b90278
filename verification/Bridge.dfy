/**
 The machines joined: writes that append record by record to the segment files, a subscriber that
 reads those files while they grow and roll, the stream, and the follower that replays it. Every step
 is a step of the replication machine, whose log is what the files hold, or changes nothing there.
 */
module Bridge {
  import opened Bytes
  import opened Store
  import opened WalModel
  import opened Follower
  import opened Normalize
  import S = Streaming
  import R = Replication

  /** `start` is the seq the current stream was asked from. */
  datatype System = System(
    ss: S.State, start: nat, store: Store, write: Option<R.Write>,
    f: R.Replicated, acks: R.Acks, trace: seq<nat>, high: nat)

  datatype Step =
    | BeginWrite(args: Args, now: int, forwarded: bool)
    | BeginAppend
    | Wal(op: S.Step)
    | EndWrite
    | Connect
    | Send
    | Node(act: R.Step)

  predicate Init(c: Codec, s0: Store, y: System) {
    && S.Init(c, 1, y.ss) && y.ss.h == [] && y.start == 1
    && y.store == s0 && y.write == None
    && y.f == R.Replicated(0, R.Closed, R.Idle, s0)
    && y.acks == R.Acks({}, [], 0) && y.trace == [] && y.high == 0
  }

  /** A new Subscribe call: its own channel, and nothing read or sent yet. */
  function Subscribed(ss: S.State, from: nat): S.State {
    ss.(signal := false, from := from, phase := S.Ready, base := 0, sent := [])
  }

  /** Steps of the appender and the subscriber that concern the log alone. */
  predicate IsLogStep(step: S.Step) {
    !step.BeginAppend? && !step.Send?
  }

  predicate IsNodeStep(step: R.Step) {
    || step.Receive? || step.Apply? || step.Persist? || step.Drop? || step.FailApply?
    || step.FailPersist? || step.Crash? || step.SendAck? || step.ReceiveAck?
  }

  /** The write that remains when an append has completed. */
  function Appended(write: Option<R.Write>): Option<R.Write> {
    match write
    case None => None
    case Some(w) => Some(w.(pending := if w.pending == [] then [] else w.pending[1..]))
  }

  predicate Next(run: Backend, c: Codec, m: int, y: System, step: Step, y': System) {
    match step
    case BeginWrite(args, now, forwarded) =>
      && y.write == None && (!forwarded ==> !Panics(args))
      && y' == y.(write := Some(R.Write(args, now, R.Logged(args, now, forwarded))))
    // The next command of the write is appended, as bytes.
    case BeginAppend =>
      && y.write.Some? && y.write.value.pending != []
      && S.Next(c, m, y.ss, S.BeginAppend(Entry(0, y.write.value.pending[0], y.write.value.now)), y'.ss)
      && y' == y.(ss := y'.ss)
    case Wal(step) =>
      && IsLogStep(step) && S.Next(c, m, y.ss, step, y'.ss)
      && y' == y.(ss := y'.ss, write := if step.EndAppend? then Appended(y.write) else y.write)
    // Only when all of its commands are appended is the write executed.
    case EndWrite =>
      && y.write.Some? && y.write.value.pending == [] && y.ss.writing == None
      && y' == y.(store := run(y.store, y.write.value.args, y.write.value.now).store, write := None)
    case Connect =>
      && y.f.work == R.Idle && y.ss.writing == None
      && y' == y.(ss := Subscribed(y.ss, y.f.durable + 1), start := y.f.durable + 1,
                  f := y.f.(conn := R.Open([], y.f.durable + 1)))
    // What the subscriber has read from the files goes on the stream.
    case Send =>
      && y.f.conn.Open? && S.Next(c, m, y.ss, S.Send, y'.ss)
      && var batch := y.ss.phase.batch;
         y' == y.(ss := y'.ss,
                  f := y.f.(conn := R.Open(y.f.conn.queue + [Batch(batch, Last(batch).seqId)], y'.ss.from)))
    case Node(step) =>
      && IsNodeStep(step) && R.Next(run, Abstract(c, y), step, Abstract(c, y'))
      && y' == y.(f := y'.f, acks := y'.acks, trace := y'.trace, high := y'.high)
  }

  // ---- the refinement ----

  /** A command counts as logged from the moment its record is complete. */
  function Pending(c: Codec, y: System): Option<R.Write> {
    if S.FullyWritten(c, y.ss) then Appended(y.write) else y.write
  }

  /** The replication machine's state: its log is what the files hold in complete records. */
  function Abstract(c: Codec, y: System): R.State {
    R.State(R.Primary(S.Written(c, y.ss), y.store, Pending(c, y)), y.f, y.acks, y.trace, y.high)
  }

  /** The append in progress is that of the write in progress. */
  predicate WriterOk(ss: S.State, write: Option<R.Write>) {
    ss.writing.Some? ==>
      && write.Some? && write.value.pending != []
      && ss.writing.value == Entry(|ss.h| + 1, write.value.pending[0], write.value.now)
  }

  /** The server's position on the stream is the subscriber's. */
  predicate StreamOk(conn: R.Conn, from: nat) {
    conn.Open? ==> conn.next == from
  }

  predicate Inv(c: Codec, m: int, y: System) {
    S.Inv(c, m, y.start, y.ss) && WriterOk(y.ss, y.write) && StreamOk(y.f.conn, y.ss.from)
  }

  /** While a record is written the log does not change, until the record is complete. */
  lemma {:induction false} WriteSomeRefines(run: Backend, c: Codec, m: int, y: System, step: S.Step, y': System)
    returns (r: Option<R.Step>)
    requires Inv(c, m, y) && m > 0 && step.WriteSome? && Next(run, c, m, y, Wal(step), y')
    ensures Inv(c, m, y') && (r == None || r == Some(R.LogOne))
    ensures if r.None? then Abstract(c, y') == Abstract(c, y) else R.Next(run, Abstract(c, y), r.value, Abstract(c, y'))
  {
    S.StepKeeps(c, m, y.start, y.ss, step, y'.ss);
    if !S.FullyWritten(c, y.ss) && S.FullyWritten(c, y'.ss) {
      r := Some(R.LogOne);
    } else {
      r := None;
    }
  }

  lemma {:induction false} EndAppendRefines(run: Backend, c: Codec, m: int, y: System, y': System)
    requires Inv(c, m, y) && m > 0 && Next(run, c, m, y, Wal(S.EndAppend), y')
    ensures Inv(c, m, y') && Abstract(c, y') == Abstract(c, y)
  {
    S.StepKeeps(c, m, y.start, y.ss, S.EndAppend, y'.ss);
    S.EndAppendLog(c, y.ss, y'.ss);
  }

  /** Reads, ticks and wake-ups leave the log and the stream's position as they are. */
  lemma {:induction false} QuietLogRefines(run: Backend, c: Codec, m: int, y: System, step: S.Step, y': System)
    requires Inv(c, m, y) && m > 0 && Next(run, c, m, y, Wal(step), y') && !step.WriteSome? && !step.EndAppend?
    ensures Inv(c, m, y') && Abstract(c, y') == Abstract(c, y)
  {
    S.StepKeeps(c, m, y.start, y.ss, step, y'.ss);
    QuietLogStep(c, m, y.ss, step, y'.ss);
  }

  lemma QuietLogStep(c: Codec, m: int, ss: S.State, step: S.Step, ss': S.State)
    requires S.Next(c, m, ss, step, ss') && IsLogStep(step) && !step.WriteSome? && !step.EndAppend?
    ensures ss'.h == ss.h && ss'.writing == ss.writing && ss'.partial == ss.partial && ss'.from == ss.from
  {
  }

  lemma {:induction false} SendKeepsInv(run: Backend, c: Codec, m: int, y: System, y': System)
    requires Inv(c, m, y) && m > 0 && Next(run, c, m, y, Send, y')
    ensures Inv(c, m, y') && y'.ss.from == y.ss.from + |y.ss.phase.batch|
  {
    S.SendStep(c, m, y.start, y.ss, y'.ss);
  }

  /** A batch read from the files is the batch of those seqs of the log. */
  lemma {:induction false} SendRefines(run: Backend, c: Codec, m: int, y: System, y': System)
    requires Inv(c, m, y) && m > 0 && Next(run, c, m, y, Send, y')
    ensures Inv(c, m, y')
    ensures R.Next(run, Abstract(c, y), R.SendBatch(|y.ss.phase.batch|), Abstract(c, y'))
  {
    SendKeepsInv(run, c, m, y, y');
    SendStaysAbstract(run, c, m, y, y');
    ReadBatch(c, m, y);
    SendIsSendBatch(run, Abstract(c, y), Abstract(c, y'), y.ss.phase.batch);
  }

  /** What the subscriber has read and is about to send. */
  lemma {:induction false} ReadBatch(c: Codec, m: int, y: System)
    requires Inv(c, m, y) && y.ss.phase.Sending? && y.f.conn.Open?
    ensures var b, log, next := y.ss.phase.batch, S.Written(c, y.ss), y.f.conn.next;
            && b != [] && next == y.ss.from && 1 <= next && next + |b| <= |log| + 1
            && b == Seqs(log, next, next + |b|) && Last(b).seqId == next + |b| - 1
  {
    S.WrittenIsHistory(c, y.ss);
    SentBatch(c, y.ss);
  }

  /** Only the stream changes. */
  lemma {:induction false} SendStaysAbstract(run: Backend, c: Codec, m: int, y: System, y': System)
    requires Next(run, c, m, y, Send, y')
    ensures y.ss.phase.Sending? && y.ss.phase.batch != [] && y.f.conn.Open?
    ensures var b := y.ss.phase.batch;
            Abstract(c, y') == Abstract(c, y).(f := y.f.(conn := R.Open(y.f.conn.queue + [Batch(b, Last(b).seqId)], y'.ss.from)))
  {
  }

  lemma SendIsSendBatch(run: Backend, s: R.State, s': R.State, batch: seq<Entry>)
    requires s.f.conn.Open? && batch != [] && 1 <= s.f.conn.next && s.f.conn.next + |batch| <= |s.p.log| + 1
    requires batch == Seqs(s.p.log, s.f.conn.next, s.f.conn.next + |batch|)
    requires s' == s.(f := s.f.(conn := R.Open(s.f.conn.queue + [Batch(batch, s.f.conn.next + |batch| - 1)],
                                               s.f.conn.next + |batch|)))
    ensures R.Next(run, s, R.SendBatch(|batch|), s')
  {
  }

  lemma SentBatch(c: Codec, ss: S.State)
    requires ss.phase.Sending? && WalModel.History(c, S.Written(c, ss)) && IsBatch(S.Written(c, ss), ss.from, ss.phase.batch)
    ensures var b := ss.phase.batch;
            && b == Seqs(S.Written(c, ss), ss.from, ss.from + |b|)
            && Last(b).seqId == ss.from + |b| - 1
  {
    S.LastOfSeqs(c, S.Written(c, ss), ss.from, ss.from + |ss.phase.batch|);
  }

  /** Whether a step of the abstract machine answers to a step of the system. */
  predicate Answers(step: Step, r: R.Step) {
    && (r.BeginWrite? ==> step == BeginWrite(r.args, r.now, r.forwarded))
    && (!R.IsSmooth(r) || r.Apply? ==> step == Node(r))
  }

  /** The abstract states before and after a step, and the abstract step that leads from one to the other. */
  predicate Refined(run: Backend, s: R.State, r: Option<R.Step>, s': R.State) {
    match r
    case None => s' == s
    case Some(a) => R.Next(run, s, a, s')
  }

  lemma {:induction false} WalRefines(run: Backend, c: Codec, m: int, y: System, op: S.Step, y': System)
    returns (r: Option<R.Step>)
    requires Inv(c, m, y) && m > 0 && Next(run, c, m, y, Wal(op), y')
    ensures Inv(c, m, y') && (r == None || r == Some(R.LogOne))
    ensures Refined(run, Abstract(c, y), r, Abstract(c, y'))
  {
    r := None;
    if op.WriteSome? {
      r := WriteSomeRefines(run, c, m, y, op, y');
    } else if op.EndAppend? {
      EndAppendRefines(run, c, m, y, y');
    } else {
      QuietLogRefines(run, c, m, y, op, y');
    }
  }

  lemma {:induction false} StreamRefines(run: Backend, c: Codec, m: int, y: System, step: Step, y': System)
    returns (r: Option<R.Step>)
    requires Inv(c, m, y) && m > 0 && Next(run, c, m, y, step, y') && (step.Connect? || step.Send?)
    ensures Inv(c, m, y') && r.Some? && (r.value.Connect? || r.value.SendBatch?)
    ensures Refined(run, Abstract(c, y), r, Abstract(c, y'))
  {
    if step.Connect? {
      r := Some(R.Connect);
    } else {
      SendRefines(run, c, m, y, y');
      r := Some(R.SendBatch(|y.ss.phase.batch|));
    }
  }

  /** The steps of a write, and those of the follower, are steps of the machine as they are. */
  lemma {:induction false} DirectRefines(run: Backend, c: Codec, m: int, y: System, step: Step, y': System)
    returns (r: Option<R.Step>)
    requires Inv(c, m, y) && Next(run, c, m, y, step, y') && (step.BeginWrite? || step.EndWrite? || step.Node?)
    ensures Inv(c, m, y') && r.Some? && Answers(step, r.value)
    ensures Refined(run, Abstract(c, y), r, Abstract(c, y'))
  {
    if step.Node? {
      r := Some(step.act);
    } else {
      r := Some(if step.EndWrite? then R.EndWrite else R.BeginWrite(step.args, step.now, step.forwarded));
    }
  }

  lemma {:induction false} LogRefines(run: Backend, c: Codec, m: int, y: System, step: Step, y': System)
    returns (r: Option<R.Step>)
    requires Inv(c, m, y) && m > 0 && Next(run, c, m, y, step, y') && (step.BeginAppend? || step.Wal?)
    ensures Inv(c, m, y') && (r == None || r == Some(R.LogOne))
    ensures Refined(run, Abstract(c, y), r, Abstract(c, y'))
  {
    if step.Wal? {
      r := WalRefines(run, c, m, y, step.op, y');
    } else {
      var w := y.write.value;
      S.StepKeeps(c, m, y.start, y.ss, S.BeginAppend(Entry(0, w.pending[0], w.now)), y'.ss);
      r := None;
    }
  }

  /** Every step refines a step of the replication machine, or none. */
  lemma {:induction false} StepRefines(run: Backend, c: Codec, m: int, y: System, step: Step, y': System)
    returns (r: Option<R.Step>)
    requires Inv(c, m, y) && m > 0 && Next(run, c, m, y, step, y')
    ensures Inv(c, m, y')
    ensures Refined(run, Abstract(c, y), r, Abstract(c, y'))
    ensures r.Some? ==> Answers(step, r.value)
  {
    if step.BeginAppend? || step.Wal? {
      r := LogRefines(run, c, m, y, step, y');
    } else if step.Connect? || step.Send? {
      r := StreamRefines(run, c, m, y, step, y');
    } else {
      r := DirectRefines(run, c, m, y, step, y');
    }
  }

  // ---- every run ----

  predicate StepAt(run: Backend, c: Codec, m: int, ys: seq<System>, steps: seq<Step>, i: nat) {
    i < |steps| < |ys| && Next(run, c, m, ys[i], steps[i], ys[i + 1])
  }

  predicate IsPath(run: Backend, c: Codec, m: int, ys: seq<System>, steps: seq<Step>) {
    |ys| == |steps| + 1 && forall i :: 0 <= i < |steps| ==> StepAt(run, c, m, ys, steps, i)
  }

  predicate IsRun(run: Backend, c: Codec, m: int, s0: Store, ys: seq<System>, steps: seq<Step>) {
    IsPath(run, c, m, ys, steps) && m > 0 && Init(c, s0, ys[0])
  }

  /** Each step of the abstract run answers to one of the run. */
  ghost predicate Covered(steps: seq<Step>, rsteps: seq<R.Step>) {
    forall r :: r in rsteps ==> exists step :: step in steps && Answers(step, r)
  }

  /** Up to any point, a run of the system is a run of the replication machine. */
  lemma {:induction false} Refines(run: Backend, c: Codec, m: int, s0: Store, ys: seq<System>, steps: seq<Step>, i: nat)
    returns (states: seq<R.State>, rsteps: seq<R.Step>)
    requires IsRun(run, c, m, s0, ys, steps) && i < |ys|
    ensures Inv(c, m, ys[i])
    ensures R.IsRun(run, s0, states, rsteps) && Last(states) == Abstract(c, ys[i])
    ensures Covered(steps, rsteps)
    decreases i
  {
    if i == 0 {
      states, rsteps := [Abstract(c, ys[0])], [];
    } else {
      states, rsteps := Refines(run, c, m, s0, ys, steps, i - 1);
      assert StepAt(run, c, m, ys, steps, i - 1);
      var r := StepRefines(run, c, m, ys[i - 1], steps[i - 1], ys[i]);
      if r.Some? {
        states, rsteps := Extend(run, s0, states, rsteps, r.value, Abstract(c, ys[i]), steps, steps[i - 1]);
      }
    }
  }

  lemma {:induction false} Extend(run: Backend, s0: Store, states: seq<R.State>, rsteps: seq<R.Step>, r: R.Step, s: R.State, steps: seq<Step>, step: Step)
    returns (states': seq<R.State>, rsteps': seq<R.Step>)
    requires R.IsRun(run, s0, states, rsteps) && R.Next(run, Last(states), r, s)
    requires Covered(steps, rsteps) && step in steps && Answers(step, r)
    ensures R.IsRun(run, s0, states', rsteps') && Last(states') == s && Covered(steps, rsteps')
  {
    var z := Last(states);
    assert R.StepAt(run, [z, s], [r], 0);
    R.PathsJoin(run, states, rsteps, [z, s], [r]);
    states', rsteps' := states + [z, s][1..], rsteps + [r];
  }
}
