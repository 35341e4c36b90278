/** The follower does get there: what was sent to it can be applied, acked, or lost and asked for again. */
module Draining {
  import opened Bytes
  import opened Store
  import opened WalModel
  import opened Follower
  import opened Replaying
  import opened Replication

  /** Steps that work off what has been sent, at this clock. */
  predicate IsDrainStep(step: Step, t: int) {
    step == Step.Apply(t) || step == Step.Persist || step == Receive
  }

  predicate AllDrain(steps: seq<Step>, t: int) {
    forall i :: 0 <= i < |steps| ==> IsDrainStep(steps[i], t)
  }

  /** The log can be applied: it runs the same at every clock, and every command answers Done. */
  ghost predicate CanReplay(run: Backend, s0: Store, log: seq<Entry>) {
    AllClockFree(run, Commands(log)) && AllAnswer(run, s0, Commands(log))
  }

  ghost predicate IsSteady(run: Backend, s0: Store, s: State) {
    Inv(s) && InStep(run, s0, s) && CanReplay(run, s0, s.p.log)
  }

  lemma PathCons(run: Backend, s: State, step: Step, states: seq<State>, steps: seq<Step>)
    requires IsPath(run, states, steps) && Next(run, s, step, states[0])
    ensures IsPath(run, [s] + states, [step] + steps)
  {
    forall i | 0 <= i < |[step] + steps|
      ensures StepAt(run, [s] + states, [step] + steps, i)
    {
      assert i > 0 ==> StepAt(run, states, steps, i - 1);
    }
  }

  lemma {:induction false} StepStaysSteady(run: Backend, s0: Store, s: State, step: Step, t: int, s': State)
    requires IsSteady(run, s0, s) && Next(run, s, step, s') && IsDrainStep(step, t)
    ensures IsSteady(run, s0, s') && s'.p == s.p && s'.acks == s.acks
  {
    StepInv(run, s, step, s');
    if step.Apply? {
      CurrentIsNext(s.p.log, s.f);
      assert ClockFree(run, Commands(s.p.log)[Position(s.f)]);
    }
    SmoothSteps(run, s0, s, step, s');
  }

  /** The entry the follower is at answers Done. */
  lemma {:induction false} NextIsDone(run: Backend, s0: Store, s: State, t: int)
    requires IsSteady(run, s0, s) && s.f.work.Applying? && s.f.work.idx < |s.f.work.batch.entries|
    ensures Current(s.f).seqId == s.f.work.want && Attempt(run, s.f, t).ok
  {
    CurrentIsNext(s.p.log, s.f);
    var p, cmds := Position(s.f), Commands(s.p.log);
    assert cmds[..p] == Slice(s.p.log, 0, p);
    assert ClockFree(run, cmds[p]);
    assert run(s.f.store, cmds[p], t) == run(s.f.store, cmds[p], 0);
  }

  /** Entries of the batch in hand that are still to be applied, and the watermark to be persisted. */
  function Todo(f: Replicated): int {
    if f.work.Applying? then |f.work.batch.entries| - f.work.idx + 1 else 0
  }

  lemma {:induction false} WorkForward(run: Backend, s0: Store, s: State, t: int) returns (step: Step, s': State)
    requires IsSteady(run, s0, s) && s.f.work.Applying?
    ensures Next(run, s, step, s') && IsDrainStep(step, t) && s'.f.conn == s.f.conn && s'.p == s.p && s'.acks == s.acks
    ensures IsSteady(run, s0, s') && 0 <= Todo(s'.f) < Todo(s.f)
  {
    var w := s.f.work;
    if w.idx < |w.batch.entries| {
      NextIsDone(run, s0, s, t);
      var e := Current(s.f);
      step := Step.Apply(t);
      s' := s.(f := s.f.(work := w.(idx := w.idx + 1, want := e.seqId + 1), store := Attempt(run, s.f, t).replica.store),
               trace := s.trace + [e.seqId], high := Max(s.high, e.seqId));
    } else {
      step := Step.Persist;
      s' := s.(f := s.f.(durable := Advance(s.f.durable, w.batch.upTo), work := Idle));
    }
    StepStaysSteady(run, s0, s, step, t, s');
  }

  /** The batch in hand is applied and the watermark persisted. */
  lemma {:induction false} FinishWork(run: Backend, s0: Store, s: State, t: int) returns (states: seq<State>, steps: seq<Step>)
    requires IsSteady(run, s0, s)
    ensures IsPath(run, states, steps) && AllDrain(steps, t) && states[0] == s
    ensures var s' := Last(states);
            IsSteady(run, s0, s') && s'.p == s.p && s'.acks == s.acks && s'.f.conn == s.f.conn && s'.f.work == Idle
    decreases Todo(s.f)
  {
    if s.f.work == Idle {
      states, steps := [s], [];
    } else {
      var step, s' := WorkForward(run, s0, s, t);
      var b, bs := FinishWork(run, s0, s', t);
      PathCons(run, s, step, b, bs);
      states, steps := [s] + b, [step] + bs;
    }
  }

  /** And so is everything on the way. */
  lemma {:induction false} Drain(run: Backend, s0: Store, s: State, t: int) returns (states: seq<State>, steps: seq<Step>)
    requires IsSteady(run, s0, s)
    ensures IsPath(run, states, steps) && AllDrain(steps, t) && states[0] == s
    ensures var s' := Last(states);
            && IsSteady(run, s0, s') && s'.p == s.p && s'.acks == s.acks && s'.f.work == Idle
            && s'.f.conn == (if s.f.conn.Open? then Open([], s.f.conn.next) else Closed)
    decreases if s.f.conn.Open? then |s.f.conn.queue| else 0
  {
    states, steps := FinishWork(run, s0, s, t);
    var s1 := Last(states);
    if s.f.conn.Open? && s.f.conn.queue != [] {
      var q := s.f.conn.queue;
      var s2 := s1.(f := s1.f.(conn := Open(q[1..], s1.f.conn.next), work := Applying(q[0], 0, s1.f.durable + 1)));
      assert Next(run, s1, Receive, s2);
      StepStaysSteady(run, s0, s1, Receive, t, s2);
      var b, bs := Drain(run, s0, s2, t);
      PathCons(run, s1, Receive, b, bs);
      PathsJoin(run, states, steps, [s1] + b, [Receive] + bs);
      assert ([s1] + b)[1..] == b;
      states, steps := states + b, steps + ([Receive] + bs);
    }
  }

  // ---- acks and lost streams ----

  /** At any time the server can be told how far the follower is, and then has that on record. */
  lemma {:induction false} AckArrives(run: Backend, s0: Store, states: seq<State>, steps: seq<Step>, i: nat)
    returns (states': seq<State>, steps': seq<Step>)
    requires IsRun(run, s0, states, steps) && i < |states|
    ensures IsPath(run, states', steps') && states'[0] == states[i]
    ensures Last(states').acks.recorded == states[i].f.durable && Last(states').f == states[i].f
  {
    RunInv(run, s0, states, steps, i);
    var s := states[i];
    var d := s.f.durable;
    var s1 := s.(acks := s.acks.(sent := s.acks.sent + {d}));
    var s2 := s1.(acks := Acks(s1.acks.sent, s1.acks.received + [d], Max(s1.acks.recorded, d)));
    states', steps' := [s, s1, s2], [SendAck, ReceiveAck(d, true)];
    assert StepAt(run, states', steps', 0) && StepAt(run, states', steps', 1);
  }

  /** At any time the stream can be lost with all that is on it; an idle follower then asks again from its watermark. */
  lemma {:induction false} LostStreamResumes(run: Backend, s: State) returns (s1: State, s2: State)
    ensures Next(run, s, Drop, s1) && s1.f.conn == Closed && s1.f.work == s.f.work && s1.f.durable == s.f.durable
    ensures s.f.work == Idle ==> Next(run, s1, Connect, s2) && s2.f.conn == Open([], s.f.durable + 1) && s2.f.store == s.f.store
  {
    s1 := s.(f := s.f.(conn := Closed));
    s2 := s1.(f := s1.f.(conn := Open([], s1.f.durable + 1)));
  }

  /** At any entry the replay can fail, before or after the entry was executed, and at any time the follower can crash: it starts over. */
  lemma {:induction false} FailuresStartOver(run: Backend, s: State, t: int) returns (s1: State, s2: State, s3: State)
    requires Inv(s) && s.f.work.Applying? && s.f.work.idx < |s.f.work.batch.entries|
    ensures Next(run, s, FailApply(t, false), s1) && s1.f == Replicated(s.f.durable, Closed, Idle, s.f.store)
    ensures Next(run, s, FailApply(t, true), s2)
    ensures s2.f == Replicated(s.f.durable, Closed, Idle, run(s.f.store, s.p.log[Position(s.f)].args, t).store)
    ensures Next(run, s, Crash, s3) && s3.f == Replicated(s.f.durable, Closed, Idle, s.f.store)
  {
    CurrentIsNext(s.p.log, s.f);
    s1 := s.(f := s.f.(conn := Closed, work := Idle));
    s2 := s.(f := s.f.(conn := Closed, work := Idle, store := Attempt(run, s.f, t).replica.store),
             high := Max(s.high, Current(s.f).seqId));
    s3 := s1;
  }

  /** Also when the watermark cannot be written, at the end of a batch. */
  lemma FailedPersistStartsOver(run: Backend, s: State) returns (s': State)
    requires s.f.work.Applying? && s.f.work.idx == |s.f.work.batch.entries|
    ensures Next(run, s, FailPersist, s') && s'.f == Replicated(s.f.durable, Closed, Idle, s.f.store)
  {
    s' := s.(f := s.f.(conn := Closed, work := Idle));
  }

  /** Any ack that was sent may arrive next, and may arrive again. */
  lemma AcksInAnyOrder(run: Backend, s: State, a: nat, kept: bool) returns (s': State)
    requires a in s.acks.sent
    ensures Next(run, s, ReceiveAck(a, kept), s') && (kept <==> a in s'.acks.sent)
    ensures s'.acks.recorded == Max(s.acks.recorded, a) && s'.acks.received == s.acks.received + [a]
  {
    s' := s.(acks := Acks(if kept then s.acks.sent else s.acks.sent - {a}, s.acks.received + [a], Max(s.acks.recorded, a)));
  }
}
