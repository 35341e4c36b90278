/**
 The whole system does get there: from every state of a run without a write in progress it can come to
 rest, and a write can always be made. Then the follower's store is the primary's.
 */
module Quiescence {
  import opened Bytes
  import opened Store
  import opened WalModel
  import opened Follower
  import opened Normalize
  import opened Replaying
  import opened Cluster
  import opened Bridge
  import opened EndToEnd
  import Dispatch
  import WalReading
  import RecordIO
  import S = Streaming
  import P = Progress
  import R = Replication
  import D = Draining

  lemma PathCons(run: Backend, c: Codec, m: int, y: System, step: Step, ys: seq<System>, steps: seq<Step>)
    requires IsPath(run, c, m, ys, steps) && Next(run, c, m, y, step, ys[0])
    ensures IsPath(run, c, m, [y] + ys, [step] + steps)
  {
    forall i | 0 <= i < |[step] + steps|
      ensures StepAt(run, c, m, [y] + ys, [step] + steps, i)
    {
      assert i > 0 ==> StepAt(run, c, m, ys, steps, i - 1);
    }
  }

  lemma PathsJoin(run: Backend, c: Codec, m: int, a: seq<System>, ah: seq<Step>, b: seq<System>, bh: seq<Step>)
    requires IsPath(run, c, m, a, ah) && IsPath(run, c, m, b, bh) && Last(a) == b[0]
    ensures IsPath(run, c, m, a + b[1..], ah + bh) && (a + b[1..])[0] == a[0] && Last(a + b[1..]) == Last(b)
  {
    var ys, steps := a + b[1..], ah + bh;
    forall i | 0 <= i < |steps|
      ensures StepAt(run, c, m, ys, steps, i)
    {
      if i < |ah| {
        assert StepAt(run, c, m, a, ah, i);
      } else {
        assert StepAt(run, c, m, b, bh, i - |ah|);
        assert ys[i] == b[i - |ah|];
      }
    }
  }

  /** Steps that write nothing and fail nowhere, the follower's at clock `t`. */
  predicate IsCalm(step: Step, t: int) {
    match step
    case Wal(op) => P.IsSubscriberStep(op)
    case Connect => true
    case Send => true
    case Node(act) => D.IsDrainStep(act, t)
    case _ => false
  }

  predicate AllCalm(steps: seq<Step>, t: int) {
    forall step :: step in steps ==> IsCalm(step, t)
  }

  /** The primary's side is as it was. */
  predicate SamePrimary(y: System, y': System) {
    P.SameLog(y.ss, y'.ss) && y'.store == y.store && y'.write == y.write
  }

  ghost predicate IsSteady(run: Backend, c: Codec, m: int, s0: Store, y: System) {
    Inv(c, m, y) && D.IsSteady(run, s0, Abstract(c, y)) && y.write == None
  }

  lemma SteadyIsIdle(run: Backend, c: Codec, m: int, s0: Store, y: System)
    requires IsSteady(run, c, m, s0, y)
    ensures y.ss.writing == None && S.Written(c, y.ss) == y.ss.h
  {
  }

  // ---- the follower's part ----

  /** The system with the follower's side of an abstract state. */
  function WithNode(y: System, s: R.State): System {
    y.(f := s.f, acks := s.acks, trace := s.trace, high := s.high)
  }

  /** Whatever can happen to the follower in the abstract machine can happen to it here. */
  lemma {:induction false} EveryNodeStep(run: Backend, c: Codec, m: int, y: System, act: R.Step, s': R.State)
    requires R.Next(run, Abstract(c, y), act, s')
    requires || act.Receive? || act.Apply? || act.Persist? || act.Drop? || act.FailApply? || act.FailPersist?
             || act.Crash? || act.SendAck? || act.ReceiveAck?
    ensures Next(run, c, m, y, Node(act), WithNode(y, s')) && Abstract(c, WithNode(y, s')) == s'
  {
    assert s'.p == Abstract(c, y).p;
  }

  /** Steps of the follower are steps of the system. */
  lemma {:induction false} LiftSteps(run: Backend, c: Codec, m: int, y: System, states: seq<R.State>, rsteps: seq<R.Step>, t: int)
    returns (ys: seq<System>, steps: seq<Step>)
    requires R.IsPath(run, states, rsteps) && D.AllDrain(rsteps, t) && states[0] == Abstract(c, y)
    ensures IsPath(run, c, m, ys, steps) && AllCalm(steps, t) && ys[0] == y && Last(ys) == WithNode(y, Last(states))
    ensures Last(states).p == Abstract(c, y).p
    decreases |rsteps|
  {
    if rsteps == [] {
      ys, steps := [y], [];
    } else {
      assert R.StepAt(run, states, rsteps, 0);
      assert D.IsDrainStep(rsteps[0], t);
      var y' := WithNode(y, states[1]);
      assert Abstract(c, y') == states[1];
      TailPath(run, states, rsteps, t);
      ys, steps := LiftSteps(run, c, m, y', states[1..], rsteps[1..], t);
      PathCons(run, c, m, y, Node(rsteps[0]), ys, steps);
      ys, steps := [y] + ys, [Node(rsteps[0])] + steps;
    }
  }

  lemma TailPath(run: Backend, states: seq<R.State>, rsteps: seq<R.Step>, t: int)
    requires R.IsPath(run, states, rsteps) && D.AllDrain(rsteps, t) && rsteps != []
    ensures R.IsPath(run, states[1..], rsteps[1..]) && D.AllDrain(rsteps[1..], t)
  {
    forall i | 0 <= i < |rsteps| - 1
      ensures R.StepAt(run, states[1..], rsteps[1..], i) && D.IsDrainStep(rsteps[1..][i], t)
    {
      assert R.StepAt(run, states, rsteps, i + 1) && D.IsDrainStep(rsteps[i + 1], t);
    }
  }

  lemma {:induction false} DrainSystem(run: Backend, c: Codec, m: int, s0: Store, y: System, t: int) returns (ys: seq<System>, steps: seq<Step>)
    requires IsSteady(run, c, m, s0, y)
    ensures IsPath(run, c, m, ys, steps) && AllCalm(steps, t) && ys[0] == y
    ensures var y' := Last(ys);
            && IsSteady(run, c, m, s0, y') && SamePrimary(y, y') && y'.ss == y.ss && y'.f.work == R.Idle
            && y'.f.conn == (if y.f.conn.Open? then R.Open([], y.f.conn.next) else R.Closed)
  {
    var states, rsteps := D.Drain(run, s0, Abstract(c, y), t);
    ys, steps := LiftSteps(run, c, m, y, states, rsteps, t);
    assert Abstract(c, Last(ys)) == Last(states);
  }

  // ---- the subscriber's part ----

  /** One step of the subscriber is a step of the system. */
  lemma {:induction false} LiftMove(run: Backend, c: Codec, m: int, s0: Store, y: System, op: S.Step, ss': S.State, t: int)
    returns (y': System, step: Step)
    requires IsSteady(run, c, m, s0, y) && m > 0 && y.f.conn.Open? && y.f.work == R.Idle
    requires S.Next(c, m, y.ss, op, ss') && P.IsSubscriberStep(op) && P.SameLog(y.ss, ss')
    ensures Next(run, c, m, y, step, y') && IsCalm(step, t) && y'.ss == ss' && SamePrimary(y, y') && y'.f.conn.Open?
    ensures IsSteady(run, c, m, s0, y') && y'.f.work == R.Idle
  {
    if op.Send? {
      var b := y.ss.phase.batch;
      y' := y.(ss := ss', f := y.f.(conn := R.Open(y.f.conn.queue + [Batch(b, Last(b).seqId)], ss'.from)));
      step := Send;
    } else {
      y' := y.(ss := ss');
      step := Wal(op);
    }
    StaysSteady(run, c, m, s0, y, step, y');
  }

  /** A step that leaves log, store and position alone. */
  lemma {:induction false} StaysSteady(run: Backend, c: Codec, m: int, s0: Store, y: System, step: Step, y': System)
    requires IsSteady(run, c, m, s0, y) && m > 0 && Next(run, c, m, y, step, y') && SamePrimary(y, y')
    requires y'.f.store == y.f.store && y'.f.durable == y.f.durable && y'.f.work == y.f.work
    ensures IsSteady(run, c, m, s0, y')
  {
    var r := StepRefines(run, c, m, y, step, y');
    if r.Some? {
      R.StepInv(run, Abstract(c, y), r.value, Abstract(c, y'));
    }
    assert S.Written(c, y'.ss) == S.Written(c, y.ss);
  }

  /** Unless it waits without a signal, the subscriber can move, and is closer then. */
  lemma {:induction false} SystemForward(run: Backend, c: Codec, m: int, s0: Store, y: System, t: int) returns (y': System, step: Step)
    requires IsSteady(run, c, m, s0, y) && m > 0 && y.f.conn.Open? && y.f.work == R.Idle && !P.IsWaiting(y.ss)
    ensures Next(run, c, m, y, step, y') && IsCalm(step, t) && SamePrimary(y, y') && P.IsCloser(y'.ss, y.ss)
    ensures IsSteady(run, c, m, s0, y') && y'.f.conn.Open? && y'.f.work == R.Idle
  {
    SteadyIsIdle(run, c, m, s0, y);
    var op, ss' := P.MoveForward(c, m, y.start, y.ss);
    y', step := LiftMove(run, c, m, s0, y, op, ss', t);
  }

  /** The subscriber sends all there is and waits. */
  lemma {:induction false} StreamAll(run: Backend, c: Codec, m: int, s0: Store, y: System, t: int) returns (ys: seq<System>, steps: seq<Step>)
    requires IsSteady(run, c, m, s0, y) && m > 0 && y.f.conn.Open? && y.f.work == R.Idle
    ensures IsPath(run, c, m, ys, steps) && AllCalm(steps, t) && ys[0] == y
    ensures var y' := Last(ys);
            IsSteady(run, c, m, s0, y') && SamePrimary(y, y') && y'.f.conn.Open? && P.IsWaiting(y'.ss)
    decreases P.Unsent(y.ss), P.Signals(y.ss), P.Rank(y.ss), P.Unread(y.ss)
  {
    if P.IsWaiting(y.ss) {
      ys, steps := [y], [];
    } else {
      var y', step := SystemForward(run, c, m, s0, y, t);
      ys, steps := StreamAll(run, c, m, s0, y', t);
      PathCons(run, c, m, y, step, ys, steps);
      ys, steps := [y] + ys, [step] + steps;
    }
  }

  // ---- to rest ----

  lemma {:induction false} Reconnect(run: Backend, c: Codec, m: int, s0: Store, y: System, t: int) returns (ys: seq<System>, steps: seq<Step>)
    requires IsSteady(run, c, m, s0, y) && m > 0 && y.f.work == R.Idle
    ensures IsPath(run, c, m, ys, steps) && AllCalm(steps, t) && ys[0] == y
    ensures IsSteady(run, c, m, s0, Last(ys)) && SamePrimary(y, Last(ys)) && Last(ys).f.conn.Open? && Last(ys).f.work == R.Idle
  {
    if y.f.conn.Open? {
      ys, steps := [y], [];
    } else {
      SteadyIsIdle(run, c, m, s0, y);
      var d := y.f.durable + 1;
      var y' := y.(ss := Subscribed(y.ss, d), start := d, f := y.f.(conn := R.Open([], d)));
      StaysSteady(run, c, m, s0, y, Connect, y');
      ys, steps := [y, y'], [Connect];
      assert StepAt(run, c, m, ys, steps, 0);
    }
  }

  /** What was sent is worked off, a lost stream is opened again, all is sent and worked off. */
  lemma {:induction false} ComeToRest(run: Backend, c: Codec, m: int, s0: Store, y: System, t: int) returns (ys: seq<System>, steps: seq<Step>)
    requires IsSteady(run, c, m, s0, y) && m > 0
    ensures IsPath(run, c, m, ys, steps) && AllCalm(steps, t) && ys[0] == y
    ensures IsQuiescent(Last(ys)) && SamePrimary(y, Last(ys))
  {
    var a, ah := DrainSystem(run, c, m, s0, y, t);
    var b, bh := Reconnect(run, c, m, s0, Last(a), t);
    PathsJoin(run, c, m, a, ah, b, bh);
    var ab, abh := a + b[1..], ah + bh;
    var d, dh := StreamAll(run, c, m, s0, Last(b), t);
    PathsJoin(run, c, m, ab, abh, d, dh);
    var abd, abdh := ab + d[1..], abh + dh;
    var e, eh := DrainSystem(run, c, m, s0, Last(d), t);
    PathsJoin(run, c, m, abd, abdh, e, eh);
    ys, steps := abd + e[1..], abdh + eh;
  }

  lemma {:induction false} RunIsSteady(run: Backend, c: Codec, m: int, s0: Store, ys: seq<System>, steps: seq<Step>, i: nat)
    requires IsRun(run, c, m, s0, ys, steps) && i < |ys| && AllSmooth(steps) && ys[i].write == None
    requires D.CanReplay(run, s0, S.Written(c, ys[i].ss))
    ensures IsSteady(run, c, m, s0, ys[i])
  {
    var states, rsteps := Refines(run, c, m, s0, ys, steps, i);
    R.RunInv(run, s0, states, rsteps, |rsteps|);
    SmoothSteps(steps, rsteps);
    var s := Last(states);
    assert forall k :: 0 <= k < R.Position(s.f) ==> R.Slice(s.p.log, 0, R.Position(s.f))[k] == Commands(s.p.log)[k];
    R.SmoothRun(run, s0, states, rsteps, |rsteps|);
  }

  lemma SmoothSteps(steps: seq<Step>, rsteps: seq<R.Step>)
    requires AllSmooth(steps) && Covered(steps, rsteps)
    ensures R.AllSmooth(rsteps)
  {
    forall i | 0 <= i < |rsteps|
      ensures R.IsSmooth(rsteps[i])
    {
      assert rsteps[i] in rsteps;
      var step :| step in steps && Answers(step, rsteps[i]);
      assert IsSmooth(step);
    }
  }

  /**
   Rest is always within reach. From every state of a run without crashes and failures in which no write
   is in progress, if the commands in the log answer, the system can go on without a write, a crash or a
   failure to a state in which there is nothing left to do, with the primary as it was.
   */
  lemma {:induction false} RestIsReachable(run: Backend, c: Codec, m: int, s0: Store, ys: seq<System>, steps: seq<Step>, i: nat, t: int)
    returns (ys': seq<System>, steps': seq<Step>)
    requires IsRun(run, c, m, s0, ys, steps) && i < |ys| && AllSmooth(steps) && ys[i].write == None
    requires D.CanReplay(run, s0, S.Written(c, ys[i].ss))
    ensures IsPath(run, c, m, ys', steps') && AllCalm(steps', t) && ys'[0] == ys[i]
    ensures IsQuiescent(Last(ys')) && SamePrimary(ys[i], Last(ys'))
  {
    RunIsSteady(run, c, m, s0, ys, steps, i);
    ys', steps' := ComeToRest(run, c, m, s0, ys[i], t);
  }

  /** And there the follower's store is the store the primary has. */
  lemma {:induction false} ConvergenceIsReachable(x: Others, c: Codec, m: int, s0: Store, ys: seq<System>, steps: seq<Step>, i: nat, t0: int)
    returns (ys': seq<System>, steps': seq<Step>)
    requires IsRun(Redis(x), c, m, s0, ys, steps) && i < |ys| && ys[i].write == None
    requires AllSmooth(steps) && 0 <= t0 && AllFaithful(steps, t0) && AllClocksFrom(steps, t0)
    requires D.CanReplay(Redis(x), s0, S.Written(c, ys[i].ss))
    ensures IsPath(Redis(x), c, m, ys', steps') && AllCalm(steps', t0) && ys'[0] == ys[i]
    ensures Last(ys').store == ys[i].store && Last(ys').f.store == ys[i].store
  {
    ys', steps' := RestIsReachable(Redis(x), c, m, s0, ys, steps, i, t0);
    var a, ah := ys[..i + 1], steps[..i];
    PrefixPath(Redis(x), c, m, ys, steps, i);
    PathsJoin(Redis(x), c, m, a, ah, ys', steps');
    var all, allh := a + ys'[1..], ah + steps';
    CalmIsSmooth(steps', t0);
    assert AllSmooth(allh) && AllFaithful(allh, t0) && AllClocksFrom(allh, t0);
    QuiescentConverged(x, c, m, s0, all, allh, |allh|, t0);
  }

  lemma PrefixPath(run: Backend, c: Codec, m: int, ys: seq<System>, steps: seq<Step>, i: nat)
    requires IsPath(run, c, m, ys, steps) && i < |ys|
    ensures IsPath(run, c, m, ys[..i + 1], steps[..i]) && Last(ys[..i + 1]) == ys[i]
  {
    var a, ah := ys[..i + 1], steps[..i];
    forall k | 0 <= k < |ah|
      ensures StepAt(run, c, m, a, ah, k)
    {
      assert StepAt(run, c, m, ys, steps, k);
    }
  }

  lemma CalmIsSmooth(steps: seq<Step>, t: int)
    requires AllCalm(steps, t)
    ensures AllSmooth(steps) && AllFaithful(steps, t) && AllClocksFrom(steps, t)
  {
    forall step | step in steps
      ensures IsSmooth(step) && ClockFrom(step, t) && !step.BeginWrite?
    {
      assert IsCalm(step, t);
    }
  }

  // ---- a write ----

  /** The entry that the next command of a write becomes. */
  function Coming(y: System): Entry
    requires y.write.Some? && y.write.value.pending != []
  {
    Entry(|y.ss.h| + 1, y.write.value.pending[0], y.write.value.now)
  }

  lemma {:induction false} BeginOne(run: Backend, c: Codec, m: int, y: System) returns (y': System)
    requires Inv(c, m, y) && m > 0 && y.ss.writing == None && y.write.Some? && y.write.value.pending != []
    requires Storable(c, Coming(y))
    ensures Next(run, c, m, y, BeginAppend, y') && Inv(c, m, y')
    ensures y'.ss.writing == Some(Coming(y)) && y'.ss.h == y.ss.h && y' == y.(ss := y'.ss)
  {
    var w := y.write.value;
    assert y.ss.w.nextSeq == |y.ss.h| + 1 && Entry(0, w.pending[0], w.now).(seqId := y.ss.w.nextSeq) == Coming(y);
    y' := y.(ss := y.ss.(w := Start(y.ss.w), writing := Some(Coming(y))));
    var r := StepRefines(run, c, m, y, BeginAppend, y');
  }

  lemma {:induction false} FillOne(run: Backend, c: Codec, m: int, y: System) returns (n: nat, y': System)
    requires Inv(c, m, y) && m > 0 && y.ss.writing.Some?
    ensures Next(run, c, m, y, Wal(S.WriteSome(n)), y') && Inv(c, m, y') && S.FullyWritten(c, y'.ss)
    ensures y'.ss.writing == y.ss.writing && y'.ss.h == y.ss.h && y' == y.(ss := y'.ss)
  {
    var frame := RecordIO.Frame(c.crc, c.marshal(y.ss.writing.value));
    n := |frame|;
    assert frame[..n] == frame;
    y' := y.(ss := y.ss.(partial := frame[..n]));
    var r := StepRefines(run, c, m, y, Wal(S.WriteSome(n)), y');
  }

  lemma {:induction false} EndOne(run: Backend, c: Codec, m: int, y: System) returns (y': System)
    requires Inv(c, m, y) && m > 0 && S.FullyWritten(c, y.ss)
    ensures Next(run, c, m, y, Wal(S.EndAppend), y') && Inv(c, m, y') && y'.ss.writing == None
    ensures y'.ss.h == y.ss.h + [y.ss.writing.value] && y' == y.(ss := y'.ss, write := Appended(y.write))
  {
    var e := y.ss.writing.value;
    y' := y.(ss := y.ss.(w := Finish(Write(c, y.ss.w, e)), h := y.ss.h + [e], writing := None, partial := [], signal := true),
             write := Appended(y.write));
    var r := StepRefines(run, c, m, y, Wal(S.EndAppend), y');
  }

  /** The next command of a write is appended: begun, written to the file, completed. */
  lemma {:induction false} AppendOne(run: Backend, c: Codec, m: int, y: System) returns (ys: seq<System>, steps: seq<Step>)
    requires Inv(c, m, y) && m > 0 && y.ss.writing == None && y.write.Some? && y.write.value.pending != []
    requires Storable(c, Coming(y))
    ensures IsPath(run, c, m, ys, steps) && ys[0] == y
    ensures var y', w := Last(ys), y.write.value;
            && Inv(c, m, y') && y'.ss.writing == None && y'.store == y.store && y'.f == y.f
            && y'.ss.h == y.ss.h + [Coming(y)] && y'.write == Some(w.(pending := w.pending[1..]))
  {
    var y1 := BeginOne(run, c, m, y);
    var n, y2 := FillOne(run, c, m, y1);
    var y3 := EndOne(run, c, m, y2);
    PathCons(run, c, m, y2, Wal(S.EndAppend), [y3], []);
    PathCons(run, c, m, y1, Wal(S.WriteSome(n)), [y2] + [y3], [Wal(S.EndAppend)] + []);
    ys, steps := [y1] + ([y2] + [y3]), [Wal(S.WriteSome(n))] + ([Wal(S.EndAppend)] + []);
    PathCons(run, c, m, y, BeginAppend, ys, steps);
    ys, steps := [y] + ys, [BeginAppend] + steps;
  }

  /** The history after the commands that are still to be appended. */
  function AfterAll(h: seq<Entry>, cmds: seq<Args>, now: int): seq<Entry> {
    WalReading.Flat(h, Dispatch.Appends(cmds, now))
  }

  lemma {:induction false} AfterAllCons(h: seq<Entry>, cmds: seq<Args>, now: int)
    requires cmds != []
    ensures AfterAll(h, cmds, now) == AfterAll(h + [Entry(|h| + 1, cmds[0], now)], cmds[1..], now)
    ensures h + [Entry(|h| + 1, cmds[0], now)] <= AfterAll(h, cmds, now)
  {
    var op, rest := WalReading.Append(Entry(0, cmds[0], now)), Dispatch.Appends(cmds[1..], now);
    assert ([op] + rest)[1..] == rest;
    WalReading.FlatExtends(h + [Entry(|h| + 1, cmds[0], now)], rest);
  }

  lemma {:induction false} AppendRest(run: Backend, c: Codec, m: int, y: System) returns (ys: seq<System>, steps: seq<Step>)
    requires Inv(c, m, y) && m > 0 && y.ss.writing == None && y.write.Some?
    requires AllStorable(c, AfterAll(y.ss.h, y.write.value.pending, y.write.value.now))
    ensures IsPath(run, c, m, ys, steps) && ys[0] == y
    ensures var y', w := Last(ys), y.write.value;
            && Inv(c, m, y') && y'.ss.writing == None && y'.store == y.store && y'.f == y.f
            && y'.ss.h == AfterAll(y.ss.h, w.pending, w.now) && y'.write == Some(w.(pending := []))
    decreases |y.write.value.pending|
  {
    var w := y.write.value;
    if w.pending == [] {
      ys, steps := [y], [];
    } else {
      AfterAllCons(y.ss.h, w.pending, w.now);
      var h' := y.ss.h + [Entry(|y.ss.h| + 1, w.pending[0], w.now)];
      assert Storable(c, AfterAll(y.ss.h, w.pending, w.now)[|y.ss.h|]);
      var a, ah := AppendOne(run, c, m, y);
      var b, bh := AppendRest(run, c, m, Last(a));
      PathsJoin(run, c, m, a, ah, b, bh);
      ys, steps := a + b[1..], ah + bh;
    }
  }

  /**
   A write can always be made when none is in progress: its commands reach the files record by record,
   and then it is executed. The follower is not touched.
   */
  lemma {:induction false} WriteCompletes(run: Backend, c: Codec, m: int, y: System, args: Args, now: int, forwarded: bool)
    returns (ys: seq<System>, steps: seq<Step>)
    requires Inv(c, m, y) && m > 0 && y.write == None && (!forwarded ==> !Panics(args))
    requires AllStorable(c, AfterAll(y.ss.h, R.Logged(args, now, forwarded), now))
    ensures IsPath(run, c, m, ys, steps) && ys[0] == y
    ensures var y' := Last(ys);
            && y'.write == None && y'.ss.h == AfterAll(y.ss.h, R.Logged(args, now, forwarded), now)
            && y'.store == run(y.store, args, now).store && y'.f == y.f
  {
    var w := R.Write(args, now, R.Logged(args, now, forwarded));
    var y1 := y.(write := Some(w));
    assert Next(run, c, m, y, BeginWrite(args, now, forwarded), y1);
    var b, bh := AppendRest(run, c, m, y1);
    var y2 := Last(b);
    var y3 := y2.(store := run(y2.store, args, now).store, write := None);
    assert StepAt(run, c, m, [y2, y3], [EndWrite], 0);
    PathsJoin(run, c, m, b, bh, [y2, y3], [EndWrite]);
    var d, dh := b + [y2, y3][1..], bh + [EndWrite];
    PathCons(run, c, m, y, BeginWrite(args, now, forwarded), d, dh);
    ys, steps := [y] + d, [BeginWrite(args, now, forwarded)] + dh;
  }
}
