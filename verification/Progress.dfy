/**
 The subscriber does get there: with no append in progress, its own steps lead from every state of a
 run to one in which it waits and has sent everything. And an append can always be completed.
 */
module Progress {
  import opened Bytes
  import opened RecordIO
  import opened WalModel
  import opened WalReading
  import opened Streaming

  predicate IsSubscriberStep(step: Step) {
    step.StartRead? || step.SkipSegment? || step.OpenSegment? || step.ScanSegment? || step.FinishRead? || step.Send? || step.Wake?
  }

  predicate AllSubscriber(steps: seq<Step>) {
    forall i :: 0 <= i < |steps| ==> IsSubscriberStep(steps[i])
  }

  /** It waits, and there is no signal to wake it. */
  predicate IsWaiting(s: State) {
    s.phase == Waiting && !s.signal
  }

  // ---- how far there is to go ----

  function Unsent(s: State): nat {
    if s.from <= |s.h| then |s.h| + 1 - s.from else 0
  }

  function Signals(s: State): nat {
    if s.signal then 1 else 0
  }

  function Rank(s: State): nat {
    match s.phase
    case Ready => 2
    case Reading(_, _, _, _, _) => 1
    case _ => 0
  }

  /** Twice the segments still to be visited, less one for an open file. */
  function Unread(s: State): nat {
    if s.phase.Reading? && s.phase.i < s.phase.k then 2 * (s.phase.k - s.phase.i) - (if s.phase.open then 1 else 0) else 0
  }

  predicate IsCloser(s': State, s: State) {
    || Unsent(s') < Unsent(s)
    || (Unsent(s') == Unsent(s) && Signals(s') < Signals(s))
    || (Unsent(s') == Unsent(s) && Signals(s') == Signals(s) && Rank(s') < Rank(s))
    || (Unsent(s') == Unsent(s) && Signals(s') == Signals(s) && Rank(s') == Rank(s) && Unread(s') < Unread(s))
  }

  /** The subscriber's steps leave the log alone. */
  predicate SameLog(s: State, s': State) {
    s'.w == s.w && s'.h == s.h && s'.writing == s.writing && s'.partial == s.partial
  }

  // ---- one step ----

  lemma {:induction false} ReadForward(c: Codec, m: int, s: State) returns (step: Step, s': State)
    requires ReadOk(c, m, s) && s.phase.Reading? && m > 0
    ensures Next(c, m, s, step, s') && IsSubscriberStep(step) && SameLog(s, s') && IsCloser(s', s)
  {
    var p := s.phase;
    if p.open {
      step := ScanSegment;
      s' := s.(phase := Reading(p.k, p.i + 1, Scanned(c, m, s), Covered(c, s, p.i), false));
    } else if p.i == p.k || |p.out| >= m {
      step := FinishRead;
      s' := s.(phase := if p.out == [] then Waiting else Sending(p.out));
    } else if Skips(s.w.segments[p.i], s.from) {
      step := SkipSegment;
      s' := s.(phase := Reading(p.k, p.i + 1, p.out, Covered(c, s, p.i), false));
    } else {
      step := OpenSegment;
      s' := s.(phase := p.(open := true));
    }
  }

  lemma {:induction false} SendForward(c: Codec, m: int, f: nat, s: State) returns (s': State)
    requires Inv(c, m, f, s) && s.phase.Sending? && s.writing == None
    ensures Next(c, m, s, Send, s') && SameLog(s, s') && IsCloser(s', s)
  {
    var b := s.phase.batch;
    s' := s.(phase := Ready, sent := s.sent + [b], from := b[|b| - 1].seqId + 1);
    SendStep(c, m, f, s, s');
  }

  /** Unless it waits without a signal, the subscriber can move, and is closer then. */
  lemma {:induction false} MoveForward(c: Codec, m: int, f: nat, s: State) returns (step: Step, s': State)
    requires Inv(c, m, f, s) && s.writing == None && m > 0 && !IsWaiting(s)
    ensures Next(c, m, s, step, s') && IsSubscriberStep(step) && SameLog(s, s') && IsCloser(s', s) && Inv(c, m, f, s')
  {
    match s.phase {
      case Ready =>
        step, s' := StartRead, s.(phase := Reading(|s.w.segments|, 0, [], 0, false), base := |s.h|);
      case Reading(_, _, _, _, _) =>
        step, s' := ReadForward(c, m, s);
      case Sending(_) =>
        s' := SendForward(c, m, f, s);
        step := Send;
      case Waiting =>
        step, s' := Wake, s.(phase := Ready, signal := false);
    }
    StepKeeps(c, m, f, s, step, s');
  }

  // ---- to the end ----

  lemma PathCons(c: Codec, m: int, s: State, step: Step, states: seq<State>, steps: seq<Step>)
    requires IsPath(c, m, states, steps) && Next(c, m, s, step, states[0])
    ensures IsPath(c, m, [s] + states, [step] + steps)
  {
    forall i | 0 <= i < |[step] + steps|
      ensures StepAt(c, m, [s] + states, [step] + steps, i)
    {
      assert i > 0 ==> StepAt(c, m, states, steps, i - 1);
    }
  }

  lemma {:induction false} GoOn(c: Codec, m: int, f: nat, s: State) returns (states: seq<State>, steps: seq<Step>)
    requires Inv(c, m, f, s) && s.writing == None && m > 0
    ensures IsPath(c, m, states, steps) && AllSubscriber(steps) && states[0] == s
    ensures IsWaiting(Last(states)) && SameLog(s, Last(states)) && Inv(c, m, f, Last(states))
    decreases Unsent(s), Signals(s), Rank(s), Unread(s)
  {
    if IsWaiting(s) {
      states, steps := [s], [];
    } else {
      var step, s' := MoveForward(c, m, f, s);
      var b, bs := GoOn(c, m, f, s');
      PathCons(c, m, s, step, b, bs);
      states, steps := [s] + b, [step] + bs;
    }
  }

  /** What it means that the subscriber waits. */
  lemma {:induction false} WaitingHasSentAll(c: Codec, m: int, f: nat, s: State)
    requires Inv(c, m, f, s) && s.writing == None && IsWaiting(s)
    ensures |s.h| < s.from
    ensures f <= |s.h| ==> s.from == |s.h| + 1 && Flatten(s.sent) == s.h[f - 1..]
    ensures f > |s.h| ==> s.sent == [] || s.from == |s.h| + 1
  {
    assert Written(c, s) == s.h;
  }

  /**
   Progress: from every state of a run with no append in progress, steps of the subscriber alone lead to
   a state in which it waits, has sent exactly the entries from `f` on, and will be woken by the next
   append.
   */
  lemma {:induction false} SubscriberCatchesUp(c: Codec, m: int, f: nat, states: seq<State>, steps: seq<Step>, i: nat)
    returns (states': seq<State>, steps': seq<Step>)
    requires IsRun(c, m, f, states, steps) && m > 0 && i < |states| && states[i].writing == None
    ensures IsPath(c, m, states', steps') && AllSubscriber(steps') && states'[0] == states[i]
    ensures var s := Last(states');
            && s.phase == Waiting && !s.signal && s.h == states[i].h && |s.h| < s.from
            && (f <= |s.h| ==> Flatten(s.sent) == s.h[f - 1..])
  {
    RunKeepsInv(c, m, f, states, steps, i);
    states', steps' := GoOn(c, m, f, states[i]);
    WaitingHasSentAll(c, m, f, Last(states'));
  }

  // ---- appends ----

  /** An append in progress can be completed, and then the subscriber has its signal. */
  lemma {:induction false} AppendCanEnd(c: Codec, m: int, f: nat, s: State) returns (states: seq<State>, steps: seq<Step>)
    requires Inv(c, m, f, s) && s.writing.Some?
    ensures IsPath(c, m, states, steps) && states[0] == s
    ensures var s' := Last(states);
            && s'.h == s.h + [s.writing.value] && s'.writing == None && s'.signal
            && s'.phase == s.phase && s'.from == s.from && s'.sent == s.sent
  {
    var frame := Frame(c.crc, c.marshal(s.writing.value));
    var s1 := s.(partial := frame[..|frame|]);
    assert frame[..|frame|] == frame;
    var s2 := s1.(w := Finish(Write(c, s1.w, s1.writing.value)), h := s1.h + [s1.writing.value],
                  writing := None, partial := [], signal := true);
    states, steps := [s, s1, s2], [WriteSome(|frame|), EndAppend];
    assert StepAt(c, m, states, steps, 0) && StepAt(c, m, states, steps, 1);
  }

  /** While it is in progress, any part of its record may be what is in the file. */
  lemma {:induction false} EveryCutIsReachable(c: Codec, m: int, f: nat, s: State, n: nat) returns (s': State)
    requires Inv(c, m, f, s) && s.writing.Some? && s.partial == [] && n <= |Frame(c.crc, c.marshal(s.writing.value))|
    ensures Next(c, m, s, WriteSome(n), s') && Inv(c, m, f, s')
    ensures s'.partial == Frame(c.crc, c.marshal(s.writing.value))[..n] && s'.phase == s.phase && s'.h == s.h
  {
    s' := s.(partial := Frame(c.crc, c.marshal(s.writing.value))[..n]);
    AppenderSteps(c, m, f, s, WriteSome(n), s');
  }

  /** An append can always begin when none is in progress, and be completed. */
  lemma {:induction false} AppendCompletes(c: Codec, m: int, f: nat, s: State, e: Entry) returns (states: seq<State>, steps: seq<Step>)
    requires Inv(c, m, f, s) && s.writing == None && Storable(c, e.(seqId := |s.h| + 1)) && m > 0
    ensures IsPath(c, m, states, steps) && states[0] == s
    ensures var s' := Last(states);
            && s'.h == s.h + [e.(seqId := |s.h| + 1)] && s'.writing == None && s'.signal
            && s'.phase == s.phase && s'.from == s.from && s'.sent == s.sent
  {
    var s1 := s.(w := Start(s.w), writing := Some(e.(seqId := s.w.nextSeq)));
    assert Next(c, m, s, BeginAppend(e), s1);
    StepKeeps(c, m, f, s, BeginAppend(e), s1);
    states, steps := AppendCanEnd(c, m, f, s1);
    PathCons(c, m, s, BeginAppend(e), states, steps);
    states, steps := [s] + states, [BeginAppend(e)] + steps;
  }
}
