/** Relays do move: every node can be brought to the primary's whole log. */
module RelayProgress {
  import opened Bytes
  import opened Store
  import opened WalModel
  import opened Follower
  import opened Replaying
  import opened Replication
  import opened Relay

  /** A node without a backend can apply any log; one with a backend, a log whose commands answer. */
  ghost predicate CanApply(run: Backend, s0: Store, log: seq<Entry>, m: Member) {
    m.backend ==> AllClockFree(run, Commands(log)) && AllAnswer(run, s0, Commands(log))
  }

  ghost predicate IsSound(run: Backend, s0: Store, ns: Nodes) {
    AllInLockstep(ns) && RelayStoresFollow(run, s0, ns)
  }

  lemma {:induction false} MovesKeep(run: Backend, s0: Store, path: seq<Nodes>, hops: seq<Hop>, t: nat)
    requires IsMoves(run, path, hops) && IsSound(run, s0, path[0]) && t < |path|
    ensures IsSound(run, s0, path[t])
  {
    if t > 0 {
      MovesKeep(run, s0, path, hops, t - 1);
      assert HopAt(run, path, hops, t - 1);
      MoveKeeps(run, path[t - 1], hops[t - 1], path[t]);
      MoveKeepsStores(run, s0, path[t - 1], hops[t - 1], path[t]);
    }
  }

  lemma MovesJoin(run: Backend, a: seq<Nodes>, ah: seq<Hop>, b: seq<Nodes>, bh: seq<Hop>)
    requires IsMoves(run, a, ah) && IsMoves(run, b, bh) && Last(a) == b[0]
    ensures IsMoves(run, a + b[1..], ah + bh) && (a + b[1..])[0] == a[0] && Last(a + b[1..]) == Last(b)
  {
    var path, hops := a + b[1..], ah + bh;
    forall t | 0 <= t < |hops|
      ensures HopAt(run, path, hops, t)
    {
      if t < |ah| {
        assert HopAt(run, a, ah, t);
      } else {
        assert HopAt(run, b, bh, t - |ah|);
        assert path[t] == b[t - |ah|];
      }
    }
  }

  /** One hop, and then the rest. */
  lemma OneHop(run: Backend, ns: Nodes, hop: Hop, ns': Nodes, b: seq<Nodes>, bh: seq<Hop>) returns (path: seq<Nodes>, hops: seq<Hop>)
    requires Move(run, ns, hop, ns') && IsMoves(run, b, bh) && b[0] == ns'
    ensures IsMoves(run, path, hops) && path[0] == ns && Last(path) == Last(b)
  {
    assert HopAt(run, [ns, ns'], [hop], 0);
    MovesJoin(run, [ns, ns'], [hop], b, bh);
    path, hops := [ns, ns'] + b[1..], [hop] + bh;
  }

  /** The next entry of a batch does not fail. */
  lemma {:induction false} NextAnswers(run: Backend, s0: Store, log: seq<Entry>, m: Member)
    requires InLockstep(log, m) && Numbered(log) && m.work.Applying? && m.work.idx < |m.work.batch.entries|
    requires CanApply(run, s0, log, m) && (m.backend ==> StoreFollows(run, s0, m))
    ensures !Skipped(m) && Relayed(run, m, 0).ok
  {
    var k := m.mark + m.work.idx;
    assert m.work.batch.entries[m.work.idx] == log[k] && k == |m.log|;
    if m.backend {
      assert Commands(log)[k] == log[k].args;
      assert Commands(m.log) == Commands(log)[..k];
    }
  }

  /** A node finishes the batch it is at. */
  lemma {:induction false} FinishBatch(run: Backend, s0: Store, ns: Nodes, i: nat) returns (path: seq<Nodes>, hops: seq<Hop>)
    requires IsSound(run, s0, ns) && 1 <= i < |ns| && CanApply(run, s0, ns[0].log, ns[i])
    ensures IsMoves(run, path, hops) && path[0] == ns
    ensures |Last(path)| == |ns| && Last(path) == ns[i := Last(path)[i]]
    ensures var m := Last(path)[i];
            && m.work == Idle && m.backend == ns[i].backend
            && m.mark == if ns[i].work.Applying? then ns[i].work.batch.upTo else ns[i].mark
    decreases if ns[i].work.Applying? then |ns[i].work.batch.entries| - ns[i].work.idx + 1 else 0
  {
    var m, log := ns[i], ns[0].log;
    assert InLockstep(log, m);
    if m.work == Idle {
      path, hops := [ns], [];
      assert ns[i := ns[i]] == ns;
    } else if m.work.idx < |m.work.batch.entries| {
      NextAnswers(run, s0, log, m);
      var ns' := ns[i := AfterRelay(run, m, 0)];
      MoveKeeps(run, ns, Hop.Relay(i, 0), ns');
      MoveKeepsStores(run, s0, ns, Hop.Relay(i, 0), ns');
      var b, bh := FinishBatch(run, s0, ns', i);
      path, hops := OneHop(run, ns, Hop.Relay(i, 0), ns', b, bh);
      assert ns'[i := Last(b)[i]] == ns[i := Last(b)[i]];
    } else {
      var ns' := ns[i := m.(mark := Advance(m.mark, m.work.batch.upTo), work := Idle)];
      path, hops := OneHop(run, ns, Mark(i), ns', [ns'], []);
    }
  }

  /** An idle node reconnects to the primary and takes all that is missing in one batch. */
  lemma {:induction false} TakeRest(run: Backend, s0: Store, ns: Nodes, i: nat) returns (path: seq<Nodes>, hops: seq<Hop>)
    requires IsSound(run, s0, ns) && 1 <= i < |ns| && CanApply(run, s0, ns[0].log, ns[i])
    requires ns[i].work == Idle && ns[i].mark < |ns[0].log|
    ensures IsMoves(run, path, hops) && path[0] == ns && |Last(path)| == |ns| && Last(path) == ns[i := Last(path)[i]]
    ensures Last(path)[i].work == Idle && Last(path)[i].mark == |ns[0].log| && Last(path)[i].backend == ns[i].backend
  {
    var m, log, w := ns[i], ns[0].log, ns[i].mark;
    var n := |log| - w;
    var n1 := ns[i := m.(link := Up(0, [], w + 1))];
    var n2 := n1[i := Sent(n1, i, n)];
    var n3 := n2[i := Received(n2[i])];
    var hops3 := [Reconnect(i, 0), Hop.Send(i, n), Hop.Receive(i)];
    assert HopAt(run, [ns, n1, n2, n3], hops3, 0);
    assert HopAt(run, [ns, n1, n2, n3], hops3, 1);
    assert HopAt(run, [ns, n1, n2, n3], hops3, 2);
    MovesKeep(run, s0, [ns, n1, n2, n3], hops3, 3);
    assert n3[i].work.batch.upTo == |log|;
    var b, bh := FinishBatch(run, s0, n3, i);
    MovesJoin(run, [ns, n1, n2, n3], hops3, b, bh);
    path, hops := [ns, n1, n2, n3] + b[1..], hops3 + bh;
    assert n3[i := Last(b)[i]] == ns[i := Last(b)[i]];
  }

  /** One node catches up; the others stay as they are. */
  lemma {:induction false} NodeCatchesUp(run: Backend, s0: Store, ns: Nodes, i: nat) returns (path: seq<Nodes>, hops: seq<Hop>)
    requires IsSound(run, s0, ns) && 1 <= i < |ns| && CanApply(run, s0, ns[0].log, ns[i])
    ensures IsMoves(run, path, hops) && path[0] == ns && |Last(path)| == |ns| && Last(path) == ns[i := Last(path)[i]]
    ensures Last(path)[i].log == ns[0].log && Last(path)[i].mark == |ns[0].log| && Last(path)[i].backend == ns[i].backend
  {
    path, hops := FinishBatch(run, s0, ns, i);
    MovesKeep(run, s0, path, hops, |hops|);
    var ns1 := Last(path);
    assert InLockstep(ns[0].log, ns1[i]);
    if ns1[i].mark < |ns[0].log| {
      var b, bh := TakeRest(run, s0, ns1, i);
      MovesKeep(run, s0, b, bh, |bh|);
      MovesJoin(run, path, hops, b, bh);
      path, hops := path + b[1..], hops + bh;
      assert ns1[i := Last(b)[i]] == ns[i := Last(b)[i]];
    }
    assert InLockstep(ns[0].log, Last(path)[i]);
  }

  /** And so do the first `k` of them, one after the other. */
  lemma {:induction false} NodesCatchUp(run: Backend, s0: Store, ns: Nodes, k: nat) returns (path: seq<Nodes>, hops: seq<Hop>)
    requires IsSound(run, s0, ns) && 1 <= k <= |ns|
    requires forall i :: 1 <= i < |ns| ==> CanApply(run, s0, ns[0].log, ns[i])
    ensures IsMoves(run, path, hops) && path[0] == ns && |Last(path)| == |ns| && Last(path)[0] == ns[0]
    ensures forall i :: 1 <= i < k ==> Last(path)[i].log == ns[0].log && Last(path)[i].mark == |ns[0].log|
    ensures forall i :: 1 <= i < |ns| ==> Last(path)[i].backend == ns[i].backend
    decreases k
  {
    if k == 1 {
      path, hops := [ns], [];
    } else {
      path, hops := NodesCatchUp(run, s0, ns, k - 1);
      MovesKeep(run, s0, path, hops, |hops|);
      var ns1, z := Last(path), k - 1;
      assert CanApply(run, s0, ns[0].log, ns[z]);
      var b, bh := NodeCatchesUp(run, s0, ns1, z);
      MovesJoin(run, path, hops, b, bh);
      path, hops := path + b[1..], hops + bh;
    }
  }

  /**
   From every point of every run, if the nodes that have a backend can apply the primary's log, the run
   can go on so that every node has logged all of it and has its watermark at the end.
   */
  lemma {:induction false} EveryRelayCanCatchUp(run: Backend, s0: Store, history: seq<Nodes>, hops0: seq<Hop>, t: nat)
    returns (path: seq<Nodes>, hops: seq<Hop>)
    requires IsHistory(run, s0, history, hops0) && t < |history|
    requires forall i :: 1 <= i < |history[t]| ==> CanApply(run, s0, history[t][0].log, history[t][i])
    ensures IsMoves(run, path, hops) && path[0] == history[t] && |Last(path)| == |history[t]| > 0
    ensures Last(path)[0] == history[t][0]
    ensures forall i :: 1 <= i < |Last(path)| ==>
              Last(path)[i].log == history[t][0].log && Last(path)[i].mark == |history[t][0].log|
  {
    PathInLockstep(run, s0, history, hops0, t);
    path, hops := NodesCatchUp(run, s0, history[t], |history[t]|);
  }

  /** At any time a stream can be cut with all that is on it, and a node can turn to any other. */
  lemma {:induction false} LinksMayChange(run: Backend, ns: Nodes, i: nat, u: nat) returns (n1: Nodes, n2: Nodes)
    requires 1 <= i < |ns| && u < |ns|
    ensures Move(run, ns, Cut(i), n1) && |n1| == |ns| && n1[i] == ns[i].(link := Down)
    ensures ns[i].work == Idle ==> Move(run, n1, Reconnect(i, u), n2) && |n2| == |ns| && n2[i].link == Up(u, [], ns[i].mark + 1)
  {
    n1 := ns[i := ns[i].(link := Down)];
    n2 := n1[i := n1[i].(link := Up(u, [], n1[i].mark + 1))];
  }
}
