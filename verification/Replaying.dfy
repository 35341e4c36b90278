/** Replaying a log on any backend, and starting over within it. */
module Replaying {
  import opened Bytes
  import opened Store

  /** Executing logged commands in order; they are clock-free, so the clock does not matter. */
  function Replay(run: Backend, st: Store, cmds: seq<Args>): Store {
    ExecAll(run, st, cmds, 0)
  }

  lemma {:induction false} ReplayConcat(run: Backend, st: Store, a: seq<Args>, b: seq<Args>)
    ensures Replay(run, st, a + b) == Replay(run, Replay(run, st, a), b)
    decreases |a|
  {
    if a == [] {
      assert a + b == b;
    } else {
      assert (a + b)[1..] == a[1..] + b;
      ReplayConcat(run, run(st, a[0], 0).store, a[1..], b);
    }
  }

  lemma ReplayOne(run: Backend, st: Store, a: Args)
    ensures Replay(run, st, [a]) == run(st, a, 0).store
  {
    assert [a][1..] == [];
    assert Replay(run, st, [a]) == ExecAll(run, run(st, a, 0).store, [], 0);
  }

  lemma ReplaySnoc(run: Backend, st: Store, cmds: seq<Args>, a: Args)
    ensures Replay(run, st, cmds + [a]) == run(Replay(run, st, cmds), a, 0).store
  {
    ReplayConcat(run, st, cmds, [a]);
    ReplayOne(run, Replay(run, st, cmds), a);
  }

  /** Falling back within these commands and going on from there never changes the outcome. */
  ghost predicate Restartable(run: Backend, cmds: seq<Args>) {
    forall lo, at, hi, origin, st |
      0 <= lo <= at <= hi <= |cmds| && Replay(run, st, cmds[at..hi]) == Replay(run, origin, cmds[lo..hi]) ::
      Replay(run, st, cmds[lo..hi]) == Replay(run, origin, cmds[lo..hi])
  }

  /** Replayed in order from `s0`, every command answers Done. */
  ghost predicate AllAnswer(run: Backend, s0: Store, cmds: seq<Args>) {
    forall k :: 0 <= k < |cmds| ==> run(Replay(run, s0, cmds[..k]), cmds[k], 0).reply == Done
  }
}
