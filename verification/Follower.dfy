/** The follower: its watermark, and the replay of one batch. */
module Follower {
  import opened Bytes
  import opened Store
  import opened WalModel

  datatype Batch = Batch(entries: seq<Entry>, upTo: nat)

  /** A relay writes entries to its own log; a node may have no backend. */
  datatype Config = Config(relay: bool, backend: bool)

  /** `log` is the node's own flat log, `applied` its watermark. */
  datatype Replica = Replica(applied: nat, log: seq<Entry>, store: Store)

  datatype Applied = Applied(replica: Replica, seqId: nat, ok: bool)

  /**
   Dispatcher.Apply. Appending to the relay's own log overwrites the entry's seq, and the caller
   reads the overwritten one. A null or error reply is a failure, whatever the store became.
   */
  function ApplyEntry(run: Backend, cfg: Config, r: Replica, e: Entry, now: int): Applied {
    var seqId := if cfg.relay then |r.log| + 1 else e.seqId;
    var r' := if cfg.relay then r.(log := r.log + [e.(seqId := seqId)]) else r;
    if !cfg.backend then Applied(r', seqId, true)
    else
      var o := run(r.store, e.args, now);
      Applied(r'.(store := o.store), seqId, o.reply == Done)
  }

  /** The loop of applyBatch: entries below `want` are skipped, a failure stops it. */
  function ApplyEntries(run: Backend, cfg: Config, r: Replica, entries: seq<Entry>, clocks: seq<int>, want: nat): (Replica, bool)
    requires |clocks| == |entries|
    decreases |entries|
  {
    if entries == [] then (r, true)
    else if entries[0].seqId < want then ApplyEntries(run, cfg, r, entries[1..], clocks[1..], want)
    else
      var a := ApplyEntry(run, cfg, r, entries[0], clocks[0]);
      if !a.ok then (a.replica, false)
      else ApplyEntries(run, cfg, a.replica, entries[1..], clocks[1..], a.seqId + 1)
  }

  /** Watermark.Set never moves backwards. */
  function Advance(applied: nat, seqId: nat): nat {
    if seqId <= applied then applied else seqId
  }

  /** applyBatch, when the watermark file can be written. */
  function ApplyBatch(run: Backend, cfg: Config, r: Replica, batch: Batch, clocks: seq<int>): (Replica, bool)
    requires |clocks| == |batch.entries|
  {
    var res := ApplyEntries(run, cfg, r, batch.entries, clocks, r.applied + 1);
    if !res.1 then res else (res.0.(applied := Advance(res.0.applied, batch.upTo)), true)
  }

  // ---- a batch on a direct follower ----

  /** Entries with seqs lo, lo + 1, ... */
  predicate Consecutive(entries: seq<Entry>, lo: nat) {
    forall i :: 0 <= i < |entries| ==> entries[i].seqId == lo + i
  }

  ghost predicate RunsAtAnyClock(run: Backend, entries: seq<Entry>) {
    forall i :: 0 <= i < |entries| ==> ClockFree(run, entries[i].args)
  }

  const DIRECT := Config(false, true)

  /** Entries below `want` are skipped without effect, the others are executed once each, in order. */
  lemma {:induction false} EntriesReplay(run: Backend, r: Replica, entries: seq<Entry>, clocks: seq<int>, lo: nat, want: nat)
    requires |clocks| == |entries| && Consecutive(entries, lo) && RunsAtAnyClock(run, entries) && lo <= want
    ensures var res := ApplyEntries(run, DIRECT, r, entries, clocks, want);
            var skipped := Min(want - lo, |entries|);
            res.1 ==> res.0 == r.(store := ExecAll(run, r.store, Commands(entries[skipped..]), 0))
    decreases |entries|
  {
    if entries != [] {
      var skipped := Min(want - lo, |entries|);
      assert entries[0].seqId == lo;
      ConsecutiveTail(entries, lo);
      if lo < want {
        EntriesReplay(run, r, entries[1..], clocks[1..], lo + 1, want);
        assert entries[1..][skipped - 1..] == entries[skipped..];
      } else {
        var a := ApplyEntry(run, DIRECT, r, entries[0], clocks[0]);
        assert ClockFree(run, entries[0].args);
        EntriesReplay(run, a.replica, entries[1..], clocks[1..], lo + 1, lo + 1);
        assert entries[0..] == entries && entries[1..][0..] == entries[1..];
        assert Commands(entries)[1..] == Commands(entries[1..]);
      }
    }
  }

  /**
   A batch that starts at or before the next seq, applied without failure: what was applied before
   is skipped, the rest is executed once each, and the watermark ends at the batch's last seq, or
   where it was if the batch is all old.
   */
  lemma {:induction false} BatchReplays(run: Backend, r: Replica, lo: nat, entries: seq<Entry>, clocks: seq<int>)
    requires |clocks| == |entries| && entries != [] && 1 <= lo <= r.applied + 1
    requires Consecutive(entries, lo) && RunsAtAnyClock(run, entries)
    ensures var upTo := lo + |entries| - 1;
            var res := ApplyBatch(run, DIRECT, r, Batch(entries, upTo), clocks);
            var skipped := Min(r.applied + 1 - lo, |entries|);
            res.1 ==>
              && res.0.applied == Max(r.applied, upTo)
              && res.0.store == ExecAll(run, r.store, Commands(entries[skipped..]), 0)
  {
    EntriesReplay(run, r, entries, clocks, lo, r.applied + 1);
  }

  // ---- when a batch succeeds ----

  /** Executing commands in order, each at its clock. */
  function Timed(run: Backend, st: Store, cmds: seq<Args>, clocks: seq<int>): Store
    requires |clocks| == |cmds|
    decreases |cmds|
  {
    if cmds == [] then st else Timed(run, run(st, cmds[0], clocks[0]).store, cmds[1..], clocks[1..])
  }

  /** And each of them answers Done. */
  predicate AllDone(run: Backend, st: Store, cmds: seq<Args>, clocks: seq<int>)
    requires |clocks| == |cmds|
    decreases |cmds|
  {
    cmds != [] ==>
      && run(st, cmds[0], clocks[0]).reply == Done
      && AllDone(run, run(st, cmds[0], clocks[0]).store, cmds[1..], clocks[1..])
  }

  /** A node without a backend applies every batch: nothing can fail, and the watermark moves on. */
  lemma {:induction false} NoBackendSucceeds(run: Backend, cfg: Config, r: Replica, batch: Batch, clocks: seq<int>)
    requires !cfg.backend && |clocks| == |batch.entries|
    ensures var res := ApplyBatch(run, cfg, r, batch, clocks);
            res.1 && res.0.applied == Max(r.applied, batch.upTo) && res.0.store == r.store
  {
    EntriesSucceed(run, cfg, r, batch.entries, clocks, r.applied + 1);
  }

  lemma {:induction false} EntriesSucceed(run: Backend, cfg: Config, r: Replica, entries: seq<Entry>, clocks: seq<int>, want: nat)
    requires !cfg.backend && |clocks| == |entries|
    ensures var res := ApplyEntries(run, cfg, r, entries, clocks, want);
            res.1 && res.0.applied == r.applied && res.0.store == r.store
    decreases |entries|
  {
    if entries != [] {
      if entries[0].seqId < want {
        EntriesSucceed(run, cfg, r, entries[1..], clocks[1..], want);
      } else {
        var a := ApplyEntry(run, cfg, r, entries[0], clocks[0]);
        EntriesSucceed(run, cfg, a.replica, entries[1..], clocks[1..], a.seqId + 1);
      }
    }
  }

  /**
   A node with a backend applies entries lo, lo + 1, ... without failure if and only if every command
   from the wanted one on answers Done, and then its store is what these make of it. For a relay this is
   said of the entries that come next in its own log.
   */
  lemma {:induction false} SuccessExact(run: Backend, cfg: Config, r: Replica, entries: seq<Entry>, clocks: seq<int>, lo: nat, want: nat)
    requires cfg.backend && |clocks| == |entries| && Consecutive(entries, lo) && lo <= want
    requires cfg.relay ==> lo == want == |r.log| + 1
    ensures var res := ApplyEntries(run, cfg, r, entries, clocks, want);
            var k := Min(want - lo, |entries|);
            && (res.1 <==> AllDone(run, r.store, Commands(entries[k..]), clocks[k..]))
            && (res.1 ==> res.0.store == Timed(run, r.store, Commands(entries[k..]), clocks[k..]))
    decreases |entries|
  {
    if entries != [] {
      var k := Min(want - lo, |entries|);
      assert entries[0].seqId == lo;
      ConsecutiveTail(entries, lo);
      if lo < want {
        SuccessExact(run, cfg, r, entries[1..], clocks[1..], lo + 1, want);
        assert entries[1..][k - 1..] == entries[k..] && clocks[1..][k - 1..] == clocks[k..];
      } else {
        var a := ApplyEntry(run, cfg, r, entries[0], clocks[0]);
        if a.ok {
          SuccessExact(run, cfg, a.replica, entries[1..], clocks[1..], lo + 1, lo + 1);
        }
        assert entries[0..] == entries && entries[1..][0..] == entries[1..];
        assert clocks[0..] == clocks && clocks[1..][0..] == clocks[1..];
        assert Commands(entries)[1..] == Commands(entries[1..]);
      }
    }
  }

  lemma ConsecutiveTail(entries: seq<Entry>, lo: nat)
    requires Consecutive(entries, lo) && entries != []
    ensures Consecutive(entries[1..], lo + 1)
  {
    forall i | 0 <= i < |entries| - 1
      ensures entries[1..][i].seqId == lo + 1 + i
    {
      assert entries[1..][i] == entries[i + 1];
    }
  }

  /** The durable position: the file is replaced in one step, and before the field. */
  class Watermark {
    var applied: nat
    var file: nat

    ghost predicate Valid()
      reads this
    {
      file == applied
    }

    /** OpenWatermark on what the file holds; no file, or an empty one, holds 0. */
    constructor (file: nat)
      ensures Valid() && applied == file
    {
      this.file, this.applied := file, file;
    }

    /** The seq to ask for: one past what a restart would find in the file. */
    method NextSeq() returns (next: nat)
      requires Valid()
      ensures next == file + 1
    {
      next := applied + 1;
    }

    /** Set: if the file cannot be replaced, nothing changes. */
    method Set(seqId: nat, writable: bool) returns (ok: bool)
      requires Valid()
      modifies this
      ensures Valid()
      ensures ok <==> seqId <= old(applied) || writable
      ensures applied == if ok then Advance(old(applied), seqId) else old(applied)
    {
      if seqId <= applied {
        return true;
      }
      if !writable {
        return false;
      }
      file := seqId;
      applied := seqId;
      return true;
    }
  }

  class Node {
    const run: Backend
    const cfg: Config
    const wm: Watermark
    var log: seq<Entry>
    var store: Store

    ghost function State(): Replica
      reads this, wm
    {
      Replica(wm.applied, log, store)
    }

    constructor (run: Backend, cfg: Config, wm: Watermark, log: seq<Entry>, store: Store)
      ensures this.run == run && this.cfg == cfg && this.wm == wm
      ensures this.log == log && this.store == store
    {
      this.run, this.cfg, this.wm := run, cfg, wm;
      this.log, this.store := log, store;
    }

    /** Apply: returns the seq the entry carries afterwards. */
    method Apply(e: Entry, now: int) returns (ok: bool, seqId: nat)
      modifies this
      ensures var a := ApplyEntry(run, cfg, old(State()), e, now);
              State() == a.replica && ok == a.ok && seqId == a.seqId
    {
      seqId := e.seqId;
      if cfg.relay {
        seqId := |log| + 1;
        log := log + [e.(seqId := seqId)];
      }
      if !cfg.backend {
        return true, seqId;
      }
      var o := run(store, e.args, now);
      store := o.store;
      ok := o.reply == Done;
    }

    /** applyBatch: replay in order, then advance the watermark once. */
    method ApplyWholeBatch(batch: Batch, clocks: seq<int>, writable: bool) returns (ok: bool)
      requires wm.Valid() && |clocks| == |batch.entries|
      modifies this, wm
      ensures wm.Valid()
      ensures var res := ApplyEntries(run, cfg, old(State()), batch.entries, clocks, old(wm.applied) + 1);
              if !res.1 || (batch.upTo > old(wm.applied) && !writable)
              then !ok && State() == res.0
              else ok && (State(), true) == ApplyBatch(run, cfg, old(State()), batch, clocks)
    {
      var want := wm.NextSeq();
      var i := 0;
      ghost var res := ApplyEntries(run, cfg, State(), batch.entries, clocks, want);
      assert batch.entries[0..] == batch.entries && clocks[0..] == clocks;
      while i < |batch.entries|
        invariant 0 <= i <= |batch.entries| && wm.Valid() && wm.applied == old(wm.applied)
        invariant ApplyEntries(run, cfg, State(), batch.entries[i..], clocks[i..], want) == res
      {
        var e := batch.entries[i];
        assert batch.entries[i..][1..] == batch.entries[i + 1..] && clocks[i..][1..] == clocks[i + 1..];
        if e.seqId >= want {
          var seqId;
          ok, seqId := Apply(e, clocks[i]);
          if !ok {
            return false;
          }
          want := seqId + 1;
        }
        i := i + 1;
      }
      if batch.upTo > 0 {
        ok := wm.Set(batch.upTo, writable);
      } else {
        ok := true;
      }
    }
  }
}
