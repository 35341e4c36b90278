/** A write on the primary: what is logged, in which order, and what is executed. */
module Dispatch {
  import opened Bytes
  import opened Store
  import opened Normalize
  import opened WalModel
  import opened WalReading
  import Wal

  /** The appends that log these commands. */
  function Appends(cmds: seq<Args>, now: int): seq<Op> {
    if cmds == [] then [] else [Op.Append(Entry(0, cmds[0], now))] + Appends(cmds[1..], now)
  }

  class Dispatcher {
    const run: Backend
    const wal: Wal.WAL
    var store: Store

    constructor (run: Backend, wal: Wal.WAL, store: Store)
      ensures this.run == run && this.wal == wal && this.store == store
    {
      this.run, this.wal, this.store := run, wal, store;
    }

    /** dispatchWrite: the normalised commands are logged, then the original one is executed. */
    method ClientWrite(args: Args, now: int) returns (reply: Reply)
      requires !Panics(args)
      modifies this, wal
      ensures wal.State() == Run(wal.codec, old(wal.State()), Appends(NormalizeExpiry(args, now), now))
      ensures store == run(old(store), args, now).store && reply == run(old(store), args, now).reply
    {
      var cmds := Normalized(args, now);
      ghost var goal := Run(wal.codec, wal.State(), Appends(cmds, now));
      var i := 0;
      assert cmds[0..] == cmds;
      while i < |cmds|
        invariant 0 <= i <= |cmds| && store == old(store)
        invariant Run(wal.codec, wal.State(), Appends(cmds[i..], now)) == goal
      {
        AppendsStep(wal.codec, wal.State(), cmds, now, i);
        var seqId := wal.Append(Entry(0, cmds[i], now));
        i := i + 1;
      }
      var o := run(store, args, now);
      store := o.store;
      return o.reply;
    }

    /** DispatchWrite: a forwarded write is logged as it came. */
    method ForwardedWrite(args: Args, now: int) returns (reply: Reply)
      modifies this, wal
      ensures wal.State() == Run(wal.codec, old(wal.State()), Appends([args], now))
      ensures store == run(old(store), args, now).store && reply == run(old(store), args, now).reply
    {
      AppendsStep(wal.codec, wal.State(), [args], now, 0);
      assert [args][0..] == [args];
      var seqId := wal.Append(Entry(0, args, now));
      var o := run(store, args, now);
      store := o.store;
      return o.reply;
    }
  }

  lemma AppendsStep(c: Codec, w: Log, cmds: seq<Args>, now: int, i: nat)
    requires i < |cmds|
    ensures Run(c, w, Appends(cmds[i..], now))
         == Run(c, AppendLog(c, w, Entry(0, cmds[i], now)), Appends(cmds[i + 1..], now))
  {
    assert cmds[i..][1..] == cmds[i + 1..];
    var op, rest := Op.Append(Entry(0, cmds[i], now)), Appends(cmds[i + 1..], now);
    assert ([op] + rest)[1..] == rest;
  }

  /** In the flat history a write adds its commands, in order, under the next seqs. */
  lemma {:induction false} AppendsAddCommands(h: seq<Entry>, cmds: seq<Args>, now: int)
    requires Numbered(h)
    ensures Numbered(Flat(h, Appends(cmds, now)))
    ensures Commands(Flat(h, Appends(cmds, now))) == Commands(h) + cmds
    decreases |cmds|
  {
    if cmds != [] {
      var h' := h + [Entry(|h| + 1, cmds[0], now)];
      var op, rest := Op.Append(Entry(0, cmds[0], now)), Appends(cmds[1..], now);
      assert ([op] + rest)[1..] == rest;
      AppendsAddCommands(h', cmds[1..], now);
      assert Commands(h') == Commands(h) + [cmds[0]];
      Assoc(Commands(h), [cmds[0]], cmds[1..]);
      assert [cmds[0]] + cmds[1..] == cmds;
    }
  }

  /**
   A write on the log as it is on disk, whatever rolls it causes: the log then stands for the old
   history followed by the commands logged, numbered on, and reads accordingly.
   */
  lemma {:induction false} WriteExtendsLog(c: Codec, w: Log, h: seq<Entry>, cmds: seq<Args>, now: int, f: nat, m: int)
    returns (h': seq<Entry>)
    requires Valid(c, w, h, []) && (w.mode.FlushSync? ==> AllSynced(w)) && m > 0
    requires AllStorable(c, Flat(h, Appends(cmds, now)))
    ensures Valid(c, Run(c, w, Appends(cmds, now)), h', [])
    ensures h <= h' && Numbered(h') && Commands(h') == Commands(h) + cmds
    ensures ReadSegments(c, Run(c, w, Appends(cmds, now)).segments, f, m, []) == Query(h', f, m)
  {
    h' := Flat(h, Appends(cmds, now));
    AppendsAddCommands(h, cmds, now);
    RunKeeps(c, w, h, Appends(cmds, now));
    ReadAgreesWithHistory(c, Run(c, w, Appends(cmds, now)), h', [], f, m);
  }
}
