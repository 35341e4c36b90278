/** Relay chains: every relay's log repeats the primary's, number by number, and its store follows. */
module Relay {
  import opened Bytes
  import opened Store
  import opened WalModel
  import opened Follower
  import opened Replication
  import opened Replaying

  /** A stream from node `up`: batches on the way, and the next seq that will be sent on it. */
  datatype Link = Down | Up(up: nat, queue: seq<Batch>, next: nat)

  /** A relay logs what it receives; it may have a backend to execute it on as well, or none. */
  datatype Member = Member(backend: bool, log: seq<Entry>, mark: nat, link: Link, work: Work, store: Store)

  /** Node 0 is the primary; any other node may subscribe to any node at each reconnect. */
  type Nodes = seq<Member>

  datatype Hop =
    | Append(e: Entry)
    | Reconnect(i: nat, u: nat)
    | Send(i: nat, n: nat)
    | Receive(i: nat)
    | Relay(i: nat, t: int)
    | Mark(i: nat)
    | Cut(i: nat)

  predicate Start(s0: Store, ns: Nodes) {
    ns != [] && forall i :: 0 <= i < |ns| ==> ns[i] == Member(ns[i].backend, [], 0, Down, Idle, s0)
  }

  /** One entry of a batch, through the same code as any follower. */
  function Relayed(run: Backend, m: Member, t: int): Applied
    requires m.work.Applying? && m.work.idx < |m.work.batch.entries|
  {
    ApplyEntry(run, Config(true, m.backend), Replica(m.mark, m.log, m.store), m.work.batch.entries[m.work.idx], t)
  }

  /** The upstream sends the next `n` entries of its own log. */
  function Sent(ns: Nodes, i: nat, n: nat): Member
    requires i < |ns| && ns[i].link.Up? && ns[i].link.up < |ns|
    requires 1 <= ns[i].link.next && ns[i].link.next + n <= |ns[ns[i].link.up].log| + 1
  {
    var l := ns[i].link;
    var b := Batch(Seqs(ns[l.up].log, l.next, l.next + n), l.next + n - 1);
    ns[i].(link := Up(l.up, l.queue + [b], l.next + n))
  }

  function Received(m: Member): Member
    requires m.link.Up? && m.link.queue != []
  {
    m.(link := Up(m.link.up, m.link.queue[1..], m.link.next), work := Applying(m.link.queue[0], 0, m.mark + 1))
  }

  predicate Skipped(m: Member)
    requires m.work.Applying? && m.work.idx < |m.work.batch.entries|
  {
    m.work.batch.entries[m.work.idx].seqId < m.work.want
  }

  function AfterRelay(run: Backend, m: Member, t: int): Member
    requires m.work.Applying? && m.work.idx < |m.work.batch.entries|
  {
    if Skipped(m) then m.(work := m.work.(idx := m.work.idx + 1))
    else
      var a := Relayed(run, m, t);
      m.(log := a.replica.log, store := a.replica.store,
         work := m.work.(idx := m.work.idx + 1, want := a.seqId + 1))
  }

  /** One step of one node, without crashes and errors. */
  predicate Move(run: Backend, ns: Nodes, hop: Hop, ns': Nodes) {
    match hop
    case Append(e) =>
      && ns != []
      && ns' == ns[0 := ns[0].(log := ns[0].log + [e.(seqId := |ns[0].log| + 1)])]
    case Reconnect(i, u) =>
      && 1 <= i < |ns| && u < |ns| && ns[i].work == Idle
      && ns' == ns[i := ns[i].(link := Up(u, [], ns[i].mark + 1))]
    case Send(i, n) =>
      && 1 <= i < |ns| && ns[i].link.Up? && ns[i].link.up < |ns| && n >= 1
      && 1 <= ns[i].link.next && ns[i].link.next + n <= |ns[ns[i].link.up].log| + 1
      && ns' == ns[i := Sent(ns, i, n)]
    case Receive(i) =>
      && 1 <= i < |ns| && ns[i].link.Up? && ns[i].link.queue != [] && ns[i].work == Idle
      && ns' == ns[i := Received(ns[i])]
    case Relay(i, t) =>
      && 1 <= i < |ns| && ns[i].work.Applying? && ns[i].work.idx < |ns[i].work.batch.entries|
      && (Skipped(ns[i]) || Relayed(run, ns[i], t).ok)
      && ns' == ns[i := AfterRelay(run, ns[i], t)]
    case Mark(i) =>
      && 1 <= i < |ns| && ns[i].work.Applying? && ns[i].work.idx == |ns[i].work.batch.entries|
      && ns' == ns[i := ns[i].(mark := Advance(ns[i].mark, ns[i].work.batch.upTo), work := Idle)]
    case Cut(i) =>
      1 <= i < |ns| && ns' == ns[i := ns[i].(link := Down)]
  }

  // ---- the invariant ----

  /** The seq at which the next batch to be received starts. */
  function Expected(m: Member): nat {
    (if m.work.Applying? then m.work.batch.upTo else m.mark) + 1
  }

  /** A relay in lockstep with the primary's log `log`. */
  predicate InLockstep(log: seq<Entry>, m: Member) {
    && Longer(m.log, log)
    && (m.link.Up? ==> Chain(log, Expected(m), m.link.queue, m.link.next))
    && match m.work
       case Idle => |m.log| == m.mark
       case Applying(b, idx, want) =>
         && |m.log| == m.mark + idx && idx <= |b.entries| && want == m.mark + idx + 1
         && IsBatch(log, m.mark + 1, b.entries) && b.upTo == m.mark + |b.entries|
  }

  predicate AllInLockstep(ns: Nodes) {
    && ns != [] && Numbered(ns[0].log)
    && forall i :: 1 <= i < |ns| ==> InLockstep(ns[0].log, ns[i])
  }

  lemma LongerTransitive(a: seq<Entry>, b: seq<Entry>, c: seq<Entry>)
    requires Longer(a, b) && Longer(b, c)
    ensures Longer(a, c)
  {
    assert c[..|a|] == c[..|b|][..|a|];
  }

  lemma LockstepOfLonger(log: seq<Entry>, log': seq<Entry>, m: Member)
    requires InLockstep(log, m) && Longer(log, log')
    ensures InLockstep(log', m)
  {
    LongerTransitive(m.log, log, log');
    if m.link.Up? {
      ChainOfLonger(log, log', Expected(m), m.link.queue, m.link.next);
    }
    if m.work.Applying? {
      SeqsOfLonger(log, log', m.mark + 1, m.mark + 1 + |m.work.batch.entries|);
    }
  }

  /** A relay that applies the next entry gives it the number it already has. */
  lemma {:induction false} RelayKeepsNumber(run: Backend, log: seq<Entry>, m: Member, t: int)
    requires InLockstep(log, m) && Numbered(log) && m.work.Applying? && m.work.idx < |m.work.batch.entries|
    ensures InLockstep(log, AfterRelay(run, m, t))
    ensures |m.log| < |log| && AfterRelay(run, m, t).log == m.log + [log[|m.log|]]
    ensures AfterRelay(run, m, t).store == if m.backend then run(m.store, log[|m.log|].args, t).store else m.store
  {
    var k := m.mark + m.work.idx;
    var e := m.work.batch.entries[m.work.idx];
    assert e == log[k] && e.seqId == k + 1;
    assert log[..k + 1] == log[..k] + [log[k]];
  }

  /** What an upstream in lockstep sends is what the primary would send. */
  lemma {:induction false} SendKeeps(ns: Nodes, i: nat, n: nat)
    requires AllInLockstep(ns) && 1 <= i < |ns| && ns[i].link.Up? && ns[i].link.up < |ns| && n >= 1
    requires 1 <= ns[i].link.next && ns[i].link.next + n <= |ns[ns[i].link.up].log| + 1
    ensures InLockstep(ns[0].log, Sent(ns, i, n))
  {
    var l, log := ns[i].link, ns[0].log;
    NodeIsPrefix(ns, l.up);
    SeqsOfLonger(ns[l.up].log, log, l.next, l.next + n);
    assert InLockstep(log, ns[i]);
    QueuedKeeps(log, ns[i], Batch(Seqs(log, l.next, l.next + n), l.next + n - 1));
  }

  lemma NodeIsPrefix(ns: Nodes, u: nat)
    requires AllInLockstep(ns) && u < |ns|
    ensures Longer(ns[u].log, ns[0].log)
  {
    if u > 0 {
      assert InLockstep(ns[0].log, ns[u]);
    }
  }

  lemma {:induction false} QueuedKeeps(log: seq<Entry>, m: Member, b: Batch)
    requires InLockstep(log, m) && m.link.Up?
    requires IsBatch(log, m.link.next, b.entries) && b.upTo == m.link.next + |b.entries| - 1
    ensures InLockstep(log, m.(link := Up(m.link.up, m.link.queue + [b], b.upTo + 1)))
  {
    ChainSnoc(log, Expected(m), m.link.queue, m.link.next, b);
  }

  lemma {:induction false} ReceiveKeeps(log: seq<Entry>, m: Member)
    requires InLockstep(log, m) && m.link.Up? && m.link.queue != [] && m.work == Idle
    ensures InLockstep(log, Received(m))
  {
    ChainHead(log, m.mark + 1, m.link.queue, m.link.next);
  }

  lemma {:induction false} AppendKeepsLockstep(ns: Nodes, e: Entry, i: nat)
    requires AllInLockstep(ns) && 1 <= i < |ns|
    ensures InLockstep(ns[0].log + [e], ns[i])
  {
    assert Longer(ns[0].log, ns[0].log + [e]);
    LockstepOfLonger(ns[0].log, ns[0].log + [e], ns[i]);
  }

  /** Only node `i` has changed, and it is not the primary. */
  lemma OneChanges(ns: Nodes, i: nat, m: Member)
    requires AllInLockstep(ns) && 1 <= i < |ns| && InLockstep(ns[0].log, m)
    ensures AllInLockstep(ns[i := m])
  {
  }

  lemma {:induction false} MoveKeeps(run: Backend, ns: Nodes, hop: Hop, ns': Nodes)
    requires AllInLockstep(ns) && Move(run, ns, hop, ns')
    ensures AllInLockstep(ns')
  {
    var log := ns[0].log;
    match hop {
      case Append(e) =>
        forall i | 1 <= i < |ns'|
          ensures InLockstep(ns'[0].log, ns'[i])
        {
          AppendKeepsLockstep(ns, e.(seqId := |log| + 1), i);
        }
      case Reconnect(i, u) =>
        assert InLockstep(log, ns[i]);
        OneChanges(ns, i, ns[i].(link := Up(u, [], ns[i].mark + 1)));
      case Send(i, n) =>
        SendKeeps(ns, i, n);
        OneChanges(ns, i, Sent(ns, i, n));
      case Receive(i) =>
        ReceiveKeeps(log, ns[i]);
        OneChanges(ns, i, Received(ns[i]));
      case Relay(i, t) =>
        RelayKeepsNumber(run, log, ns[i], t);
        OneChanges(ns, i, AfterRelay(run, ns[i], t));
      case Mark(i) =>
        OneChanges(ns, i, ns[i].(mark := Advance(ns[i].mark, ns[i].work.batch.upTo), work := Idle));
      case Cut(i) =>
        assert InLockstep(log, ns[i]);
        OneChanges(ns, i, ns[i].(link := Down));
    }
  }

  // ---- the stores ----

  /** A node with a backend holds its own log replayed. */
  ghost predicate StoreFollows(run: Backend, s0: Store, m: Member) {
    m.backend ==> m.store == Replay(run, s0, Commands(m.log))
  }

  /** If what is logged runs the same at every clock, this is so at every node. */
  ghost predicate RelayStoresFollow(run: Backend, s0: Store, ns: Nodes) {
    ns != [] && AllClockFree(run, Commands(ns[0].log)) ==>
      forall i :: 1 <= i < |ns| ==> StoreFollows(run, s0, ns[i])
  }

  lemma {:induction false} RelayStoreFollows(run: Backend, s0: Store, log: seq<Entry>, m: Member, t: int)
    requires InLockstep(log, m) && Numbered(log) && m.work.Applying? && m.work.idx < |m.work.batch.entries|
    requires StoreFollows(run, s0, m) && AllClockFree(run, Commands(log))
    ensures StoreFollows(run, s0, AfterRelay(run, m, t))
  {
    RelayKeepsNumber(run, log, m, t);
    var args := log[|m.log|].args;
    assert ClockFree(run, Commands(log)[|m.log|]);
    assert Commands(m.log + [log[|m.log|]]) == Commands(m.log) + [args];
    ReplaySnoc(run, s0, Commands(m.log), args);
  }

  lemma {:induction false} MoveKeepsStores(run: Backend, s0: Store, ns: Nodes, hop: Hop, ns': Nodes)
    requires AllInLockstep(ns) && RelayStoresFollow(run, s0, ns) && Move(run, ns, hop, ns')
    ensures RelayStoresFollow(run, s0, ns')
  {
    if AllClockFree(run, Commands(ns'[0].log)) {
      match hop {
        case Append(e) =>
          assert Commands(ns'[0].log) == Commands(ns[0].log) + [e.args];
          assert forall i :: 0 <= i < |ns[0].log| ==> Commands(ns[0].log)[i] == Commands(ns'[0].log)[i];
        case Relay(i, t) => RelayStoreFollows(run, s0, ns[0].log, ns[i], t);
        case _ => assert ns'[0].log == ns[0].log;
      }
    }
  }

  predicate HopAt(run: Backend, path: seq<Nodes>, hops: seq<Hop>, t: nat) {
    t < |hops| < |path| && Move(run, path[t], hops[t], path[t + 1])
  }

  predicate IsMoves(run: Backend, path: seq<Nodes>, hops: seq<Hop>) {
    |path| == |hops| + 1 && forall t :: 0 <= t < |hops| ==> HopAt(run, path, hops, t)
  }

  predicate IsHistory(run: Backend, s0: Store, path: seq<Nodes>, hops: seq<Hop>) {
    IsMoves(run, path, hops) && Start(s0, path[0])
  }

  lemma {:induction false} PathInLockstep(run: Backend, s0: Store, path: seq<Nodes>, hops: seq<Hop>, t: nat)
    requires IsHistory(run, s0, path, hops) && t < |path|
    ensures AllInLockstep(path[t]) && RelayStoresFollow(run, s0, path[t])
  {
    if t > 0 {
      PathInLockstep(run, s0, path, hops, t - 1);
      assert HopAt(run, path, hops, t - 1);
      MoveKeeps(run, path[t - 1], hops[t - 1], path[t]);
      MoveKeepsStores(run, s0, path[t - 1], hops[t - 1], path[t]);
    } else {
      StartInLockstep(run, s0, path[0]);
    }
  }

  lemma StartInLockstep(run: Backend, s0: Store, ns: Nodes)
    requires Start(s0, ns)
    ensures AllInLockstep(ns) && RelayStoresFollow(run, s0, ns)
  {
    forall i | 1 <= i < |ns|
      ensures InLockstep(ns[0].log, ns[i]) && StoreFollows(run, s0, ns[i])
    {
      assert ns[i] == Member(ns[i].backend, [], 0, Down, Idle, s0);
      assert Commands(ns[i].log) == [];
    }
  }

  /**
   Relay chains of any depth and shape, from empty logs, without crashes, errors or local writes:
   every relay's log is a prefix of the primary's, seqs included, and at batch boundaries its next
   seq is its watermark plus one, whichever upstreams it has used. If what is logged runs the same at
   every clock, the store of a relay with a backend is that prefix replayed.
   */
  lemma {:induction false} RelaysRepeatThePrimary(run: Backend, s0: Store, path: seq<Nodes>, hops: seq<Hop>, t: nat, i: nat)
    requires IsHistory(run, s0, path, hops) && t < |path| && 1 <= i < |path[t]|
    ensures path[t][i].log <= path[t][0].log
    ensures Numbered(path[t][i].log)
    ensures path[t][i].work == Idle ==> |path[t][i].log| + 1 == path[t][i].mark + 1
    ensures path[t][i].backend && AllClockFree(run, Commands(path[t][0].log)) ==>
              path[t][i].store == Replay(run, s0, Slice(path[t][0].log, 0, |path[t][i].log|))
  {
    PathInLockstep(run, s0, path, hops, t);
    var m, log := path[t][i], path[t][0].log;
    assert InLockstep(log, m);
    assert forall k :: 0 <= k < |m.log| ==> m.log[k] == log[..|m.log|][k];
    assert AllClockFree(run, Commands(log)) ==> StoreFollows(run, s0, m);
    assert Slice(log, 0, |m.log|) == Commands(m.log);
  }

  // ---- out of lockstep ----

  /** The entries from `w` on, renumbered to follow seq `r`. */
  function Renumbered(log: seq<Entry>, w: nat, n: nat, r: nat): (es: seq<Entry>)
    requires w + n <= |log|
    ensures |es| == n
  {
    seq(n, i requires 0 <= i < n => log[w + i].(seqId := r + i + 1))
  }

  lemma RenumberedCons(log: seq<Entry>, w: nat, n: nat, k: nat, before: seq<Entry>)
    requires 0 < n && w + n <= |log|
    ensures before + [log[w].(seqId := k + 1)] + Renumbered(log, w + 1, n - 1, k + 1) == before + Renumbered(log, w, n, k)
  {
    assert Renumbered(log, w, n, k) == [log[w].(seqId := k + 1)] + Renumbered(log, w + 1, n - 1, k + 1);
    Assoc(before, [log[w].(seqId := k + 1)], Renumbered(log, w + 1, n - 1, k + 1));
  }

  /** A relay whose log is at or behind its watermark logs all of the batch, renumbered. */
  lemma {:induction false} BehindBatch(run: Backend, cfg: Config, log: seq<Entry>, r: Replica, w: nat, n: nat, clocks: seq<int>)
    requires cfg.relay && Numbered(log) && |r.log| <= w && w + n <= |log| && |clocks| == n
    ensures var res := ApplyEntries(run, cfg, r, log[w..w + n], clocks, |r.log| + 1);
            res.1 ==> res.0.log == r.log + Renumbered(log, w, n, |r.log|)
    decreases n
  {
    var entries := log[w..w + n];
    if n == 0 {
      assert r.log + Renumbered(log, w, n, |r.log|) == r.log;
    } else {
      var a := ApplyEntry(run, cfg, r, entries[0], clocks[0]);
      var k := |r.log|;
      if a.ok {
        assert entries[1..] == log[w + 1..w + n];
        BehindBatch(run, cfg, log, a.replica, w + 1, n - 1, clocks[1..]);
        RenumberedCons(log, w, n, k, r.log);
      }
    }
  }

  /** Entries below the one wanted are skipped. */
  lemma {:induction false} SkipsOld(run: Backend, cfg: Config, log: seq<Entry>, r: Replica, w: nat, n: nat, clocks: seq<int>, want: nat)
    requires Numbered(log) && w + n <= |log| && |clocks| == n && w + 1 <= want
    ensures var k := Min(want - 1 - w, n);
            ApplyEntries(run, cfg, r, log[w..w + n], clocks, want) == ApplyEntries(run, cfg, r, log[w + k..w + n], clocks[k..], want)
    decreases n
  {
    var k := Min(want - 1 - w, n);
    if k == 0 {
      assert clocks[0..] == clocks;
    } else {
      assert log[w..w + n][1..] == log[w + 1..w + n];
      SkipsOld(run, cfg, log, r, w + 1, n - 1, clocks[1..], want);
      assert clocks[1..][k - 1..] == clocks[k..];
    }
  }

  /** What a relay that is ahead of its watermark logs of a batch. */
  function LoggedAhead(log: seq<Entry>, r: nat, w: nat, n: nat): seq<Entry>
    requires w + n <= |log| && 1 <= n
  {
    [log[w].(seqId := r + 1)] + if r + 1 < w + n then log[r + 1..w + n] else []
  }

  /** Entries that all lie before the one wanted are skipped. */
  lemma AllOld(run: Backend, cfg: Config, log: seq<Entry>, rep: Replica, w: nat, n: nat, clocks: seq<int>, want: nat)
    requires Numbered(log) && w + n <= |log| && |clocks| == n && w + n < want
    ensures ApplyEntries(run, cfg, rep, log[w..w + n], clocks, want) == (rep, true)
  {
    SkipsOld(run, cfg, log, rep, w, n, clocks, want);
    assert log[w + n..w + n] == [];
  }

  /** Behind the entry it has logged again it is in lockstep: old ones are skipped, the others kept as they are. */
  lemma {:induction false} AheadRest(run: Backend, cfg: Config, log: seq<Entry>, rep: Replica, w: nat, n: nat, clocks: seq<int>)
    requires cfg.relay && Numbered(log) && w <= |rep.log| < w + n <= |log| && |clocks| == n
    ensures var res := ApplyEntries(run, cfg, rep, log[w..w + n], clocks, |rep.log| + 1);
            res.1 ==> res.0.log == rep.log + log[|rep.log|..w + n]
  {
    var r := |rep.log|;
    var left := w + n - r;
    SkipTo(run, cfg, log, rep, w, n, clocks, r);
    BehindBatch(run, cfg, log, rep, r, left, clocks[r - w..]);
    assert Renumbered(log, r, left, r) == log[r..r + left];
  }

  lemma SkipTo(run: Backend, cfg: Config, log: seq<Entry>, rep: Replica, w: nat, n: nat, clocks: seq<int>, r: nat)
    requires Numbered(log) && w <= r <= w + n <= |log| && |clocks| == n
    ensures ApplyEntries(run, cfg, rep, log[w..w + n], clocks, r + 1)
         == ApplyEntries(run, cfg, rep, log[r..w + n], clocks[r - w..], r + 1)
  {
    SkipsOld(run, cfg, log, rep, w, n, clocks, r + 1);
  }

  /** A relay whose log is ahead of its watermark logs the first entry of the batch again, then goes on behind it. */
  lemma {:induction false} AheadBatch(run: Backend, cfg: Config, log: seq<Entry>, r: nat, w: nat, n: nat, st: Store, clocks: seq<int>)
    requires cfg.relay && Numbered(log) && w <= r <= |log| && 1 <= n && w + n <= |log| && |clocks| == n
    ensures var res := ApplyEntries(run, cfg, Replica(w, log[..r], st), log[w..w + n], clocks, w + 1);
            res.1 ==> res.0.log == log[..r] + LoggedAhead(log, r, w, n)
  {
    var before := Replica(w, log[..r], st);
    var entries := log[w..w + n];
    var a := ApplyEntry(run, cfg, before, entries[0], clocks[0]);
    if a.ok {
      assert entries[1..] == log[w + 1..w + n];
      if r + 1 < w + n {
        AheadRest(run, cfg, log, a.replica, w + 1, n - 1, clocks[1..]);
        Assoc(log[..r], [log[w].(seqId := r + 1)], log[r + 1..w + n]);
      } else {
        AllOld(run, cfg, log, a.replica, w + 1, n - 1, clocks[1..], r + 2);
        assert [log[w].(seqId := r + 1)] + [] == [log[w].(seqId := r + 1)];
      }
    }
  }

  /** The batch a relay with watermark `w` gets next repeats what lies behind the `r` entries it has logged. */
  predicate Repeats(log: seq<Entry>, r: nat, w: nat, n: nat)
    requires w + n <= |log|
  {
    if w <= r then r < |log| && log[r] == log[w].(seqId := r + 1)
    else log[r..r + n] == Renumbered(log, w, n, r)
  }

  /** What lies behind the first `r` entries of a log, and whether something continues them. */
  lemma PrefixContinues(log: seq<Entry>, r: nat, more: seq<Entry>)
    requires r <= |log|
    ensures log[..r] + more <= log <==> r + |more| <= |log| && more == log[r..r + |more|]
  {
    if log[..r] + more <= log {
      assert forall i :: 0 <= i < |more| ==> more[i] == (log[..r] + more)[r + i];
    }
  }

  lemma {:induction false} AheadExact(log: seq<Entry>, r: nat, w: nat, n: nat)
    requires Numbered(log) && w <= r <= |log| && 1 <= n && w + n <= |log|
    ensures log[..r] + LoggedAhead(log, r, w, n) <= log <==> Repeats(log, r, w, n)
  {
    var more := LoggedAhead(log, r, w, n);
    PrefixContinues(log, r, more);
    assert more[0] == log[w].(seqId := r + 1);
    if Repeats(log, r, w, n) {
      assert more == log[r..r + |more|];
    }
  }

  lemma {:induction false} BehindExact(log: seq<Entry>, r: nat, w: nat, n: nat)
    requires Numbered(log) && r < w && w + n <= |log|
    ensures log[..r] + Renumbered(log, w, n, r) <= log <==> Repeats(log, r, w, n)
  {
    PrefixContinues(log, r, Renumbered(log, w, n, r));
  }

  /**
   A batch in lockstep. Without a backend it always succeeds; with one, exactly if every command answers
   Done. Then the relay's log and its watermark have moved to the batch's end.
   */
  lemma {:induction false} LockstepBatch(run: Backend, cfg: Config, log: seq<Entry>, w: nat, n: nat, st: Store, clocks: seq<int>)
    requires cfg.relay && Numbered(log) && 1 <= n && w + n <= |log| && |clocks| == n
    ensures var res := ApplyBatch(run, cfg, Replica(w, log[..w], st), Batch(log[w..w + n], w + n), clocks);
            && (res.1 <==> (cfg.backend ==> AllDone(run, st, Commands(log[w..w + n]), clocks)))
            && (res.1 ==> res.0.log == log[..w + n] && res.0.applied == w + n)
  {
    var before, entries := Replica(w, log[..w], st), log[w..w + n];
    BehindBatch(run, cfg, log, before, w, n, clocks);
    assert log[..w] + Renumbered(log, w, n, w) == log[..w + n];
    KeepsMark(run, cfg, before, entries, clocks, w + 1);
    if cfg.backend {
      SuccessExact(run, cfg, before, entries, clocks, w + 1, w + 1);
      assert entries[0..] == entries && clocks[0..] == clocks;
    } else {
      EntriesSucceed(run, cfg, before, entries, clocks, w + 1);
    }
  }

  lemma {:induction false} KeepsMark(run: Backend, cfg: Config, r: Replica, entries: seq<Entry>, clocks: seq<int>, want: nat)
    requires |clocks| == |entries|
    ensures ApplyEntries(run, cfg, r, entries, clocks, want).0.applied == r.applied
    decreases |entries|
  {
    if entries != [] {
      if entries[0].seqId < want {
        KeepsMark(run, cfg, r, entries[1..], clocks[1..], want);
      } else {
        var a := ApplyEntry(run, cfg, r, entries[0], clocks[0]);
        KeepsMark(run, cfg, a.replica, entries[1..], clocks[1..], a.seqId + 1);
      }
    }
  }

  /**
   In and out of lockstep. A relay has logged the first `r` entries of `log` and its watermark is `w`:
   ahead of it after a crash in the middle of a batch, behind it if the crash lost unsynced entries.
   It receives the next batch behind the watermark, and logs it without failure. Then its own log is
   still a prefix of `log` exactly if the batch repeats what lies behind entry `r`; which it does
   when `r` is `w`, and otherwise only by coincidence.
   */
  lemma {:induction false} LockstepExact(run: Backend, cfg: Config, log: seq<Entry>, r: nat, w: nat, n: nat, st: Store, clocks: seq<int>)
    requires cfg.relay && Numbered(log) && r <= |log| && 1 <= n && w + n <= |log| && |clocks| == n
    ensures var res := ApplyBatch(run, cfg, Replica(w, log[..r], st), Batch(log[w..w + n], w + n), clocks);
            res.1 ==> (res.0.log <= log <==> Repeats(log, r, w, n))
    ensures r == w ==> Repeats(log, r, w, n)
  {
    var before := Replica(w, log[..r], st);
    var entries := log[w..w + n];
    if w <= r {
      AheadBatch(run, cfg, log, r, w, n, st, clocks);
      AheadExact(log, r, w, n);
    } else {
      assert entries[0].seqId == w + 1;
      FirstWanted(run, cfg, before, entries, clocks, r + 1, w + 1);
      BehindBatch(run, cfg, log, before, w, n, clocks);
      BehindExact(log, r, w, n);
    }
  }

  /** It makes no difference which smaller seq is wanted first. */
  lemma FirstWanted(run: Backend, cfg: Config, r: Replica, entries: seq<Entry>, clocks: seq<int>, want: nat, want': nat)
    requires |clocks| == |entries| && entries != [] && entries[0].seqId >= want && entries[0].seqId >= want'
    ensures ApplyEntries(run, cfg, r, entries, clocks, want) == ApplyEntries(run, cfg, r, entries, clocks, want')
  {
  }
}
