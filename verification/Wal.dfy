/** The WAL object: its methods, proved against the values of WalModel. */
module Wal {
  import opened Bytes
  import opened RecordIO
  import opened WalModel
  import opened WalReading
  import opened WalRecovery
  import RecordStream

  predicate Increasing(ids: seq<nat>) {
    forall i, j :: 0 <= i < j < |ids| ==> ids[i] < ids[j]
  }

  /** The sorted listing of a directory of segment files. */
  ghost predicate IsListing(dir: map<nat, Bytes>, d: Listing) {
   
    && Increasing(d.ids)
    && (forall id :: id in dir <==> id in d.ids)
    && (forall i :: 0 <= i < |d.ids| ==> d.ids[i] in dir && d.files[i] == dir[d.ids[i]])
  }

  lemma {:induction false} Minimum(s: set<nat>) returns (m: nat)
    requires s != {}
    ensures m in s && forall x :: x in s ==> m <= x
  {
    var y :| y in s;
    if s == {y} {
      m := y;
    } else {
      var t := s - {y};
      m := Minimum(t);
      assert forall x :: x in s ==> x == y || x in t;
      m := if y < m then y else m;
    }
  }

  /** Only one increasing sequence has a given set of elements. */
  lemma {:induction false} IncreasingUnique(a: seq<nat>, b: seq<nat>)
    requires Increasing(a) && Increasing(b)
    requires forall x :: x in a <==> x in b
    ensures a == b
    decreases |a|
  {
    assert a == [] || a[0] in b;
    assert b == [] || b[0] in a;
    if a != [] && b != [] {
      var z := |a| - 1;
      var y := |b| - 1;
      assert a[z] in b && b[y] in a;
      assert a[z] == b[y];
      assert forall x :: x in a[..z] <==> x in a && x != a[z];
      assert forall x :: x in b[..y] <==> x in b && x != b[y];
      IncreasingUnique(a[..z], b[..y]);
      assert a == a[..z] + [a[z]] && b == b[..y] + [b[y]];
    }
  }

  class WAL {
    const codec: Codec
    const segmentMax: int
    const mode: FlushMode
    var segments: seq<Segment>
    var nextSeq: nat
    /** One-slot notification channels: whether each holds a signal. */
    var channels: seq<bool>

    ghost function State(): Log
      reads this
    {
      Log(segments, nextSeq, segmentMax, mode)
    }

    /** A WAL before its directory has been read. */
    constructor (codec: Codec, segmentMax: int, mode: FlushMode)
      ensures this.codec == codec && this.segmentMax == segmentMax && this.mode == mode
      ensures State() == Log([], 0, segmentMax, mode) && channels == []
    {
      this.codec, this.segmentMax, this.mode := codec, segmentMax, mode;
      segments, nextSeq, channels := [], 0, [];
    }

    static method SortIds(s: set<nat>) returns (ids: seq<nat>)
      ensures Increasing(ids) && forall id :: id in s <==> id in ids
    {
      var rest := s;
      ids := [];
      while rest != {}
        invariant Increasing(ids)
        invariant forall i, x :: 0 <= i < |ids| && x in rest ==> ids[i] < x
        invariant forall id :: id in s <==> id in ids || id in rest
        decreases rest
      {
        ghost var m := Minimum(rest);
        var id :| id in rest && forall x :: x in rest ==> id <= x;
        ids := ids + [id];
        rest := rest - {id};
      }
    }

    /** Lists the segment files of a directory by increasing id. */
    static method ListDirectory(dir: map<nat, Bytes>) returns (d: Listing)
      ensures IsListing(dir, d)
    {
      var ids := SortIds(dir.Keys);
      d := Listing(ids, seq(|ids|, i requires 0 <= i < |ids| => if ids[i] in dir then dir[ids[i]] else []));
    }

    method ScanLastSeq(bytes: Bytes) returns (last: nat, end: End)
      ensures (last, end) == LastSeq(codec, bytes)
    {
      var src := new RecordStream.Source(bytes);
      last, end := RecordStream.Scan(codec.crc, src, LastFn(codec), 0);
    }

    /** The loop over the listed files. */
    method LoadFiles(d: Listing) returns (ok: bool)
      requires segments == []
      modifies this`segments
      ensures ok <==> forall k :: 0 <= k < |d.ids| && IsSealed(d, k) ==> LastSeq(codec, d.files[k]).1 == Clean
      ensures ok ==> segments == Loaded(codec, d)
    {
      var i := 0;
      while i < |d.ids|
        invariant 0 <= i <= |d.ids| && |segments| == i
        invariant forall k :: 0 <= k < i ==> segments[k] == LoadOne(codec, d, k)
        invariant forall k :: 0 <= k < i && IsSealed(d, k) ==> LastSeq(codec, d.files[k]).1 == Clean
      {
        assert IsSealed(d, i) <==> i != |d.ids| - 1;
        var endSeq, end := 0, Clean;
        if i != |d.ids| - 1 {
          endSeq, end := ScanLastSeq(d.files[i]);
        }
        if end != Clean {
          return false;
        }
        segments := segments + [Segment(d.ids[i], endSeq, |d.files[i]|, OnDisk(d.files[i]))];
        i := i + 1;
      }
      return true;
    }

    /** The next seq, from the newest file alone. */
    method RecoverNextSeq() returns (ok: bool)
      requires nextSeq == 0
      modifies this`nextSeq
      ensures ok <==> (segments != [] ==> LastSeq(codec, Last(segments).file.bytes).1 == Clean)
      ensures ok ==> nextSeq == if segments == [] then 1 else LastSeq(codec, Last(segments).file.bytes).0 + 1
    {
      if |segments| > 0 {
        var last, end := ScanLastSeq(segments[|segments| - 1].file.bytes);
        if end != Clean {
          return false;
        }
        if last + 1 > nextSeq {
          nextSeq := last + 1;
        }
      }
      if nextSeq == 0 {
        nextSeq := 1;
      }
      return true;
    }

    /** loadSegments: reads the directory and recovers nextSeq. */
    method LoadSegments(dir: map<nat, Bytes>) returns (ok: bool, ghost d: Listing)
      requires segments == [] && nextSeq == 0
      modifies this`segments, this`nextSeq
      ensures IsListing(dir, d)
      ensures ok <==> Recover(codec, d, segmentMax, mode).Some?
      ensures ok ==> State() == Recover(codec, d, segmentMax, mode).value
    {
      var l := ListDirectory(dir);
      d := l;
      ScansInTwoSteps(codec, l);
      ok := LoadFiles(l);
      if ok {
        LastLoaded(codec, l);
        ok := RecoverNextSeq();
      }
    }

    method RollLocked()
      modifies this`segments
      ensures State() == Roll(old(State()))
    {
      if segments != [] {
        var active := segments[|segments| - 1];
        active := active.(endSeq := if nextSeq == 0 then 0 else nextSeq - 1);
        active := active.(file := active.file.(synced := |active.file.bytes|));
        segments := segments[..|segments| - 1] + [active];
      }
      segments := segments + [Segment(nextSeq, 0, 0, File([], 0))];
    }

    method SyncActiveFile()
      modifies this`segments
      ensures State() == SyncActive(old(State()))
    {
      if segments != [] {
        var active := segments[|segments| - 1];
        active := active.(file := active.file.(synced := |active.file.bytes|));
        segments := segments[..|segments| - 1] + [active];
      }
    }

    /** Writes one record at the end of the active file. */
    method WriteRecord(e: Entry)
      requires segments != []
      modifies this`segments, this`nextSeq
      ensures State() == Write(codec, old(State()), e)
    {
      var active := segments[|segments| - 1];
      var out := new RecordStream.Sink(active.file.bytes);
      RecordStream.AppendRecord(codec.crc, out, codec.marshal(e.(seqId := nextSeq)));
      nextSeq := nextSeq + 1;
      active := active.(file := active.file.(bytes := out.data));
      active := active.(size := |out.data|);
      segments := segments[..|segments| - 1] + [active];
    }

    /** Append: the entry gets the next seq, whatever seq it came with, and every channel is signalled. */
    method Append(e: Entry) returns (seqId: nat)
      modifies this
      ensures State() == AppendLog(codec, old(State()), e) && seqId == old(nextSeq)
      ensures |channels| == |old(channels)| && forall i :: 0 <= i < |channels| ==> channels[i]
    {
      if segments == [] {
        RollLocked();
      }
      seqId := nextSeq;
      WriteRecord(e);
      RollIfNeeded();
      if mode == FlushSync {
        SyncActiveFile();
      }
      NotifyAllLocked();
    }

    /** A segment that has reached its size limit is sealed. */
    method RollIfNeeded()
      requires segments != []
      modifies this`segments
      ensures State() == RollIfFull(old(State()))
    {
      if segments[|segments| - 1].size >= segmentMax {
        RollLocked();
      }
    }

    /** ReadFrom: up to `maxBatch` entries from `fromSeq` on. */
    method ReadFrom(fromSeq: nat, maxBatch: nat) returns (out: seq<Entry>)
      ensures out == ReadSegments(codec, segments, fromSeq, maxBatch, [])
      ensures forall h, tail | Valid(codec, State(), h, tail) && maxBatch > 0 :: out == Query(h, fromSeq, maxBatch)
    {
      out := [];
      var i := 0;
      ghost var answer := ReadSegments(codec, segments, fromSeq, maxBatch, []);
      assert segments[0..] == segments;
      while i < |segments|
        invariant 0 <= i <= |segments|
        invariant ReadSegments(codec, segments[i..], fromSeq, maxBatch, out) == answer
      {
        var seg := segments[i];
        assert segments[i..][0] == seg && segments[i..][1..] == segments[i + 1..];
        i := i + 1;
        if seg.endSeq != 0 && seg.endSeq < fromSeq {
          continue;
        }
        var src := new RecordStream.Source(seg.file.bytes);
        var end;
        out, end := RecordStream.Scan(codec.crc, src, ReadFn(codec, fromSeq, maxBatch), out);
        if |out| >= maxBatch {
          break;
        }
      }
      assert out == answer;
      forall h, tail | Valid(codec, State(), h, tail) && maxBatch > 0
        ensures out == Query(h, fromSeq, maxBatch)
      {
        ReadAgreesWithHistory(codec, State(), h, tail, fromSeq, maxBatch);
      }
    }

    /** Notify: registers a new, empty one-slot channel. */
    method Notify() returns (ch: nat)
      modifies this`channels
      ensures ch == |old(channels)| && channels == old(channels) + [false]
    {
      ch := |channels|;
      channels := channels + [false];
    }

    /** Signals every channel without blocking: a full slot stays full. */
    method NotifyAllLocked()
      modifies this`channels
      ensures |channels| == |old(channels)| && forall i :: 0 <= i < |channels| ==> channels[i]
    {
      var i := 0;
      while i < |channels|
        invariant 0 <= i <= |channels| == |old(channels)|
        invariant forall k :: 0 <= k < i ==> channels[k]
      {
        if !channels[i] {
          channels := channels[i := true];
        }
        i := i + 1;
      }
    }

    /** MinSeq: 0 while there is no segment. */
    method MinSeq() returns (id: nat)
      ensures id == if segments == [] then 0 else segments[0].id
      ensures forall h, tail | Valid(codec, State(), h, tail) :: id == if segments == [] then 0 else 1
    {
      if segments == [] {
        return 0;
      }
      id := segments[0].id;
      assert Ids(State())[0] == id;
    }
  }
}
