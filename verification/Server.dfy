/** The server's record of how far each follower has applied. */
module Server {
  import opened Bytes

  /** The recorded position of a follower: 0 if it has never been recorded. */
  function Recorded(marks: map<Bytes, nat>, id: Bytes): nat {
    if id in marks then marks[id] else 0
  }

  /** nextSeq - applied in uint64 arithmetic. */
  function Lag(nextSeq: nat, applied: nat): nat {
    (nextSeq - applied) % TWO_64
  }

  class Server {
    var watermarks: map<Bytes, nat>

    constructor ()
      ensures watermarks == map[]
    {
      watermarks := map[];
    }

    /** Ack: keeps the largest position per follower and reports the lag. */
    method Ack(id: Bytes, applied: nat, nextSeq: nat) returns (lag: nat)
      requires nextSeq < TWO_64 && applied < TWO_64
      modifies this
      ensures Recorded(watermarks, id) == Max(Recorded(old(watermarks), id), applied)
      ensures forall other :: other != id ==> Recorded(watermarks, other) == Recorded(old(watermarks), other)
      ensures lag == Lag(nextSeq, applied)
      ensures lag == nextSeq - applied <==> applied <= nextSeq
    {
      if applied > Recorded(watermarks, id) {
        watermarks := watermarks[id := applied];
      }
      lag := (nextSeq - applied) % TWO_64;
    }
  }
}
