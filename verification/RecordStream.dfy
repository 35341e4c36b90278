/**
 Records on byte streams: the appender, and the growing buffered reader proved to read what the
 pure parser reads.
 */
module RecordStream {
  import opened Bytes
  import opened RecordIO
  import Varint

  /** An io.Writer that keeps everything written to it. */
  class Sink {
    var data: Bytes

    constructor (data: Bytes)
      ensures this.data == data
    {
      this.data := data;
    }

    method Write(b: Bytes)
      modifies this
      ensures data == old(data) + b
    {
      data := data + b;
    }
  }

  /** AppendRecord: length, body and checksum in three writes, one frame in all. */
  method AppendRecord(crc: Checksum, w: Sink, body: Bytes)
    modifies w
    ensures w.data == old(w.data) + Frame(crc, body)
  {
    w.Write(Varint.Put(|body|));
    w.Write(body);
    w.Write(crc(body).ToBytes());
  }

  const INITIAL_SIZE := 64 * 1024

  /** An io.Reader over a fixed stream. Each call may deliver any nonempty part of what is left. */
  class Source {
    var data: Bytes

    constructor (data: Bytes)
      ensures this.data == data
    {
      this.data := data;
    }

    method Read(buf: array<Byte>, off: nat) returns (n: nat)
      requires off < buf.Length
      modifies this, buf
      ensures n == 0 <==> old(data) == []
      ensures n <= |old(data)| && off + n <= buf.Length
      ensures data == old(data)[n..]
      ensures buf[..off] == old(buf[..off])
      ensures buf[off..off + n] == old(data)[..n]
    {
      if data == [] {
        return 0;
      }
      n :| 1 <= n <= |data| && off + n <= buf.Length;
      forall i | 0 <= i < n {
        buf[off + i] := data[i];
      }
      data := data[n..];
    }
  }

  datatype Fill = Filled | AtEof | Truncated

  class Reader {
    const src: Source
    var buf: array<Byte>
    var pos: nat
    var fill: nat

    ghost predicate Valid()
      reads this
    {
      0 < buf.Length && pos <= fill <= buf.Length
    }

    ghost function Window(): Bytes
      requires Valid()
      reads this, buf
    {
      buf[pos..fill]
    }

    /** The stream still to be read: the buffered window, then the unread source. */
    ghost function Remaining(): Bytes
      requires Valid()
      reads this, buf, src
    {
      Window() + src.data
    }

    constructor (src: Source)
      ensures Valid() && fresh(buf) && this.src == src && Remaining() == src.data
    {
      this.src := src;
      buf := new Byte[INITIAL_SIZE](_ => 0);
      pos, fill := 0, 0;
    }

    /** Moves the window to the front of the buffer. */
    method Compact()
      requires Valid()
      modifies this`pos, this`fill, buf
      ensures Valid() && pos == 0 && Window() == old(Window())
    {
      var w := buf[pos..fill];
      forall i | 0 <= i < fill - pos {
        buf[i] := buf[pos + i];
      }
      pos, fill := 0, fill - pos;
      assert buf[..fill] == w;
    }

    /** Doubles a full buffer. */
    method Grow()
      requires Valid() && pos == 0
      modifies this`buf
      ensures Valid() && fresh(buf) && fill < buf.Length && Window() == old(Window())
    {
      var grown := new Byte[buf.Length * 2](_ => 0);
      forall i | 0 <= i < fill {
        grown[i] := buf[i];
      }
      assert grown[..fill] == buf[..fill];
      buf := grown;
    }

    /** Frees space behind the window: compact, then grow if still full. */
    method MakeRoom()
      requires Valid()
      modifies this`buf, this`pos, this`fill, buf
      ensures Valid() && (buf == old(buf) || fresh(buf))
      ensures pos == 0 && fill < buf.Length && Window() == old(Window())
    {
      if pos > 0 {
        Compact();
      }
      if fill == buf.Length {
        Grow();
      }
    }

    /** Steps over `n` buffered bytes. */
    method Skip(n: nat)
      requires Valid() && n <= fill - pos
      modifies this`pos
      ensures Valid() && Remaining() == old(Remaining())[n..]
    {
      assert Remaining()[n..] == buf[pos + n..fill] + src.data;
      pos := pos + n;
    }

    /** One pass of the fill loop: make room and read. The stream itself does not change. */
    method ReadMore() returns (n: nat)
      requires Valid()
      modifies this`buf, this`pos, this`fill, buf, src
      ensures Valid() && (buf == old(buf) || fresh(buf))
      ensures Remaining() == old(Remaining())
      ensures n == 0 <==> old(src.data) == []
      ensures n <= |old(src.data)| && src.data == old(src.data)[n..]
    {
      ghost var unread := src.data;
      ghost var window := Window();
      MakeRoom();
      assert buf[..fill] == window;
      n := src.Read(buf, fill);
      Assoc(window, unread[..n], unread[n..]);
      assert unread == unread[..n] + unread[n..];
      assert buf[..fill + n] == buf[..fill] + buf[fill..fill + n];
      fill := fill + n;
      assert Window() == window + unread[..n];
    }

    /** Buffers at least `n` bytes if the stream still has them. */
    method Ensure(n: int) returns (r: Fill)
      requires Valid()
      modifies this`buf, this`pos, this`fill, buf, src
      ensures Valid() && (buf == old(buf) || fresh(buf))
      ensures Remaining() == old(Remaining())
      ensures r.Filled? <==> n <= |Remaining()|
      ensures r.Filled? ==> n <= |Window()|
      ensures r.AtEof? <==> n > 0 && Remaining() == []
      ensures |src.data| <= |old(src.data)|
    {
      while fill - pos < n
        invariant Valid() && (buf == old(buf) || fresh(buf))
        invariant Remaining() == old(Remaining())
        invariant |src.data| <= |old(src.data)|
        decreases |src.data|
      {
        var nr := ReadMore();
        if nr == 0 {
          return if fill - pos == 0 then AtEof else Truncated;
        }
      }
      return Filled;
    }

    /** Decodes the varint at the head of a nonempty stream and steps over it. */
    method ReadLength() returns (d: Varint.Decoded)
      requires Valid()
      modifies this`buf, this`pos, this`fill, buf, src
      ensures Valid() && (buf == old(buf) || fresh(buf))
      ensures d == Varint.Get(old(Remaining()))
      ensures d.Value? ==> Remaining() == old(Remaining())[d.width..]
    {
      ghost var s := Remaining();
      d := Varint.Get(buf[pos..fill]);
      while d.Incomplete?
        invariant Valid() && (buf == old(buf) || fresh(buf))
        invariant Remaining() == s && d == Varint.Get(Window())
        decreases |s| - |Window()|
      {
        ghost var seen := Window();
        assert s == seen + src.data;
        var more := Ensure(fill - pos + 1);
        if more != Filled {
          assert s == seen;
          return;
        }
        d := Varint.Get(buf[pos..fill]);
      }
      Varint.DecidedIsStable(Window(), 0, src.data);
      if d.Value? {
        Skip(d.width);
      }
    }

    /** Reads one record: exactly what the pure parser finds at the head of the stream. */
    method ReadRecord(crc: Checksum) returns (p: Parse)
      requires Valid()
      modifies this`buf, this`pos, this`fill, buf, src
      ensures Valid() && (buf == old(buf) || fresh(buf))
      ensures p == ParseRecord(crc, old(Remaining()))
      ensures p.Record? ==> Remaining() == old(Remaining())[p.width..]
    {
      var first := Ensure(1);
      if first != Filled {
        return if first == AtEof then Eof else Torn;
      }
      p := ReadFramed(crc);
    }

    /** Reads one record of a stream that is not at its end. */
    method ReadFramed(crc: Checksum) returns (p: Parse)
      requires Valid() && Remaining() != []
      modifies this`buf, this`pos, this`fill, buf, src
      ensures Valid() && (buf == old(buf) || fresh(buf))
      ensures p == ParseRecord(crc, old(Remaining()))
      ensures p.Record? ==> Remaining() == old(Remaining())[p.width..]
    {
      ghost var s := Remaining();
      var d := ReadLength();
      match d {
        case Incomplete => p := Torn;
        case Overflow => p := BadLength;
        case Value(l, n) =>
          Varint.GetBounded(s);
          p := ReadBody(crc, l);
          if p.Record? {
            assert s[n..][p.width..] == s[n + p.width..];
            p := Record(p.body, n + p.width);
          }
      }
    }

    /** The body and checksum of a record whose length has been read. */
    method ReadBody(crc: Checksum, l: nat) returns (p: Parse)
      requires Valid() && l < TWO_64
      modifies this`buf, this`pos, this`fill, buf, src
      ensures Valid() && (buf == old(buf) || fresh(buf))
      ensures p == ParseBody(crc, l, old(Remaining()))
      ensures p.Record? ==> Remaining() == old(Remaining())[p.width..]
    {
      ghost var t := Remaining();
      NeededExact(l);
      var got := Ensure(Int64(Int64(l) + 4));
      if got != Filled {
        return Torn;
      }
      if l + 4 >= TWO_63 {
        return Crash;
      }
      var window := buf[pos..fill];
      var body, sum := window[..l], window[l..l + 4];
      assert body == t[..l] && sum == t[l..l + 4];
      Skip(l + 4);
      if sum != crc(body).ToBytes() {
        return Mismatch;
      }
      return Record(body, l + 4);
    }
  }

  /**
   Scan: the callback sees the records of the stream in order until it stops or refuses, or the
   stream ends, whatever chunks the source delivers.
   */
  method Scan<S>(crc: Checksum, src: Source, fn: (S, Bytes) -> Verdict<S>, init: S) returns (state: S, end: End)
    modifies src
    ensures (state, end) == Fold(fn, init, Bodies(crc, old(src.data)), EndOf(crc, old(src.data)))
  {
    ghost var all := src.data;
    var r := new Reader(src);
    state := init;
    while true
      invariant r.Valid() && fresh(r) && fresh(r.buf) && r.src == src
      invariant Fold(fn, init, Bodies(crc, all), EndOf(crc, all))
             == Fold(fn, state, Bodies(crc, r.Remaining()), EndOf(crc, r.Remaining()))
      decreases |r.Remaining()|
    {
      var p := r.ReadRecord(crc);
      match p {
        case Eof => return state, Clean;
        case Torn => return state, Clean;
        case BadLength => return state, LengthError;
        case Mismatch => return state, ChecksumError;
        case Crash => return state, Panicked;
        case Record(body, _) =>
          match fn(state, body) {
            case Continue(s) => state := s;
            case Stop(s) => return s, Clean;
            case Refuse(s) => return s, Refused;
          }
      }
    }
  }
}
