/** The buffer between the socket and the parser, and the parser on top of it: what
    they return depends on the bytes that arrive, not on how they are cut up. */
module SocketBuffer {
  import opened Resp

  function Concat(chunks: seq<Bytes>): Bytes {
    if chunks == [] then [] else chunks[0] + Concat(chunks[1..])
  }

  /** data[:-2] */
  function WithoutTerminator(data: Bytes): Bytes {
    if |data| < 2 then [] else data[..|data| - 2]
  }

  /** BytesIO.readline: up to and with the first LF, or all there is. */
  function FirstLine(b: Bytes): Bytes {
    var i := FindLf(b);
    if i < |b| then b[..i + 1] else b
  }

  predicate Complete(data: Bytes) {
    |data| >= 2 && data[|data| - 2..] == CRLF
  }

  /** A complete line in a prefix of the stream is the line of the stream. */
  lemma CompleteLine(b: Bytes, more: Bytes)
    requires Complete(FirstLine(b))
    ensures var data := FirstLine(b);
      ReadLine(b + more) == Line(data[..|data| - 2], b[|data|..] + more)
  {
    var data := FirstLine(b);
    assert data[|data| - 2..][0] == CR && data[|data| - 2..][1] == LF;
    assert data[|data| - 1] == LF && data[|data| - 2] == CR;
    var i := FindLf(b);
    assert i == |data| - 1;
    var p := b + more;
    assert LF !in b[..i];
    FindLfFirst(b[..i], b[i + 1..] + more);
    assert p == b[..i] + [LF] + (b[i + 1..] + more);
    assert p[..i - 1] == data[..|data| - 2];
    assert p[i + 1..] == b[|data|..] + more;
  }

  /** With nothing more to come, an incomplete first line never completes. */
  lemma IncompleteLine(b: Bytes)
    requires !Complete(FirstLine(b))
    ensures ReadLine(b) == NoLine
  {
    var i := FindLf(b);
    if 1 <= i < |b| { TwoLast(b, i); }
  }

  lemma TwoLast(b: Bytes, i: nat)
    requires 1 <= i < |b|
    ensures b[..i + 1][i - 1..] == [b[i - 1], b[i]]
  {
  }

  lemma Advance(buffer: Bytes, from: nat, k: nat, more: Bytes)
    requires from + k <= |buffer|
    ensures buffer[from..][k..] == buffer[from + k..]
    ensures buffer[from..][..k] == buffer[from..from + k]
    ensures (buffer[from..] + more)[k..] == buffer[from + k..] + more
    ensures (buffer[from..] + more)[..k] == buffer[from..from + k]
  {
  }

  /** What read returns, and what it leaves, from the buffered bytes and the coming chunks. */
  function ReadResult(buffered: Bytes, incoming: seq<Bytes>, length: int): (Option<Bytes>, Bytes) {
    var stream := buffered + Concat(incoming);
    if length < -2 then (Some(WithoutTerminator(buffered)), Concat(incoming))
    else if length + 2 <= |stream| then (Some(WithoutTerminator(stream[..length + 2])), stream[length + 2..])
    else (None, stream)
  }

  class Buffer {
    var incoming: seq<Bytes>   // what the coming recv calls return; then the peer closes
    var buffer: Bytes
    var bytesWritten: nat
    var bytesRead: nat

    ghost predicate Valid()
      reads this
    {
      && |buffer| == bytesWritten && bytesRead <= bytesWritten
      && (bytesRead == bytesWritten ==> bytesWritten == 0)    // a used-up buffer is purged
      && forall c :: c in incoming ==> c != []
    }

    /** The bytes not consumed yet, buffered or still to come. */
    ghost function Stream(): Bytes
      requires Valid()
      reads this
    {
      buffer[bytesRead..] + Concat(incoming)
    }

    constructor (chunks: seq<Bytes>)
      requires forall c :: c in chunks ==> c != []
      ensures Valid() && Stream() == Concat(chunks)
    {
      incoming, buffer, bytesWritten, bytesRead := chunks, [], 0, 0;
    }

    function Length(): int
      reads this
    {
      bytesWritten - bytesRead
    }

    method Purge()
      modifies this
      ensures buffer == [] && bytesWritten == bytesRead == 0 && incoming == old(incoming)
    {
      buffer, bytesWritten, bytesRead := [], 0, 0;
    }

    /** One recv at least, and more until `length` bytes came in. */
    method ReadFromSocket(length: Option<int>) returns (ok: bool)
      requires Valid()
      modifies this
      ensures Valid() && Stream() == old(Stream()) && bytesRead == old(bytesRead)
      ensures ok ==> |incoming| < |old(incoming)| && bytesWritten > old(bytesWritten)
      ensures ok && length.Some? ==> bytesWritten >= old(bytesWritten) + length.value
      ensures !ok ==> incoming == []
      ensures !ok && length.Some? && length.value > 0 ==> bytesWritten < old(bytesWritten) + length.value
      ensures !ok && length.None? ==> buffer == old(buffer)
    {
      var marker := 0;
      while true
        invariant Valid() && Stream() == old(Stream()) && bytesRead == old(bytesRead)
        invariant marker == bytesWritten - old(bytesWritten)
        invariant marker == 0 ==> |incoming| == |old(incoming)| && buffer == old(buffer)
        invariant marker > 0 ==> |incoming| < |old(incoming)| && length.Some? && length.value > marker
        invariant marker >= 0
        decreases |incoming|
      {
        if incoming == [] {
          return false;
        }
        var data := incoming[0];
        assert data in incoming;
        assert forall c :: c in incoming[1..] ==> c in incoming;
        assert buffer[bytesRead..] + (data + Concat(incoming[1..])) == (buffer + data)[bytesRead..] + Concat(incoming[1..]);
        incoming := incoming[1..];
        buffer := buffer + data;
        bytesWritten := bytesWritten + |data|;
        marker := marker + |data|;
        if length.Some? && length.value > marker {
          continue;
        }
        return true;
      }
    }

    /** `length` bytes and the two of the terminator. A length below -2 makes BytesIO
        hand out whatever is buffered at the moment. */
    method Read(length: int) returns (data: Option<Bytes>)
      requires Valid()
      modifies this
      ensures Valid()
      ensures length >= -2 && length + 2 <= |old(Stream())| ==>
        && data == Some(WithoutTerminator(old(Stream())[..length + 2]))
        && Stream() == old(Stream())[length + 2..]
      ensures length >= -2 && length + 2 > |old(Stream())| ==> data == None
      ensures length < -2 ==>
        && data == Some(WithoutTerminator(old(buffer[bytesRead..])))
        && Stream() == old(Concat(incoming))
      ensures (data, Stream()) == ReadResult(old(buffer[bytesRead..]), old(incoming), length)
      ensures |Stream()| <= |old(Stream())|
    {
      var want := length + 2;
      if want > Length() {
        var ok := ReadFromSocket(Some(want - Length()));
        if !ok {
          assert Concat(incoming) == [];
          return None;
        }
      }
      ghost var stream := Stream();
      var bytes := if want < 0 then buffer[bytesRead..] else buffer[bytesRead..bytesRead + want];
      Advance(buffer, bytesRead, |bytes|, Concat(incoming));
      Consume(|bytes|);
      data := Some(WithoutTerminator(bytes));
    }

    method Readline() returns (line: Option<Bytes>)
      requires Valid()
      modifies this
      ensures Valid()
      ensures match ReadLine(old(Stream()))
        case Line(text, rest) => line == Some(text) && Stream() == rest
        case NoLine => line == None && Stream() == old(Stream())
    {
      var data := FirstLine(buffer[bytesRead..]);
      while !Complete(data)
        invariant Valid() && Stream() == old(Stream())
        invariant data == FirstLine(buffer[bytesRead..])
        decreases |incoming|
      {
        var ok := ReadFromSocket(None);
        if !ok {
          assert buffer[bytesRead..] + Concat(incoming) == buffer[bytesRead..];
          IncompleteLine(buffer[bytesRead..]);
          return None;
        }
        data := FirstLine(buffer[bytesRead..]);
      }
      CompleteLine(buffer[bytesRead..], Concat(incoming));
      Consume(|data|);
      line := Some(data[..|data| - 2]);
    }

    /** The end of read and readline: move on, and purge a used-up buffer. */
    method Consume(k: nat)
      requires Valid() && bytesRead + k <= bytesWritten
      requires k > 0 || bytesWritten == 0 || bytesRead < bytesWritten
      modifies this
      ensures Valid() && Stream() == old(buffer[bytesRead..])[k..] + Concat(incoming) && incoming == old(incoming)
    {
      Advance(buffer, bytesRead, k, Concat(incoming));
      bytesRead := bytesRead + k;
      if bytesRead == bytesWritten {
        Purge();
      }
    }
  }

  // ---- read() and the splitting of the stream ----

  /** read() is independent of how the stream was cut iff its length is at least -2;
      lengths below -1 come from malformed replies only. */
  lemma ReadSplitIndependentIff(length: int)
    ensures length >= -2 <==>
      forall b1, c1, b2, c2 :: b1 + Concat(c1) == b2 + Concat(c2) ==>
        ReadResult(b1, c1, length) == ReadResult(b2, c2, length)
  {
    if length < -2 {
      var all: Bytes := [0, 0, 0];
      assert all + Concat([]) == [] + Concat([all]);
      assert WithoutTerminator(all) == [0];
      assert ReadResult(all, [], length).0 == Some([0]);
      assert ReadResult([], [all], length).0 == Some([]);
    }
  }
}
