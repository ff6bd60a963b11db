/** read_response on a socket buffer: it returns what Resp.Parse says about the stream,
    however the stream is cut into socket reads, and leaves the rest of the stream. */
module PythonParser {
  import opened Resp
  import opened SocketBuffer

  datatype Outcome = Returned(reply: Reply) | Raised(failure: Failure)
  datatype Outcomes = ReturnedAll(replies: seq<Reply>) | RaisedAll(failure: Failure)

  /** Malformed bulk lengths are outside the claim, see SocketBuffer.ReadSplitIndependentIff. */
  ghost predicate Agrees(p: Parsed, r: Outcome, left: Bytes) {
    match p
    case Ok(reply, rest) => r == Returned(reply) && left == rest
    case Err(f) => f == NegativeLength || r == Raised(f)
  }

  ghost predicate AgreesAll(p: ParsedAll, r: Outcomes, left: Bytes) {
    match p
    case OkAll(replies, rest) => r == ReturnedAll(replies) && left == rest
    case ErrAll(f) => f == NegativeLength || r == RaisedAll(f)
  }

  class Parser {
    const buffer: Buffer

    constructor (b: Buffer)
      ensures buffer == b
    {
      buffer := b;
    }

    method ReadResponse() returns (r: Outcome)
      requires buffer.Valid()
      modifies buffer
      ensures buffer.Valid()
      ensures Agrees(Parse(old(buffer.Stream())), r, buffer.Stream())
      ensures |buffer.Stream()| <= |old(buffer.Stream())|
      ensures r.Returned? ==> |buffer.Stream()| < |old(buffer.Stream())|
      decreases |buffer.Stream()|, 0
    {
      var raw := buffer.Readline();
      if raw.None? || raw.value == [] {
        return Raised(Closed);
      }
      var byte, response := raw.value[0], raw.value[1..];
      if byte == 45 {
        if RefusesConnection(response) {
          return Raised(ConnectionRefused(response));
        }
        return Returned(Error(response));
      } else if byte == 43 {
        return Returned(Data(response));
      } else if byte == 58 {
        var value := PyInt(response);
        return if value.None? then Raised(BadNumber) else Returned(Int(value.value));
      } else if byte == 36 {
        r := ReadBulk(response);
      } else if byte == 42 {
        var length := PyInt(response);
        if length.None? {
          return Raised(BadNumber);
        }
        if length.value == -1 {
          return Returned(Nil);
        }
        var items := ReadItems(if length.value < 0 then 0 else length.value);
        r := match items
          case ReturnedAll(replies) => Returned(List(replies))
          case RaisedAll(f) => Raised(f);
      } else {
        r := Raised(InvalidResponse);
      }
    }

    method ReadBulk(header: Bytes) returns (r: Outcome)
      requires buffer.Valid()
      modifies buffer
      ensures buffer.Valid() && |buffer.Stream()| <= |old(buffer.Stream())|
      ensures match PyInt(header)
        case None => r == Raised(BadNumber)
        case Some(n) =>
          if n == -1 then r == Returned(Nil) && buffer.Stream() == old(buffer.Stream())
          else if n < -2 then true
          else if n + 2 > |old(buffer.Stream())| then r == Raised(Closed)
          else r == Returned(Data(old(buffer.Stream())[..if n < 0 then 0 else n]))
               && buffer.Stream() == old(buffer.Stream())[n + 2..]
    {
      var length := PyInt(header);
      if length.None? {
        return Raised(BadNumber);
      }
      if length.value == -1 {
        return Returned(Nil);
      }
      ghost var stream, n := buffer.Stream(), length.value;
      assert 0 <= n && n + 2 <= |stream| ==> stream[..n + 2][..n] == stream[..n];
      var data := buffer.Read(length.value);
      return if data.None? then Raised(Closed) else Returned(Data(data.value));
    }

    /** The list comprehension over range(n). */
    method ReadItems(n: nat) returns (r: Outcomes)
      requires buffer.Valid()
      modifies buffer
      ensures buffer.Valid() && |buffer.Stream()| <= |old(buffer.Stream())|
      ensures AgreesAll(ParseAll(old(buffer.Stream()), n), r, buffer.Stream())
      decreases |buffer.Stream()|, 1
    {
      ghost var spec := ParseAll(buffer.Stream(), n);
      ghost var malformed := false;
      var replies: seq<Reply> := [];
      var i := 0;
      FollowsStart(buffer.Stream(), n);
      while i < n
        invariant 0 <= i <= n
        invariant buffer.Valid() && |buffer.Stream()| <= |old(buffer.Stream())|
        invariant Follows(spec, malformed, replies, buffer.Stream(), n - i)
      {
        ghost var here := buffer.Stream();
        var reply := ReadResponse();
        FollowsStep(spec, malformed, replies, here, n - i, reply, buffer.Stream());
        if reply.Raised? {
          return RaisedAll(reply.failure);
        }
        malformed := malformed || Parse(here).Err?;
        replies := replies + [reply.reply];
        i := i + 1;
      }
      FollowsEnd(spec, malformed, replies, buffer.Stream());
      r := ReturnedAll(replies);
    }
  }

  /** `replies` are the first items of `spec`, and k more are to be parsed from `here`. */
  ghost predicate Follows(spec: ParsedAll, malformed: bool, replies: seq<Reply>, here: Bytes, k: nat) {
    if malformed then spec == ErrAll(NegativeLength)
    else match ParseAll(here, k)
      case OkAll(more, rest) => spec == OkAll(replies + more, rest)
      case ErrAll(f) => spec == ErrAll(f)
  }

  lemma FollowsStart(p: Bytes, n: nat)
    ensures Follows(ParseAll(p, n), false, [], p, n)
  {
    var r := ParseAll(p, n);
    if r.OkAll? { assert [] + r.replies == r.replies; }
  }

  lemma FollowsStep(spec: ParsedAll, malformed: bool, replies: seq<Reply>, here: Bytes, k: nat, reply: Outcome, after: Bytes)
    requires k > 0 && Follows(spec, malformed, replies, here, k) && Agrees(Parse(here), reply, after)
    ensures reply.Raised? ==> AgreesAll(spec, RaisedAll(reply.failure), after)
    ensures reply.Returned? ==>
      Follows(spec, malformed || Parse(here).Err?, replies + [reply.reply], after, k - 1)
  {
    if !malformed && Parse(here).Ok? {
      var more := ParseAll(after, k - 1);
      if more.OkAll? {
        assert replies + ([reply.reply] + more.replies) == replies + [reply.reply] + more.replies;
      }
    }
  }

  lemma FollowsEnd(spec: ParsedAll, malformed: bool, replies: seq<Reply>, left: Bytes)
    requires Follows(spec, malformed, replies, left, 0)
    ensures AgreesAll(spec, ReturnedAll(replies), left)
  {
    assert replies + [] == replies;
  }

  /** Two ways of cutting one stream into socket reads: the same n replies, or the same
      failure, and after n replies the same bytes left for what comes next. */
  method SplitIndependent(chunks1: seq<Bytes>, chunks2: seq<Bytes>, n: nat)
      returns (r1: Outcomes, r2: Outcomes, ghost left1: Bytes, ghost left2: Bytes)
    requires forall c :: c in chunks1 || c in chunks2 ==> c != []
    requires Concat(chunks1) == Concat(chunks2)
    ensures ParseAll(Concat(chunks1), n) != ErrAll(NegativeLength) ==> r1 == r2
    ensures ParseAll(Concat(chunks1), n).OkAll? ==> left1 == left2 && r1.ReturnedAll? && |r1.replies| == n
  {
    var b1 := new Buffer(chunks1);
    var b2 := new Buffer(chunks2);
    var p1 := new Parser(b1);
    var p2 := new Parser(b2);
    r1 := p1.ReadItems(n);
    r2 := p2.ReadItems(n);
    left1, left2 := b1.Stream(), b2.Stream();
  }
}
