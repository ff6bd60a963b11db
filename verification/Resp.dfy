/** The Redis serialization protocol (RESP2): canonical encodings, what the client's
    parser makes of a byte stream, and that the one undoes the other. */
module Resp {
  type Byte = b: int | 0 <= b < 256
  type Bytes = seq<Byte>

  datatype Option<+T> = None | Some(value: T)

  const CR: Byte := 13
  const LF: Byte := 10
  const CRLF: Bytes := [13, 10]
  const Minus: Byte := 45     // '-'
  const Underscore: Byte := 95

  // ---- decimal numbers: str(n).encode() and int(b) ----

  function Digits(n: nat): (r: Bytes)
    ensures |r| >= 1
  {
    if n < 10 then [48 + n] else Digits(n / 10) + [48 + n % 10]
  }

  function Decimal(n: int): Bytes {
    if n < 0 then [Minus] + Digits(-n) else Digits(n)
  }

  predicate IsDigit(b: Byte) { 48 <= b <= 57 }

  predicate IsSpace(b: Byte) { 9 <= b <= 13 || b == 32 }

  function StripLeft(b: Bytes): Bytes {
    if b != [] && IsSpace(b[0]) then StripLeft(b[1..]) else b
  }

  function StripRight(b: Bytes): Bytes {
    if b != [] && IsSpace(b[|b| - 1]) then StripRight(b[..|b| - 1]) else b
  }

  /** Digits, with single underscores allowed between them. */
  function DigitsValue(b: Bytes): Option<nat> {
    if b == [] || !IsDigit(b[|b| - 1]) then None
    else
      var d: nat := b[|b| - 1] - 48;
      if |b| == 1 then Some(d)
      else
        var head := if b[|b| - 2] == Underscore then b[..|b| - 2] else b[..|b| - 1];
        match DigitsValue(head)
        case Some(v) => Some(10 * v + d)
        case None => None
  }

  function PyInt(b: Bytes): Option<int> {
    var t := StripRight(StripLeft(b));
    if t == [] then None
    else
      var body := if t[0] == Minus || t[0] == 43 then t[1..] else t;
      match DigitsValue(body)
      case Some(v) => var n: int := v; Some(if t[0] == Minus then -n else n)
      case None => None
  }

  lemma {:induction false} DigitsAreDigits(n: nat)
    ensures forall b :: b in Digits(n) ==> IsDigit(b)
    ensures DigitsValue(Digits(n)) == Some(n)
    ensures n > 0 ==> Digits(n)[0] != 48
  {
    if n >= 10 {
      DigitsAreDigits(n / 10);
      var r := Digits(n);
      assert r[..|r| - 1] == Digits(n / 10) && r[0] == Digits(n / 10)[0];
      assert r[|r| - 2] == Digits(n / 10)[|Digits(n / 10)| - 1];
      assert r[|r| - 2] in Digits(n / 10);
    }
  }

  /** Printing a number and parsing it back; no leading zero is printed. */
  lemma DecimalRoundTrip(n: int)
    ensures PyInt(Decimal(n)) == Some(n)
    ensures if n < 0 then Decimal(n)[0] == Minus && Decimal(n)[1] != 48 else Decimal(n)[0] == 48 <==> n == 0
    ensures forall b :: b in Decimal(n) ==> IsDigit(b) || b == Minus
  {
    var m: nat := if n < 0 then -n else n;
    DigitsAreDigits(m);
    SignedValue(Digits(m), m);
  }

  lemma SignedValue(ds: Bytes, m: nat)
    requires ds != [] && DigitsValue(ds) == Some(m) && forall b :: b in ds ==> IsDigit(b)
    ensures PyInt(ds) == Some(m as int) && PyInt([Minus] + ds) == Some(-(m as int))
  {
    assert ds[0] in ds && ds[|ds| - 1] in ds;
    NothingToStrip(ds);
    NothingToStrip([Minus] + ds);
    assert ([Minus] + ds)[1..] == ds;
  }

  lemma NothingToStrip(t: Bytes)
    requires t != [] && !IsSpace(t[0]) && !IsSpace(t[|t| - 1])
    ensures StripRight(StripLeft(t)) == t
  {
  }

  // ---- what int() accepts ----

  /** Digits with single underscores between them. */
  ghost predicate Numeral(b: Bytes) {
    && b != [] && b[0] != 95 && b[|b| - 1] != 95
    && (forall i :: 0 <= i < |b| ==> 48 <= b[i] <= 57 || b[i] == 95)
    && (forall i, j :: 0 <= i < j < |b| && j == i + 1 ==> b[i] != 95 || b[j] != 95)
  }

  /** The decimal value of the digits, whatever underscores stand between them. */
  function Horner(b: Bytes): int {
    if b == [] then 0
    else if b[|b| - 1] == 95 then Horner(b[..|b| - 1])
    else 10 * Horner(b[..|b| - 1]) + (b[|b| - 1] as int - 48)
  }

  lemma {:induction false} DigitsValueExactly(b: Bytes)
    ensures DigitsValue(b).Some? <==> Numeral(b)
    ensures DigitsValue(b).Some? ==> DigitsValue(b).value == Horner(b)
    decreases |b|
  {
    if |b| == 1 {
      assert Horner(b[..0]) == 0;
    } else if |b| > 1 && b[|b| - 2] == 95 {
      DigitsValueExactly(b[..|b| - 2]);
      UnderscoreNumeral(b);
      assert b[..|b| - 1][..|b| - 2] == b[..|b| - 2];
    } else if |b| > 1 {
      DigitsValueExactly(b[..|b| - 1]);
      DigitNumeral(b);
    }
  }

  lemma UnderscoreNumeral(b: Bytes)
    requires |b| > 1 && b[|b| - 2] == 95
    ensures Numeral(b) <==> Numeral(b[..|b| - 2]) && IsDigit(b[|b| - 1])
  {
  }

  lemma DigitNumeral(b: Bytes)
    requires |b| > 1 && b[|b| - 2] != 95
    ensures Numeral(b) <==> Numeral(b[..|b| - 1]) && IsDigit(b[|b| - 1])
  {
  }

  ghost predicate Blank(b: Bytes) { forall i :: 0 <= i < |b| ==> 9 <= b[i] <= 13 || b[i] == 32 }

  lemma {:induction false} StripLeftExactly(b: Bytes) returns (lead: Bytes)
    ensures Blank(lead) && b == lead + StripLeft(b)
    ensures StripLeft(b) != [] ==> !Blank(StripLeft(b)[..1])
  {
    if b != [] && IsSpace(b[0]) {
      lead := StripLeftExactly(b[1..]);
      lead := [b[0]] + lead;
    } else {
      lead := [];
      if b != [] { assert b[..1][0] == b[0]; }
    }
  }

  lemma {:induction false} StripRightExactly(b: Bytes) returns (trail: Bytes)
    ensures Blank(trail) && b == StripRight(b) + trail
    ensures StripRight(b) != [] ==> !Blank(StripRight(b)[|StripRight(b)| - 1..])
  {
    if b != [] && IsSpace(b[|b| - 1]) {
      trail := StripRightExactly(b[..|b| - 1]);
      trail := trail + [b[|b| - 1]];
    } else {
      trail := [];
      if b != [] { assert b[|b| - 1..][0] == b[|b| - 1]; }
    }
  }

  /** int() looks at the bytes between leading and trailing whitespace: a sign at most, and
      then a numeral. */
  lemma PyIntExactly(b: Bytes) returns (lead: Bytes, core: Bytes, trail: Bytes)
    ensures b == lead + core + trail && Blank(lead) && Blank(trail)
    ensures core != [] ==> !Blank(core[..1]) && !Blank(core[|core| - 1..])
    ensures var body := if core != [] && (core[0] == 43 || core[0] == 45) then core[1..] else core;
      && (PyInt(b).Some? <==> Numeral(body))
      && (PyInt(b).Some? ==> PyInt(b).value == if core[0] == 45 then -Horner(body) else Horner(body))
  {
    lead := StripLeftExactly(b);
    trail := StripRightExactly(StripLeft(b));
    core := StripRight(StripLeft(b));
    if core != [] { assert core[..1] == StripLeft(b)[..1]; }
    DigitsValueExactly(if core != [] && (core[0] == 43 || core[0] == 45) then core[1..] else core);
  }

  // ---- lines ----

  /** The position of the first LF, or |p|. */
  function FindLf(p: Bytes): (i: nat)
    ensures i <= |p|
    ensures i < |p| ==> p[i] == LF
    ensures forall j :: 0 <= j < i ==> p[j] != LF
  {
    if p == [] || p[0] == LF then 0 else 1 + FindLf(p[1..])
  }

  datatype Line = Line(text: Bytes, rest: Bytes) | NoLine

  /** readline(): up to the first LF, which must follow a CR. A line with a bare LF is
      never complete: the read goes on until the connection closes. */
  function ReadLine(p: Bytes): (r: Line)
    ensures r.Line? ==> |r.rest| + 2 <= |p| && p == r.text + CRLF + r.rest
  {
    var i := FindLf(p);
    if 1 <= i < |p| && p[i - 1] == CR then Line(p[..i - 1], p[i + 1..]) else NoLine
  }

  lemma {:induction false} FindLfFirst(a: Bytes, rest: Bytes)
    requires LF !in a
    ensures FindLf(a + [LF] + rest) == |a|
  {
    var p := a + [LF] + rest;
    var i := FindLf(p);
    assert p[|a|] == LF;
    assert forall j :: 0 <= j < |a| ==> p[j] == a[j] && a[j] in a;
  }

  lemma ReadLineOf(text: Bytes, rest: Bytes)
    requires LF !in text
    ensures ReadLine(text + CRLF + rest) == Line(text, rest)
  {
    var p := text + CRLF + rest;
    assert p == (text + [CR]) + [LF] + rest;
    FindLfFirst(text + [CR], rest);
    assert p[..|text|] == text && p[|text| + 2..] == rest;
  }

  /** A line is complete at the first LF, and only if that follows a CR. */
  lemma ReadLineIff(p: Bytes, text: Bytes, rest: Bytes)
    ensures ReadLine(p) == Line(text, rest) <==> LF !in text && p == text + CRLF + rest
  {
    if LF !in text && p == text + CRLF + rest { ReadLineOf(text, rest); }
    if ReadLine(p) == Line(text, rest) {
      assert forall j :: 0 <= j < |text| ==> text[j] == p[j];
    }
  }

  // ---- the parser ----

  /** What read_response returns; simple strings and bulk strings both come out as bytes. */
  datatype Reply = Nil | Int(i: int) | Data(data: Bytes) | Error(line: Bytes) | List(items: seq<Reply>)

  datatype Failure =
    | Closed                 // the stream ends before the reply does, or an empty line
    | InvalidResponse
    | BadNumber
    | ConnectionRefused(line: Bytes)
    | NegativeLength         // a bulk length below -2: depends on what is buffered, see SocketBuffer

  datatype Parsed = Ok(reply: Reply, rest: Bytes) | Err(failure: Failure)
  datatype ParsedAll = OkAll(replies: seq<Reply>, rest: Bytes) | ErrAll(failure: Failure)

  function Ascii(s: string): (r: Bytes)
    ensures |r| == |s| && forall i :: 0 <= i < |s| && s[i] as int < 256 ==> r[i] == s[i] as int
  {
    seq(|s|, i requires 0 <= i < |s| => s[i] as int % 256)
  }

  function FirstWord(b: Bytes): Bytes {
    if b == [] || b[0] == 32 then [] else [b[0]] + FirstWord(b[1..])
  }

  /** parse_error: the errors that are ConnectionErrors are raised, the others returned. */
  predicate RefusesConnection(line: Bytes) {
    var code := FirstWord(line);
    || code == Ascii("LOADING") || code == Ascii("NOAUTH")
    || (code == Ascii("ERR") && |line| >= 4
        && (|| line[4..] == Ascii("max number of clients reached")
            || line[4..] == Ascii("Client sent AUTH, but no password is set")
            || line[4..] == Ascii("invalid password")))
  }

  function Parse(p: Bytes): (r: Parsed)
    ensures r.Ok? ==> |r.rest| < |p|
    decreases |p|, 0
  {
    match ReadLine(p)
    case NoLine => Err(Closed)
    case Line(raw, rest) =>
      if raw == [] then Err(Closed)
      else
        var body := raw[1..];
        if raw[0] == 45 then        // '-'
          if RefusesConnection(body) then Err(ConnectionRefused(body)) else Ok(Error(body), rest)
        else if raw[0] == 43 then   // '+'
          Ok(Data(body), rest)
        else if raw[0] == 58 then   // ':'
          match PyInt(body) { case None => Err(BadNumber) case Some(i) => Ok(Int(i), rest) }
        else if raw[0] == 36 then   // '$'
          match PyInt(body) {
            case None => Err(BadNumber)
            case Some(n) =>
              if n == -1 then Ok(Nil, rest)
              else if n < -2 then Err(NegativeLength)
              else if n + 2 > |rest| then Err(Closed)
              else Ok(Data(rest[..if n < 0 then 0 else n]), rest[n + 2..])
          }
        else if raw[0] == 42 then   // '*'
          match PyInt(body) {
            case None => Err(BadNumber)
            case Some(n) =>
              if n == -1 then Ok(Nil, rest)
              else
                match ParseAll(rest, if n < 0 then 0 else n)
                case ErrAll(f) => Err(f)
                case OkAll(items, rest') => Ok(List(items), rest')
          }
        else Err(InvalidResponse)
  }

  function ParseAll(p: Bytes, n: nat): (r: ParsedAll)
    ensures r.OkAll? ==> |r.rest| <= |p| && |r.replies| == n
    decreases |p|, n + 1
  {
    if n == 0 then OkAll([], p)
    else
      match Parse(p)
      case Err(f) => ErrAll(f)
      case Ok(reply, rest) =>
        match ParseAll(rest, n - 1)
        case ErrAll(f) => ErrAll(f)
        case OkAll(replies, rest') => OkAll([reply] + replies, rest')
  }

  // ---- the parser, reply by reply ----

  lemma {:induction false} FirstWordIff(b: Bytes, w: Bytes)
    requires 32 !in w
    ensures FirstWord(b) == w <==> b == w || (|b| > |w| && b[..|w|] == w && b[|w|] == 32)
  {
    if b != [] && b[0] != 32 && w != [] {
      FirstWordIff(b[1..], w[1..]);
      assert b == [b[0]] + b[1..] && w == [w[0]] + w[1..];
      if |b| > |w| { assert b[..|w|] == [b[0]] + b[1..][..|w| - 1]; }
    }
  }

  /** The line is the code alone, or the code and a space before anything else. */
  ghost predicate Coded(line: Bytes, code: Bytes) {
    line == code || (|line| > |code| && line[..|code|] == code && line[|code|] == 32)
  }

  /** Which error lines are raised as connection errors; every other one is returned. */
  lemma RefusesIff(line: Bytes)
    ensures RefusesConnection(line) <==>
      || Coded(line, Ascii("LOADING")) || Coded(line, Ascii("NOAUTH"))
      || line == Ascii("ERR ") + Ascii("max number of clients reached")
      || line == Ascii("ERR ") + Ascii("Client sent AUTH, but no password is set")
      || line == Ascii("ERR ") + Ascii("invalid password")
  {
    FirstWordIff(line, Ascii("LOADING"));
    FirstWordIff(line, Ascii("NOAUTH"));
    FirstWordIff(line, Ascii("ERR"));
    ErrLine(line, Ascii("max number of clients reached"));
    ErrLine(line, Ascii("Client sent AUTH, but no password is set"));
    ErrLine(line, Ascii("invalid password"));
  }

  lemma ErrLine(line: Bytes, text: Bytes)
    ensures Coded(line, Ascii("ERR")) && |line| >= 4 && line[4..] == text <==> line == Ascii("ERR ") + text
  {
    assert Ascii("ERR ") == Ascii("ERR") + [32];
    if |line| >= 4 { assert line == line[..3] + [line[3]] + line[4..]; }
  }

  lemma ErrorReplies(line: Bytes, rest: Bytes)
    requires LF !in line
    ensures Parse([45] + line + CRLF + rest) ==
      if RefusesConnection(line) then Err(ConnectionRefused(line)) else Ok(Error(line), rest)
  {
    HeaderLine(45, line, rest);
  }

  lemma BulkLine(p: Bytes, header: Bytes, rest: Bytes)
    requires ReadLine(p) == Line([36] + header, rest) && ([36] + header)[1..] == header
    ensures var r := Parse(p);
      match PyInt(header)
      case None => r == Err(BadNumber)
      case Some(n) =>
        if n < -2 then r == Err(NegativeLength)
        else if n == -1 then r == Ok(Nil, rest)
        else if |rest| < n + 2 then r == Err(Closed)
        else r == Ok(Data(if n == -2 then [] else rest[..n]), rest[n + 2..])
  {
  }

  /** Bulk replies, the malformed ones included. */
  lemma BulkReplies(header: Bytes, rest: Bytes)
    requires LF !in header
    ensures var r := Parse([36] + header + CRLF + rest);
      match PyInt(header)
      case None => r == Err(BadNumber)
      case Some(n) =>
        if n < -2 then r == Err(NegativeLength)
        else if n == -1 then r == Ok(Nil, rest)
        else if |rest| < n + 2 then r == Err(Closed)
        else r == Ok(Data(if n == -2 then [] else rest[..n]), rest[n + 2..])
  {
    HeaderLine(36, header, rest);
    BulkLine([36] + header + CRLF + rest, header, rest);
  }

  /** Array replies: a count of -1 is nil, a smaller one is an empty list. */
  lemma ArrayReplies(header: Bytes, rest: Bytes)
    requires LF !in header
    ensures var r := Parse([42] + header + CRLF + rest);
      match PyInt(header)
      case None => r == Err(BadNumber)
      case Some(n) =>
        if n == -1 then r == Ok(Nil, rest)
        else if n <= 0 then r == Ok(List([]), rest)
        else match ParseAll(rest, n)
          case ErrAll(f) => r == Err(f)
          case OkAll(items, left) => r == Ok(List(items), left)
  {
    HeaderLine(42, header, rest);
  }

  /** The items are parsed one after the other, and the first failure ends it. */
  lemma ItemsInOrder(p: Bytes, n: nat)
    ensures n == 0 ==> ParseAll(p, n) == OkAll([], p)
    ensures n > 0 && Parse(p).Err? ==> ParseAll(p, n) == ErrAll(Parse(p).failure)
    ensures n > 0 && Parse(p).Ok? ==>
      var more := ParseAll(Parse(p).rest, n - 1);
      ParseAll(p, n) == if more.ErrAll? then more else OkAll([Parse(p).reply] + more.replies, more.rest)
  {
  }

  /** The other replies, and what is not a reply at all. */
  lemma OtherReplies(tag: Byte, text: Bytes, rest: Bytes)
    requires LF !in text && tag != LF && tag != 45 && tag != 36 && tag != 42
    ensures var r := Parse([tag] + text + CRLF + rest);
      if tag == 43 then r == Ok(Data(text), rest)
      else if tag == 58 then r == if PyInt(text).Some? then Ok(Int(PyInt(text).value), rest) else Err(BadNumber)
      else r == Err(InvalidResponse)
  {
    HeaderLine(tag, text, rest);
  }

  lemma NoReply(p: Bytes)
    requires forall text, rest :: text != [] && LF !in text ==> p != text + CRLF + rest
    ensures Parse(p) == Err(Closed)
  {
    match ReadLine(p)
    case NoLine =>
    case Line(text, rest) => ReadLineIff(p, text, rest);
  }

  // ---- canonical encodings ----

  datatype Value =
    | NullBulk | NullArray
    | Integer(i: int)
    | Bulk(data: Bytes)
    | Simple(line: Bytes)
    | Failed(line: Bytes)
    | Array(items: seq<Value>)

  function Encode(v: Value): Bytes {
    match v
    case NullBulk => [36] + Decimal(-1) + CRLF
    case NullArray => [42] + Decimal(-1) + CRLF
    case Integer(i) => [58] + Decimal(i) + CRLF
    case Bulk(data) => [36] + Decimal(|data|) + CRLF + (data + CRLF)
    case Simple(line) => [43] + line + CRLF
    case Failed(line) => [45] + line + CRLF
    case Array(items) => [42] + Decimal(|items|) + CRLF + EncodeAll(items)
  }

  function EncodeAll(vs: seq<Value>): Bytes {
    if vs == [] then [] else Encode(vs[0]) + EncodeAll(vs[1..])
  }

  function Meaning(v: Value): Reply {
    match v
    case NullBulk => Nil
    case NullArray => Nil
    case Integer(i) => Int(i)
    case Bulk(data) => Data(data)
    case Simple(line) => Data(line)
    case Failed(line) => Error(line)
    case Array(items) => List(Meanings(items))
  }

  function Meanings(vs: seq<Value>): seq<Reply> {
    if vs == [] then [] else [Meaning(vs[0])] + Meanings(vs[1..])
  }

  /** Lines hold no LF; bulk strings hold anything. An error line that the client
      raises as a connection error is not a value. */
  predicate WellFormed(v: Value) {
    match v
    case Simple(line) => LF !in line
    case Failed(line) => LF !in line && !RefusesConnection(line)
    case Array(items) => AllWellFormed(items)
    case _ => true
  }

  predicate AllWellFormed(vs: seq<Value>) {
    vs == [] || (WellFormed(vs[0]) && AllWellFormed(vs[1..]))
  }

  /** The first line of an encoding is read back as it was written. */
  lemma HeaderLine(tag: Byte, text: Bytes, rest: Bytes)
    requires LF !in text && tag != LF
    ensures ReadLine([tag] + text + CRLF + rest) == Line([tag] + text, rest)
    ensures ([tag] + text)[1..] == text
  {
    assert forall b :: b in [tag] + text ==> b == tag || b in text;
    ReadLineOf([tag] + text, rest);
  }

  lemma NumberLine(tag: Byte, n: int, rest: Bytes)
    requires tag != LF
    ensures ReadLine([tag] + Decimal(n) + CRLF + rest) == Line([tag] + Decimal(n), rest)
    ensures ([tag] + Decimal(n))[1..] == Decimal(n) && PyInt(Decimal(n)) == Some(n)
  {
    DecimalRoundTrip(n);
    HeaderLine(tag, Decimal(n), rest);
  }

  /** Parsing the encoding of a value followed by anything gives the value and leaves
      exactly what followed. */
  lemma {:induction false} RoundTrip(v: Value, rest: Bytes)
    requires WellFormed(v)
    ensures Parse(Encode(v) + rest) == Ok(Meaning(v), rest)
    decreases v, 1
  {
    match v
    case NullBulk => NullRoundTrip(v, rest);
    case NullArray => NullRoundTrip(v, rest);
    case Integer(i) => IntegerRoundTrip(i, rest);
    case Bulk(data) => BulkRoundTrip(data, rest);
    case Simple(line) => LineRoundTrip(v, rest);
    case Failed(line) => LineRoundTrip(v, rest);
    case Array(items) =>
      RoundTripAll(items, rest);
      ArrayRoundTrip(items, rest);
  }

  lemma NullRoundTrip(v: Value, rest: Bytes)
    requires v.NullBulk? || v.NullArray?
    ensures Parse(Encode(v) + rest) == Ok(Nil, rest)
  {
    NumberLine(if v.NullBulk? then 36 else 42, -1, rest);
  }

  lemma IntegerRoundTrip(i: int, rest: Bytes)
    ensures Parse(Encode(Integer(i)) + rest) == Ok(Int(i), rest)
  {
    NumberLine(58, i, rest);
  }

  lemma LineRoundTrip(v: Value, rest: Bytes)
    requires WellFormed(v) && (v.Simple? || v.Failed?)
    ensures Parse(Encode(v) + rest) == Ok(Meaning(v), rest)
  {
    HeaderLine(if v.Simple? then 43 else 45, v.line, rest);
  }

  lemma ArrayRoundTrip(items: seq<Value>, rest: Bytes)
    requires ParseAll(EncodeAll(items) + rest, |items|) == OkAll(Meanings(items), rest)
    ensures Parse(Encode(Array(items)) + rest) == Ok(List(Meanings(items)), rest)
  {
    ArrayHeader(items, rest);
    CountedList(|items|, EncodeAll(items) + rest, Meanings(items), rest);
  }

  lemma ArrayHeader(items: seq<Value>, rest: Bytes)
    ensures Encode(Array(items)) + rest == [42] + Decimal(|items|) + CRLF + (EncodeAll(items) + rest)
  {
  }

  lemma CountedList(n: nat, tail: Bytes, replies: seq<Reply>, rest: Bytes)
    requires ParseAll(tail, n) == OkAll(replies, rest)
    ensures Parse([42] + Decimal(n) + CRLF + tail) == Ok(List(replies), rest)
  {
    DecimalRoundTrip(n);
    ArrayReplies(Decimal(n), tail);
  }

  lemma BulkRoundTrip(data: Bytes, rest: Bytes)
    ensures Parse(Encode(Bulk(data)) + rest) == Ok(Data(data), rest)
  {
    var tail := data + CRLF + rest;
    assert Encode(Bulk(data)) + rest == [36] + Decimal(|data|) + CRLF + tail;
    NumberLine(36, |data|, tail);
    assert tail[..|data|] == data && tail[|data| + 2..] == rest;
  }

  lemma {:induction false} RoundTripAll(vs: seq<Value>, rest: Bytes)
    requires AllWellFormed(vs)
    ensures ParseAll(EncodeAll(vs) + rest, |vs|) == OkAll(Meanings(vs), rest)
    decreases vs, 0
  {
    if vs == [] {
      assert EncodeAll(vs) + rest == rest;
    } else {
      assert EncodeAll(vs) + rest == Encode(vs[0]) + (EncodeAll(vs[1..]) + rest);
      RoundTrip(vs[0], EncodeAll(vs[1..]) + rest);
      RoundTripAll(vs[1..], rest);
    }
  }
}
