/** pack_command and pack_commands: the chunks they hand to the socket, joined, are the
    canonical encoding of the commands. */
module Packing {
  import opened Resp

  /** An encoded argument; `view` tells a memoryview, which is never copied into a join. */
  datatype Arg = Arg(data: Bytes, view: bool)

  function Join(pieces: seq<Arg>): Bytes {
    if pieces == [] then [] else Join(pieces[..|pieces| - 1]) + pieces[|pieces| - 1].data
  }

  lemma Assoc(a: Bytes, b: Bytes, c: Bytes)
    ensures a + b + c == a + (b + c)
  {
  }

  lemma JoinPush(pieces: seq<Arg>, p: Arg)
    ensures Join(pieces + [p]) == Join(pieces) + p.data
  {
    assert (pieces + [p])[..|pieces|] == pieces;
  }

  lemma {:induction false} JoinConcat(a: seq<Arg>, b: seq<Arg>)
    ensures Join(a + b) == Join(a) + Join(b)
  {
    if b == [] {
      assert a + b == a;
    } else {
      var init, last := b[..|b| - 1], b[|b| - 1];
      JoinConcat(a, init);
      JoinPush(a + init, last);
      SplitLast(a, b);
      Assoc(Join(a), Join(init), last.data);
    }
  }

  lemma SplitLast(a: seq<Arg>, b: seq<Arg>)
    requires b != []
    ensures a + b == a + b[..|b| - 1] + [b[|b| - 1]]
  {
  }

  function Bulks(args: seq<Arg>): seq<Value> {
    if args == [] then [] else Bulks(args[..|args| - 1]) + [Bulk(args[|args| - 1].data)]
  }

  /** A command on the wire is an array of bulk strings. */
  function Canonical(args: seq<Arg>): Bytes { Encode(Array(Bulks(args))) }

  lemma {:induction false} EncodeAllPush(vs: seq<Value>, v: Value)
    ensures EncodeAll(vs + [v]) == EncodeAll(vs) + Encode(v)
  {
    if vs == [] {
      assert vs + [v] == [v] && [v][1..] == [];
    } else {
      EncodeAllPush(vs[1..], v);
      assert (vs + [v])[1..] == vs[1..] + [v];
      Assoc(Encode(vs[0]), EncodeAll(vs[1..]), Encode(v));
    }
  }

  lemma {:induction false} BulksLength(args: seq<Arg>)
    ensures |Bulks(args)| == |args|
  {
    if args != [] { BulksLength(args[..|args| - 1]); }
  }

  /** The bytes of a command, argument by argument. */
  lemma CanonicalBytes(args: seq<Arg>, a: Arg)
    ensures Canonical(args) == [42] + Decimal(|args|) + [13, 10] + EncodeAll(Bulks(args))
    ensures EncodeAll(Bulks([])) == []
    ensures EncodeAll(Bulks(args + [a])) ==
      EncodeAll(Bulks(args)) + ([36] + Decimal(|a.data|) + [13, 10] + (a.data + [13, 10]))
  {
    BulksLength(args);
    assert (args + [a])[..|args|] == args;
    EncodeAllPush(Bulks(args), Bulk(a.data));
  }

  // ---- literal arguments in the command name ----

  function Word(b: Bytes): Bytes {
    if b == [] || IsSpace(b[0]) then [] else [b[0]] + Word(b[1..])
  }

  /** bytes.split(): the maximal runs of bytes that are not whitespace. */
  function Split(b: Bytes): (words: seq<Arg>)
    decreases |b|
  {
    if b == [] then []
    else if IsSpace(b[0]) then Split(b[1..])
    else
      var w := Word(b);
      WordPrefix(b);
      [Arg(w, false)] + Split(b[|w|..])
  }

  lemma {:induction false} WordPrefix(b: Bytes)
    ensures |Word(b)| <= |b| && Word(b) == b[..|Word(b)|]
    ensures b != [] && !IsSpace(b[0]) ==> |Word(b)| > 0
    ensures forall c :: c in Word(b) ==> !IsSpace(c)
    ensures |Word(b)| < |b| ==> IsSpace(b[|Word(b)|])
  {
    if b != [] && !IsSpace(b[0]) {
      WordPrefix(b[1..]);
    }
  }

  /** gap, word, gap, word, ..., gap */
  function Spread(gaps: seq<Bytes>, words: seq<Arg>): Bytes
    requires |gaps| == |words| + 1
  {
    if words == [] then gaps[0] else gaps[0] + (words[0].data + Spread(gaps[1..], words[1..]))
  }

  /** The words are the maximal runs of the name without whitespace: they are not empty,
      and only whitespace, at least one byte between two words, is left out. */
  ghost predicate Words(name: Bytes, words: seq<Arg>, gaps: seq<Bytes>) {
    && |gaps| == |words| + 1 && Spread(gaps, words) == name
    && (forall i, c :: 0 <= i < |gaps| && c in gaps[i] ==> 9 <= c <= 13 || c == 32)
    && (forall i :: 0 < i < |words| ==> gaps[i] != [])
    && (forall i :: 0 <= i < |words| ==> words[i].data != [] && !words[i].view)
    && (forall i, c :: 0 <= i < |words| && c in words[i].data ==> !(9 <= c <= 13) && c != 32)
  }

  lemma {:induction false} SplitWords(b: Bytes) returns (gaps: seq<Bytes>)
    ensures Words(b, Split(b), gaps)
    ensures b != [] && IsSpace(b[0]) ==> gaps[0] != []
    decreases |b|
  {
    if b == [] {
      gaps := [[]];
    } else if IsSpace(b[0]) {
      var later := SplitWords(b[1..]);
      assert b == [b[0]] + b[1..];
      gaps := WiderGap(b[0], b[1..], Split(b[1..]), later);
    } else {
      var w := Word(b);
      WordPrefix(b);
      var rest := b[|w|..];
      var later := SplitWords(rest);
      assert b == w + rest;
      if rest == [] { assert Split(rest) == []; }
      gaps := OneMoreWord(w, rest, Split(rest), later);
    }
  }

  lemma WiderGap(c: Byte, name: Bytes, words: seq<Arg>, gaps: seq<Bytes>) returns (gaps': seq<Bytes>)
    requires Words(name, words, gaps) && IsSpace(c)
    ensures Words([c] + name, words, gaps') && gaps'[0] != []
  {
    gaps' := [[c] + gaps[0]] + gaps[1..];
    if words != [] { Assoc([c], gaps[0], words[0].data + Spread(gaps[1..], words[1..])); }
  }

  lemma OneMoreWord(w: Bytes, name: Bytes, words: seq<Arg>, gaps: seq<Bytes>) returns (gaps': seq<Bytes>)
    requires Words(name, words, gaps) && (words != [] ==> gaps[0] != [])
    requires w != [] && forall c :: c in w ==> !IsSpace(c)
    ensures Words(w + name, [Arg(w, false)] + words, gaps')
  {
    gaps' := [[]] + gaps;
    assert gaps'[1..] == gaps && ([Arg(w, false)] + words)[1..] == words;
  }

  /** A str name is always split; a bytes name only when it holds a space. */
  function Expand(name: Bytes, isStr: bool, rest: seq<Arg>): seq<Arg> {
    (if isStr || 32 in name then Split(name) else [Arg(name, false)]) + rest
  }

  ghost predicate NameWords(name: Bytes, isStr: bool, words: seq<Arg>, gaps: seq<Bytes>) {
    if isStr || 32 in name then Words(name, words, gaps) else words == [Arg(name, false)]
  }

  lemma ExpandWords(name: Bytes, isStr: bool, rest: seq<Arg>) returns (words: seq<Arg>, gaps: seq<Bytes>)
    ensures Expand(name, isStr, rest) == words + rest && NameWords(name, isStr, words, gaps)
  {
    words := if isStr || 32 in name then Split(name) else [Arg(name, false)];
    gaps := SplitWords(name);
  }

  // ---- one command ----

  function Wire(arg: Arg): Bytes { [36] + Decimal(|arg.data|) + CRLF + (arg.data + CRLF) }

  lemma ChunkedOut(joined: Bytes, buff: Bytes, prefix: Bytes, data: Bytes)
    ensures joined + (buff + prefix) + data + CRLF == joined + buff + (prefix + (data + CRLF))
  {
    Assoc(joined, buff, prefix);
    Assoc(joined + buff + prefix, data, CRLF);
    Assoc(joined + buff, prefix, data + CRLF);
  }

  /** What is never copied into a join. */
  predicate Apart(arg: Arg, cutoff: nat) { |arg.data| > cutoff || arg.view }

  function Prefix(arg: Arg): Bytes { [36] + Decimal(|arg.data|) + CRLF }

  function Header(args: seq<Arg>): Bytes { [42] + Decimal(|args|) + CRLF }

  datatype Packed = Packed(output: seq<Arg>, buff: Bytes)

  /** Large values and memoryviews become chunks of their own, the rest is joined. */
  function AddArgument(p: Packed, arg: Arg, cutoff: nat): Packed {
    if |p.buff| > cutoff || Apart(arg, cutoff)
    then Packed(p.output + [Arg(p.buff + Prefix(arg), false)] + [arg], CRLF)
    else Packed(p.output, p.buff + (Prefix(arg) + (arg.data + CRLF)))
  }

  function AddArguments(header: Bytes, args: seq<Arg>, cutoff: nat): Packed {
    if args == [] then Packed([], header)
    else AddArgument(AddArguments(header, args[..|args| - 1], cutoff), args[|args| - 1], cutoff)
  }

  /** The chunks of one command. */
  function Chunks(args: seq<Arg>, cutoff: nat): seq<Arg> {
    var p := AddArguments(Header(args), args, cutoff);
    p.output + [Arg(p.buff, false)]
  }

  /** Output and buffer grow by exactly the argument's bulk encoding. */
  lemma AddArgumentJoin(p: Packed, arg: Arg, cutoff: nat)
    ensures var q := AddArgument(p, arg, cutoff); Join(q.output) + q.buff == Join(p.output) + p.buff + Wire(arg)
  {
    if |p.buff| > cutoff || Apart(arg, cutoff) {
      var head := Arg(p.buff + Prefix(arg), false);
      JoinPush(p.output, head);
      JoinPush(p.output + [head], arg);
      ChunkedOut(Join(p.output), p.buff, Prefix(arg), arg.data);
    } else {
      Assoc(Join(p.output), p.buff, Prefix(arg) + (arg.data + CRLF));
    }
  }

  lemma {:induction false} AddArgumentsJoin(header: Bytes, args: seq<Arg>, cutoff: nat)
    ensures var p := AddArguments(header, args, cutoff); Join(p.output) + p.buff == header + EncodeAll(Bulks(args))
  {
    if args == [] {
      assert Join([]) + header == header + [];
    } else {
      var init, arg := args[..|args| - 1], args[|args| - 1];
      AddArgumentsJoin(header, init, cutoff);
      AddArgumentJoin(AddArguments(header, init, cutoff), arg, cutoff);
      EncodeAllPush(Bulks(init), Bulk(arg.data));
      Assoc(header, EncodeAll(Bulks(init)), Wire(arg));
    }
  }

  /** For any cutoff the chunks, joined, are the canonical encoding. */
  lemma ChunksJoin(args: seq<Arg>, cutoff: nat)
    ensures Join(Chunks(args, cutoff)) == Canonical(args)
  {
    var p := AddArguments(Header(args), args, cutoff);
    AddArgumentsJoin(Header(args), args, cutoff);
    JoinPush(p.output, Arg(p.buff, false));
    BulksLength(args);
  }

  lemma {:induction false} AddArgumentsApart(header: Bytes, args: seq<Arg>, cutoff: nat, a: Arg)
    requires a in args && Apart(a, cutoff)
    ensures a in AddArguments(header, args, cutoff).output
  {
    var init, last := args[..|args| - 1], args[|args| - 1];
    var before, p := AddArguments(header, init, cutoff), AddArguments(header, args, cutoff);
    if last == a {
      assert p.output[|before.output| + 1] == a;
    } else {
      assert args == init + [last];
      AddArgumentsApart(header, init, cutoff, a);
      assert forall k :: 0 <= k < |before.output| ==> p.output[k] == before.output[k];
    }
  }

  /** A large value or a view is never copied: it is a chunk of its own. */
  lemma Uncopied(args: seq<Arg>, cutoff: nat, a: Arg)
    requires a in args && (|a.data| > cutoff || a.view)
    ensures a in Chunks(args, cutoff)
  {
    AddArgumentsApart(Header(args), args, cutoff, a);
  }

  /** A chunk that is not a large argument or a view is put together from the header, at
      most the cutoff's worth of small arguments and one more, and their length lines. */
  lemma {:induction false} BuffersBounded(header: Bytes, args: seq<Arg>, cutoff: nat, w: nat)
    requires |header| <= w && forall a :: a in args ==> |Prefix(a)| <= w
    ensures var p := AddArguments(header, args, cutoff);
      && |p.buff| <= 2 * cutoff + w + 2
      && forall k :: 0 <= k < |p.output| ==> p.output[k] in args || |p.output[k].data| <= 2 * cutoff + 2 * w + 2
  {
    if args != [] {
      var init, last := args[..|args| - 1], args[|args| - 1];
      assert args == init + [last];
      BuffersBounded(header, init, cutoff, w);
    }
  }

  /** With w above the lengths of the header and the length lines, no joined chunk of a
      command has more than 2 * cutoff + 2 * w + 2 bytes. */
  lemma ChunksBounded(args: seq<Arg>, cutoff: nat, w: nat)
    requires |Header(args)| <= w && forall a :: a in args ==> |Prefix(a)| <= w
    ensures forall c :: c in Chunks(args, cutoff) ==> c in args || |c.data| <= 2 * cutoff + 2 * w + 2
  {
    BuffersBounded(Header(args), args, cutoff, w);
  }

  // ---- what the server reads ----

  function Datas(args: seq<Arg>): seq<Reply> {
    if args == [] then [] else Datas(args[..|args| - 1]) + [Data(args[|args| - 1].data)]
  }

  lemma {:induction false} MeaningsPush(vs: seq<Value>, v: Value)
    ensures Meanings(vs + [v]) == Meanings(vs) + [Meaning(v)]
    ensures AllWellFormed(vs + [v]) <==> AllWellFormed(vs) && WellFormed(v)
  {
    if vs == [] {
      assert vs + [v] == [v] && [v][1..] == [];
    } else {
      MeaningsPush(vs[1..], v);
      assert (vs + [v])[1..] == vs[1..] + [v];
    }
  }

  lemma {:induction false} BulksMean(args: seq<Arg>)
    ensures Meanings(Bulks(args)) == Datas(args) && AllWellFormed(Bulks(args))
  {
    if args != [] {
      BulksMean(args[..|args| - 1]);
      MeaningsPush(Bulks(args[..|args| - 1]), Bulk(args[|args| - 1].data));
    }
  }

  lemma {:induction false} DatasAt(args: seq<Arg>)
    ensures |Datas(args)| == |args| && forall k :: 0 <= k < |args| ==> Datas(args)[k] == Data(args[k].data)
  {
    if args != [] { DatasAt(args[..|args| - 1]); }
  }

  /** Whatever the arguments hold, a RESP parser reads the packed command back as exactly
      those arguments, and stops exactly at its end. */
  lemma CommandReadsBack(args: seq<Arg>, rest: Bytes)
    ensures Parse(Canonical(args) + rest) == Ok(List(Datas(args)), rest)
  {
    BulksMean(args);
    RoundTrip(Array(Bulks(args)), rest);
  }

  datatype Command = Command(name: Bytes, isStr: bool, rest: seq<Arg>)

  /** The reply is the list of the words of the command's name and then its arguments. */
  ghost predicate Reads(c: Command, r: Reply) {
    exists words, gaps :: NameWords(c.name, c.isStr, words, gaps) && r.List? && ListsAll(words, c.rest, r.items)
  }

  ghost predicate ListsAll(words: seq<Arg>, rest: seq<Arg>, items: seq<Reply>) {
    && |items| == |words| + |rest|
    && (forall k :: 0 <= k < |words| ==> items[k] == Data(words[k].data))
    && (forall k :: 0 <= k < |rest| ==> items[|words| + k] == Data(rest[k].data))
  }

  lemma ExpandedReads(c: Command)
    ensures Reads(c, List(Datas(Expanded(c))))
  {
    var words, gaps := ExpandWords(c.name, c.isStr, c.rest);
    DatasAt(words + c.rest);
    assert ListsAll(words, c.rest, Datas(words + c.rest));
  }

  function Expanded(c: Command): seq<Arg> { Expand(c.name, c.isStr, c.rest) }

  lemma AddNext(header: Bytes, args: seq<Arg>, i: nat, cutoff: nat)
    requires i < |args|
    ensures AddArguments(header, args[..i + 1], cutoff) == AddArgument(AddArguments(header, args[..i], cutoff), args[i], cutoff)
  {
    assert args[..i + 1][..i] == args[..i];
  }

  lemma ReadBackAs(c: Command) returns (reply: Reply)
    ensures Reads(c, reply)
    ensures forall more :: Parse(Canonical(Expanded(c)) + more) == Ok(reply, more)
  {
    reply := List(Datas(Expanded(c)));
    ExpandedReads(c);
    forall more ensures Parse(Canonical(Expanded(c)) + more) == Ok(reply, more) {
      CommandReadsBack(Expanded(c), more);
    }
  }

  /** Whatever follows it on the wire, the output is read back as the words of the name
      followed by the arguments. */
  method PackCommand(name: Bytes, isStr: bool, rest: seq<Arg>, cutoff: nat) returns (output: seq<Arg>, ghost reply: Reply)
    ensures output == Chunks(Expand(name, isStr, rest), cutoff)
    ensures Join(output) == Canonical(Expand(name, isStr, rest))
    ensures Reads(Command(name, isStr, rest), reply)
    ensures forall more :: Parse(Join(output) + more) == Ok(reply, more)
  {
    var args := Expand(name, isStr, rest);
    output := [];
    var buff := [42] + Decimal(|args|) + CRLF;
    var i := 0;
    assert args[..0] == [];
    while i < |args|
      invariant 0 <= i <= |args|
      invariant Packed(output, buff) == AddArguments(Header(args), args[..i], cutoff)
    {
      var arg := args[i];
      AddNext(Header(args), args, i, cutoff);
      if |buff| > cutoff || |arg.data| > cutoff || arg.view {
        buff := buff + ([36] + Decimal(|arg.data|) + CRLF);
        output := output + [Arg(buff, false)];
        output := output + [arg];
        buff := CRLF;
      } else {
        buff := buff + ([36] + Decimal(|arg.data|) + CRLF + (arg.data + CRLF));
      }
      i := i + 1;
    }
    output := output + [Arg(buff, false)];
    assert args[..|args|] == args;
    ChunksJoin(args, cutoff);
    reply := ReadBackAs(Command(name, isStr, rest));
  }

  // ---- several commands ----

  function CanonicalAll(commands: seq<Command>): Bytes {
    if commands == [] then [] else CanonicalAll(commands[..|commands| - 1]) + Canonical(Expanded(commands[|commands| - 1]))
  }

  function Replies(commands: seq<Command>): seq<Reply> {
    if commands == [] then []
    else Replies(commands[..|commands| - 1]) + [List(Datas(Expanded(commands[|commands| - 1])))]
  }

  lemma {:induction false} RepliesRead(commands: seq<Command>)
    ensures |Replies(commands)| == |commands|
    ensures forall i :: 0 <= i < |commands| ==> Reads(commands[i], Replies(commands)[i])
  {
    if commands != [] {
      RepliesRead(commands[..|commands| - 1]);
      ExpandedReads(commands[|commands| - 1]);
    }
  }

  function Arrays(commands: seq<Command>): seq<Value> {
    if commands == [] then []
    else Arrays(commands[..|commands| - 1]) + [Array(Bulks(Expanded(commands[|commands| - 1])))]
  }

  lemma {:induction false} ArraysMean(commands: seq<Command>)
    ensures EncodeAll(Arrays(commands)) == CanonicalAll(commands) && |Arrays(commands)| == |commands|
    ensures Meanings(Arrays(commands)) == Replies(commands) && AllWellFormed(Arrays(commands))
  {
    if commands != [] {
      var init, args := commands[..|commands| - 1], Expanded(commands[|commands| - 1]);
      ArraysMean(init);
      BulksMean(args);
      EncodeAllPush(Arrays(init), Array(Bulks(args)));
      MeaningsPush(Arrays(init), Array(Bulks(args)));
    }
  }

  /** A RESP parser reads the commands back one after the other. */
  lemma CommandsReadBack(commands: seq<Command>, rest: Bytes)
    ensures ParseAll(CanonicalAll(commands) + rest, |commands|) == OkAll(Replies(commands), rest)
  {
    ArraysMean(commands);
    RoundTripAll(Arrays(commands), rest);
  }

  /** The chunks of all commands, in order. */
  function AllChunks(commands: seq<Command>, cutoff: nat): seq<Arg> {
    if commands == [] then []
    else AllChunks(commands[..|commands| - 1], cutoff) + Chunks(Expanded(commands[|commands| - 1]), cutoff)
  }

  lemma {:induction false} AllChunksJoin(commands: seq<Command>, cutoff: nat)
    ensures Join(AllChunks(commands, cutoff)) == CanonicalAll(commands)
  {
    if commands != [] {
      var init, last := commands[..|commands| - 1], commands[|commands| - 1];
      AllChunksJoin(init, cutoff);
      ChunksJoin(Expanded(last), cutoff);
      JoinConcat(AllChunks(init, cutoff), Chunks(Expanded(last), cutoff));
    }
  }

  lemma AllChunksNext(commands: seq<Command>, i: nat, cutoff: nat)
    requires i < |commands|
    ensures AllChunks(commands[..i + 1], cutoff) ==
      AllChunks(commands[..i], cutoff) + Chunks(Expanded(commands[i]), cutoff)
  {
    assert commands[..i + 1][..i] == commands[..i];
  }

  function Flatten(groups: seq<seq<Arg>>): seq<Arg> {
    if groups == [] then [] else Flatten(groups[..|groups| - 1]) + groups[|groups| - 1]
  }

  lemma FlattenPush(groups: seq<seq<Arg>>, g: seq<Arg>)
    ensures Flatten(groups + [g]) == Flatten(groups) + g
  {
    assert (groups + [g])[..|groups|] == groups;
  }

  ghost predicate Small(pieces: seq<Arg>, cutoff: nat) {
    |Join(pieces)| <= 2 * cutoff && forall c :: c in pieces ==> |c.data| <= cutoff && !c.view
  }

  /** A piece is the join of a group of small chunks, and has at most twice the cutoff, or
      it is a single chunk that is large or a view. */
  ghost predicate Piece(piece: Arg, group: seq<Arg>, cutoff: nat) {
    || (piece == Arg(Join(group), false) && Small(group, cutoff))
    || (group == [piece] && (|piece.data| > cutoff || piece.view))
  }

  ghost predicate Grouped(output: seq<Arg>, groups: seq<seq<Arg>>, cutoff: nat) {
    |groups| == |output| && forall j :: 0 <= j < |output| ==> Piece(output[j], groups[j], cutoff)
  }

  lemma GroupedPush(output: seq<Arg>, groups: seq<seq<Arg>>, cutoff: nat, piece: Arg, group: seq<Arg>)
    requires Grouped(output, groups, cutoff) && Piece(piece, group, cutoff)
    ensures Grouped(output + [piece], groups + [group], cutoff)
    ensures Flatten(groups + [group]) == Flatten(groups) + group
  {
    FlattenPush(groups, group);
  }

  lemma {:induction false} GroupedJoin(output: seq<Arg>, groups: seq<seq<Arg>>, cutoff: nat)
    requires Grouped(output, groups, cutoff)
    ensures Join(output) == Join(Flatten(groups))
  {
    if output != [] {
      var n := |output| - 1;
      GroupedJoin(output[..n], groups[..n], cutoff);
      JoinConcat(Flatten(groups[..n]), groups[n]);
      JoinAlone(output[n], groups[n], cutoff);
    }
  }

  lemma JoinAlone(piece: Arg, group: seq<Arg>, cutoff: nat)
    requires Piece(piece, group, cutoff)
    ensures Join(group) == piece.data
  {
    if group == [piece] {
      JoinPush([], piece);
      assert [] + [piece] == group;
    }
  }

  lemma SmallPush(pieces: seq<Arg>, chunk: Arg, cutoff: nat)
    requires Small(pieces, cutoff) && |Join(pieces)| <= cutoff && !Apart(chunk, cutoff)
    ensures Small(pieces + [chunk], cutoff) && |Join(pieces + [chunk])| == |Join(pieces)| + |chunk.data|
  {
    JoinPush(pieces, chunk);
  }

  /** One turn of the inner loop. */
  method PackChunk(output: seq<Arg>, ghost groups: seq<seq<Arg>>, pieces: seq<Arg>, bufferLength: nat, chunk: Arg, cutoff: nat)
      returns (output': seq<Arg>, ghost groups': seq<seq<Arg>>, pieces': seq<Arg>, bufferLength': nat)
    requires Grouped(output, groups, cutoff) && Small(pieces, cutoff) && bufferLength == |Join(pieces)|
    ensures Grouped(output', groups', cutoff) && Small(pieces', cutoff) && bufferLength' == |Join(pieces')|
    ensures Flatten(groups') + pieces' == Flatten(groups) + pieces + [chunk]
  {
    output', groups', pieces', bufferLength' := output, groups, pieces, bufferLength;
    if bufferLength > cutoff || |chunk.data| > cutoff || chunk.view {
      GroupedPush(output, groups, cutoff, Arg(Join(pieces), false), pieces);
      output', groups' := output + [Arg(Join(pieces), false)], groups + [pieces];
      pieces', bufferLength' := [], 0;
    }
    assert Flatten(groups') + pieces' == Flatten(groups) + pieces;
    if |chunk.data| > cutoff || chunk.view {
      GroupedPush(output', groups', cutoff, chunk, [chunk]);
      output', groups' := output' + [chunk], groups' + [[chunk]];
    } else {
      SmallPush(pieces', chunk, cutoff);
      AssocArgs(Flatten(groups'), pieces', [chunk]);
      pieces', bufferLength' := pieces' + [chunk], bufferLength' + |chunk.data|;
    }
  }

  lemma AssocArgs(a: seq<Arg>, b: seq<Arg>, c: seq<Arg>)
    ensures a + b + c == a + (b + c)
  {
  }

  /** The loop over the chunks of one command. */
  method PackChunks(output: seq<Arg>, ghost groups: seq<seq<Arg>>, pieces: seq<Arg>, bufferLength: nat, chunks: seq<Arg>, cutoff: nat)
      returns (output': seq<Arg>, ghost groups': seq<seq<Arg>>, pieces': seq<Arg>, bufferLength': nat)
    requires Grouped(output, groups, cutoff) && Small(pieces, cutoff) && bufferLength == |Join(pieces)|
    ensures Grouped(output', groups', cutoff) && Small(pieces', cutoff) && bufferLength' == |Join(pieces')|
    ensures Flatten(groups') + pieces' == Flatten(groups) + pieces + chunks
  {
    output', groups', pieces', bufferLength' := output, groups, pieces, bufferLength;
    ghost var before := Flatten(groups) + pieces;
    var k := 0;
    assert chunks[..0] == [] && before + [] == before;
    while k < |chunks|
      invariant 0 <= k <= |chunks|
      invariant Flatten(groups') + pieces' == before + chunks[..k]
      invariant Grouped(output', groups', cutoff) && Small(pieces', cutoff) && bufferLength' == |Join(pieces')|
    {
      assert chunks[..k + 1] == chunks[..k] + [chunks[k]];
      AssocArgs(before, chunks[..k], [chunks[k]]);
      output', groups', pieces', bufferLength' := PackChunk(output', groups', pieces', bufferLength', chunks[k], cutoff);
      k := k + 1;
    }
    assert chunks[..|chunks|] == chunks;
  }

  /** The output, piece by piece, is a grouping of the chunks of all commands. */
  method PackCommands(commands: seq<Command>, cutoff: nat)
      returns (output: seq<Arg>, ghost groups: seq<seq<Arg>>, ghost replies: seq<Reply>)
    ensures Grouped(output, groups, cutoff) && Flatten(groups) == AllChunks(commands, cutoff)
    ensures Join(output) == CanonicalAll(commands)
    ensures |replies| == |commands| && forall i :: 0 <= i < |commands| ==> Reads(commands[i], replies[i])
    ensures forall more :: ParseAll(Join(output) + more, |commands|) == OkAll(replies, more)
  {
    output, groups := [], [];
    var pieces: seq<Arg>, bufferLength := [], 0;
    var i := 0;
    while i < |commands|
      invariant 0 <= i <= |commands|
      invariant Flatten(groups) + pieces == AllChunks(commands[..i], cutoff)
      invariant Grouped(output, groups, cutoff) && Small(pieces, cutoff) && bufferLength == |Join(pieces)|
    {
      var cmd := commands[i];
      AllChunksNext(commands, i, cutoff);
      var chunks, _ := PackCommand(cmd.name, cmd.isStr, cmd.rest, cutoff);
      AssocArgs(Flatten(groups), pieces, chunks);
      output, groups, pieces, bufferLength := PackChunks(output, groups, pieces, bufferLength, chunks, cutoff);
      i := i + 1;
    }
    assert pieces == [] ==> Flatten(groups) + pieces == Flatten(groups);
    if pieces != [] {
      GroupedPush(output, groups, cutoff, Arg(Join(pieces), false), pieces);
      output, groups := output + [Arg(Join(pieces), false)], groups + [pieces];
    }
    assert commands[..|commands|] == commands;
    AllChunksJoin(commands, cutoff);
    GroupedJoin(output, groups, cutoff);
    replies := Replies(commands);
    RepliesRead(commands);
    forall more ensures ParseAll(CanonicalAll(commands) + more, |commands|) == OkAll(replies, more) {
      CommandsReadBack(commands, more);
    }
  }
}
