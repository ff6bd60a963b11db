/** Pipeline._execute_transaction: locally answered commands stay out of the batch, and
    every result still ends up at its command's position. */
module Transaction {
  type Payload = int

  /** A result: a value, or an exception instance standing in its place. */
  datatype Result = Value(value: Payload) | Exception(error: Payload)

  datatype Option<+T> = None | Some(value: T)

  /** `local` is the EMPTY_RESPONSE option: an answer that needs no round trip. */
  datatype Command = Command(args: Payload, local: Option<Result>)

  /** How the server answers a command sent inside MULTI, or MULTI itself. */
  datatype Queued = Accepted | Rejected(error: Payload)

  datatype Exec = Aborted(error: Payload) | WatchFailed | Results(results: seq<Result>)

  datatype Outcome =
    | Returned(results: seq<Result>)
    | RaisedFirst(first: Result)          // the first entry of `errors`
    | RaisedAbort(error: Payload)
    | RaisedWatch
    | RaisedCount                         // "Wrong number of response items"
    | RaisedResult(index: nat, error: Payload)

  // ---- which results do not come from EXEC ----

  function SentCount(commands: seq<Command>): nat {
    if commands == [] then 0
    else SentCount(commands[..|commands| - 1]) + if commands[|commands| - 1].local.Some? then 0 else 1
  }

  /** For each command its result if EXEC has none: the local answer, or the error with
      which it was rejected. `queued` are the answers to the sent commands, in order. */
  function Absent(commands: seq<Command>, queued: seq<Queued>): seq<Option<Result>>
    requires |queued| == SentCount(commands)
  {
    if commands == [] then []
    else
      var init, c := commands[..|commands| - 1], commands[|commands| - 1];
      if c.local.Some? then Absent(init, queued) + [c.local]
      else
        var q := queued[|queued| - 1];
        Absent(init, queued[..|queued| - 1]) + [if q.Rejected? then Some(Exception(q.error)) else None]
  }

  lemma {:induction false} AbsentLength(commands: seq<Command>, queued: seq<Queued>)
    requires |queued| == SentCount(commands)
    ensures |Absent(commands, queued)| == |commands|
    decreases |commands|
  {
    if commands != [] {
      var init, c := commands[..|commands| - 1], commands[|commands| - 1];
      AbsentLength(init, if c.local.Some? then queued else queued[..|queued| - 1]);
    }
  }

  /** How many of the entries EXEC has to answer. */
  function Present(absent: seq<Option<Result>>): nat {
    if absent == [] then 0
    else Present(absent[..|absent| - 1]) + if absent[|absent| - 1].None? then 1 else 0
  }

  // ---- the aligned response ----

  /** Each absent result at its place, the results of EXEC in order in between. */
  function Merge(absent: seq<Option<Result>>, results: seq<Result>): seq<Result>
    requires |results| == Present(absent)
  {
    if absent == [] then []
    else
      var init, a := absent[..|absent| - 1], absent[|absent| - 1];
      if a.Some? then Merge(init, results) + [a.value]
      else Merge(init, results[..|results| - 1]) + [results[|results| - 1]]
  }

  lemma {:induction false} PresentPrefix(absent: seq<Option<Result>>, j: nat)
    requires j < |absent|
    ensures Present(absent[..j]) <= Present(absent)
    ensures absent[j].None? ==> Present(absent[..j]) < Present(absent)
    decreases |absent|
  {
    var init := absent[..|absent| - 1];
    if j < |init| {
      PresentPrefix(init, j);
      assert init[..j] == absent[..j];
    }
  }

  /** The j-th entry of the merge belongs to the j-th command: its own absent result, or
      the EXEC result with as many before it as there are answered commands before it. */
  lemma {:induction false} MergeAligned(absent: seq<Option<Result>>, results: seq<Result>, j: nat)
    requires |results| == Present(absent) && j < |absent|
    ensures |Merge(absent, results)| == |absent|
    ensures absent[j].Some? ==> Merge(absent, results)[j] == absent[j].value
    ensures absent[j].None? ==>
      Present(absent[..j]) < |results| && Merge(absent, results)[j] == results[Present(absent[..j])]
    decreases |absent|
  {
    var init, a := absent[..|absent| - 1], absent[|absent| - 1];
    var rest := if a.Some? then results else results[..|results| - 1];
    MergeLength(init, rest);
    PresentPrefix(absent, j);
    if j < |init| {
      MergeAligned(init, rest, j);
      assert init[..j] == absent[..j];
    }
  }

  lemma {:induction false} MergeLength(absent: seq<Option<Result>>, results: seq<Result>)
    requires |results| == Present(absent)
    ensures |Merge(absent, results)| == |absent|
    decreases |absent|
  {
    if absent != [] {
      var a := absent[|absent| - 1];
      MergeLength(absent[..|absent| - 1], if a.Some? then results else results[..|results| - 1]);
    }
  }

  // ---- inserting at ascending indices ----

  /** list.insert: an index past the end appends. */
  function Insert(l: seq<Result>, i: nat, x: Result): seq<Result> {
    if i <= |l| then l[..i] + [x] + l[i..] else l + [x]
  }

  function InsertAll(l: seq<Result>, errors: seq<(nat, Result)>): seq<Result> {
    if errors == [] then l
    else
      var (i, x) := errors[|errors| - 1];
      Insert(InsertAll(l, errors[..|errors| - 1]), i, x)
  }

  /** The list `errors` that the loop over the commands builds. */
  function ErrorsOf(absent: seq<Option<Result>>): seq<(nat, Result)> {
    if absent == [] then []
    else
      var m := |absent| - 1;
      if absent[m].Some? then ErrorsOf(absent[..m]) + [(m, absent[m].value)] else ErrorsOf(absent[..m])
  }

  /** No insertion falls past the end of the list as it is then. */
  predicate InRange(n: nat, errors: seq<(nat, Result)>) {
    forall k :: 0 <= k < |errors| ==> errors[k].0 <= n + k
  }

  lemma {:induction false} InsertAllLength(l: seq<Result>, errors: seq<(nat, Result)>)
    ensures |InsertAll(l, errors)| == |l| + |errors|
  {
    if errors != [] {
      var init, last := errors[..|errors| - 1], errors[|errors| - 1];
      InsertAllLength(l, init);
      InsertLength(InsertAll(l, init), last.0, last.1);
    }
  }

  lemma InsertLength(l: seq<Result>, i: nat, x: Result)
    ensures |Insert(l, i, x)| == |l| + 1
  {
  }

  lemma {:induction false} ErrorsCount(absent: seq<Option<Result>>)
    ensures |ErrorsOf(absent)| + Present(absent) == |absent|
    ensures InRange(Present(absent), ErrorsOf(absent))
  {
    if absent != [] { ErrorsCount(absent[..|absent| - 1]); }
  }

  lemma {:induction false} InsertBefore(l: seq<Result>, x: Result, errors: seq<(nat, Result)>)
    requires InRange(|l|, errors)
    ensures InsertAll(l + [x], errors) == InsertAll(l, errors) + [x]
  {
    if errors != [] {
      var init := errors[..|errors| - 1];
      InsertBefore(l, x, init);
      InsertAllLength(l, init);
      InsertInside(InsertAll(l, init), x, errors[|errors| - 1].0, errors[|errors| - 1].1);
    }
  }

  lemma InsertInside(l: seq<Result>, x: Result, i: nat, y: Result)
    requires i <= |l|
    ensures Insert(l + [x], i, y) == Insert(l, i, y) + [x]
  {
    assert (l + [x])[i..] == l[i..] + [x];
  }

  /** Inserting the absent results at their ascending original indices, every index in
      range, aligns the response. */
  lemma {:induction false} InsertionsAlign(absent: seq<Option<Result>>, results: seq<Result>)
    requires |results| == Present(absent)
    ensures InsertAll(results, ErrorsOf(absent)) == Merge(absent, results)
    ensures InRange(|results|, ErrorsOf(absent))
    decreases |absent|
  {
    ErrorsCount(absent);
    if absent != [] {
      var init, a := absent[..|absent| - 1], absent[|absent| - 1];
      if a.Some? {
        InsertionsAlign(init, results);
        AlignAbsent(absent, results);
      } else {
        InsertionsAlign(init, results[..|results| - 1]);
        AlignPresent(absent, results);
      }
    }
  }

  lemma AlignAbsent(absent: seq<Option<Result>>, results: seq<Result>)
    requires absent != [] && absent[|absent| - 1].Some? && |results| == Present(absent[..|absent| - 1])
    requires InsertAll(results, ErrorsOf(absent[..|absent| - 1])) == Merge(absent[..|absent| - 1], results)
    ensures |results| == Present(absent) && InsertAll(results, ErrorsOf(absent)) == Merge(absent, results)
  {
    var init, a := absent[..|absent| - 1], absent[|absent| - 1];
    MergeLength(init, results);
    InsertAtEnd(results, ErrorsOf(init), |init|, a.value);
  }

  lemma AlignPresent(absent: seq<Option<Result>>, results: seq<Result>)
    requires absent != [] && absent[|absent| - 1].None? && |results| == Present(absent)
    requires InsertAll(results[..|results| - 1], ErrorsOf(absent[..|absent| - 1]))
          == Merge(absent[..|absent| - 1], results[..|results| - 1])
    ensures InsertAll(results, ErrorsOf(absent)) == Merge(absent, results)
  {
    var init, rest := absent[..|absent| - 1], results[..|results| - 1];
    MergePresent(absent, results);
    ErrorsCount(init);
    InsertBeforeLast(results, ErrorsOf(init), Merge(init, rest));
  }

  lemma InsertBeforeLast(l: seq<Result>, errors: seq<(nat, Result)>, merged: seq<Result>)
    requires l != [] && InRange(|l| - 1, errors) && InsertAll(l[..|l| - 1], errors) == merged
    ensures InsertAll(l, errors) == merged + [l[|l| - 1]]
  {
    assert l == l[..|l| - 1] + [l[|l| - 1]];
    InsertBefore(l[..|l| - 1], l[|l| - 1], errors);
  }

  lemma MergePresent(absent: seq<Option<Result>>, results: seq<Result>)
    requires absent != [] && absent[|absent| - 1].None? && |results| == Present(absent)
    ensures Present(absent[..|absent| - 1]) == |results| - 1 && ErrorsOf(absent) == ErrorsOf(absent[..|absent| - 1])
    ensures Merge(absent, results) ==
      Merge(absent[..|absent| - 1], results[..|results| - 1]) + [results[|results| - 1]]
  {
  }

  lemma InsertAtEnd(l: seq<Result>, errors: seq<(nat, Result)>, i: nat, x: Result)
    requires |InsertAll(l, errors)| == i
    ensures InsertAll(l, errors + [(i, x)]) == InsertAll(l, errors) + [x]
  {
    assert (errors + [(i, x)])[..|errors|] == errors;
  }

  // ---- the method ----

  /** raise_first_error, when asked to raise. */
  ghost predicate Delivered(response: seq<Result>, raiseOnError: bool, outcome: Outcome) {
    match outcome
    case Returned(results) => results == response && (raiseOnError ==> forall r :: r in response ==> r.Value?)
    case RaisedResult(i, e) =>
      raiseOnError && i < |response| && response[i] == Exception(e) && forall j :: 0 <= j < i ==> response[j].Value?
    case _ => false
  }

  method CollectErrors(commands: seq<Command>, multi: Queued, queued: seq<Queued>) returns (errors: seq<(nat, Result)>)
    requires |queued| == SentCount(commands)
    ensures errors == (if multi.Rejected? then [(0, Exception(multi.error))] else []) + ErrorsOf(Absent(commands, queued))
  {
    var head := if multi.Rejected? then [(0, Exception(multi.error))] else [];
    errors := head;
    var i, q := 0, 0;
    ghost var found: seq<(nat, Result)> := [];
    assert head + [] == head;
    while i < |commands|
      invariant 0 <= i <= |commands|
      invariant q == SentCount(commands[..i]) <= |queued|
      invariant errors == head + found
      invariant found == ErrorsOf(Absent(commands[..i], queued[..q]))
    {
      SentPrefix(commands, i);
      if commands[i].local.Some? {
        AbsentLocal(commands, queued, i, q);
        var e := (i, commands[i].local.value);
        PushBoth(head, found, e);
        errors, found := errors + [e], found + [e];
      } else {
        AbsentSent(commands, queued, i, q);
        if queued[q].Rejected? {
          var e := (i, Exception(queued[q].error));
          PushBoth(head, found, e);
          errors, found := errors + [e], found + [e];
        }
        q := q + 1;
      }
      i := i + 1;
    }
    assert commands[..|commands|] == commands && queued[..|queued|] == queued;
  }

  lemma PushBoth(head: seq<(nat, Result)>, found: seq<(nat, Result)>, e: (nat, Result))
    ensures head + found + [e] == head + (found + [e])
  {
  }

  lemma {:induction false} SentPrefix(commands: seq<Command>, i: nat)
    requires i < |commands|
    ensures SentCount(commands[..i + 1]) == SentCount(commands[..i]) + if commands[i].local.Some? then 0 else 1
    ensures SentCount(commands[..i + 1]) <= SentCount(commands)
    decreases |commands|
  {
    assert commands[..i + 1][..i] == commands[..i];
    if i + 1 == |commands| {
      assert commands[..i + 1] == commands;
    } else {
      SentPrefix(commands[..|commands| - 1], i);
      assert commands[..|commands| - 1][..i + 1] == commands[..i + 1];
    }
  }

  lemma ErrorsPush(absent: seq<Option<Result>>, a: Option<Result>)
    ensures ErrorsOf(absent + [a]) == ErrorsOf(absent) + if a.Some? then [(|absent|, a.value)] else []
  {
    assert (absent + [a])[..|absent|] == absent;
  }

  lemma AbsentLocal(commands: seq<Command>, queued: seq<Queued>, i: nat, q: nat)
    requires i < |commands| && q == SentCount(commands[..i]) <= |queued| && commands[i].local.Some?
    ensures SentCount(commands[..i + 1]) == q
    ensures ErrorsOf(Absent(commands[..i + 1], queued[..q])) ==
      ErrorsOf(Absent(commands[..i], queued[..q])) + [(i, commands[i].local.value)]
  {
    SentPrefix(commands, i);
    AbsentLength(commands[..i], queued[..q]);
    assert commands[..i + 1][..i] == commands[..i];
    ErrorsPush(Absent(commands[..i], queued[..q]), commands[i].local);
  }

  lemma AbsentSent(commands: seq<Command>, queued: seq<Queued>, i: nat, q: nat)
    requires i < |commands| && q == SentCount(commands[..i]) < |queued| && commands[i].local.None?
    ensures SentCount(commands[..i + 1]) == q + 1
    ensures ErrorsOf(Absent(commands[..i + 1], queued[..q + 1])) ==
      ErrorsOf(Absent(commands[..i], queued[..q])) +
      if queued[q].Rejected? then [(i, Exception(queued[q].error))] else []
  {
    SentPrefix(commands, i);
    AbsentLength(commands[..i], queued[..q]);
    assert commands[..i + 1][..i] == commands[..i];
    assert queued[..q + 1][..q] == queued[..q];
    ErrorsPush(Absent(commands[..i], queued[..q]),
      if queued[q].Rejected? then Some(Exception(queued[q].error)) else None);
  }

  lemma {:induction false} InsertFirst(l: seq<Result>, x: Result, errors: seq<(nat, Result)>)
    ensures InsertAll(l, [(0, x)] + errors) == InsertAll([x] + l, errors)
  {
    if errors == [] {
      assert [(0, x)] + errors == [(0, x)];
      assert InsertAll(l, []) == l;
      assert [(0, x)][..0] == [];
    } else {
      var init, last := errors[..|errors| - 1], errors[|errors| - 1];
      InsertFirst(l, x, init);
      assert [(0, x)] + errors == [(0, x)] + init + [last];
      InsertAllPush(l, [(0, x)] + init, last);
    }
  }

  lemma InsertAllPush(l: seq<Result>, errors: seq<(nat, Result)>, e: (nat, Result))
    ensures InsertAll(l, errors + [e]) == Insert(InsertAll(l, errors), e.0, e.1)
  {
    assert (errors + [e])[..|errors|] == errors;
  }

  /** What EXEC does not answer: a command's local answer, or the error in the reply to it,
      which is the reply with as many before it as commands were sent before it. */
  lemma {:induction false} AbsentAt(commands: seq<Command>, queued: seq<Queued>, j: nat)
    requires |queued| == SentCount(commands) && j < |commands|
    ensures |Absent(commands, queued)| == |commands|
    ensures commands[j].local.Some? ==> Absent(commands, queued)[j] == commands[j].local
    ensures commands[j].local.None? ==>
      && SentCount(commands[..j]) < |queued|
      && var q := queued[SentCount(commands[..j])];
         Absent(commands, queued)[j] == if q.Rejected? then Some(Exception(q.error)) else None
    decreases |commands|
  {
    AbsentLength(commands, queued);
    SentPrefix(commands, j);
    var m := |commands| - 1;
    if j < m {
      var rest := if commands[m].local.Some? then queued else queued[..|queued| - 1];
      AbsentAt(commands[..m], rest, j);
      assert commands[..m][..j] == commands[..j];
      AbsentLength(commands[..m], rest);
    }
  }

  method InsertErrors(results: seq<Result>, errors: seq<(nat, Result)>) returns (response: seq<Result>)
    ensures response == InsertAll(results, errors)
  {
    response := results;
    var k := 0;
    while k < |errors|
      invariant 0 <= k <= |errors|
      invariant response == InsertAll(results, errors[..k])
    {
      assert errors[..k + 1][..k] == errors[..k];
      response := Insert(response, errors[k].0, errors[k].1);
      k := k + 1;
    }
    assert errors[..|errors|] == errors;
  }

  method RaiseFirstError(response: seq<Result>, raiseOnError: bool) returns (outcome: Outcome)
    ensures Delivered(response, raiseOnError, outcome)
  {
    if raiseOnError {
      var i := 0;
      while i < |response|
        invariant 0 <= i <= |response|
        invariant forall j :: 0 <= j < i ==> response[j].Value?
      {
        if response[i].Exception? {
          return RaisedResult(i, response[i].error);
        }
        i := i + 1;
      }
    }
    outcome := Returned(response);
  }

  /** `multi` is the reply to MULTI, `queued` the replies to the sent commands, `exec` the
      reply to EXEC. When EXEC holds one result per accepted command the response is
      aligned; when it does not, nothing is returned. The error of a rejected MULTI counts
      as the first result. */
  method ExecuteTransaction(commands: seq<Command>, multi: Queued, queued: seq<Queued>, exec: Exec, raiseOnError: bool)
      returns (outcome: Outcome)
    requires |queued| == SentCount(commands)
    ensures multi.Accepted? && exec.Results? ==>
      if |exec.results| == Present(Absent(commands, queued))
      then Delivered(Merge(Absent(commands, queued), exec.results), raiseOnError, outcome)
      else outcome == RaisedCount
    ensures multi.Rejected? && exec.Results? ==>
      if |exec.results| + 1 == Present(Absent(commands, queued))
      then Delivered(Merge(Absent(commands, queued), [Exception(multi.error)] + exec.results), raiseOnError, outcome)
      else outcome == RaisedCount
    ensures exec.WatchFailed? ==> outcome == RaisedWatch
    ensures exec.Aborted? ==>
      outcome == if multi.Rejected? then RaisedFirst(Exception(multi.error))
                 else if ErrorsOf(Absent(commands, queued)) != [] then RaisedFirst(ErrorsOf(Absent(commands, queued))[0].1)
                 else RaisedAbort(exec.error)
  {
    var errors := CollectErrors(commands, multi, queued);
    ghost var absent := Absent(commands, queued);
    assert multi.Accepted? ==> errors == ErrorsOf(absent);
    if exec.Aborted? {
      return if errors != [] then RaisedFirst(errors[0].1) else RaisedAbort(exec.error);
    }
    if exec.WatchFailed? {
      return RaisedWatch;
    }
    var response := InsertErrors(exec.results, errors);
    InsertAllLength(exec.results, errors);
    AbsentLength(commands, queued);
    ErrorsCount(absent);
    if |response| != |commands| {
      return RaisedCount;
    }
    ghost var all := if multi.Rejected? then [Exception(multi.error)] + exec.results else exec.results;
    if multi.Rejected? { InsertFirst(exec.results, Exception(multi.error), ErrorsOf(absent)); }
    InsertionsAlign(absent, all);
    outcome := RaiseFirstError(response, raiseOnError);
  }
}
