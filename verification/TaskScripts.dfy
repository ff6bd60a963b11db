/** What the two looping scripts do to the keyspace as a whole. */
module TaskScripts {
  import opened RedisLists
  import opened TaskModel

  ghost predicate InList(s: Store, st: Status, t: TaskId) { t in s.L(Tasks(st)) }

  /** t still waits for d. */
  ghost predicate Waits(s: Store, t: TaskId, d: TaskId) { d in s.L(Dependencies(t)) }

  /** d will notify t. */
  ghost predicate Notifies(s: Store, d: TaskId, t: TaskId) { t in s.L(PriorTo(d)) }

  /** Duplicate-free task lists, membership only with the matching status,
      and a hash for exactly the ids handed out. */
  ghost predicate Partition(s: Store) {
    && (forall st :: NoDup(s.L(Tasks(st))))
    && (forall st, t :: InList(s, st, t) ==> t in s.tasks && s.tasks[t].status == st)
    && (forall t :: t in s.tasks <==> 1 <= t <= s.count)
  }

  /** The reverse lists know every dependent, newest first. */
  ghost predicate Wired(s: Store) {
    && (forall t, d :: Waits(s, t, d) ==> t in s.tasks && Notifies(s, d, t))
    && (forall d, t :: Notifies(s, d, t) ==> t in s.tasks)
    && (forall d :: NonIncreasing(s.L(PriorTo(d))))
  }

  // ---- add_task.lua ----

  /** The declared dependencies that are not finished now, last declared first. */
  function Unfinished(s: Store, ds: seq<TaskId>): seq<TaskId> {
    if ds == [] then []
    else
      var init, d := ds[..|ds| - 1], ds[|ds| - 1];
      if s.FinishedNow(d) then Unfinished(s, init) else [d] + Unfinished(s, init)
  }

  lemma {:induction false} UnfinishedMembers(s: Store, ds: seq<TaskId>)
    ensures forall d :: d in Unfinished(s, ds) <==> d in ds && !(d in s.tasks && s.tasks[d].status == Finished)
  {
    if ds != [] {
      var init, d := ds[..|ds| - 1], ds[|ds| - 1];
      UnfinishedMembers(s, init);
      assert ds == init + [d];
    }
  }

  /** r has the elements of ds at the positions `at`, backwards. */
  ghost predicate Backwards(ds: seq<TaskId>, at: seq<nat>, r: seq<TaskId>) {
    && |at| == |r|
    && (forall i :: 0 <= i < |at| ==> at[i] < |ds| && r[i] == ds[at[i]])
    && (forall i, j :: 0 <= i < j < |at| ==> at[i] > at[j])
  }

  lemma BackwardsLonger(ds: seq<TaskId>, at: seq<nat>, r: seq<TaskId>, d: TaskId)
    requires Backwards(ds, at, r)
    ensures Backwards(ds + [d], at, r) && Backwards(ds + [d], [|ds|] + at, [d] + r)
    ensures forall k :: k in [|ds|] + at <==> k == |ds| || k in at
    ensures |ds| !in at
  {
  }

  /** The waiting list has the unfinished dependencies backwards, as often as declared. */
  lemma {:induction false} UnfinishedBackwards(s: Store, ds: seq<TaskId>) returns (at: seq<nat>)
    ensures Backwards(ds, at, Unfinished(s, ds))
    ensures forall k :: 0 <= k < |ds| ==>
      (k in at <==> !(ds[k] in s.tasks && s.tasks[ds[k]].status == Finished))
  {
    if ds == [] {
      at := [];
    } else {
      var init, d := ds[..|ds| - 1], ds[|ds| - 1];
      var before := UnfinishedBackwards(s, init);
      BackwardsLonger(init, before, Unfinished(s, init), d);
      assert ds == init + [d];
      at := if s.FinishedNow(d) then before else [|init|] + before;
    }
  }

  function Occurrences(l: seq<TaskId>, d: TaskId): nat {
    if l == [] then 0 else (if l[0] == d then 1 else 0) + Occurrences(l[1..], d)
  }

  lemma {:induction false} OccursIff(l: seq<TaskId>, d: TaskId)
    ensures Occurrences(l, d) > 0 <==> d in l
  {
    if l != [] {
      OccursIff(l[1..], d);
      assert d in l <==> d == l[0] || d in l[1..];
    }
  }

  lemma {:induction false} OccurrencesCount(l: seq<TaskId>, d: TaskId)
    ensures Occurrences(l, d) == multiset(l)[d]
  {
    if l != [] {
      OccurrencesCount(l[1..], d);
      assert l == [l[0]] + l[1..];
    }
  }

  function Stack(n: TaskId, k: nat): seq<TaskId> {
    if k == 0 then [] else [n] + Stack(n, k - 1)
  }

  lemma {:induction false} StackMembers(n: TaskId, k: nat)
    ensures |Stack(n, k)| == k && forall i :: 0 <= i < k ==> Stack(n, k)[i] == n
  {
    if k > 0 { StackMembers(n, k - 1); }
  }

  ghost predicate Wires(s: Store, n: TaskId, w: seq<TaskId>, s': Store) {
    && s'.count == s.count && s'.tasks == s.tasks && s'.current == s.current
    && (forall st :: s'.L(Tasks(st)) == s.L(Tasks(st)))
    && (forall t :: s'.L(Dependencies(t)) == if t == n then w else s.L(Dependencies(t)))
    && (forall d :: s'.L(PriorTo(d)) == Stack(n, Occurrences(w, d)) + s.L(PriorTo(d)))
  }

  lemma StackOneMore(n: TaskId, w: seq<TaskId>, d: TaskId, e: TaskId, l: seq<TaskId>)
    ensures Stack(n, Occurrences([d] + w, e)) + l ==
      (if e == d then [n] else []) + (Stack(n, Occurrences(w, e)) + l)
  {
    assert ([d] + w)[1..] == w;
    var k := Occurrences(w, e);
    if e == d {
      assert Stack(n, k + 1) == [n] + Stack(n, k);
    } else {
      assert [] + (Stack(n, k) + l) == Stack(n, k) + l;
    }
  }

  lemma WiresOneMore(s: Store, n: TaskId, w: seq<TaskId>, s1: Store, d: TaskId)
    requires Wires(s, n, w, s1)
    ensures Wires(s, n, [d] + w, s1.Lpush(Dependencies(n), d).Lpush(PriorTo(d), n))
  {
    var s2 := s1.Lpush(Dependencies(n), d).Lpush(PriorTo(d), n);
    forall e ensures s2.L(PriorTo(e)) == Stack(n, Occurrences([d] + w, e)) + s.L(PriorTo(e)) {
      StackOneMore(n, w, d, e, s.L(PriorTo(e)));
    }
  }

  /** The dependency loop touches the new task's list and the reverse lists only:
      the new task waits for the unfinished declared dependencies, and goes on top
      of each of their reverse lists once per declaration. */
  lemma {:induction false} AddDependenciesEffect(s: Store, n: TaskId, ds: seq<TaskId>)
    requires s.L(Dependencies(n)) == []
    ensures Wires(s, n, Unfinished(s, ds), AddDependencies(s, n, ds))
  {
    if ds == [] {
      forall d ensures Stack(n, Occurrences([], d)) + s.L(PriorTo(d)) == s.L(PriorTo(d)) {
      }
    } else {
      var init, d := ds[..|ds| - 1], ds[|ds| - 1];
      AddDependenciesEffect(s, n, init);
      var s1 := AddDependencies(s, n, init);
      if !s.FinishedNow(d) {
        WiresOneMore(s, n, Unfinished(s, init), s1, d);
      }
    }
  }

  predicate Ready(s: Store, ds: seq<TaskId>) { forall d :: d in ds ==> d in s.tasks && s.tasks[d].status == Finished }

  ghost predicate Queues(s: Store, n: TaskId, ds: seq<TaskId>, policy: Policy, s': Store) {
    var waits := s.L(Dependencies(n)) != [];
    && s'.count == s.count && s'.current == s.current
    && s'.tasks == s.tasks[n := Task(if ds != [] && waits then PrePending else Pending, policy, false, None)]
    && s'.L(Tasks(Pending)) == (if ds == [] then s.L(Tasks(Pending)) + [n]
                                else if !waits then [n] + s.L(Tasks(Pending))
                                else s.L(Tasks(Pending)))
    && s'.L(Tasks(PrePending)) == (if ds != [] && waits then s.L(Tasks(PrePending)) + [n]
                                   else s.L(Tasks(PrePending)))
    && (forall k :: k != Tasks(Pending) && k != Tasks(PrePending) ==> s'.L(k) == s.L(k))
  }

  lemma EnqueueQueues(s: Store, n: TaskId, ds: seq<TaskId>, policy: Policy)
    ensures Queues(s, n, ds, policy, Enqueue(s, n, ds, policy))
  {
  }

  /** s' is s with a submitted task, pending right away iff all it declared is
      finished; plain tasks queue at the tail, satisfied ones at the head. */
  ghost predicate Submitted(s: Store, ds: seq<TaskId>, policy: Policy, s': Store) {
    var n, w := s.count + 1, Unfinished(s, ds);
    && s'.count == n && s'.current == s.current
    && s'.tasks == s.tasks[n := Task(if w == [] then Pending else PrePending, policy, false, None)]
    && s'.L(Tasks(Pending)) == (if ds == [] then s.L(Tasks(Pending)) + [n]
                                else if w == [] then [n] + s.L(Tasks(Pending))
                                else s.L(Tasks(Pending)))
    && s'.L(Tasks(PrePending)) == (if w == [] then s.L(Tasks(PrePending)) else s.L(Tasks(PrePending)) + [n])
    && (forall st :: st != Pending && st != PrePending ==> s'.L(Tasks(st)) == s.L(Tasks(st)))
    && (forall t :: s'.L(Dependencies(t)) == if t == n then w else s.L(Dependencies(t)))
    && (forall d :: s'.L(PriorTo(d)) == Stack(n, Occurrences(w, d)) + s.L(PriorTo(d)))
  }

  lemma WiredAndQueued(s: Store, s0: Store, ds: seq<TaskId>, policy: Policy, s1: Store, s2: Store)
    requires s0 == s.(count := s.count + 1)
    requires Wires(s0, s.count + 1, Unfinished(s, ds), s1)
    requires Queues(s1, s.count + 1, ds, policy, s2)
    ensures Submitted(s, ds, policy, s2)
  {
    assert forall k :: s0.L(k) == s.L(k);
  }

  lemma AddEffect(s: Store, ds: seq<TaskId>, policy: Policy)
    requires Partition(s) && Wired(s)
    ensures Submitted(s, ds, policy, Add(s, ds, policy))
    ensures Unfinished(s, ds) == [] <==> Ready(s, ds)
  {
    var n := s.count + 1;
    var s0 := s.(count := n);
    NobodyYet(s);
    UnfinishedSame(s, s0, ds);
    UnfinishedEmpty(s, ds);
    AddDependenciesEffect(s0, n, ds);
    var s1 := AddDependencies(s0, n, ds);
    EnqueueQueues(s1, n, ds, policy);
    WiredAndQueued(s, s0, ds, policy, s1, Enqueue(s1, n, ds, policy));
  }

  lemma NobodyYet(s: Store)
    requires Partition(s) && Wired(s)
    ensures s.L(Dependencies(s.count + 1)) == []
  {
    var n := s.count + 1;
    if s.L(Dependencies(n)) != [] {
      assert Waits(s, n, s.L(Dependencies(n))[0]);
    }
  }

  lemma UnfinishedEmpty(s: Store, ds: seq<TaskId>)
    ensures Unfinished(s, ds) == [] <==> Ready(s, ds)
  {
    UnfinishedMembers(s, ds);
    if Unfinished(s, ds) != [] {
      assert Unfinished(s, ds)[0] in Unfinished(s, ds);
    }
  }

  lemma {:induction false} UnfinishedSame(s: Store, s0: Store, ds: seq<TaskId>)
    requires s.tasks == s0.tasks
    ensures Unfinished(s, ds) == Unfinished(s0, ds)
  {
    if ds != [] { UnfinishedSame(s, s0, ds[..|ds| - 1]); }
  }

  lemma StackOnTop(n: TaskId, k: nat, before: seq<TaskId>)
    requires NonIncreasing(before) && forall i :: 0 <= i < |before| ==> before[i] <= n
    ensures NonIncreasing(Stack(n, k) + before)
    ensures forall t :: t in Stack(n, k) + before <==> t in before || (t == n && k > 0)
  {
    StackMembers(n, k);
    if k > 0 { assert (Stack(n, k) + before)[0] == n; }
  }

  /** The same in terms of who waits for whom. */
  lemma AddWiring(s: Store, ds: seq<TaskId>, policy: Policy, s': Store)
    requires Partition(s) && Wired(s) && Submitted(s, ds, policy, s')
    ensures var n := s.count + 1;
      && (forall t, d :: Waits(s', t, d) <==> if t == n then d in ds && !(d in s.tasks && s.tasks[d].status == Finished) else Waits(s, t, d))
      && (forall d, t :: Notifies(s', d, t) <==> Notifies(s, d, t) || (t == n && d in ds && !(d in s.tasks && s.tasks[d].status == Finished)))
      && (forall d :: NonIncreasing(s'.L(PriorTo(d))))
  {
    var n, w := s.count + 1, Unfinished(s, ds);
    UnfinishedMembers(s, ds);
    forall d
      ensures NonIncreasing(s'.L(PriorTo(d)))
      ensures forall t :: Notifies(s', d, t) <==> Notifies(s, d, t) || (t == n && d in ds && !(d in s.tasks && s.tasks[d].status == Finished))
    {
      var before := s.L(PriorTo(d));
      OccursIff(w, d);
      forall i | 0 <= i < |before| ensures before[i] <= n {
        assert Notifies(s, d, before[i]);
      }
      StackOnTop(n, Occurrences(w, d), before);
    }
  }

  // ---- update_dependent_tasks.lua ----

  /** The waiting tasks that the release of d over the reverse entries `ts` makes
      pending, in the order in which they end up in the queue. */
  function FreedBy(s: Store, d: TaskId, ts: seq<TaskId>): seq<TaskId> {
    if ts == [] then []
    else
      var before, t := FreedBy(s, d, ts[..|ts| - 1]), ts[|ts| - 1];
      if Frees(s, d, Elems(before), t)
      then [t] + before
      else before
  }

  /** d is in no dependency list of `touched`; the other lists of this kind are as before. */
  ghost predicate Cleared(s: Store, d: TaskId, touched: set<TaskId>, s': Store) {
    && (forall t :: s'.L(Dependencies(t)) ==
                    if t in touched then Remove(s.L(Dependencies(t)), d) else s.L(Dependencies(t)))
    && (forall e :: s'.L(PriorTo(e)) == s.L(PriorTo(e)))
  }

  /** `freed` are at the head of pending, and off pre_pending as the set `gone`. */
  ghost predicate Moves(s: Store, freed: seq<TaskId>, gone: set<TaskId>, s': Store) {
    && s'.L(Tasks(Pending)) == freed + s.L(Tasks(Pending))
    && s'.L(Tasks(PrePending)) == Without(s.L(Tasks(PrePending)), gone)
    && (forall st :: st != Pending && st != PrePending ==> s'.L(Tasks(st)) == s.L(Tasks(st)))
  }

  /** s' is s after d went from the dependency lists of `touched` and `freed` (as a
      set, `gone`) went from pre_pending to the head of pending. */
  ghost predicate ReleaseResult(s: Store, d: TaskId, touched: set<TaskId>, freed: seq<TaskId>, gone: set<TaskId>, s': Store) {
    && s'.count == s.count && s'.current == s.current && s'.tasks.Keys == s.tasks.Keys
    && Cleared(s, d, touched, s')
    && Moves(s, freed, gone, s')
    && (forall t :: t in s.tasks ==>
          s'.tasks[t] == if t in gone then s.tasks[t].(status := Pending) else s.tasks[t])
  }

  /** What the loop needs to know about pre_pending. */
  ghost predicate Queued(s: Store) {
    NoDup(s.L(Tasks(PrePending))) && forall t :: InList(s, PrePending, t) ==> t in s.tasks
  }

  lemma {:induction false} ReleaseEachEffect(s: Store, d: TaskId, ts: seq<TaskId>)
    requires Queued(s)
    ensures ReleaseResult(s, d, Elems(ts), FreedBy(s, d, ts), Elems(FreedBy(s, d, ts)), ReleaseEach(s, d, ts))
  {
    if ts == [] {
      assert Elems(ts) == {};
      WithoutNone(s.L(Tasks(PrePending)));
    } else {
      var init, t := ts[..|ts| - 1], ts[|ts| - 1];
      var before := FreedBy(s, d, init);
      ReleaseEachEffect(s, d, init);
      StillQueued(s, d, Elems(init), before, Elems(before), ReleaseEach(s, d, init));
      ReleaseOneRound(ReleaseEach(s, d, init), d, t);
      NextRound(s, d, ts, ReleaseEach(s, d, init), ReleaseEach(s, d, ts));
    }
  }

  lemma NextRound(s: Store, d: TaskId, ts: seq<TaskId>, s1: Store, s2: Store)
    requires ts != [] && Queued(s) && Round(s1, d, ts[|ts| - 1], s2)
    requires ReleaseResult(s, d, Elems(ts[..|ts| - 1]), FreedBy(s, d, ts[..|ts| - 1]),
                           Elems(FreedBy(s, d, ts[..|ts| - 1])), s1)
    ensures ReleaseResult(s, d, Elems(ts), FreedBy(s, d, ts), Elems(FreedBy(s, d, ts)), s2)
  {
    var init, t := ts[..|ts| - 1], ts[|ts| - 1];
    var before := FreedBy(s, d, init);
    ElemsLast(ts);
    ElemsPush(t, before);
    FreedByNext(s, d, ts);
    OneMoreRound(s, d, Elems(init), before, Elems(before), t, s1, Elems(ts), FreedBy(s, d, ts), s2);
  }

  lemma FreedByNext(s: Store, d: TaskId, ts: seq<TaskId>)
    requires ts != []
    ensures var before, t := FreedBy(s, d, ts[..|ts| - 1]), ts[|ts| - 1];
      FreedBy(s, d, ts) == if Frees(s, d, Elems(before), t) then [t] + before else before
  {
  }

  lemma ElemsPush(t: TaskId, before: seq<TaskId>)
    ensures Elems([t] + before) == Elems(before) + {t}
  {
  }

  lemma ElemsLast(ts: seq<TaskId>)
    requires ts != []
    ensures Elems(ts) == Elems(ts[..|ts| - 1]) + {ts[|ts| - 1]}
  {
    assert ts == ts[..|ts| - 1] + [ts[|ts| - 1]];
  }

  lemma {:induction false} RemoveTwice(l: seq<TaskId>, d: TaskId)
    ensures Remove(Remove(l, d), d) == Remove(l, d)
  {
    RemoveMembers(l, d);
    RemoveMembers(Remove(l, d), d);
  }

  /** One round of the loop, list by list. */
  ghost predicate Round(s: Store, d: TaskId, t: TaskId, s': Store) {
    var waiting := s.L(Tasks(PrePending));
    var left := Remove(s.L(Dependencies(t)), d);
    var frees := left == [] && t in waiting;
    && s'.count == s.count && s'.current == s.current
    && s'.L(Dependencies(t)) == left
    && s'.L(Tasks(PrePending)) == (if frees then Remove(waiting, t) else waiting)
    && s'.L(Tasks(Pending)) == (if frees then [t] + s.L(Tasks(Pending)) else s.L(Tasks(Pending)))
    && (forall k :: k != Dependencies(t) && k != Tasks(PrePending) && k != Tasks(Pending) ==> s'.L(k) == s.L(k))
    && s'.tasks == (if frees && t in s.tasks then s.tasks[t := s.tasks[t].(status := Pending)] else s.tasks)
  }

  /** The LREM on pre_pending answers 1 exactly when t waits there. */
  lemma ReleaseOneRound(s: Store, d: TaskId, t: TaskId)
    requires Queued(s)
    ensures Round(s, d, t, ReleaseOne(s, d, t))
  {
    var waiting := s.L(Tasks(PrePending));
    RemoveNoDup(waiting, t);
    if t !in waiting {
      RemoveMembers(waiting, t);
    }
  }

  lemma OneMoreRound(s: Store, d: TaskId, touched: set<TaskId>, before: seq<TaskId>, gone: set<TaskId>,
                     t: TaskId, s1: Store, touched': set<TaskId>, freed: seq<TaskId>, s2: Store)
    requires Queued(s) && gone == Elems(before) && Elems([t] + before) == gone + {t}
    requires ReleaseResult(s, d, touched, before, gone, s1)
    requires Round(s1, d, t, s2)
    requires touched' == touched + {t} && freed == if Frees(s, d, gone, t) then [t] + before else before
    ensures ReleaseResult(s, d, touched', freed, Elems(freed), s2)
  {
    RoundDependencies(s, d, touched, t, s1, s2);
    RoundLists(s, d, before, gone, t, s1, s2);
    WaitingHasHash(s, gone, t);
  }

  /** Whether the next round, for t, frees it after `gone` were freed. */
  predicate Frees(s: Store, d: TaskId, gone: set<TaskId>, t: TaskId) {
    t in Without(s.L(Tasks(PrePending)), gone) && Remove(s.L(Dependencies(t)), d) == []
  }

  lemma RoundDependencies(s: Store, d: TaskId, touched: set<TaskId>, t: TaskId, s1: Store, s2: Store)
    requires Cleared(s, d, touched, s1) && Round(s1, d, t, s2)
    ensures Cleared(s, d, touched + {t}, s2)
    ensures Remove(s1.L(Dependencies(t)), d) == Remove(s.L(Dependencies(t)), d)
  {
    RemoveTwice(s.L(Dependencies(t)), d);
  }

  lemma RoundLists(s: Store, d: TaskId, before: seq<TaskId>, gone: set<TaskId>, t: TaskId, s1: Store, s2: Store)
    requires Moves(s, before, gone, s1) && Round(s1, d, t, s2)
    requires Remove(s1.L(Dependencies(t)), d) == Remove(s.L(Dependencies(t)), d)
    ensures if Frees(s, d, gone, t) then Moves(s, [t] + before, gone + {t}, s2) else Moves(s, before, gone, s2)
  {
    if Frees(s, d, gone, t) {
      RemoveWithout(s.L(Tasks(PrePending)), gone, t);
      Assoc([t], before, s.L(Tasks(Pending)));
    }
  }

  lemma WaitingHasHash(s: Store, gone: set<TaskId>, t: TaskId)
    requires Queued(s)
    ensures t in Without(s.L(Tasks(PrePending)), gone) ==> t in s.tasks && t !in gone
  {
    WithoutMembers(s.L(Tasks(PrePending)), gone);
    assert t in s.L(Tasks(PrePending)) ==> InList(s, PrePending, t);
  }

  lemma StillQueued(s: Store, d: TaskId, touched: set<TaskId>, before: seq<TaskId>, gone: set<TaskId>, s1: Store)
    requires Queued(s) && ReleaseResult(s, d, touched, before, gone, s1)
    ensures Queued(s1)
  {
    WithoutNoDup(s.L(Tasks(PrePending)), gone);
    WithoutMembers(s.L(Tasks(PrePending)), gone);
    forall t | InList(s1, PrePending, t) ensures t in s1.tasks {
      assert InList(s, PrePending, t);
    }
  }

  /** Who is freed: the waiting tasks with nothing left to wait for, each once,
      oldest first. */
  lemma {:induction false} FreedByMembers(s: Store, d: TaskId, ts: seq<TaskId>)
    ensures forall t :: t in FreedBy(s, d, ts) <==>
      t in ts && InList(s, PrePending, t) && Remove(s.L(Dependencies(t)), d) == []
    ensures NoDup(FreedBy(s, d, ts))
    ensures NonIncreasing(ts) ==> Ascending(FreedBy(s, d, ts))
  {
    if ts != [] {
      var init, t := ts[..|ts| - 1], ts[|ts| - 1];
      FreedByMembers(s, d, init);
      var before := FreedBy(s, d, init);
      WithoutMembers(s.L(Tasks(PrePending)), Elems(before));
      FreedByNext(s, d, ts);
      assert ts == init + [t];
      assert forall x :: x in ts <==> x in init || x == t;
      if Frees(s, d, Elems(before), t) {
        NoDupPush(before, t);
        if NonIncreasing(ts) { OldestFirst(ts, before); }
      }
    }
  }

  lemma OldestFirst(ts: seq<TaskId>, before: seq<TaskId>)
    requires ts != [] && NonIncreasing(ts)
    requires forall x :: x in before ==> x in ts[..|ts| - 1]
    requires ts[|ts| - 1] !in before
    ensures NonIncreasing(ts[..|ts| - 1])
    ensures Ascending(before) ==> Ascending([ts[|ts| - 1]] + before)
  {
    forall j | 0 <= j < |before| ensures ts[|ts| - 1] < before[j] {
      assert before[j] in before;
    }
  }

  /** Running the release script of d removes d from every dependency list and puts
      exactly the tasks that have nothing left to wait for in front of the queue,
      oldest first; nothing else changes. */
  lemma ReleaseEffect(s: Store, d: TaskId) returns (freed: seq<TaskId>)
    requires Partition(s) && Wired(s)
    ensures ReleaseResult(s, d, Elems(s.L(PriorTo(d))), freed, Elems(freed), Release(s, d))
    ensures NoDup(freed) && Ascending(freed)
    ensures forall t :: t in freed <==> InList(s, PrePending, t) && Notifies(s, d, t) && Release(s, d).L(Dependencies(t)) == []
    ensures forall t, e :: Waits(Release(s, d), t, e) <==> e != d && Waits(s, t, e)
  {
    var ts := s.L(PriorTo(d));
    ReleaseEachEffect(s, d, ts);
    FreedByMembers(s, d, ts);
    freed := FreedBy(s, d, ts);
    var s' := Release(s, d);
    forall t, e ensures Waits(s', t, e) <==> e != d && Waits(s, t, e) {
      RemoveMembers(s.L(Dependencies(t)), d);
      if Waits(s, t, d) { assert Notifies(s, d, t); }
    }
  }
}
