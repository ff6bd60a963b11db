/** What holds in every reachable state and over every run of the scheduler. */
module SchedulerTheorems {
  import opened RedisLists
  import opened TaskModel
  import opened TaskScripts
  import opened TaskInvariants
  import opened SchedulerRuns
  import opened SchedulerInvariant

  // ---- where the tasks are ----

  /** Every created task that was not deleted is in exactly one list, the one its
      hash names, and there once; a deleted task is in none. */
  lemma ExactlyOneList(sys: System)
    requires Reachable(sys)
    ensures forall st :: NoDup(sys.store.L(Tasks(st)))
    ensures forall st, t :: InList(sys.store, st, t) <==>
      t in sys.store.tasks && sys.store.tasks[t].status == st && t !in sys.deleted
    ensures forall t :: t in sys.store.tasks <==> 1 <= t <= sys.store.count
  {
    InvReachable(sys);
  }

  // ---- the release script ----

  /** The release of d: nobody waits for d any more, and the waiting tasks with
      nothing else to wait for move, oldest first, in front of the old queue;
      everyone else keeps list, place and status. */
  lemma ExactRelease(sys: System, d: TaskId) returns (freed: seq<TaskId>)
    requires Reachable(sys)
    ensures var s, s' := sys.store, Release(sys.store, d);
      && (forall t, e :: Waits(s', t, e) <==> e != d && Waits(s, t, e))
      && Ascending(freed)
      && (forall t :: t in freed <==> InList(s, PrePending, t) && forall e :: Waits(s, t, e) ==> e == d)
      && s'.L(Tasks(Pending)) == freed + s.L(Tasks(Pending))
      && s'.L(Tasks(PrePending)) == Without(s.L(Tasks(PrePending)), Elems(freed))
      && |s'.L(Tasks(PrePending))| + |freed| == |s.L(Tasks(PrePending))|
      && (forall st :: st != Pending && st != PrePending ==> s'.L(Tasks(st)) == s.L(Tasks(st)))
      && s'.tasks.Keys == s.tasks.Keys
      && (forall t :: t in s.tasks ==>
            s'.tasks[t] == if t in freed then s.tasks[t].(status := Pending) else s.tasks[t])
  {
    InvReachable(sys);
    freed := FreedExactly(sys.store, d);
    WithoutLength(sys.store.L(Tasks(PrePending)), freed);
  }

  lemma FreedExactly(s: Store, d: TaskId) returns (freed: seq<TaskId>)
    requires Valid(s)
    ensures Released(s, d, freed, Release(s, d))
    ensures forall t :: t in freed <==> InList(s, PrePending, t) && forall e :: Waits(s, t, e) ==> e == d
    ensures forall t :: t in freed ==> t in s.L(Tasks(PrePending))
  {
    freed := ReleaseEffect(s, d);
    var s' := Release(s, d);
    FreedByWaits(s, d, freed, s');
  }

  lemma FreedByWaits(s: Store, d: TaskId, freed: seq<TaskId>, s': Store)
    requires Valid(s) && Released(s, d, freed, s')
    ensures forall t :: t in freed <==> InList(s, PrePending, t) && forall e :: Waits(s, t, e) ==> e == d
  {
    forall t ensures t in freed <==> InList(s, PrePending, t) && forall e :: Waits(s, t, e) ==> e == d {
      var left := s'.L(Dependencies(t));
      if left != [] { assert Waits(s', t, left[0]); }
      if InList(s, PrePending, t) && forall e :: Waits(s, t, e) ==> e == d {
        assert Waits(s, t, s.L(Dependencies(t))[0]);
        assert Notifies(s, d, t);
        assert forall e :: !Waits(s', t, e);
      }
      if left == [] { assert forall e :: !Waits(s', t, e); }
    }
  }

  ghost predicate SameKeyspace(s: Store, s': Store) {
    && (forall k :: s'.L(k) == s.L(k))
    && s'.tasks == s.tasks && s'.count == s.count && s'.current == s.current
  }

  /** Running the release script of d again changes nothing. */
  lemma ReleaseTwice(sys: System, d: TaskId)
    requires Reachable(sys)
    ensures SameKeyspace(Release(sys.store, d), Release(Release(sys.store, d), d))
  {
    InvReachable(sys);
    var s := sys.store;
    var freed := ReleaseEffect(s, d);
    var s1 := Release(s, d);
    ReleasedValid(s, d, freed, s1);
    var freed2 := ReleaseEffect(s1, d);
    NothingLeft(s1, d, freed2, Release(s1, d));
  }

  lemma NothingFreed(s: Store, d: TaskId, freed: seq<TaskId>, s': Store)
    requires Valid(s) && Released(s, d, freed, s') && forall t :: !Waits(s, t, d)
    ensures forall t :: s'.L(Dependencies(t)) == s.L(Dependencies(t))
    ensures freed == [] && Elems(freed) == {}
  {
    forall t ensures s'.L(Dependencies(t)) == s.L(Dependencies(t)) {
      assert !Waits(s, t, d);
      RemoveMembers(s.L(Dependencies(t)), d);
    }
    forall t ensures t !in freed {
      assert s'.L(Dependencies(t)) == s.L(Dependencies(t));
    }
    NoMembers(freed);
  }

  lemma NothingMoved(s: Store, d: TaskId, freed: seq<TaskId>, s': Store)
    requires Released(s, d, freed, s') && freed == [] && Elems(freed) == {}
    ensures forall st :: s'.L(Tasks(st)) == s.L(Tasks(st))
    ensures forall e :: s'.L(PriorTo(e)) == s.L(PriorTo(e))
    ensures s'.tasks == s.tasks && s'.count == s.count && s'.current == s.current
  {
    WithoutNone(s.L(Tasks(PrePending)));
  }

  lemma NothingLeft(s: Store, d: TaskId, freed: seq<TaskId>, s': Store)
    requires Valid(s) && Released(s, d, freed, s') && forall t :: !Waits(s, t, d)
    ensures SameKeyspace(s, s')
  {
    NothingFreed(s, d, freed, s');
    NothingMoved(s, d, freed, s');
    forall k ensures s'.L(k) == s.L(k) {
      match k
      case Tasks(st) =>
      case Dependencies(t) =>
      case PriorTo(e) =>
    }
  }

  // ---- no wake-up is lost ----

  /** A task that still waits for a finished task has its release outstanding, or lost. */
  lemma WakeUpOutstanding(sys: System, t: TaskId, d: TaskId)
    requires Reachable(sys)
    requires Waits(sys.store, t, d) && d in sys.store.tasks && sys.store.tasks[d].status == Finished
    ensures d in sys.releases || d in sys.lost
  {
    InvReachable(sys);
  }

  ghost predicate Heard(sys: System, d: TaskId, n: nat) {
    d in sys.releases || d in sys.lost || forall t: TaskId :: t <= n ==> !Waits(sys.store, t, d)
  }

  lemma HeardKept(sys: System, e: Event, d: TaskId, n: nat, s': Store)
    requires Valid(sys.store) && Enabled(sys, e) && Effect(sys.store, e, s') && n <= sys.store.count
    requires Heard(sys, d, n)
    ensures Heard(History(sys, e).(store := s'), d, n)
    ensures n <= s'.count
  {
    if e.Submit? {
      AddWiring(sys.store, e.deps, e.policy, s');
    } else if e.Notify? {
      HeardNotify(sys, e.task, d, n, s');
    } else if !e.Lose? {
      HeardCalm(sys, e, s');
      HeardSame(sys, d, n, History(sys, e).(store := s'));
    }
  }

  lemma HeardNotify(sys: System, x: TaskId, d: TaskId, n: nat, s': Store)
    requires Partition(sys.store) && Effect(sys.store, Notify(x), s') && Heard(sys, d, n)
    ensures Heard(sys.(store := s', releases := sys.releases - multiset{x}, lost := sys.lost - {x}), d, n)
    ensures s'.count == sys.store.count
  {
    var freed :| Released(sys.store, x, freed, s');
  }

  lemma HeardSame(sys: System, d: TaskId, n: nat, sys': System)
    requires Heard(sys, d, n) && SameWaiting(sys.store, sys'.store)
    requires sys.releases <= sys'.releases && sys'.lost == sys.lost
    ensures Heard(sys', d, n)
  {
    assert forall t :: Waits(sys'.store, t, d) <==> Waits(sys.store, t, d);
  }

  lemma HeardCalm(sys: System, e: Event, s': Store)
    requires Enabled(sys, e) && Effect(sys.store, e, s') && !e.Submit? && !e.Notify? && !e.Lose?
    ensures SameWaiting(sys.store, s') && s'.count == sys.store.count
    ensures sys.releases <= History(sys, e).releases && History(sys, e).lost == sys.lost
  {
    CalmStore(sys.store, e, s');
  }

  lemma CalmStore(s: Store, e: Event, s': Store)
    requires Effect(s, e, s') && !e.Submit? && !e.Notify? && !e.Lose?
    ensures SameWaiting(s, s') && s'.count == s.count
  {
    if e.Take? && s.L(Tasks(Pending)) == [] { assert s' == s; }
    if e.Crash? || e.Clear? { assert forall k :: s'.(current := s.current).L(k) == s'.L(k); }
  }

  lemma {:induction false} HeardRun(sys: System, es: seq<Event>, sys': System, d: TaskId, n: nat)
    requires Inv(sys) && Run(sys, es, sys') && n <= sys.store.count && Heard(sys, d, n)
    ensures Heard(sys', d, n)
    decreases |es|
  {
    if es != [] {
      StepEffect(sys, es[0]);
      HeardKept(sys, es[0], d, n, StoreNext(sys.store, es[0]));
      InvKept(sys, es[0]);
      HeardRun(Next(sys, es[0]), es[1..], sys', d, n);
    }
  }

  /** The step sets d 'finished', or 'failed' under policy 'continue'. */
  predicate Resolving(sys: System, e: Event, d: TaskId) {
    && d in sys.store.tasks && sys.store.tasks[d].started
    && ((e.Finish? && e.task == d && sys.store.tasks[d].status != Finished)
        || (e.Fail? && e.task == d && sys.store.tasks[d].policy == Continue))
  }

  /** Once d was committed as finished, or as failed with policy 'continue', every
      task submitted before stops waiting for d as soon as no release of d is
      outstanding or lost, whatever else happens in between. */
  lemma EveryoneHears(sys: System, e: Event, es: seq<Event>, sys': System, d: TaskId)
    requires Reachable(sys) && Enabled(sys, e) && Resolving(sys, e, d)
    requires Run(Next(sys, e), es, sys') && d !in sys'.releases && d !in sys'.lost
    ensures forall t: TaskId :: t <= sys.store.count ==> !Waits(sys'.store, t, d)
  {
    InvReachable(sys);
    InvKept(sys, e);
    StepEffect(sys, e);
    HeardCalm(sys, e, StoreNext(sys.store, e));
    HeardRun(Next(sys, e), es, sys', d, sys.store.count);
  }

  // ---- what 'continue' does not cover ----

  /** A failed task is waited for by whoever is submitted afterwards, policy
      'continue' or not: the script looks for 'finished' only. */
  lemma LateSubmissionWaits(sys: System, d: TaskId, p: Policy)
    requires Reachable(sys)
    ensures var sys' := Next(sys, Submit([d], p));
      Waits(sys'.store, sys.store.count + 1, d) <==> !(d in sys.store.tasks && sys.store.tasks[d].status == Finished)
  {
    InvReachable(sys);
    AddEffect(sys.store, [d], p);
    AddWiring(sys.store, [d], p, Add(sys.store, [d], p));
  }

  /** A failure set by the supervisor releases nobody, policy 'continue' or not. */
  lemma CrashReleasesNobody(sys: System, w: WorkerId)
    requires Reachable(sys) && Enabled(sys, Crash(w))
    ensures var sys' := Next(sys, Crash(w));
      sys'.releases == sys.releases && forall t, d :: Waits(sys'.store, t, d) <==> Waits(sys.store, t, d)
  {
    InvReachable(sys);
    StepEffect(sys, Crash(w));
    var s' := FailCurrent(sys.store, w);
    HeardCalm(sys, Crash(w), s');
    SameWaitingWired(sys.store, s');
  }

  // ---- dependency safety ----

  /** A task that started and was never forced into the queue had every declared
      dependency resolved. */
  lemma DependencySafety(sys: System, t: TaskId)
    requires Reachable(sys)
    requires t in sys.store.tasks && sys.store.tasks[t].started && t !in sys.forced
    ensures t in sys.declared && forall d :: d in sys.declared[t] ==> d in sys.resolved
  {
    InvReachable(sys);
    forall d | d in sys.declared[t] ensures d in sys.resolved {
      assert !Waits(sys.store, t, d);
    }
  }

  ghost predicate GrownStore(s: Store, s': Store) {
    && (forall t :: t in s.tasks ==> t in s'.tasks)
    && (forall t :: t in s.tasks ==> s'.tasks[t].policy == s.tasks[t].policy)
    && (forall t :: t in s.tasks && s.tasks[t].started ==> s'.tasks[t].started)
  }

  /** Tasks are never uncreated; policies, declarations and having started stay. */
  ghost predicate Grown(sys: System, sys': System) {
    && GrownStore(sys.store, sys'.store)
    && (forall t :: t in sys.declared ==> t in sys'.declared && sys'.declared[t] == sys.declared[t])
  }

  lemma GrownEffect(s: Store, e: Event, s': Store)
    requires Partition(s) && Effect(s, e, s')
    ensures GrownStore(s, s')
  {
    if e.Notify? {
      GrownNotify(s, e.task, s');
    } else if e.Submit? {
    } else if e.Retry? || e.Finish? || e.Fail? {
    }
  }

  lemma GrownNotify(s: Store, d: TaskId, s': Store)
    requires Effect(s, Notify(d), s')
    ensures GrownStore(s, s')
  {
    var freed :| Released(s, d, freed, s');
  }

  lemma GrownStep(sys: System, e: Event, s': Store)
    requires Inv(sys) && Enabled(sys, e) && Effect(sys.store, e, s')
    ensures Grown(sys, History(sys, e).(store := s'))
  {
    GrownEffect(sys.store, e, s');
  }

  lemma {:induction false} GrownRun(sys: System, es: seq<Event>, sys': System)
    requires Inv(sys) && Run(sys, es, sys')
    ensures Grown(sys, sys')
    decreases |es|
  {
    if es != [] {
      StepEffect(sys, es[0]);
      GrownStep(sys, es[0], StoreNext(sys.store, es[0]));
      InvKept(sys, es[0]);
      GrownRun(Next(sys, es[0]), es[1..], sys');
    }
  }

  lemma ResolvedStep(sys: System, e: Event, d: TaskId)
    requires Enabled(sys, e) && d in History(sys, e).resolved
    ensures d in sys.resolved || Resolving(sys, e, d)
  {
  }

  /** Whatever was resolved during a run was resolved by one of its steps. */
  lemma {:induction false} ResolvedRun(sys: System, es: seq<Event>, sys': System, d: TaskId) returns (i: nat, mid: System)
    requires Run(sys, es, sys') && d in sys'.resolved && d !in sys.resolved
    ensures i < |es| && Run(sys, es[..i], mid) && Enabled(mid, es[i]) && Resolving(mid, es[i], d)
    decreases |es|
  {
    var next := Next(sys, es[0]);
    if d in next.resolved {
      ResolvedStep(sys, es[0], d);
      i, mid := 0, sys;
      assert Run(sys, [], sys);
    } else {
      var j;
      j, mid := ResolvedRun(next, es[1..], sys', d);
      i := j + 1;
      assert es[..i][1..] == es[1..][..j];
    }
  }

  lemma RetriedStep(sys: System, e: Event, t: TaskId)
    requires Enabled(sys, e) && t in History(sys, e).retried
    ensures t in sys.retried || e == Retry(t)
  {
  }

  lemma {:induction false} RetriedRun(sys: System, es: seq<Event>, sys': System, t: TaskId)
    requires Run(sys, es, sys') && t in sys'.retried
    ensures t in sys.retried || Retry(t) in es
    decreases |es|
  {
    if es != [] {
      RetriedRun(Next(sys, es[0]), es[1..], sys', t);
      if t in Next(sys, es[0]).retried { RetriedStep(sys, es[0], t); }
    }
  }

  /** Set 'pending' by hand while it still waits. */
  predicate Forcing(sys: System, e: Event, t: TaskId) {
    e == Retry(t) && t in sys.store.tasks && sys.store.tasks[t].status == PrePending
  }

  lemma ForcedStep(sys: System, e: Event, t: TaskId)
    requires Enabled(sys, e) && t in History(sys, e).forced
    ensures t in sys.forced || Forcing(sys, e, t)
  {
  }

  /** Whatever was forced during a run was forced by one of its steps. */
  lemma {:induction false} ForcedRun(sys: System, es: seq<Event>, sys': System, t: TaskId) returns (i: nat, mid: System)
    requires Run(sys, es, sys') && t in sys'.forced && t !in sys.forced
    ensures i < |es| && Run(sys, es[..i], mid) && Forcing(mid, es[i], t)
    decreases |es|
  {
    var next := Next(sys, es[0]);
    if t in next.forced {
      ForcedStep(sys, es[0], t);
      i, mid := 0, sys;
      assert Run(sys, [], sys);
    } else {
      var j;
      j, mid := ForcedRun(next, es[1..], sys', t);
      i := j + 1;
      assert es[..i][1..] == es[1..][..j];
    }
  }

  /** On the trace: if a worker takes a task that no step forced into the queue, whether
      or not it was put back there after it had run, then for each dependency it was
      submitted with some earlier step finished it, or failed it under policy 'continue'. */
  lemma TakenAfterItsDependencies(es: seq<Event>, sys: System, d: TaskId) returns (i: nat, mid: System)
    requires Run(Start, es, sys) && sys.store.L(Tasks(Pending)) != []
    requires var t := sys.store.L(Tasks(Pending))[0];
      && (forall k, m :: 0 <= k < |es| && Run(Start, es[..k], m) ==> !Forcing(m, es[k], t))
      && t in sys.declared && d in sys.declared[t]
    ensures i < |es| && Run(Start, es[..i], mid) && Enabled(mid, es[i]) && Resolving(mid, es[i], d)
  {
    var t := sys.store.L(Tasks(Pending))[0];
    InvStart();
    InvRun(Start, es, sys);
    if t in sys.forced {
      var k, m := ForcedRun(Start, es, sys, t);
      assert false;
    }
    assert InList(sys.store, Pending, t);
    assert !Waits(sys.store, t, d);
    i, mid := ResolvedRun(Start, es, sys, d);
  }

  // ---- queue discipline ----

  /** The queue is (released, retried or satisfied tasks) ++ (tasks submitted without
      dependencies and never retried, by increasing id). */
  lemma QueueShape(sys: System) returns (k: nat)
    requires Reachable(sys)
    ensures var queue := sys.store.L(Tasks(Pending));
      && k <= |queue|
      && (forall i :: 0 <= i < k ==> !Plain(sys.declared, sys.retried, queue[i]))
      && (forall i :: k <= i < |queue| ==> Plain(sys.declared, sys.retried, queue[i]))
      && Ascending(queue[k..])
  {
    InvReachable(sys);
    var queue, plain := sys.store.L(Tasks(Pending)), PlainSet(sys.declared, sys.retried);
    k := PlainTail(queue, plain);
    forall t ensures t in plain <==> Plain(sys.declared, sys.retried, t) { }
  }

  lemma PlainTail(queue: seq<TaskId>, plain: set<TaskId>) returns (k: nat)
    requires PlainLast(queue, plain)
    ensures k <= |queue| && Ascending(queue[k..])
    ensures forall i :: 0 <= i < k ==> queue[i] !in plain
    ensures forall i :: k <= i < |queue| ==> queue[i] in plain
  {
    k := 0;
    while k < |queue| && queue[k] !in plain
      invariant k <= |queue|
      invariant forall i :: 0 <= i < k ==> queue[i] !in plain
    {
      k := k + 1;
    }
  }

  /** Plain tasks are taken in the order of their submission, in every run. */
  lemma TakenInOrder(es1: seq<Event>, sys1: System, w: WorkerId, es2: seq<Event>, sys2: System, a: TaskId, b: TaskId)
    requires Run(Start, es1, sys1) && Run(Next(sys1, Take(w)), es2, sys2)
    requires sys1.store.L(Tasks(Pending)) != [] && sys1.store.L(Tasks(Pending))[0] == a
    requires sys2.store.L(Tasks(Pending)) != [] && sys2.store.L(Tasks(Pending))[0] == b
    requires a in sys1.declared && sys1.declared[a] == [] && b in sys2.declared && sys2.declared[b] == []
    requires Retry(a) !in es1 + es2 && Retry(b) !in es1 + es2
    ensures a < b
  {
    InvStart();
    InvRun(Start, es1, sys1);
    var mid := Next(sys1, Take(w));
    InvKept(sys1, Take(w));
    PopEffect(sys1.store, w);
    InvRun(mid, es2, sys2);
    GrownRun(mid, es2, sys2);
    NeverRetried(es1, sys1, w, es2, sys2, a);
    NeverRetried(es1, sys1, w, es2, sys2, b);
    StartedBeforeQueued(sys2, a, b);
  }

  lemma NeverRetried(es1: seq<Event>, sys1: System, w: WorkerId, es2: seq<Event>, sys2: System, t: TaskId)
    requires Run(Start, es1, sys1) && Run(Next(sys1, Take(w)), es2, sys2)
    requires Retry(t) !in es1 + es2
    ensures t !in sys2.retried
  {
    assert Retry(t) !in es1 && Retry(t) !in es2;
    if t in sys2.retried {
      RetriedRun(Next(sys1, Take(w)), es2, sys2, t);
      RetriedRun(Start, es1, sys1, t);
    }
  }

  lemma StartedBeforeQueued(sys: System, a: TaskId, b: TaskId)
    requires Inv(sys) && a in sys.store.tasks && sys.store.tasks[a].started
    requires Plain(sys.declared, sys.retried, a) && Plain(sys.declared, sys.retried, b)
    requires sys.store.L(Tasks(Pending)) != [] && sys.store.L(Tasks(Pending))[0] == b
    ensures a < b
  {
    assert InList(sys.store, Pending, b);
    assert a in PlainSet(sys.declared, sys.retried) && b in PlainSet(sys.declared, sys.retried);
  }
}
