/** Workers that go round pop - run - report - clear, with supervisors that clean up
    after crashes. */
module WorkerCycle {
  import opened RedisLists
  import opened TaskModel
  import opened TaskScripts
  import opened TaskInvariants
  import opened SchedulerRuns
  import opened SchedulerInvariant

  /** w popped a task and did not report it itself yet: it is inside the task's command,
      whatever others did to the task meanwhile. */
  predicate Running(sys: System, w: WorkerId) { w in sys.store.current && w !in sys.reporting }

  /** The worker's side of the protocol: only an idle worker pops, it reports the task it
      popped, once, and clears it after that. */
  predicate InCycle(sys: System, e: Event) {
    match e
    case Take(w) => w !in sys.store.current
    case Finish(t, via) => via.Some? ==> Running(sys, via.value) && sys.store.current[via.value] == t
    case Fail(t, via) => via.Some? ==> Running(sys, via.value) && sys.store.current[via.value] == t
    case Clear(w) => !Running(sys, w)
    case _ => true
  }

  ghost predicate CycleRun(sys: System, es: seq<Event>, sys': System)
    decreases |es|
  {
    if es == [] then sys == sys'
    else Enabled(sys, es[0]) && InCycle(sys, es[0]) && CycleRun(Next(sys, es[0]), es[1..], sys')
  }

  /** An ongoing task is the current task of the worker it records, which still runs it. */
  ghost predicate Matched(s: Store, reporting: set<WorkerId>) {
    && (forall t :: t in s.tasks && s.tasks[t].status == Ongoing ==>
          s.tasks[t].worker.Some? && s.tasks[t].worker.value in s.current
          && s.current[s.tasks[t].worker.value] == t && s.tasks[t].worker.value !in reporting)
    && (forall w :: w in reporting ==> w in s.current)
  }

  lemma MatchedMoved(s: Store, reporting: set<WorkerId>, t: TaskId, target: Status, via: Option<WorkerId>, s': Store)
    requires Matched(s, reporting) && t in s.tasks && target != Ongoing
    requires Moved(s, t, s.tasks[t].status, target, s') || (s' == s && (via.None? || s.tasks[t].status != Ongoing))
    requires via.Some? ==> via.value in s.current && s.current[via.value] == t
    ensures Matched(s', reporting + By(via))
  {
  }

  lemma MatchedTake(s: Store, reporting: set<WorkerId>, w: WorkerId, s': Store)
    requires Partition(s) && Matched(s, reporting) && w !in s.current && Popped(s, w, s')
    ensures Matched(s', reporting - {w})
  {
    assert InList(s, Pending, s.L(Tasks(Pending))[0]);
  }

  lemma MatchedNotify(s: Store, reporting: set<WorkerId>, d: TaskId, freed: seq<TaskId>, s': Store)
    requires Partition(s) && Matched(s, reporting) && Released(s, d, freed, s')
    ensures Matched(s', reporting)
  {
    forall t | t in s.tasks && s.tasks[t].status == Ongoing ensures t !in freed {
      assert !InList(s, PrePending, t);
    }
  }

  lemma MatchedCommit(sys: System, e: Event, s': Store)
    requires Coherent(sys.store) && Matched(sys.store, sys.reporting)
    requires Enabled(sys, e) && InCycle(sys, e) && Effect(sys.store, e, s') && (e.Retry? || e.Finish? || e.Fail?)
    ensures Matched(s', History(sys, e).reporting)
  {
    if e.Retry? {
      MatchedMoved(sys.store, sys.reporting, e.task, Pending, None, s');
    } else {
      MatchedMoved(sys.store, sys.reporting, e.task, if e.Finish? then Finished else Failed, e.via, s');
    }
  }

  lemma MatchedCrash(sys: System, w: WorkerId, s': Store)
    requires Matched(sys.store, sys.reporting)
    requires Enabled(sys, Crash(w)) && Effect(sys.store, Crash(w), s')
    ensures Matched(s', sys.reporting - {w})
  {
    var s := sys.store;
    if w in s.current {
      MatchedMoved(s, sys.reporting, s.current[w], Failed, None, s'.(current := s.current));
    }
  }

  lemma MatchedStep(sys: System, e: Event, s': Store)
    requires Partition(sys.store) && Coherent(sys.store) && Matched(sys.store, sys.reporting)
    requires Enabled(sys, e) && InCycle(sys, e) && Effect(sys.store, e, s')
    ensures Matched(s', History(sys, e).reporting)
  {
    var s := sys.store;
    if e.Retry? || e.Finish? || e.Fail? {
      MatchedCommit(sys, e, s');
    } else if e.Crash? {
      MatchedCrash(sys, e.worker, s');
    } else if e.Notify? {
      var freed :| Released(s, e.task, freed, s');
      MatchedNotify(s, sys.reporting, e.task, freed, s');
    } else if e.Take? && s.L(Tasks(Pending)) != [] {
      MatchedTake(s, sys.reporting, e.worker, s');
    }
  }

  lemma MatchedKept(sys: System, e: Event)
    requires Inv(sys) && Matched(sys.store, sys.reporting) && Enabled(sys, e) && InCycle(sys, e)
    ensures Matched(Next(sys, e).store, Next(sys, e).reporting)
  {
    StepEffect(sys, e);
    MatchedStep(sys, e, StoreNext(sys.store, e));
  }

  lemma {:induction false} MatchedRun(sys: System, es: seq<Event>, sys': System)
    requires Inv(sys) && Matched(sys.store, sys.reporting) && CycleRun(sys, es, sys')
    ensures Inv(sys') && Matched(sys'.store, sys'.reporting)
    decreases |es|
  {
    if es != [] {
      InvKept(sys, es[0]);
      MatchedKept(sys, es[0]);
      MatchedRun(Next(sys, es[0]), es[1..], sys');
    }
  }

  // ---- what follows ----

  /** Who runs the listed tasks. */
  function WorkersOf(s: Store, l: seq<TaskId>): set<WorkerId>
    requires forall t :: t in l ==> t in s.tasks && s.tasks[t].worker.Some?
  {
    set t | t in l :: s.tasks[t].worker.value
  }

  lemma {:induction false} WorkersCount(s: Store, l: seq<TaskId>)
    requires NoDup(l)
    requires forall t :: t in l ==> t in s.tasks && s.tasks[t].worker.Some?
    requires forall t :: t in l ==> s.tasks[t].worker.value in s.current && s.current[s.tasks[t].worker.value] == t
    ensures |WorkersOf(s, l)| == |l|
  {
    if l != [] {
      NoDupTail(l);
      WorkersCount(s, l[1..]);
      assert WorkersOf(s, l) == WorkersOf(s, l[1..]) + {s.tasks[l[0]].worker.value};
    }
  }

  /** In every run of such workers, whatever clients and supervisors do: an ongoing task's
      recorded worker is running it; at most as many tasks are ongoing as workers have a
      current task. */
  lemma WorkersMatch(es: seq<Event>, sys: System)
    requires CycleRun(Start, es, sys)
    ensures forall t :: t in sys.store.tasks && sys.store.tasks[t].status == Ongoing ==>
      var w := sys.store.tasks[t].worker; w.Some? && Running(sys, w.value) && sys.store.current[w.value] == t
    ensures |sys.store.L(Tasks(Ongoing))| <= |sys.store.current.Keys|
  {
    InvStart();
    MatchedRun(Start, es, sys);
    BusyBound(sys.store, sys.reporting);
  }

  lemma BusyBound(s: Store, reporting: set<WorkerId>)
    requires Valid(s) && Matched(s, reporting)
    ensures |s.L(Tasks(Ongoing))| <= |s.current.Keys|
  {
    var ongoing := s.L(Tasks(Ongoing));
    forall t | t in ongoing ensures t in s.tasks && s.tasks[t].status == Ongoing {
      assert InList(s, Ongoing, t);
    }
    WorkersCount(s, ongoing);
    SubsetSize(WorkersOf(s, ongoing), s.current.Keys);
  }

  lemma {:induction false} SubsetSize(a: set<nat>, b: set<nat>)
    requires a <= b
    ensures |a| <= |b|
  {
    if a != {} {
      var x :| x in a;
      SubsetSize(a - {x}, b - {x});
    }
  }

  // ---- one task, one worker ----

  /** No two workers record the same task. */
  ghost predicate Injective(current: map<WorkerId, TaskId>) {
    forall v, w :: v in current && w in current && v != w ==> current[v] != current[w]
  }

  /** A pop by an idle worker keeps the recorded tasks apart iff the task it takes is not
      recorded already. */
  lemma PopInjectiveIff(s: Store, w: WorkerId, s': Store)
    requires Popped(s, w, s') && w !in s.current && Injective(s.current)
    ensures Injective(s'.current) <==> s.L(Tasks(Pending))[0] !in s.current.Values
  {
    var t := s.L(Tasks(Pending))[0];
    if t in s.current.Values {
      var v :| v in s.current && s.current[v] == t;
      assert s'.current[v] == s'.current[w] && v != w;
    }
  }

  /** Nobody puts a task back in the queue that some worker still records. */
  predicate Careful(sys: System, e: Event) {
    && e.Retry? && e.task in sys.store.tasks
    && sys.store.tasks[e.task].status != Pending && sys.store.tasks[e.task].status != Ongoing ==>
      e.task !in sys.store.current.Values
  }

  ghost predicate CarefulRun(sys: System, es: seq<Event>, sys': System)
    decreases |es|
  {
    if es == [] then sys == sys'
    else Enabled(sys, es[0]) && InCycle(sys, es[0]) && Careful(sys, es[0])
         && CarefulRun(Next(sys, es[0]), es[1..], sys')
  }

  /** Recorded tasks are apart, and none of them is queued or waiting. */
  ghost predicate Apart(s: Store) {
    && Injective(s.current)
    && (forall w :: w in s.current ==> s.current[w] in s.tasks)
    && (forall w :: w in s.current ==>
          s.tasks[s.current[w]].status != Pending && s.tasks[s.current[w]].status != PrePending)
  }

  lemma ApartTake(s: Store, w: WorkerId, s': Store)
    requires Partition(s) && Apart(s) && w !in s.current && Popped(s, w, s')
    ensures Apart(s')
  {
    assert InList(s, Pending, s.L(Tasks(Pending))[0]);
    assert s.L(Tasks(Pending))[0] !in s.current.Values;
    PopInjectiveIff(s, w, s');
  }

  lemma ApartNotify(s: Store, d: TaskId, freed: seq<TaskId>, s': Store)
    requires Partition(s) && Apart(s) && Released(s, d, freed, s')
    ensures Apart(s')
  {
    forall t | t in freed ensures s.tasks[t].status == PrePending { assert InList(s, PrePending, t); }
  }

  lemma ApartMoved(s: Store, t: TaskId, target: Status, s': Store)
    requires Apart(s) && t in s.tasks && Moved(s, t, s.tasks[t].status, target, s') && target != PrePending
    requires target == Pending ==> t !in s.current.Values
    ensures Apart(s')
  {
  }

  lemma ApartStep(sys: System, e: Event, s': Store)
    requires Partition(sys.store) && Apart(sys.store)
    requires Enabled(sys, e) && InCycle(sys, e) && Careful(sys, e) && Effect(sys.store, e, s')
    ensures Apart(s')
  {
    var s := sys.store;
    if e.Retry? {
      if s' != s { ApartMoved(s, e.task, Pending, s'); }
    } else if e.Finish? || e.Fail? {
      if s' != s { ApartMoved(s, e.task, if e.Finish? then Finished else Failed, s'); }
    } else if e.Crash? && e.worker in s.current {
      ApartMoved(s, s.current[e.worker], Failed, s'.(current := s.current));
    } else if e.Notify? {
      var freed :| Released(s, e.task, freed, s');
      ApartNotify(s, e.task, freed, s');
    } else if e.Take? && s.L(Tasks(Pending)) != [] {
      ApartTake(s, e.worker, s');
    }
  }

  lemma {:induction false} ApartRun(sys: System, es: seq<Event>, sys': System)
    requires Inv(sys) && Apart(sys.store) && CarefulRun(sys, es, sys')
    ensures Apart(sys'.store)
    decreases |es|
  {
    if es != [] {
      InvKept(sys, es[0]);
      StepEffect(sys, es[0]);
      ApartStep(sys, es[0], StoreNext(sys.store, es[0]));
      ApartRun(Next(sys, es[0]), es[1..], sys');
    }
  }

  /** As long as no task is retried that a worker still records, no two workers record,
      let alone run, the same task. */
  lemma OneWorkerATask(es: seq<Event>, sys: System)
    requires CarefulRun(Start, es, sys)
    ensures Injective(sys.store.current)
  {
    InvStart();
    ApartRun(Start, es, sys);
  }

  /** A worker's round is such a run, from wherever an idle worker finds a task queued. */
  lemma RoundIsRun(sys: System, w: WorkerId) returns (es: seq<Event>, sys': System)
    requires Reachable(sys) && w !in sys.store.current && sys.store.L(Tasks(Pending)) != []
    ensures var t := sys.store.L(Tasks(Pending))[0]; es == [Take(w), Finish(t, Some(w)), Notify(t), Clear(w)]
    ensures CarefulRun(sys, es, sys')
  {
    var t, next := AfterTake(sys, w);
    es, sys' := RoundFinish(next, w, t);
    es := PrependCareful(sys, Take(w), es, next, sys');
  }

  lemma AfterTake(sys: System, w: WorkerId) returns (t: TaskId, next: System)
    requires Reachable(sys) && w !in sys.store.current && sys.store.L(Tasks(Pending)) != []
    ensures t == sys.store.L(Tasks(Pending))[0] && Follows(sys, Take(w), next) && Reachable(next)
    ensures Inside(next, w, t)
  {
    t := sys.store.L(Tasks(Pending))[0];
    InvReachable(sys);
    ReachableStep(sys, Take(w));
    next := Advance(sys, Take(w));
  }

  /** w is inside the ongoing task t. */
  ghost predicate Inside(sys: System, w: WorkerId, t: TaskId) {
    && Running(sys, w) && sys.store.current[w] == t
    && t in sys.store.tasks && sys.store.tasks[t].status == Ongoing && sys.store.tasks[t].started
  }

  /** A step of a careful run. */
  ghost predicate Follows(sys: System, e: Event, next: System) {
    Enabled(sys, e) && InCycle(sys, e) && Careful(sys, e) && next == Next(sys, e)
  }

  lemma RoundFinish(sys: System, w: WorkerId, t: TaskId) returns (es: seq<Event>, sys': System)
    requires Reachable(sys) && Inside(sys, w, t)
    ensures es == [Finish(t, Some(w)), Notify(t), Clear(w)] && CarefulRun(sys, es, sys')
  {
    var next := AfterFinish(sys, w, t);
    es, sys' := RoundNotify(next, w, t);
    es := PrependCareful(sys, Finish(t, Some(w)), es, next, sys');
  }

  lemma AfterFinish(sys: System, w: WorkerId, t: TaskId) returns (next: System)
    requires Reachable(sys) && Inside(sys, w, t)
    ensures Follows(sys, Finish(t, Some(w)), next) && Reachable(next)
    ensures t in next.releases && w in next.reporting
  {
    ReachableStep(sys, Finish(t, Some(w)));
    next := Next(sys, Finish(t, Some(w)));
  }

  lemma RoundNotify(sys: System, w: WorkerId, t: TaskId) returns (es: seq<Event>, sys': System)
    requires t in sys.releases && w in sys.reporting
    ensures es == [Notify(t), Clear(w)] && CarefulRun(sys, es, sys')
  {
    var next := AfterNotify(sys, w, t);
    sys' := AfterClear(next, w);
    es := PrependCareful(next, Clear(w), [], sys', sys');
    es := PrependCareful(sys, Notify(t), es, next, sys');
  }

  lemma AfterNotify(sys: System, w: WorkerId, t: TaskId) returns (next: System)
    requires t in sys.releases && w in sys.reporting
    ensures Follows(sys, Notify(t), next) && w in next.reporting
  {
    next := Next(sys, Notify(t));
  }

  lemma AfterClear(sys: System, w: WorkerId) returns (next: System)
    requires w in sys.reporting
    ensures Follows(sys, Clear(w), next)
  {
    next := Next(sys, Clear(w));
  }

  lemma PrependCareful(sys: System, e: Event, es: seq<Event>, next: System, sys': System) returns (all: seq<Event>)
    requires Follows(sys, e, next) && CarefulRun(next, es, sys')
    ensures all == [e] + es && CarefulRun(sys, all, sys')
  {
    all := [e] + es;
    assert all[1..] == es;
  }

  /** Without that care two workers end up inside the same task: worker 0 takes task 1, a
      client declares it finished and puts it back, and worker 1 takes it. */
  lemma TwoWorkersRunOneTask(p: Policy) returns (es: seq<Event>, sys: System)
    ensures CycleRun(Start, es, sys)
    ensures BothAt1(sys)
  {
    InvStart();
    var first := Advance(Start, Submit([], p));
    FirstTask(p, first.store);
    es, sys := FromQueued(first);
    es := Prepend(Start, Submit([], p), es, sys);
  }

  predicate BothAt1(sys: System) {
    Running(sys, 0) && Running(sys, 1) && sys.store.current[0] == sys.store.current[1] == 1
  }

  lemma FromQueued(sys: System) returns (es: seq<Event>, sys': System)
    requires Inv(sys) && Stands(sys.store, Pending, false) && sys.store.current == map[] && sys.reporting == {}
    ensures CycleRun(sys, es, sys') && BothAt1(sys')
  {
    var next := Advance(sys, Take(0));
    Taken(sys.store, 0, next.store);
    es, sys' := FromTaken(next);
    es := Prepend(sys, Take(0), es, sys');
  }

  lemma FromTaken(sys: System) returns (es: seq<Event>, sys': System)
    requires Inv(sys) && Stands(sys.store, Ongoing, true) && sys.store.current == map[0 := 1] && sys.reporting == {}
    ensures CycleRun(sys, es, sys') && BothAt1(sys')
  {
    var next := ClientFinish(sys);
    es, sys' := FromFinished(next);
    es := Prepend(sys, Finish(1, None), es, sys');
  }

  lemma ClientFinish(sys: System) returns (next: System)
    requires Inv(sys) && Stands(sys.store, Ongoing, true)
    ensures next == Next(sys, Finish(1, None)) && Inv(next)
    ensures Stands(next.store, Finished, true) && next.store.current == sys.store.current && next.reporting == sys.reporting
  {
    next := Advance(sys, Finish(1, None));
    ReportedQuiet(sys, next);
  }

  lemma ReportedQuiet(sys: System, next: System)
    requires Stands(sys.store, Ongoing, true) && Effect(sys.store, Finish(1, None), next.store)
    requires next.reporting == History(sys, Finish(1, None)).reporting
    ensures Stands(next.store, Finished, true) && next.store.current == sys.store.current && next.reporting == sys.reporting
  {
    Committed(sys.store, Ongoing, Finished, next.store);
  }

  lemma FromFinished(sys: System) returns (es: seq<Event>, sys': System)
    requires Inv(sys) && Stands(sys.store, Finished, true) && sys.store.current == map[0 := 1] && sys.reporting == {}
    ensures CycleRun(sys, es, sys') && BothAt1(sys')
  {
    var next := Advance(sys, Retry(1));
    Committed(sys.store, Finished, Pending, next.store);
    es, sys' := FromRetried(next);
    es := Prepend(sys, Retry(1), es, sys');
  }

  lemma FromRetried(sys: System) returns (es: seq<Event>, sys': System)
    requires Inv(sys) && Stands(sys.store, Pending, true) && sys.store.current == map[0 := 1] && sys.reporting == {}
    ensures CycleRun(sys, es, sys') && BothAt1(sys')
  {
    sys' := Advance(sys, Take(1));
    Taken(sys.store, 1, sys'.store);
    es := Prepend(sys, Take(1), [], sys');
  }

  lemma Advance(sys: System, e: Event) returns (sys': System)
    requires Inv(sys) && Enabled(sys, e)
    ensures sys' == Next(sys, e) && sys'.reporting == History(sys, e).reporting
    ensures Inv(sys') && Effect(sys.store, e, sys'.store)
  {
    sys' := Next(sys, e);
    StepEffect(sys, e);
    InvKept(sys, e);
  }

  lemma Prepend(sys: System, e: Event, es: seq<Event>, sys': System) returns (all: seq<Event>)
    requires Enabled(sys, e) && InCycle(sys, e) && CycleRun(Next(sys, e), es, sys')
    ensures CycleRun(sys, all, sys')
  {
    all := [e] + es;
    assert all[1..] == es;
  }

  /** Task 1 with the given status, alone in the queue if it is pending. */
  ghost predicate Stands(s: Store, st: Status, started: bool) {
    && 1 in s.tasks && s.tasks[1].status == st && s.tasks[1].started == started
    && s.L(Tasks(Pending)) == if st == Pending then [1] else []
  }

  lemma FirstTask(p: Policy, s: Store)
    requires Submitted(EmptyStore, [], p, s)
    ensures Stands(s, Pending, false) && s.current == map[]
  {
    assert EmptyStore.L(Tasks(Pending)) == [];
  }

  lemma Taken(s: Store, w: WorkerId, s': Store)
    requires exists started :: Stands(s, Pending, started)
    requires Popped(s, w, s')
    ensures Stands(s', Ongoing, true) && s'.current == s.current[w := 1]
  {
  }

  lemma Committed(s: Store, st: Status, target: Status, s': Store)
    requires st != target && Stands(s, st, true) && Moved(s, 1, st, target, s')
    ensures Stands(s', target, true) && s'.current == s.current
  {
  }

  /** The supervisor's cleanup keeps the partition iff the worker's current task is
      still ongoing, or sits in no list. */
  lemma CleanupPartitionIff(s: Store, w: WorkerId)
    requires Partition(s) && w in s.current && s.current[w] in s.tasks
    ensures Partition(FailCurrent(s, w)) <==>
      var t := s.current[w]; s.tasks[t].status == Ongoing || !InList(s, s.tasks[t].status, t)
  {
    var t := s.current[w];
    var s1 := Move(s, t, Ongoing, Failed);
    MovePartitionIff(s, t, Ongoing, Failed);
    PartitionIgnoresCurrent(s1, FailCurrent(s, w));
  }

  lemma PartitionIgnoresCurrent(s: Store, s': Store)
    requires s' == s.(current := s'.current)
    ensures Partition(s) <==> Partition(s')
  {
    assert forall k :: s'.L(k) == s.L(k);
    assert forall st, t :: InList(s', st, t) <==> InList(s, st, t);
  }
}
