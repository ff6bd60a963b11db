/** The scheduler gets its work done: a bound on the steps of any drain, and what
    can be left over at its end. */
module SchedulerProgress {
  import opened RedisLists
  import opened TaskModel
  import opened TaskScripts
  import opened TaskInvariants
  import opened SchedulerRuns
  import opened SchedulerInvariant
  import opened SchedulerTheorems

  // ---- no stuck tasks ----

  /** Nothing runs, nothing is queued and no release script is still to run. */
  ghost predicate Quiescent(sys: System) {
    && sys.store.L(Tasks(Pending)) == [] && sys.store.L(Tasks(Ongoing)) == []
    && forall d :: d !in sys.releases
  }

  /** Each created task has a rank; its declared dependencies are created and rank lower. */
  ghost predicate Ranked(declared: map<TaskId, seq<TaskId>>, rank: map<TaskId, nat>) {
    && rank.Keys == declared.Keys
    && forall t, d :: t in declared && d in declared[t] ==> d in rank && rank[d] < rank[t]
  }

  /** The graph of declarations is closed and acyclic; the script does not check this. */
  ghost predicate Acyclic(declared: map<TaskId, seq<TaskId>>) { exists rank :: Ranked(declared, rank) }

  /** Naming only tasks that exist already is enough. */
  lemma OlderIsAcyclic(sys: System)
    requires Reachable(sys)
    requires forall t, d :: t in sys.declared && d in sys.declared[t] ==> 1 <= d < t
    ensures Acyclic(sys.declared)
  {
    InvReachable(sys);
    var rank := map t: TaskId | t in sys.declared :: t;
    assert Ranked(sys.declared, rank);
  }

  /** What ends a chain of waiting tasks: a task that failed, was deleted, or is finished
      with nobody left to run its release script. */
  ghost predicate Culprit(sys: System, d: TaskId) {
    InList(sys.store, Failed, d) || d in sys.deleted || d in sys.lost
  }

  /** t waits for the next, and so on, down to a culprit. */
  ghost predicate Blocked(sys: System, chain: seq<TaskId>) {
    && |chain| >= 2
    && (forall i :: 0 <= i < |chain| - 1 ==>
          InList(sys.store, PrePending, chain[i]) && Waits(sys.store, chain[i], chain[i + 1]))
    && Culprit(sys, chain[|chain| - 1])
  }

  /** The part of the invariant that the chain rests on. */
  ghost predicate Settled(sys: System, rank: map<TaskId, nat>) {
    && Quiescent(sys) && Ranked(sys.declared, rank)
    && (forall t :: InList(sys.store, PrePending, t) ==> sys.store.L(Dependencies(t)) != [])
    && Accounted(sys.store, sys.deleted) && NoLostWakeUp(sys.store, sys.releases, sys.lost)
    && Remembered(sys.store, sys.declared, sys.resolved)
  }

  lemma NextBlocked(sys: System, rank: map<TaskId, nat>, t: TaskId) returns (d: TaskId)
    requires Settled(sys, rank) && InList(sys.store, PrePending, t)
    ensures Waits(sys.store, t, d) && t in rank && d in rank && rank[d] < rank[t]
    ensures InList(sys.store, PrePending, d) || Culprit(sys, d)
  {
    d := sys.store.L(Dependencies(t))[0];
    assert Waits(sys.store, t, d);
    assert t in sys.declared && d in sys.declared[t];
    WaitedFor(sys, t, d);
  }

  lemma WaitedFor(sys: System, t: TaskId, d: TaskId)
    requires Accounted(sys.store, sys.deleted) && NoLostWakeUp(sys.store, sys.releases, sys.lost)
    requires Quiescent(sys) && Waits(sys.store, t, d) && d in sys.store.tasks
    ensures InList(sys.store, PrePending, d) || Culprit(sys, d)
  {
    var st := sys.store.tasks[d].status;
    assert sys.store.FinishedNow(d) ==> d in sys.releases || d in sys.lost;
    if d !in sys.deleted {
      assert InList(sys.store, st, d);
    }
  }

  lemma Longer(sys: System, t: TaskId, chain: seq<TaskId>) returns (chain': seq<TaskId>)
    requires Blocked(sys, chain) && InList(sys.store, PrePending, t) && Waits(sys.store, t, chain[0])
    ensures Blocked(sys, chain') && chain'[0] == t
  {
    chain' := [t] + chain;
  }

  /** In a quiescent state a task waits only because of a failure, a deletion or a loss. */
  lemma {:induction false} StuckOnlyByFailure(sys: System, rank: map<TaskId, nat>, t: TaskId) returns (chain: seq<TaskId>)
    requires Settled(sys, rank) && InList(sys.store, PrePending, t)
    ensures Blocked(sys, chain) && chain[0] == t
    decreases if t in rank then rank[t] + 1 else 0
  {
    var d := NextBlocked(sys, rank, t);
    if InList(sys.store, PrePending, d) {
      var rest := StuckOnlyByFailure(sys, rank, d);
      chain := Longer(sys, t, rest);
    } else {
      chain := [t, d];
    }
  }

  /** Nothing failed, nothing was deleted, no release was lost, nobody was forced. */
  ghost predicate Smooth(sys: System) {
    sys.store.L(Tasks(Failed)) == [] && sys.deleted == {} && sys.lost == {} && sys.forced == {}
  }

  lemma NobodyWaits(sys: System)
    requires Inv(sys) && Quiescent(sys) && Acyclic(sys.declared)
    requires sys.store.L(Tasks(Failed)) == [] && sys.deleted == {} && sys.lost == {}
    ensures sys.store.L(Tasks(PrePending)) == []
  {
    var rank :| Ranked(sys.declared, rank);
    var waiting := sys.store.L(Tasks(PrePending));
    if waiting != [] {
      assert InList(sys.store, PrePending, waiting[0]);
      var chain := StuckOnlyByFailure(sys, rank, waiting[0]);
      NoCulprit(sys, chain[|chain| - 1]);
    }
  }

  lemma NoCulprit(sys: System, d: TaskId)
    requires sys.store.L(Tasks(Failed)) == [] && sys.deleted == {} && sys.lost == {}
    ensures !Culprit(sys, d)
  {
  }

  /** With no failure, deletion or loss nothing is left waiting. */
  lemma NothingStuck(sys: System)
    requires Reachable(sys) && Quiescent(sys) && Acyclic(sys.declared)
    requires sys.store.L(Tasks(Failed)) == [] && sys.deleted == {} && sys.lost == {}
    ensures sys.store.L(Tasks(PrePending)) == []
    ensures forall t :: 1 <= t <= sys.store.count ==> t in sys.store.tasks && sys.store.tasks[t].status == Finished
  {
    InvReachable(sys);
    NobodyWaits(sys);
    AllFinished(sys);
  }

  lemma AllFinished(sys: System)
    requires Partition(sys.store) && Accounted(sys.store, sys.deleted) && Quiescent(sys)
    requires sys.store.L(Tasks(PrePending)) == [] && sys.store.L(Tasks(Failed)) == [] && sys.deleted == {}
    ensures forall t :: 1 <= t <= sys.store.count ==> t in sys.store.tasks && sys.store.tasks[t].status == Finished
  {
    forall t: TaskId | 1 <= t <= sys.store.count
      ensures t in sys.store.tasks && sys.store.tasks[t].status == Finished
    {
      assert t in sys.store.tasks && InList(sys.store, sys.store.tasks[t].status, t);
    }
  }

  // ---- when exactly nothing is stuck ----

  /** A resolved task had started. */
  ghost predicate ResolvedStarted(sys: System) {
    forall d :: d in sys.resolved ==> d in sys.store.tasks && sys.store.tasks[d].started
  }

  /** The tasks that are past pre_pending. */
  function Past(s: Store): set<TaskId> { set t | t in s.tasks && s.tasks[t].status != PrePending }

  /** The tasks of `past` have a rank below n, above those of all their dependencies. */
  ghost predicate Layered(past: set<TaskId>, declared: map<TaskId, seq<TaskId>>, rank: map<TaskId, nat>, n: nat) {
    && rank.Keys == past
    && (forall t :: t in rank ==> rank[t] < n)
    && (forall t, d :: t in rank && t in declared && d in declared[t] ==> d in rank && rank[d] < rank[t])
  }

  /** Newcomers whose dependencies are past already go on top. */
  lemma LayerUp(past: set<TaskId>, declared: map<TaskId, seq<TaskId>>, rank: map<TaskId, nat>, n: nat,
                past': set<TaskId>, declared': map<TaskId, seq<TaskId>>) returns (rank': map<TaskId, nat>)
    requires Layered(past, declared, rank, n) && past <= past' && past <= declared.Keys
    requires forall t :: t in past ==> t in declared' && declared'[t] == declared[t]
    requires forall t, d :: t in past' && t !in past && t in declared' && d in declared'[t] ==> d in past
    ensures Layered(past', declared', rank', n + 1)
  {
    rank' := map t | t in past' :: if t in rank then rank[t] else n;
    forall t, d | t in rank' && t in declared' && d in declared'[t] ensures d in rank' && rank'[d] < rank'[t] {
      if t in rank {
        assert t in declared && d in declared[t];
        assert d in rank && rank[d] < rank[t];
      } else {
        assert d in past;
      }
    }
  }

  /** No step sends a task back to pre_pending. */
  lemma NeverBack(s: Store, e: Event, s': Store)
    requires Partition(s) && Effect(s, e, s')
    ensures Past(s) <= Past(s')
  {
    if e.Notify? {
      NotifyNeverBack(s, e.task, s');
    } else if e.Take? && s.L(Tasks(Pending)) != [] {
      assert s'.tasks[s.L(Tasks(Pending))[0]].status == Ongoing;
    } else if e.Submit? {
      assert s.count + 1 !in s.tasks;
    }
  }

  lemma NotifyNeverBack(s: Store, d: TaskId, s': Store)
    requires Effect(s, Notify(d), s')
    ensures Past(s) <= Past(s')
  {
    var freed :| Released(s, d, freed, s');
  }

  lemma ResolvedStartedStep(sys: System, e: Event, next: System)
    requires Inv(sys) && Enabled(sys, e) && ResolvedStarted(sys)
    requires next.resolved == History(sys, e).resolved && GrownStore(sys.store, next.store)
    ensures ResolvedStarted(next)
    ensures forall d :: d in next.resolved ==> d in sys.store.tasks && sys.store.tasks[d].started
  {
    forall d | d in next.resolved ensures d in sys.store.tasks && sys.store.tasks[d].started {
      ResolvedStep(sys, e, d);
    }
  }

  /** Whoever gets past pre_pending in a step has only dependencies that are past it. */
  lemma LayeredStep(sys: System, next: System, rank: map<TaskId, nat>, n: nat) returns (rank': map<TaskId, nat>)
    requires Inv(sys) && Inv(next) && Grown(sys, next) && next.forced == {}
    requires Layered(Past(sys.store), sys.declared, rank, n) && Past(sys.store) <= Past(next.store)
    requires forall d :: d in next.resolved ==> d in sys.store.tasks && sys.store.tasks[d].started
    ensures Layered(Past(next.store), next.declared, rank', n + 1)
  {
    forall t, d | t in Past(next.store) && t in next.declared && d in next.declared[t] ensures d in Past(sys.store) {
      PastIsResolved(next, t, d);
      StartedIsPast(sys.store, d);
    }
    rank' := LayerUp(Past(sys.store), sys.declared, rank, n, Past(next.store), next.declared);
  }

  lemma PastIsResolved(sys: System, t: TaskId, d: TaskId)
    requires Remembered(sys.store, sys.declared, sys.resolved) && Unblocked(sys.store, sys.forced)
    requires t in sys.store.tasks && t !in sys.forced && sys.store.tasks[t].status != PrePending
    requires t in sys.declared && d in sys.declared[t]
    ensures d in sys.resolved
  {
    assert !Waits(sys.store, t, d);
  }

  lemma StartedIsPast(s: Store, d: TaskId)
    requires Coherent(s) && d in s.tasks && s.tasks[d].started
    ensures d in Past(s)
  {
  }

  lemma ForcedGrows(sys: System, e: Event)
    requires Enabled(sys, e)
    ensures sys.forced <= History(sys, e).forced
  {
  }

  lemma {:induction false} ForcedStays(sys: System, es: seq<Event>, sys': System)
    requires Run(sys, es, sys')
    ensures sys.forced <= sys'.forced
    decreases |es|
  {
    if es != [] {
      ForcedGrows(sys, es[0]);
      ForcedStays(Next(sys, es[0]), es[1..], sys');
    }
  }

  /** All that one step gives for the ranking. */
  lemma StepFacts(sys: System, e: Event, next: System)
    requires Inv(sys) && ResolvedStarted(sys) && Enabled(sys, e) && next == Next(sys, e)
    ensures Inv(next) && ResolvedStarted(next) && Grown(sys, next)
    ensures forall d :: d in next.resolved ==> d in sys.store.tasks && sys.store.tasks[d].started
    ensures Past(sys.store) <= Past(next.store)
  {
    InvKept(sys, e);
    StepEffect(sys, e);
    GrownStep(sys, e, StoreNext(sys.store, e));
    ResolvedStartedStep(sys, e, next);
    NeverBack(sys.store, e, StoreNext(sys.store, e));
  }

  lemma {:induction false} LayeredRun(sys: System, es: seq<Event>, sys': System, rank: map<TaskId, nat>, n: nat)
      returns (rank': map<TaskId, nat>, n': nat)
    requires Inv(sys) && ResolvedStarted(sys) && Layered(Past(sys.store), sys.declared, rank, n)
    requires Run(sys, es, sys') && sys'.forced == {}
    ensures Layered(Past(sys'.store), sys'.declared, rank', n')
    decreases |es|
  {
    if es == [] {
      rank', n' := rank, n;
    } else {
      var next := Next(sys, es[0]);
      StepFacts(sys, es[0], next);
      ForcedStays(next, es[1..], sys');
      var above := LayeredStep(sys, next, rank, n);
      rank', n' := LayeredRun(next, es[1..], sys', above, n + 1);
    }
  }

  /** If nobody is left waiting, the ranking covers all tasks. */
  lemma AllLayered(sys: System, rank: map<TaskId, nat>, n: nat)
    requires Accounted(sys.store, sys.deleted) && sys.declared.Keys == sys.store.tasks.Keys
    requires Layered(Past(sys.store), sys.declared, rank, n)
    requires sys.deleted == {} && sys.store.L(Tasks(PrePending)) == []
    ensures Ranked(sys.declared, rank)
  {
    AllPast(sys.store, sys.deleted);
  }

  lemma AllPast(s: Store, deleted: set<TaskId>)
    requires Accounted(s, deleted) && deleted == {} && s.L(Tasks(PrePending)) == []
    ensures Past(s) == s.tasks.Keys
  {
    forall t | t in s.tasks ensures s.tasks[t].status != PrePending {
      assert InList(s, s.tasks[t].status, t);
    }
  }

  /** In a state with nothing queued, ongoing or outstanding, and with nothing failed,
      deleted, lost or forced on the way: nobody is left waiting iff the graph of
      declarations is closed and acyclic. */
  lemma NothingStuckIffAcyclic(sys: System)
    requires Reachable(sys) && Quiescent(sys) && Smooth(sys)
    ensures sys.store.L(Tasks(PrePending)) == [] <==> Acyclic(sys.declared)
  {
    InvReachable(sys);
    if sys.store.L(Tasks(PrePending)) == [] {
      var es :| Run(Start, es, sys);
      InvStart();
      var rank, n := LayeredRun(Start, es, sys, map[], 0);
      AllLayered(sys, rank, n);
    }
    if Acyclic(sys.declared) {
      NothingStuck(sys);
    }
  }

  // ---- the work bound ----

  function Work(sys: System): nat {
    4 * |sys.store.L(Tasks(PrePending))| + 3 * |sys.store.L(Tasks(Pending))|
    + 2 * |sys.store.L(Tasks(Ongoing))| + |sys.releases|
  }

  /** Taking a queued task, reporting an ongoing one, running or losing an outstanding release,
      failing the task of a crashed worker. */
  predicate Drains(sys: System, e: Event) {
    match e
    case Take(w) => sys.store.L(Tasks(Pending)) != []
    case Finish(t, via) => t in sys.store.tasks && sys.store.tasks[t].status == Ongoing
    case Fail(t, via) => t in sys.store.tasks && sys.store.tasks[t].status == Ongoing
    case Notify(d) => d in sys.releases
    case Lose(d) => d in sys.releases
    case Crash(w) => w in sys.store.current
    case _ => false
  }

  lemma ReportDrains(s: Store, t: TaskId, target: Status, s': Store)
    requires Valid(s) && t in s.tasks && s.tasks[t].status == Ongoing && Moved(s, t, Ongoing, target, s')
    requires target == Finished || target == Failed
    ensures |s'.L(Tasks(Ongoing))| == |s.L(Tasks(Ongoing))| - 1
    ensures s'.L(Tasks(PrePending)) == s.L(Tasks(PrePending)) && s'.L(Tasks(Pending)) == s.L(Tasks(Pending))
  {
    assert InList(s, Ongoing, t);
    RemoveNoDup(s.L(Tasks(Ongoing)), t);
  }

  lemma NotifyDrains(s: Store, d: TaskId, freed: seq<TaskId>, s': Store)
    requires Valid(s) && Released(s, d, freed, s')
    ensures |s'.L(Tasks(PrePending))| + |freed| == |s.L(Tasks(PrePending))|
    ensures |s'.L(Tasks(Pending))| == |s.L(Tasks(Pending))| + |freed|
    ensures s'.L(Tasks(Ongoing)) == s.L(Tasks(Ongoing))
  {
    forall t | t in freed ensures t in s.L(Tasks(PrePending)) { assert InList(s, PrePending, t); }
    WithoutLength(s.L(Tasks(PrePending)), freed);
  }

  lemma TakeDrains(s: Store, w: WorkerId, s': Store)
    requires Popped(s, w, s')
    ensures |s'.L(Tasks(Pending))| == |s.L(Tasks(Pending))| - 1 && |s'.L(Tasks(Ongoing))| == |s.L(Tasks(Ongoing))| + 1
    ensures s'.L(Tasks(PrePending)) == s.L(Tasks(PrePending))
  {
  }

  lemma CrashDrains(s: Store, w: WorkerId, s': Store)
    requires Valid(s) && w in s.current && Effect(s, Crash(w), s')
    requires s.current[w] in s.tasks && s.tasks[s.current[w]].status == Ongoing
    ensures |s'.L(Tasks(Ongoing))| == |s.L(Tasks(Ongoing))| - 1
    ensures s'.L(Tasks(PrePending)) == s.L(Tasks(PrePending)) && s'.L(Tasks(Pending)) == s.L(Tasks(Pending))
  {
    var s1 := s'.(current := s.current);
    ReportDrains(s, s.current[w], Failed, s1);
    assert forall k :: s1.L(k) == s'.L(k);
  }

  lemma WorkDecreases(sys: System, e: Event, s': Store)
    requires Valid(sys.store) && Enabled(sys, e) && Drains(sys, e) && Effect(sys.store, e, s')
    ensures Work(History(sys, e).(store := s')) < Work(sys)
  {
    var s := sys.store;
    if e.Take? {
      TakeDrains(s, e.worker, s');
    } else if e.Finish? || e.Fail? {
      ReportDrains(s, e.task, if e.Finish? then Finished else Failed, s');
    } else if e.Notify? {
      var freed :| Released(s, e.task, freed, s');
      NotifyDrains(s, e.task, freed, s');
    } else if e.Crash? {
      CrashDrains(s, e.worker, s');
    }
  }

  /** A run of work steps only. */
  ghost predicate DrainRun(sys: System, es: seq<Event>, sys': System)
    decreases |es|
  {
    if es == [] then sys == sys'
    else Enabled(sys, es[0]) && Drains(sys, es[0]) && DrainRun(Next(sys, es[0]), es[1..], sys')
  }

  lemma DrainDeclares(sys: System, e: Event)
    requires Enabled(sys, e) && Drains(sys, e)
    ensures History(sys, e).declared == sys.declared
  {
  }

  lemma DrainWork(sys: System, e: Event)
    requires Valid(sys.store) && Enabled(sys, e) && Drains(sys, e)
    ensures Work(Next(sys, e)) < Work(sys)
  {
    StepEffect(sys, e);
    WorkDecreases(sys, e, StoreNext(sys.store, e));
  }

  lemma {:induction false} DrainBound(sys: System, es: seq<Event>, sys': System)
    requires Inv(sys) && DrainRun(sys, es, sys')
    ensures |es| <= Work(sys) - Work(sys')
    ensures Inv(sys') && sys'.declared == sys.declared
    decreases |es|
  {
    if es != [] {
      InvKept(sys, es[0]);
      DrainWork(sys, es[0]);
      DrainDeclares(sys, es[0]);
      DrainBound(Next(sys, es[0]), es[1..], sys');
    }
  }

  /** As long as anything is queued, ongoing or outstanding, some work step can be taken. */
  lemma WorkAvailable(sys: System) returns (e: Event)
    requires Inv(sys) && !Quiescent(sys)
    ensures Enabled(sys, e) && Drains(sys, e)
  {
    var pending, ongoing := sys.store.L(Tasks(Pending)), sys.store.L(Tasks(Ongoing));
    if pending != [] {
      e := Take(0);
    } else if ongoing != [] {
      assert InList(sys.store, Ongoing, ongoing[0]);
      e := Finish(ongoing[0], None);
    } else {
      var d :| d in sys.releases;
      e := Notify(d);
    }
  }

  /** Any drain that cannot go on took at most Work steps, and leaves a task waiting
      only below a failed or deleted one, or one whose release was lost. */
  lemma DrainEnds(sys: System, es: seq<Event>, sys': System)
    requires Reachable(sys) && Acyclic(sys.declared)
    requires DrainRun(sys, es, sys') && forall e :: !(Enabled(sys', e) && Drains(sys', e))
    ensures |es| <= Work(sys)
    ensures Quiescent(sys')
    ensures forall t :: InList(sys'.store, PrePending, t) ==> exists chain :: Blocked(sys', chain) && chain[0] == t
    ensures forall t :: t in sys'.store.tasks && t !in sys'.deleted ==>
      InList(sys'.store, PrePending, t) || InList(sys'.store, Finished, t) || InList(sys'.store, Failed, t)
  {
    InvReachable(sys);
    DrainBound(sys, es, sys');
    if !Quiescent(sys') {
      var e := WorkAvailable(sys');
    }
    Leftovers(sys');
  }

  lemma Leftovers(sys: System)
    requires Inv(sys) && Quiescent(sys) && Acyclic(sys.declared)
    ensures forall t :: InList(sys.store, PrePending, t) ==> exists chain :: Blocked(sys, chain) && chain[0] == t
    ensures forall t :: t in sys.store.tasks && t !in sys.deleted ==>
      InList(sys.store, PrePending, t) || InList(sys.store, Finished, t) || InList(sys.store, Failed, t)
  {
    var rank :| Ranked(sys.declared, rank);
    assert Settled(sys, rank);
    forall t | InList(sys.store, PrePending, t) ensures exists chain :: Blocked(sys, chain) && chain[0] == t {
      var chain := StuckOnlyByFailure(sys, rank, t);
    }
    Classified(sys.store, sys.deleted);
  }

  lemma Classified(s: Store, deleted: set<TaskId>)
    requires Accounted(s, deleted) && s.L(Tasks(Pending)) == [] && s.L(Tasks(Ongoing)) == []
    ensures forall t :: t in s.tasks && t !in deleted ==>
      InList(s, PrePending, t) || InList(s, Finished, t) || InList(s, Failed, t)
  {
    forall t | t in s.tasks && t !in deleted
      ensures InList(s, PrePending, t) || InList(s, Finished, t) || InList(s, Failed, t)
    {
      var st := s.tasks[t].status;
      assert InList(s, st, t);
      assert st == PrePending || st == Finished || st == Failed;
    }
  }

  // ---- naming a task that does not exist ----

  lemma {:induction false} ResolvedStartedRun(sys: System, es: seq<Event>, sys': System)
    requires Inv(sys) && ResolvedStarted(sys) && Run(sys, es, sys')
    ensures Inv(sys') && ResolvedStarted(sys') && Grown(sys, sys')
    decreases |es|
  {
    if es != [] {
      StepFacts(sys, es[0], Next(sys, es[0]));
      ResolvedStartedRun(Next(sys, es[0]), es[1..], sys');
    }
  }

  /** In every run: a task with a declared dependency that was never created waits for it
      for as long as it is not created, and does not start unless it is forced. */
  lemma MissingDependencyWaits(sys: System, es: seq<Event>, sys': System, t: TaskId, d: TaskId)
    requires Reachable(sys) && t in sys.declared && d in sys.declared[t]
    requires Run(sys, es, sys') && d !in sys'.store.tasks
    ensures Waits(sys'.store, t, d)
    ensures t !in sys'.forced ==>
      t in sys'.store.tasks && sys'.store.tasks[t].status == PrePending && !sys'.store.tasks[t].started
  {
    var before :| Run(Start, before, sys);
    InvStart();
    ResolvedStartedRun(Start, before, sys);
    ResolvedStartedRun(sys, es, sys');
  }

  /** The shortest such run: a first task that names any dependency, itself say, waits with
      nothing queued, failed, deleted or lost. */
  lemma DanglingDependencyStuck(d: TaskId, p: Policy)
    requires d >= 1
    ensures var sys := Next(Start, Submit([d], p));
      && Reachable(sys) && Quiescent(sys) && Smooth(sys) && !Acyclic(sys.declared)
      && sys.store.L(Tasks(PrePending)) == [1]
  {
    var e := Submit([d], p);
    OneStepReachable(e);
    InvStart();
    StepEffect(Start, e);
    FirstSubmission(e, d, StoreNext(EmptyStore, e));
  }

  lemma OneStepReachable(e: Event)
    requires Enabled(Start, e)
    ensures Reachable(Next(Start, e))
  {
    assert Run(Next(Start, e), [e][1..], Next(Start, e));
    assert Run(Start, [e], Next(Start, e));
  }

  lemma OneTaskCyclic(declared: map<TaskId, seq<TaskId>>, d: TaskId, rank: map<TaskId, nat>)
    requires declared.Keys == {1} && d in declared[1]
    ensures !Ranked(declared, rank)
  {
    if Ranked(declared, rank) { RanksBelow(declared, rank, 1, d); }
  }

  lemma RanksBelow(declared: map<TaskId, seq<TaskId>>, rank: map<TaskId, nat>, t: TaskId, d: TaskId)
    requires Ranked(declared, rank) && t in declared && d in declared[t]
    ensures t in rank && d in rank && rank[d] < rank[t]
  {
  }

  lemma FirstSubmission(e: Event, d: TaskId, s': Store)
    requires e.Submit? && e.deps == [d] && Submitted(EmptyStore, e.deps, e.policy, s')
    ensures var sys := History(Start, e).(store := s');
      Quiescent(sys) && Smooth(sys) && !Acyclic(sys.declared) && s'.L(Tasks(PrePending)) == [1]
  {
    var sys := History(Start, e).(store := s');
    assert forall k :: EmptyStore.L(k) == [];
    UnfinishedEmpty(EmptyStore, e.deps);
    assert d in e.deps && !EmptyStore.FinishedNow(d);
    assert sys.declared == map[1 := e.deps];
    forall rank ensures !Ranked(sys.declared, rank) {
      OneTaskCyclic(sys.declared, d, rank);
    }
  }
}
