/** Runs of the scheduler: any interleaving of the atomic steps of clients, workers
    and supervisors. Finishing a task takes two of them, the commit and, any time
    later, the release script. */
module SchedulerRuns {
  import opened RedisLists
  import opened TaskModel
  import opened TaskScripts
  import opened TaskInvariants

  datatype Event =
    | Submit(deps: seq<TaskId>, policy: Policy)  // add_task
    | Take(worker: WorkerId)                     // worker_pop_pendnig_task
    | Retry(task: TaskId)                        // set_task_status 'pending'
    | Finish(task: TaskId, via: Option<WorkerId>) // set_task_status 'finished', up to EXEC
    | Fail(task: TaskId, via: Option<WorkerId>)   // set_task_status 'failed', up to EXEC
    | Delete(task: TaskId)                       // set_task_status 'deleted'
    | DeleteList(status: Status)                 // set_task_status 'all_<status>' 'deleted'
    | Notify(task: TaskId)                       // update_dependent_tasks
    | Lose(task: TaskId)                         // whoever was to run that script is gone
    | Crash(worker: WorkerId)                    // fail_current_task
    | Clear(worker: WorkerId)                    // the worker forgets its current task

  /** The store with the release scripts that are still to run and the history the
      theorems speak of. */
  datatype System = System(
    store: Store,
    releases: multiset<TaskId>,               // committed, release script not run yet
    lost: set<TaskId>,                        // committed, and the script will not run
    declared: map<TaskId, seq<TaskId>>,       // the dependencies each task was submitted with
    resolved: set<TaskId>,                    // ever finished, or failed with policy 'continue'
    forced: set<TaskId>,                      // ever set 'pending' while pre_pending
    retried: set<TaskId>,                     // ever put back in the queue
    deleted: set<TaskId>,                     // taken off their list and not put back
    reporting: set<WorkerId>)                 // reported their task themselves, did not clear it yet

  const Start := System(EmptyStore, multiset{}, {}, map[], {}, {}, {}, {}, {})

  /** Statuses are read and committed in one step here; what a stale read does is
      TaskInvariants.MovePartitionIff. The supervisor fails ongoing tasks only. A commit is
      a client's, or with `via` the report of the worker whose round it ends. */
  predicate Enabled(sys: System, e: Event) {
    match e
    case Retry(t) => t in sys.store.tasks
    case Finish(t, via) => t in sys.store.tasks
    case Fail(t, via) => t in sys.store.tasks
    case Delete(t) => t in sys.store.tasks
    case Notify(d) => d in sys.releases
    case Lose(d) => d in sys.releases
    case Crash(w) => w in sys.store.current ==>
      var t := sys.store.current[w]; t in sys.store.tasks && sys.store.tasks[t].status == Ongoing
    case _ => true
  }

  function StoreNext(s: Store, e: Event): Store {
    match e
    case Submit(ds, p) => Add(s, ds, p)
    case Take(w) => Pop(s, w)
    case Retry(t) => if t in s.tasks then MarkPending(s, t, s.tasks[t]) else s
    case Finish(t, via) => if t in s.tasks then MarkFinished(s, t, s.tasks[t]) else s
    case Fail(t, via) => if t in s.tasks then MarkFailed(s, t, s.tasks[t]) else s
    case Delete(t) => if t in s.tasks then MarkDeleted(s, t, s.tasks[t]) else s
    case DeleteList(st) => DeleteAll(s, st)
    case Notify(d) => Release(s, d)
    case Lose(d) => s
    case Crash(w) => FailCurrent(s, w)
    case Clear(w) => ClearCurrent(s, w)
  }

  function By(via: Option<WorkerId>): set<WorkerId> { if via.Some? then {via.value} else {} }

  function History(sys: System, e: Event): System
    requires Enabled(sys, e)
  {
    var s := sys.store;
    match e
    case Submit(ds, p) => sys.(declared := sys.declared[s.count + 1 := ds])
    case Take(w) => sys.(reporting := sys.reporting - {w})
    case Retry(t) =>
      if s.tasks[t].status != Pending && s.tasks[t].status != Ongoing then
        sys.(retried := sys.retried + {t}, deleted := sys.deleted - {t},
             forced := if s.tasks[t].status == PrePending then sys.forced + {t} else sys.forced)
      else sys
    case Finish(t, via) =>
      if s.tasks[t].status != Finished && s.tasks[t].started then
        sys.(releases := sys.releases + multiset{t}, resolved := sys.resolved + {t},
             deleted := sys.deleted - {t}, reporting := sys.reporting + By(via))
      else sys.(reporting := sys.reporting + By(via))
    case Fail(t, via) =>
      if !s.tasks[t].started then sys.(reporting := sys.reporting + By(via))
      else if s.tasks[t].policy == Continue then
        sys.(releases := sys.releases + multiset{t}, resolved := sys.resolved + {t},
             deleted := sys.deleted - {t}, reporting := sys.reporting + By(via))
      else sys.(deleted := sys.deleted - {t}, reporting := sys.reporting + By(via))
    case Delete(t) => if s.tasks[t].status == Ongoing then sys else sys.(deleted := sys.deleted + {t})
    case DeleteList(st) => if st == Ongoing then sys else sys.(deleted := sys.deleted + Elems(s.L(Tasks(st))))
    case Notify(d) => sys.(releases := sys.releases - multiset{d}, lost := sys.lost - {d})
    case Lose(d) => sys.(releases := sys.releases - multiset{d}, lost := sys.lost + {d})
    case Crash(w) => sys.(reporting := sys.reporting - {w})
    case Clear(w) => sys.(reporting := sys.reporting - {w})
  }

  function Next(sys: System, e: Event): System
    requires Enabled(sys, e)
  {
    History(sys, e).(store := StoreNext(sys.store, e))
  }

  /** es is a run from sys to sys'. */
  ghost predicate Run(sys: System, es: seq<Event>, sys': System)
    decreases |es|
  {
    if es == [] then sys == sys'
    else Enabled(sys, es[0]) && Run(Next(sys, es[0]), es[1..], sys')
  }

  ghost predicate Reachable(sys: System) { exists es :: Run(Start, es, sys) }

  lemma {:induction false} RunPush(sys: System, es: seq<Event>, mid: System, e: Event)
    requires Run(sys, es, mid) && Enabled(mid, e)
    ensures Run(sys, es + [e], Next(mid, e))
    decreases |es|
  {
    if es == [] {
      assert es + [e] == [e] && [e][1..] == [];
      assert Run(Next(mid, e), [], Next(mid, e));
    } else {
      RunPush(Next(sys, es[0]), es[1..], mid, e);
      assert (es + [e])[1..] == es[1..] + [e];
    }
  }

  lemma ReachableStep(sys: System, e: Event)
    requires Reachable(sys) && Enabled(sys, e)
    ensures Reachable(Next(sys, e))
  {
    var es :| Run(Start, es, sys);
    RunPush(Start, es, sys, e);
  }

  /** Nothing a client may do to a created task is shut out of the runs. */
  lemma ClientsAreFree(sys: System, t: TaskId, ds: seq<TaskId>, p: Policy, w: WorkerId, st: Status)
    requires t in sys.store.tasks
    ensures Enabled(sys, Submit(ds, p)) && Enabled(sys, Retry(t)) && Enabled(sys, Finish(t, None))
    ensures Enabled(sys, Fail(t, None)) && Enabled(sys, Delete(t)) && Enabled(sys, DeleteList(st))
    ensures Enabled(sys, Take(w)) && Enabled(sys, Clear(w)) && (t in sys.releases ==> Enabled(sys, Lose(t)))
  {
  }

  // ---- each step, list by list ----

  ghost predicate Effect(s: Store, e: Event, s': Store) {
    match e
    case Submit(ds, p) => Submitted(s, ds, p, s')
    case Take(w) => if s.L(Tasks(Pending)) == [] then s' == s else Popped(s, w, s')
    case Retry(t) => t in s.tasks &&
      var st := s.tasks[t].status;
      if st == PrePending || st == Finished || st == Failed then Moved(s, t, st, Pending, s') else s' == s
    case Finish(t, via) => t in s.tasks &&
      if s.tasks[t].status != Finished && s.tasks[t].started then Moved(s, t, s.tasks[t].status, Finished, s') else s' == s
    case Fail(t, via) => t in s.tasks &&
      if s.tasks[t].started then Moved(s, t, s.tasks[t].status, Failed, s') else s' == s
    case Delete(t) => t in s.tasks &&
      var st := s.tasks[t].status;
      if st == Ongoing then s' == s else Dropped(s, st, Remove(s.L(Tasks(st)), t), s')
    case DeleteList(st) => if st == Ongoing then s' == s else Dropped(s, st, [], s')
    case Notify(d) => exists freed :: Released(s, d, freed, s')
    case Lose(d) => s' == s
    case Crash(w) =>
      if w !in s.current then s' == s
      else Moved(s, s.current[w], Ongoing, Failed, s'.(current := s.current)) && s'.current == s.current - {w}
    case Clear(w) => s' == s.(current := s.current - {w})
  }

  lemma StepEffect(sys: System, e: Event)
    requires Valid(sys.store) && Enabled(sys, e)
    ensures Effect(sys.store, e, StoreNext(sys.store, e))
  {
    var s := sys.store;
    match e
    case Submit(ds, p) => AddEffect(s, ds, p);
    case Take(w) => PopEffect(s, w);
    case Retry(t) => MoveEffect(s, t, s.tasks[t].status, Pending);
    case Finish(t, via) => MoveEffect(s, t, s.tasks[t].status, Finished);
    case Fail(t, via) => MoveEffect(s, t, s.tasks[t].status, Failed);
    case Notify(d) =>
      var freed := ReleaseEffect(s, d);
      assert Released(s, d, freed, Release(s, d));
    case Crash(w) =>
      if w in s.current { MoveEffect(s, s.current[w], Ongoing, Failed); }
    case _ =>
  }

  // ---- the invariant ----

  /** A created task is off its list exactly when it was deleted. */
  ghost predicate Accounted(s: Store, deleted: set<TaskId>) {
    && (forall t :: t in s.tasks ==> (InList(s, s.tasks[t].status, t) <==> t !in deleted))
    && (forall t :: t in deleted ==> t in s.tasks)
  }

  /** Whoever still waits for a finished task will be told, unless the one to tell is gone. */
  ghost predicate NoLostWakeUp(s: Store, releases: multiset<TaskId>, lost: set<TaskId>) {
    forall t, d :: Waits(s, t, d) && s.FinishedNow(d) ==> d in releases || d in lost
  }

  /** A declared dependency is waited for until it was resolved. */
  ghost predicate Remembered(s: Store, declared: map<TaskId, seq<TaskId>>, resolved: set<TaskId>) {
    && declared.Keys == s.tasks.Keys
    && (forall t, d :: t in declared && d in declared[t] ==> Waits(s, t, d) || d in resolved)
    && (forall t, d :: Waits(s, t, d) ==> t in declared && d in declared[t])
  }

  /** Out of pre_pending without force means that nothing is waited for. */
  ghost predicate Unblocked(s: Store, forced: set<TaskId>) {
    forall t :: t in s.tasks && t !in forced && s.tasks[t].status != PrePending ==> s.L(Dependencies(t)) == []
  }

  ghost predicate Resolves(s: Store, releases: multiset<TaskId>, resolved: set<TaskId>) {
    forall d :: s.FinishedNow(d) || d in releases ==> d in resolved
  }

  predicate Plain(declared: map<TaskId, seq<TaskId>>, retried: set<TaskId>, t: TaskId) {
    t in declared && declared[t] == [] && t !in retried
  }

  /** Behind a plain task come only younger plain tasks. */
  ghost predicate PlainLast(queue: seq<TaskId>, plain: set<TaskId>) {
    forall i, j :: 0 <= i < j < |queue| && queue[i] in plain ==> queue[j] in plain && queue[i] < queue[j]
  }

  function PlainSet(declared: map<TaskId, seq<TaskId>>, retried: set<TaskId>): (r: set<TaskId>) {
    set t | t in declared && Plain(declared, retried, t)
  }

  /** A plain task that started is older than every plain task in the queue. */
  ghost predicate StartedFirst(s: Store, plain: set<TaskId>) {
    forall t: TaskId, u: TaskId :: t in s.tasks && s.tasks[t].started && t in plain && InList(s, Pending, u) && u in plain ==> t < u
  }

  ghost predicate WaitingNotPlain(s: Store, declared: map<TaskId, seq<TaskId>>) {
    forall t :: InList(s, PrePending, t) ==> t in declared && declared[t] != []
  }

  ghost predicate Ordered(s: Store, declared: map<TaskId, seq<TaskId>>, retried: set<TaskId>) {
    && PlainLast(s.L(Tasks(Pending)), PlainSet(declared, retried))
    && StartedFirst(s, PlainSet(declared, retried))
    && WaitingNotPlain(s, declared)
  }

  ghost predicate Inv(sys: System) {
    && Valid(sys.store)
    && Accounted(sys.store, sys.deleted)
    && NoLostWakeUp(sys.store, sys.releases, sys.lost)
    && Remembered(sys.store, sys.declared, sys.resolved)
    && Unblocked(sys.store, sys.forced)
    && Resolves(sys.store, sys.releases, sys.resolved)
    && Ordered(sys.store, sys.declared, sys.retried)
    && sys.retried <= sys.store.tasks.Keys
  }
}
