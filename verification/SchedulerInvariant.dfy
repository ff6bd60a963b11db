/** Every enabled step keeps the invariant, so every reachable state has it. */
module SchedulerInvariant {
  import opened RedisLists
  import opened TaskModel
  import opened TaskScripts
  import opened TaskInvariants
  import opened SchedulerRuns

  // ---- accounting for deleted tasks ----

  lemma AccountedMoved(s: Store, deleted: set<TaskId>, t: TaskId, target: Status, s': Store)
    requires Partition(s) && Accounted(s, deleted)
    requires t in s.tasks && Moved(s, t, s.tasks[t].status, target, s')
    ensures Accounted(s', deleted - {t})
  {
    MovedLists(s, t, s.tasks[t].status, target, s');
  }

  lemma AccountedTake(s: Store, deleted: set<TaskId>, w: WorkerId, s': Store)
    requires Partition(s) && Accounted(s, deleted) && Popped(s, w, s')
    ensures Accounted(s', deleted)
  {
    PoppedLists(s, w, s');
  }

  lemma AccountedSubmit(s: Store, deleted: set<TaskId>, ds: seq<TaskId>, p: Policy, s': Store)
    requires Partition(s) && Accounted(s, deleted) && Submitted(s, ds, p, s')
    ensures Accounted(s', deleted)
  {
    SubmittedLists(s, ds, p, s');
  }

  lemma AccountedNotify(s: Store, deleted: set<TaskId>, d: TaskId, freed: seq<TaskId>, s': Store)
    requires Partition(s) && Accounted(s, deleted) && Released(s, d, freed, s')
    ensures Accounted(s', deleted)
  {
    ReleasedLists(s, d, Elems(s.L(PriorTo(d))), freed, s');
    forall x | x in s'.tasks ensures InList(s', s'.tasks[x].status, x) <==> InList(s, s.tasks[x].status, x) {
      if x in freed { assert InList(s, PrePending, x); }
    }
  }

  lemma AccountedDropped(s: Store, deleted: set<TaskId>, st: Status, l: seq<TaskId>, gone: set<TaskId>, s': Store)
    requires Partition(s) && Accounted(s, deleted) && Dropped(s, st, l, s')
    requires forall x :: x in l <==> x in s.L(Tasks(st)) && x !in gone
    requires forall x :: x in gone ==> x in s.tasks && s.tasks[x].status == st
    ensures Accounted(s', deleted + gone)
  {
    forall x | x in s'.tasks
      ensures InList(s', s'.tasks[x].status, x) <==> InList(s, s.tasks[x].status, x) && x !in gone
    {
    }
  }

  // ---- who waits for whom ----

  ghost predicate Waiting(s: Store, declared: map<TaskId, seq<TaskId>>, releases: multiset<TaskId>, lost: set<TaskId>,
                          resolved: set<TaskId>, forced: set<TaskId>) {
    && NoLostWakeUp(s, releases, lost)
    && Remembered(s, declared, resolved)
    && Unblocked(s, forced)
    && Resolves(s, releases, resolved)
  }

  /** A step that touches no dependency list: a task becomes finished only with its
      release outstanding, and leaves pre_pending only by force. */
  ghost predicate Calm(sys: System, s': Store, sys': System) {
    && SameWaiting(sys.store, s')
    && (forall d :: s'.FinishedNow(d) ==> sys.store.FinishedNow(d) || (d in sys'.releases && d in sys'.resolved))
    && (forall d :: d in sys.releases ==> d in sys'.releases)
    && (forall d :: d in sys'.releases ==> d in sys.releases || d in sys'.resolved)
    && sys.resolved <= sys'.resolved && sys.forced <= sys'.forced && sys'.declared == sys.declared && sys'.lost == sys.lost
    && (forall t :: t in s'.tasks && t !in sys'.forced && s'.tasks[t].status != PrePending ==>
          sys.store.tasks[t].status != PrePending)
  }

  lemma CalmMove(sys: System, t: TaskId, target: Status, s': Store, h: System)
    requires t in sys.store.tasks && Moved(sys.store, t, sys.store.tasks[t].status, target, s')
    requires h.declared == sys.declared && h.lost == sys.lost && sys.resolved <= h.resolved && sys.forced <= h.forced
    requires h.releases == sys.releases || (h.releases == sys.releases + multiset{t} && t in h.resolved)
    requires target == Finished ==> h.releases == sys.releases + multiset{t}
    requires sys.store.tasks[t].status == PrePending ==> t in h.forced
    ensures Calm(sys, s', h)
  {
  }

  lemma TakeCalm(sys: System, w: WorkerId, s': Store)
    requires Partition(sys.store) && Popped(sys.store, w, s')
    ensures Calm(sys, s', sys)
  {
    assert InList(sys.store, Pending, sys.store.L(Tasks(Pending))[0]);
  }

  lemma CalmWaiting(sys: System, s': Store, sys': System)
    requires Calm(sys, s', sys') && Wired(sys.store)
    requires Waiting(sys.store, sys.declared, sys.releases, sys.lost, sys.resolved, sys.forced)
    ensures Waiting(s', sys'.declared, sys'.releases, sys'.lost, sys'.resolved, sys'.forced)
  {
    SameWaitingWired(sys.store, s');
    forall t, d | t in sys.declared && d in sys.declared[t] ensures Waits(s', t, d) || d in sys'.resolved {
      assert Waits(sys.store, t, d) || d in sys.resolved;
    }
  }

  lemma SubmitWaiting(sys: System, ds: seq<TaskId>, p: Policy, s': Store)
    requires Partition(sys.store) && Wired(sys.store) && Submitted(sys.store, ds, p, s')
    requires Waiting(sys.store, sys.declared, sys.releases, sys.lost, sys.resolved, sys.forced)
    ensures Waiting(s', sys.declared[sys.store.count + 1 := ds], sys.releases, sys.lost, sys.resolved, sys.forced)
  {
    var s := sys.store;
    AddWiring(s, ds, p, s');
    SubmitRemembered(s, sys.declared, sys.releases, sys.resolved, ds, p, s');
    SubmitUnblocked(s, sys.forced, ds, p, s');
    forall d ensures s'.FinishedNow(d) ==> s.FinishedNow(d) { }
  }

  lemma SubmitRemembered(s: Store, declared: map<TaskId, seq<TaskId>>, releases: multiset<TaskId>, resolved: set<TaskId>,
                         ds: seq<TaskId>, p: Policy, s': Store)
    requires Partition(s) && Wired(s) && Submitted(s, ds, p, s')
    requires Remembered(s, declared, resolved) && Resolves(s, releases, resolved)
    ensures Remembered(s', declared[s.count + 1 := ds], resolved)
  {
    var n := s.count + 1;
    var declared' := declared[n := ds];
    AddWiring(s, ds, p, s');
    forall t, d | t in declared' && d in declared'[t] ensures Waits(s', t, d) || d in resolved {
      if t != n { assert Waits(s, t, d) || d in resolved; }
    }
  }

  lemma SubmitUnblocked(s: Store, forced: set<TaskId>, ds: seq<TaskId>, p: Policy, s': Store)
    requires Partition(s) && Unblocked(s, forced) && Submitted(s, ds, p, s')
    ensures Unblocked(s', forced)
  {
  }

  lemma NotifyWaiting(sys: System, x: TaskId, freed: seq<TaskId>, s': Store)
    requires Partition(sys.store) && x in sys.releases && Released(sys.store, x, freed, s')
    requires Waiting(sys.store, sys.declared, sys.releases, sys.lost, sys.resolved, sys.forced)
    ensures Waiting(s', sys.declared, sys.releases - multiset{x}, sys.lost - {x}, sys.resolved, sys.forced)
  {
    var s := sys.store;
    assert forall d :: s'.FinishedNow(d) ==> s.FinishedNow(d);
    assert Remove([], x) == [];
    forall t, d | t in sys.declared && d in sys.declared[t] ensures Waits(s', t, d) || d in sys.resolved {
      assert Waits(s, t, d) || d in sys.resolved;
    }
  }

  // ---- the order of the queue ----

  lemma {:induction false} PlainLastRemove(l: seq<nat>, x: nat, plain: set<nat>)
    requires PlainLast(l, plain)
    ensures PlainLast(Remove(l, x), plain)
  {
    if l != [] {
      var tail := l[1..];
      assert forall i :: 0 <= i < |tail| ==> tail[i] == l[i + 1];
      PlainLastRemove(tail, x, plain);
      RemoveMembers(tail, x);
      var r := Remove(tail, x);
      if l[0] != x {
        forall j | 0 <= j < |r| && l[0] in plain ensures r[j] in plain && l[0] < r[j] {
          assert r[j] in r && r[j] in tail;
        }
      }
    }
  }

  lemma PlainLastPush(front: seq<nat>, l: seq<nat>, plain: set<nat>)
    requires PlainLast(l, plain) && forall x :: x in front ==> x !in plain
    ensures PlainLast(front + l, plain)
  {
    var q := front + l;
    assert forall i :: 0 <= i < |front| ==> q[i] in front;
    forall i, j | 0 <= i < j < |q| && q[i] in plain ensures q[j] in plain && q[i] < q[j] {
      assert i >= |front|;
    }
  }

  lemma PlainLastSame(l: seq<nat>, plain: set<nat>, plain': set<nat>)
    requires PlainLast(l, plain) && forall x :: x in l ==> (x in plain <==> x in plain')
    ensures PlainLast(l, plain')
  {
    forall i, j | 0 <= i < j < |l| && l[i] in plain' ensures l[j] in plain' && l[i] < l[j] {
      assert l[i] in l && l[j] in l;
    }
  }

  /** Steps that leave submissions and retries alone, do not start a task and only
      thin out the queue and pre_pending. */
  lemma OrderedThinned(s: Store, declared: map<TaskId, seq<TaskId>>, retried: set<TaskId>, s': Store)
    requires Ordered(s, declared, retried)
    requires PlainLast(s'.L(Tasks(Pending)), PlainSet(declared, retried))
    requires forall x :: InList(s', Pending, x) ==> InList(s, Pending, x)
    requires forall x :: InList(s', PrePending, x) ==> InList(s, PrePending, x)
    requires forall x :: x in s'.tasks && s'.tasks[x].started ==> x in s.tasks && s.tasks[x].started
    ensures Ordered(s', declared, retried)
  {
  }

  lemma OrderedReported(s: Store, declared: map<TaskId, seq<TaskId>>, retried: set<TaskId>, t: TaskId, target: Status, s': Store)
    requires Partition(s) && Ordered(s, declared, retried)
    requires t in s.tasks && s.tasks[t].started && (target == Finished || target == Failed)
    requires Moved(s, t, s.tasks[t].status, target, s')
    ensures Ordered(s', declared, retried)
  {
    MovedLists(s, t, s.tasks[t].status, target, s');
    PlainLastRemove(s.L(Tasks(Pending)), t, PlainSet(declared, retried));
    OrderedThinned(s, declared, retried, s');
  }

  lemma OrderedDropped(s: Store, declared: map<TaskId, seq<TaskId>>, retried: set<TaskId>, st: Status, l: seq<TaskId>, s': Store)
    requires Ordered(s, declared, retried) && Dropped(s, st, l, s')
    requires forall x :: x in l ==> x in s.L(Tasks(st))
    requires st == Pending ==> PlainLast(l, PlainSet(declared, retried))
    ensures Ordered(s', declared, retried)
  {
    forall z, x | InList(s', z, x) ensures InList(s, z, x) { }
    OrderedThinned(s, declared, retried, s');
  }

  lemma OrderedTake(s: Store, declared: map<TaskId, seq<TaskId>>, retried: set<TaskId>, w: WorkerId, s': Store)
    requires Partition(s) && Ordered(s, declared, retried) && Popped(s, w, s')
    ensures Ordered(s', declared, retried)
  {
    var queue, plain := s.L(Tasks(Pending)), PlainSet(declared, retried);
    PoppedLists(s, w, s');
    assert PlainLast(queue[1..], plain);
    forall t: TaskId, u: TaskId | t in s'.tasks && s'.tasks[t].started && t in plain && InList(s', Pending, u) && u in plain
      ensures t < u
    {
      assert InList(s, Pending, u);
      if t == queue[0] {
        var i :| 0 <= i < |queue| && queue[i] == u;
        assert 0 < i;
      }
    }
  }

  lemma OrderedRetry(s: Store, declared: map<TaskId, seq<TaskId>>, retried: set<TaskId>, t: TaskId, s': Store)
    requires Partition(s) && Ordered(s, declared, retried)
    requires t in s.tasks && s.tasks[t].status != Pending && s.tasks[t].status != Ongoing && Moved(s, t, s.tasks[t].status, Pending, s')
    ensures Ordered(s', declared, retried + {t})
  {
    var queue, plain, plain' := s.L(Tasks(Pending)), PlainSet(declared, retried), PlainSet(declared, retried + {t});
    MovedLists(s, t, s.tasks[t].status, Pending, s');
    assert plain' == plain - {t};
    assert !InList(s, Pending, t);
    PlainLastSame(queue, plain, plain');
    PlainLastPush([t], queue, plain');
  }

  lemma OrderedNotify(s: Store, declared: map<TaskId, seq<TaskId>>, retried: set<TaskId>, d: TaskId, freed: seq<TaskId>, s': Store)
    requires Partition(s) && Ordered(s, declared, retried) && Released(s, d, freed, s')
    ensures Ordered(s', declared, retried)
  {
    var plain := PlainSet(declared, retried);
    ReleasedLists(s, d, Elems(s.L(PriorTo(d))), freed, s');
    forall x | x in freed ensures x !in plain { assert InList(s, PrePending, x); }
    PlainLastPush(freed, s.L(Tasks(Pending)), plain);
    forall t: TaskId, u: TaskId | t in s'.tasks && s'.tasks[t].started && t in plain && InList(s', Pending, u) && u in plain
      ensures t < u
    {
      assert InList(s, Pending, u) && s.tasks[t].started;
    }
  }

  lemma OrderedSubmit(s: Store, declared: map<TaskId, seq<TaskId>>, retried: set<TaskId>, ds: seq<TaskId>, p: Policy, s': Store)
    requires Partition(s) && Ordered(s, declared, retried) && Submitted(s, ds, p, s') && declared.Keys == s.tasks.Keys
    requires s.count + 1 !in retried
    ensures Ordered(s', declared[s.count + 1 := ds], retried)
  {
    var n := s.count + 1;
    var declared' := declared[n := ds];
    var queue, plain, plain' := s.L(Tasks(Pending)), PlainSet(declared, retried), PlainSet(declared', retried);
    SubmittedLists(s, ds, p, s');
    assert forall x :: x != n ==> (x in plain' <==> x in plain);
    assert n in plain' <==> ds == [];
    forall x | x in queue ensures x in s.tasks && x < n { assert InList(s, Pending, x); }
    PlainLastSame(queue, plain, plain');
    if ds == [] {
      PlainLastAppend(queue, n, plain');
    } else {
      PlainLastPush([n], queue, plain');
      UnfinishedEmpty(s, ds);
    }
    forall x | InList(s', PrePending, x) ensures x in declared' && declared'[x] != [] {
      if x != n { assert InList(s, PrePending, x); }
    }
    forall t: TaskId, u: TaskId | t in s'.tasks && s'.tasks[t].started && t in plain' && InList(s', Pending, u) && u in plain'
      ensures t < u
    {
      assert t in s.tasks && s.tasks[t].started && t < n;
      if u != n { assert InList(s, Pending, u); }
    }
  }

  lemma PlainLastAppend(l: seq<nat>, n: nat, plain: set<nat>)
    requires PlainLast(l, plain) && n in plain && forall x :: x in l ==> x < n
    ensures PlainLast(l + [n], plain)
  {
    assert forall i :: 0 <= i < |l| ==> l[i] in l;
  }

  // ---- one lemma a step ----

  lemma SubmitKeeps(sys: System, ds: seq<TaskId>, p: Policy, s': Store)
    requires Inv(sys) && Submitted(sys.store, ds, p, s')
    ensures Inv(sys.(store := s', declared := sys.declared[sys.store.count + 1 := ds]))
  {
    var s := sys.store;
    SubmittedValid(s, ds, p, s');
    AccountedSubmit(s, sys.deleted, ds, p, s');
    SubmitWaiting(sys, ds, p, s');
    OrderedSubmit(s, sys.declared, sys.retried, ds, p, s');
  }

  lemma TakeKeeps(sys: System, w: WorkerId, s': Store)
    requires Inv(sys) && Popped(sys.store, w, s')
    ensures Inv(sys.(store := s'))
  {
    var s := sys.store;
    PoppedValid(s, w, s');
    AccountedTake(s, sys.deleted, w, s');
    TakeCalm(sys, w, s');
    CalmWaiting(sys, s', sys);
    OrderedTake(s, sys.declared, sys.retried, w, s');
  }

  lemma RetryKeeps(sys: System, t: TaskId, s': Store, h: System)
    requires Inv(sys) && t in sys.store.tasks
    requires sys.store.tasks[t].status != Pending && sys.store.tasks[t].status != Ongoing
    requires Moved(sys.store, t, sys.store.tasks[t].status, Pending, s')
    requires h == sys.(store := s', retried := sys.retried + {t}, deleted := sys.deleted - {t}, forced := h.forced)
    requires h.forced == if sys.store.tasks[t].status == PrePending then sys.forced + {t} else sys.forced
    ensures Inv(h)
  {
    var s := sys.store;
    MovedValid(s, t, Pending, s');
    AccountedMoved(s, sys.deleted, t, Pending, s');
    CalmMove(sys, t, Pending, s', h);
    CalmWaiting(sys, s', h);
    OrderedRetry(s, sys.declared, sys.retried, t, s');
  }

  /** Finish and fail, by a client, a worker or the supervisor. */
  lemma ReportKeeps(sys: System, t: TaskId, target: Status, s': Store, h: System)
    requires Inv(sys) && t in sys.store.tasks && sys.store.tasks[t].started && (target == Finished || target == Failed)
    requires Moved(sys.store, t, sys.store.tasks[t].status, target, s')
    requires h == sys.(store := s', deleted := sys.deleted - {t}, releases := h.releases, resolved := h.resolved, reporting := h.reporting)
    requires (h.releases == sys.releases && h.resolved == sys.resolved && target == Failed)
          || (h.releases == sys.releases + multiset{t} && h.resolved == sys.resolved + {t})
    ensures Inv(h)
  {
    var s := sys.store;
    MovedValid(s, t, target, s');
    AccountedMoved(s, sys.deleted, t, target, s');
    CalmMove(sys, t, target, s', h);
    CalmWaiting(sys, s', h);
    OrderedReported(s, sys.declared, sys.retried, t, target, s');
  }

  lemma DropKeeps(sys: System, st: Status, l: seq<TaskId>, gone: set<TaskId>, s': Store)
    requires Inv(sys) && st != Ongoing && Dropped(sys.store, st, l, s')
    requires NoDup(l) && forall x :: x in l <==> x in sys.store.L(Tasks(st)) && x !in gone
    requires forall x :: x in gone ==> x in sys.store.tasks && sys.store.tasks[x].status == st
    requires st == Pending ==> PlainLast(l, PlainSet(sys.declared, sys.retried))
    ensures Inv(sys.(store := s', deleted := sys.deleted + gone))
  {
    var s := sys.store;
    DroppedValid(s, st, l, s');
    AccountedDropped(s, sys.deleted, st, l, gone, s');
    CalmWaiting(sys, s', sys);
    OrderedDropped(s, sys.declared, sys.retried, st, l, s');
  }

  lemma DeleteKeeps(sys: System, t: TaskId, s': Store)
    requires Inv(sys) && t in sys.store.tasks && sys.store.tasks[t].status != Ongoing
    requires Dropped(sys.store, sys.store.tasks[t].status, Remove(sys.store.L(Tasks(sys.store.tasks[t].status)), t), s')
    ensures Inv(sys.(store := s', deleted := sys.deleted + {t}))
  {
    var s := sys.store;
    var st := s.tasks[t].status;
    RemoveNoDup(s.L(Tasks(st)), t);
    RemoveMembers(s.L(Tasks(st)), t);
    PlainLastRemove(s.L(Tasks(Pending)), t, PlainSet(sys.declared, sys.retried));
    DropKeeps(sys, st, Remove(s.L(Tasks(st)), t), {t}, s');
  }

  lemma DeleteListKeeps(sys: System, st: Status, s': Store)
    requires Inv(sys) && st != Ongoing && Dropped(sys.store, st, [], s')
    ensures Inv(sys.(store := s', deleted := sys.deleted + Elems(sys.store.L(Tasks(st)))))
  {
    assert forall x :: x in sys.store.L(Tasks(st)) ==> InList(sys.store, st, x);
    DropKeeps(sys, st, [], Elems(sys.store.L(Tasks(st))), s');
  }

  lemma NotifyKeeps(sys: System, d: TaskId, freed: seq<TaskId>, s': Store)
    requires Inv(sys) && d in sys.releases && Released(sys.store, d, freed, s')
    ensures Inv(sys.(store := s', releases := sys.releases - multiset{d}, lost := sys.lost - {d}))
  {
    var s := sys.store;
    ReleasedValid(s, d, freed, s');
    AccountedNotify(s, sys.deleted, d, freed, s');
    NotifyWaiting(sys, d, freed, s');
    OrderedNotify(s, sys.declared, sys.retried, d, freed, s');
  }

  lemma LoseKeeps(sys: System, d: TaskId)
    requires Inv(sys) && d in sys.releases
    ensures Inv(sys.(releases := sys.releases - multiset{d}, lost := sys.lost + {d}))
  {
  }

  lemma CurrentKeeps(sys: System, s': Store, h: System)
    requires Inv(sys) && s' == sys.store.(current := s'.current)
    requires forall w :: w in s'.current ==> w in sys.store.current && s'.current[w] == sys.store.current[w]
    requires h == sys.(store := s', reporting := h.reporting)
    ensures Inv(h)
  {
    var s := sys.store;
    assert forall k :: s'.L(k) == s.L(k);
    ForgetValid(s, s');
    CalmWaiting(sys, s', h);
    SameListsKept(s, sys.deleted, sys.declared, sys.retried, s');
  }

  lemma SameListsKept(s: Store, deleted: set<TaskId>, declared: map<TaskId, seq<TaskId>>, retried: set<TaskId>, s': Store)
    requires Accounted(s, deleted) && Ordered(s, declared, retried)
    requires s'.tasks == s.tasks && forall k :: s'.L(k) == s.L(k)
    ensures Accounted(s', deleted) && Ordered(s', declared, retried)
  {
    assert forall st, t :: InList(s', st, t) <==> InList(s, st, t);
    OrderedThinned(s, declared, retried, s');
  }

  lemma OngoingNotDeleted(s: Store, deleted: set<TaskId>, t: TaskId)
    requires Coherent(s) && Accounted(s, deleted) && t in s.tasks && s.tasks[t].status == Ongoing
    ensures s.tasks[t].started && t !in deleted && deleted - {t} == deleted
  {
    assert InList(s, Ongoing, t);
  }

  lemma CrashKeeps(sys: System, w: WorkerId, s': Store, h: System)
    requires Inv(sys) && w in sys.store.current && Enabled(sys, Crash(w))
    requires Moved(sys.store, sys.store.current[w], Ongoing, Failed, s'.(current := sys.store.current))
    requires s'.current == sys.store.current - {w}
    requires h == sys.(store := s', reporting := h.reporting)
    ensures Inv(h)
  {
    var t := sys.store.current[w];
    var s1 := s'.(current := sys.store.current);
    OngoingNotDeleted(sys.store, sys.deleted, t);
    ReportKeeps(sys, t, Failed, s1, sys.(store := s1));
    CurrentKeeps(sys.(store := s1), s', h);
  }

  // ---- all together ----

  lemma InvStart()
    ensures Inv(Start)
  {
    assert forall k :: EmptyStore.L(k) == [];
  }

  lemma ClientStep(sys: System, e: Event, s': Store)
    requires Inv(sys) && Enabled(sys, e) && Effect(sys.store, e, s')
    requires e.Retry? || e.Finish? || e.Fail?
    ensures Inv(History(sys, e).(store := s'))
  {
    var k, h := sys.store.tasks[e.task], History(sys, e).(store := s');
    if e.Retry? {
      if k.status != Pending && k.status != Ongoing { RetryKeeps(sys, e.task, s', h); }
    } else if e.Finish? && k.status != Finished && k.started {
      ReportKeeps(sys, e.task, Finished, s', h);
    } else if e.Fail? && k.started {
      ReportKeeps(sys, e.task, Failed, s', h);
    } else {
      CurrentKeeps(sys, s', h);
    }
  }

  lemma DeletionStep(sys: System, e: Event, s': Store)
    requires Inv(sys) && Enabled(sys, e) && Effect(sys.store, e, s')
    requires e.Delete? || e.DeleteList?
    ensures Inv(History(sys, e).(store := s'))
  {
    if e.Delete? {
      if sys.store.tasks[e.task].status != Ongoing { DeleteKeeps(sys, e.task, s'); }
    } else {
      if e.status != Ongoing { DeleteListKeeps(sys, e.status, s'); }
    }
  }

  lemma ScriptStep(sys: System, e: Event, s': Store)
    requires Inv(sys) && Enabled(sys, e) && Effect(sys.store, e, s')
    requires e.Submit? || e.Notify? || e.Lose?
    ensures Inv(History(sys, e).(store := s'))
  {
    if e.Submit? {
      SubmitKeeps(sys, e.deps, e.policy, s');
    } else if e.Lose? {
      LoseKeeps(sys, e.task);
    } else {
      var freed :| Released(sys.store, e.task, freed, s');
      NotifyKeeps(sys, e.task, freed, s');
    }
  }

  lemma WorkerStep(sys: System, e: Event, s': Store)
    requires Inv(sys) && Enabled(sys, e) && Effect(sys.store, e, s')
    requires e.Take? || e.Crash? || e.Clear?
    ensures Inv(History(sys, e).(store := s'))
  {
    var s, h := sys.store, History(sys, e).(store := s');
    if e.Take? && s.L(Tasks(Pending)) != [] {
      TakeKeeps(sys, e.worker, s');
      CurrentKeeps(sys.(store := s'), s', h);
    } else if e.Crash? && e.worker in s.current {
      CrashKeeps(sys, e.worker, s', h);
    } else {
      CurrentKeeps(sys, s', h);
    }
  }

  /** The invariant is inductive. */
  lemma InvKept(sys: System, e: Event)
    requires Inv(sys) && Enabled(sys, e)
    ensures Inv(Next(sys, e))
  {
    var s' := StoreNext(sys.store, e);
    StepEffect(sys, e);
    InvStep(sys, e, s');
  }

  lemma InvStep(sys: System, e: Event, s': Store)
    requires Inv(sys) && Enabled(sys, e) && Effect(sys.store, e, s')
    ensures Inv(History(sys, e).(store := s'))
  {
    if e.Retry? || e.Finish? || e.Fail? {
      ClientStep(sys, e, s');
    } else if e.Delete? || e.DeleteList? {
      DeletionStep(sys, e, s');
    } else if e.Submit? || e.Notify? || e.Lose? {
      ScriptStep(sys, e, s');
    } else {
      WorkerStep(sys, e, s');
    }
  }

  lemma {:induction false} InvRun(sys: System, es: seq<Event>, sys': System)
    requires Inv(sys) && Run(sys, es, sys')
    ensures Inv(sys')
    decreases |es|
  {
    if es != [] {
      InvKept(sys, es[0]);
      InvRun(Next(sys, es[0]), es[1..], sys');
    }
  }

  lemma InvReachable(sys: System)
    requires Reachable(sys)
    ensures Inv(sys)
  {
    var es :| Run(Start, es, sys);
    InvStart();
    InvRun(Start, es, sys);
  }
}
