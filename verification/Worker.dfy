/** perform_task: one round of a worker's loop, pop - run - report - clear. */
module Worker {
  import opened RedisLists
  import opened TaskModel
  import opened TaskScripts
  import opened TaskInvariants
  import opened TaskStore

  /** From s to s' the worker took t and reported it as `target`. Everyone stops waiting
      for t if it finished, or failed under policy 'continue'; otherwise everyone who
      waited for anything still does. */
  ghost predicate Performed(s: Store, w: WorkerId, t: TaskId, target: Status, s': Store) {
    && s.L(Tasks(Pending)) != [] && s.L(Tasks(Pending))[0] == t
    && t in s.tasks && t in s'.tasks
    && s'.tasks[t] == Task(target, s.tasks[t].policy, true, Some(w))
    && InList(s', target, t) && !InList(s', Ongoing, t)
    && s'.current == s.current - {w}
    && forall u, e :: Waits(s', u, e) <==>
         Waits(s, u, e) && (e != t || (target == Failed && s.tasks[t].policy == Halt))
  }

  lemma TakenReported(s: Store, w: WorkerId, s1: Store, target: Status, s2: Store)
    requires Valid(s) && Popped(s, w, s1) && (target == Finished || target == Failed)
    requires Moved(s1, s.L(Tasks(Pending))[0], Ongoing, target, s2)
    ensures Valid(s1) && Valid(s2) && s2.current == s.current[w := s.L(Tasks(Pending))[0]]
    ensures var t := s.L(Tasks(Pending))[0];
      && t in s.tasks && s2.tasks[t] == Task(target, s.tasks[t].policy, true, Some(w))
      && InList(s2, target, t)
    ensures forall u, e :: Waits(s2, u, e) <==> Waits(s, u, e)
  {
    PoppedValid(s, w, s1);
    MovedValid(s1, s.L(Tasks(Pending))[0], target, s2);
    SameWaitingWired(s, s2);
  }

  lemma ReleasedReported(s: Store, t: TaskId, freed: seq<TaskId>, s': Store)
    requires Valid(s) && Released(s, t, freed, s')
    requires t in s.tasks && (s.tasks[t].status == Finished || s.tasks[t].status == Failed)
    requires InList(s, s.tasks[t].status, t)
    ensures Valid(s') && t in s'.tasks && s'.tasks[t] == s.tasks[t] && InList(s', s.tasks[t].status, t)
    ensures s'.current == s.current
    ensures forall u, e :: Waits(s', u, e) <==> e != t && Waits(s, u, e)
  {
    ReleasedValid(s, t, freed, s');
    assert t in freed ==> InList(s, PrePending, t);
  }

  /** Performed, with the current task still recorded. */
  ghost predicate Reported(s: Store, w: WorkerId, t: TaskId, target: Status, s': Store) {
    && Valid(s') && t in s.tasks && t in s'.tasks
    && s'.tasks[t] == Task(target, s.tasks[t].policy, true, Some(w))
    && InList(s', target, t) && s'.current == s.current[w := t]
    && forall u, e :: Waits(s', u, e) <==>
         Waits(s, u, e) && (e != t || (target == Failed && s.tasks[t].policy == Halt))
  }

  lemma RoundReported(s: Store, w: WorkerId, s1: Store, target: Status, s2: Store, freed: seq<TaskId>, s3: Store)
    requires Valid(s) && Popped(s, w, s1) && (target == Finished || target == Failed)
    requires Moved(s1, s.L(Tasks(Pending))[0], Ongoing, target, s2)
    requires if target == Finished || s.tasks[s.L(Tasks(Pending))[0]].policy == Continue
             then Released(s2, s.L(Tasks(Pending))[0], freed, s3) else s3 == s2
    ensures Reported(s, w, s.L(Tasks(Pending))[0], target, s3)
  {
    var t := s.L(Tasks(Pending))[0];
    TakenReported(s, w, s1, target, s2);
    if target == Finished || s.tasks[t].policy == Continue {
      ReleasedReported(s2, t, freed, s3);
    }
  }

  lemma ClearedPerformed(s: Store, w: WorkerId, t: TaskId, target: Status, s': Store)
    requires Reported(s, w, t, target, s') && target != Ongoing
    requires s.L(Tasks(Pending)) != [] && s.L(Tasks(Pending))[0] == t
    ensures Performed(s, w, t, target, ClearCurrent(s', w))
  {
    var s4 := ClearCurrent(s', w);
    assert forall k :: s4.L(k) == s'.L(k);
    assert forall u, e :: Waits(s4, u, e) <==> Waits(s', u, e);
    assert InList(s4, Ongoing, t) <==> InList(s', Ongoing, t);
    assert InList(s4, target, t) <==> InList(s', target, t);
  }

  /** The round when nobody else touches the store meanwhile; `succeeds` tells whether
      the task's command ran without an error. */
  method PerformTask(rdb: Redis, worker: WorkerId, succeeds: bool) returns (task: Option<TaskId>)
    requires rdb.Ok()
    modifies rdb
    ensures rdb.Ok()
    ensures task.None? <==> old(rdb.Llen(Tasks(Pending))) == 0
    ensures task.None? ==> rdb.Contents() == old(rdb.Contents())
    ensures task.Some? ==>
      Performed(old(rdb.Contents()), worker, task.value, if succeeds then Finished else Failed, rdb.Contents())
  {
    ghost var s := rdb.Contents();
    PopEffect(s, worker);
    task := rdb.PopPendingTask(worker);
    if task.None? {
      return;
    }
    ghost var s1, target, freed: seq<TaskId> := rdb.Contents(), if succeeds then Finished else Failed, [];
    ghost var s2 := Move(s1, task.value, Ongoing, target);
    MoveEffect(s1, task.value, Ongoing, target);
    TakenReported(s, worker, s1, target, s2);
    if succeeds {
      var error := rdb.SetFinished(task.value);
      freed := ReleaseEffect(s2, task.value);
    } else {
      var error := rdb.SetFailed(task.value);
      if s.tasks[task.value].policy == Continue { freed := ReleaseEffect(s2, task.value); }
    }
    RoundReported(s, worker, s1, target, s2, freed, rdb.Contents());
    ClearedPerformed(s, worker, task.value, target, rdb.Contents());
    rdb.ClearCurrentTask(worker);
  }
}
