/** The shared store as an object: each script and each MULTI/EXEC block as the
    sequence of Redis commands it issues, proved to be the step of TaskModel. */
module TaskStore {
  import opened RedisLists
  import opened TaskModel
  import opened TaskScripts
  import opened TaskInvariants

  class Redis {
    var count: nat
    var lists: map<Key, seq<TaskId>>
    var tasks: map<TaskId, Task>
    var current: map<WorkerId, TaskId>

    function Contents(): Store
      reads this
    {
      Store(count, lists, tasks, current)
    }

    ghost predicate Ok()
      reads this
    {
      Valid(Contents())
    }

    constructor ()
      ensures Contents() == EmptyStore && Ok()
    {
      count, lists, tasks, current := 0, map[], map[], map[];
      new;
      assert forall k :: Contents().L(k) == [];
    }

    // ---- the list commands ----

    function Llen(k: Key): nat
      reads this
    {
      if k in lists then |lists[k]| else 0
    }

    function Lindex(k: Key, i: nat): TaskId
      requires i < Llen(k)
      reads this
    {
      lists[k][i]
    }

    method Lpush(k: Key, x: TaskId)
      modifies this`lists
      ensures Contents() == old(Contents()).Lpush(k, x)
    {
      lists := lists[k := [x] + if k in lists then lists[k] else []];
    }

    method Rpush(k: Key, x: TaskId)
      modifies this`lists
      ensures Contents() == old(Contents()).Rpush(k, x)
    {
      lists := lists[k := (if k in lists then lists[k] else []) + [x]];
    }

    method Lrem(k: Key, x: TaskId) returns (removed: nat)
      modifies this`lists
      ensures Contents() == old(Contents()).Lrem(k, x)
      ensures removed == old(Llen(k)) - Llen(k)
    {
      removed := 0;
      if k in lists {
        var rest := Remove(lists[k], x);
        removed := |lists[k]| - |rest|;
        lists := if rest == [] then lists - {k} else lists[k := rest];
      } else {
        assert lists - {k} == lists;
      }
    }

    // ---- add_task.lua ----

    method AddTask(deps: seq<TaskId>, policy: Policy) returns (task: TaskId)
      requires Ok()
      modifies this
      ensures task == old(count) + 1
      ensures Contents() == Add(old(Contents()), deps, policy)
      ensures Ok()
    {
      ghost var before := Contents();
      count := count + 1;
      task := count;
      ghost var start := Contents();
      var idx := 0;
      while idx < |deps|
        invariant 0 <= idx <= |deps|
        invariant Contents() == AddDependencies(start, task, deps[..idx])
      {
        ghost var here := Contents();
        AddDependencyOf(task, deps[idx]);
        AddStep(start, task, deps, idx, here, Contents());
        idx := idx + 1;
      }
      assert deps[..|deps|] == deps;
      EnqueueTask(task, deps, policy);
      AddValid(before, deps, policy);
    }

    method AddDependencyOf(task: TaskId, dependency: TaskId)
      modifies this`lists
      ensures Contents() == AddDependency(old(Contents()), task, dependency)
    {
      if !(dependency in tasks && tasks[dependency].status == Finished) {
        Lpush(Dependencies(task), dependency);
        Lpush(PriorTo(dependency), task);
      }
    }

    method EnqueueTask(task: TaskId, deps: seq<TaskId>, policy: Policy)
      modifies this`lists, this`tasks
      ensures Contents() == Enqueue(old(Contents()), task, deps, policy)
    {
      var status := Pending;
      if |deps| == 0 {
        Rpush(Tasks(Pending), task);
      } else if Llen(Dependencies(task)) == 0 {
        Lpush(Tasks(Pending), task);
      } else {
        Rpush(Tasks(PrePending), task);
        status := PrePending;
      }
      tasks := tasks[task := Task(status, policy, false, None)];
    }

    // ---- worker_pop_pendnig_task.lua ----

    method PopPendingTask(worker: WorkerId) returns (task: Option<TaskId>)
      requires Ok()
      modifies this
      ensures Contents() == Pop(old(Contents()), worker)
      ensures task == if old(Llen(Tasks(Pending))) == 0 then None else Some(old(Contents()).L(Tasks(Pending))[0])
      ensures Ok()
    {
      ghost var before := Contents();
      PopEffect(before, worker);
      if Llen(Tasks(Pending)) == 0 {
        return None;
      }
      var queue := lists[Tasks(Pending)];
      var t := queue[0];
      lists := if |queue| == 1 then lists - {Tasks(Pending)} else lists[Tasks(Pending) := queue[1..]];
      Rpush(Tasks(Ongoing), t);
      assert t in tasks;
      tasks := tasks[t := tasks[t].(status := Ongoing, started := true, worker := Some(worker))];
      current := current[worker := t];
      task := Some(t);
      PoppedValid(before, worker, Contents());
    }

    // ---- update_dependent_tasks.lua ----

    method UpdateDependentTasks(finished: TaskId)
      requires Ok()
      modifies this
      ensures Contents() == Release(old(Contents()), finished)
      ensures Ok()
    {
      ghost var before := Contents();
      ghost var ts := before.L(PriorTo(finished));
      var num := Llen(PriorTo(finished));
      var idx := 0;
      while idx < num
        invariant 0 <= idx <= num == |ts|
        invariant Contents() == ReleaseEach(before, finished, ts[..idx])
      {
        ghost var s := Contents();
        ReleaseEachEffect(before, finished, ts[..idx]);
        assert s.L(PriorTo(finished)) == ts;
        var dependent := Lindex(PriorTo(finished), idx);
        ReleaseStep(dependent, finished);
        idx := idx + 1;
        PrefixStep(ts, idx);
      }
      assert ts[..|ts|] == ts;
      var freed := ReleaseEffect(before, finished);
      ReleasedValid(before, finished, freed, Contents());
    }

    method ReleaseStep(dependent: TaskId, finished: TaskId)
      modifies this`lists, this`tasks
      ensures Contents() == ReleaseOne(old(Contents()), finished, dependent)
    {
      var _ := Lrem(Dependencies(dependent), finished);
      if Llen(Dependencies(dependent)) == 0 {
        var removed := Lrem(Tasks(PrePending), dependent);
        if removed == 1 {
          Lpush(Tasks(Pending), dependent);
          if dependent in tasks {
            tasks := tasks[dependent := tasks[dependent].(status := Pending)];
          }
        }
      }
    }

    // ---- set_task_status.m ----

    /** MULTI, LREM, LPUSH, HMSET, EXEC with the hash that was read before MULTI. */
    method Commit(task: TaskId, seen: Status, target: Status)
      requires task in tasks
      modifies this`lists, this`tasks
      ensures Contents() == Move(old(Contents()), task, seen, target)
    {
      var _ := Lrem(Tasks(seen), task);
      Lpush(Tasks(target), task);
      tasks := tasks[task := tasks[task].(status := target)];
    }

    method SetPending(task: TaskId)
      requires Ok() && task in tasks
      modifies this
      ensures Contents() == MarkPending(old(Contents()), task, old(tasks[task]))
      ensures var st := old(tasks[task].status);
        if st == PrePending || st == Finished || st == Failed then Moved(old(Contents()), task, st, Pending, Contents())
        else Contents() == old(Contents())
      ensures Ok()
    {
      ghost var before := Contents();
      var seen := tasks[task];
      if seen.status == Pending || seen.status == Ongoing {
        return;
      }
      Commit(task, seen.status, Pending);
      MoveEffect(before, task, seen.status, Pending);
      MovedValid(before, task, Pending, Contents());
    }

    /** Ends with the release script; `error` is the failing read of started_on. */
    method SetFinished(task: TaskId) returns (error: bool)
      requires Ok() && task in tasks
      modifies this
      ensures error <==> old(tasks[task].status != Finished && !tasks[task].started)
      ensures Contents() == if old(tasks[task].status != Finished && tasks[task].started)
        then Release(Move(old(Contents()), task, old(tasks[task].status), Finished), task) else old(Contents())
      ensures Ok()
    {
      ghost var before := Contents();
      var seen := tasks[task];
      if seen.status == Finished {
        return false;
      }
      if !seen.started {
        return true;
      }
      Commit(task, seen.status, Finished);
      MoveEffect(before, task, seen.status, Finished);
      MovedValid(before, task, Finished, Contents());
      UpdateDependentTasks(task);
      error := false;
    }

    method SetFailed(task: TaskId) returns (error: bool)
      requires Ok() && task in tasks
      modifies this
      ensures error <==> old(!tasks[task].started)
      ensures var failed := Move(old(Contents()), task, old(tasks[task].status), Failed);
        Contents() == if old(!tasks[task].started) then old(Contents())
          else if old(tasks[task].policy) == Continue then Release(failed, task) else failed
      ensures Ok()
    {
      ghost var before := Contents();
      var seen := tasks[task];
      if !seen.started {
        return true;
      }
      Commit(task, seen.status, Failed);
      MoveEffect(before, task, seen.status, Failed);
      MovedValid(before, task, Failed, Contents());
      if seen.policy == Continue {
        UpdateDependentTasks(task);
      }
      error := false;
    }

    /** An ongoing task is left to the supervisor: `restart` names its worker. */
    method SetDeleted(task: TaskId) returns (restart: Option<WorkerId>)
      requires Ok() && task in tasks
      modifies this
      ensures Contents() == MarkDeleted(old(Contents()), task, old(tasks[task]))
      ensures var st := old(tasks[task].status);
        if st == Ongoing then Contents() == old(Contents())
        else Dropped(old(Contents()), st, Remove(old(Contents()).L(Tasks(st)), task), Contents())
      ensures restart == if old(tasks[task].status) == Ongoing then old(tasks[task].worker) else None
      ensures Ok()
    {
      ghost var before := Contents();
      var seen := tasks[task];
      if seen.status == Ongoing {
        return seen.worker;
      }
      var _ := Lrem(Tasks(seen.status), task);
      RemoveNoDup(before.L(Tasks(seen.status)), task);
      RemoveMembers(before.L(Tasks(seen.status)), task);
      DroppedValid(before, seen.status, Remove(before.L(Tasks(seen.status)), task), Contents());
      restart := None;
    }

    /** DEL of a whole list, as 'all_<status>' with status 'deleted' does. */
    method DeleteAllOf(status: Status)
      requires Ok() && status != Ongoing
      modifies this
      ensures Contents() == DeleteAll(old(Contents()), status)
      ensures Dropped(old(Contents()), status, [], Contents())
      ensures Ok()
    {
      ghost var before := Contents();
      lists := lists - {Tasks(status)};
      DroppedValid(before, status, [], Contents());
    }

    // ---- server.py ----

    /** The code does not look at the status of the current task; the store stays valid when
        it is ongoing (WorkerCycle.CleanupPartitionIff has the exact condition). */
    method FailCurrentTask(worker: WorkerId)
      requires worker in current ==> current[worker] in tasks
      modifies this
      ensures Contents() == FailCurrent(old(Contents()), worker)
      ensures worker !in current
      ensures old(Ok() && (worker in current ==> tasks[current[worker]].status == Ongoing)) ==> Ok()
    {
      ghost var before := Contents();
      if worker !in current {
        return;
      }
      var task := current[worker];
      Commit(task, Ongoing, Failed);
      ghost var moved := Contents();
      current := current - {worker};
      if Valid(before) && before.tasks[task].status == Ongoing {
        MoveEffect(before, task, Ongoing, Failed);
        MovedValid(before, task, Failed, moved);
        ForgetValid(moved, Contents());
      }
    }

    // ---- join_as_worker.m ----

    method ClearCurrentTask(worker: WorkerId)
      requires Ok()
      modifies this`current
      ensures Contents() == ClearCurrent(old(Contents()), worker)
      ensures Ok()
    {
      ghost var before := Contents();
      current := current - {worker};
      ForgetValid(before, Contents());
    }
  }

  lemma AddValid(s: Store, deps: seq<TaskId>, policy: Policy)
    requires Valid(s)
    ensures Valid(Add(s, deps, policy))
  {
    AddEffect(s, deps, policy);
    SubmittedValid(s, deps, policy, Add(s, deps, policy));
  }

  lemma AddStep(s: Store, n: TaskId, deps: seq<TaskId>, i: nat, s1: Store, s2: Store)
    requires i < |deps| && s1 == AddDependencies(s, n, deps[..i]) && s2 == AddDependency(s1, n, deps[i])
    ensures s2 == AddDependencies(s, n, deps[..i + 1])
  {
    PrefixStep(deps, i + 1);
  }

  lemma PrefixStep(l: seq<TaskId>, i: nat)
    requires 0 < i <= |l|
    ensures l[..i][..i - 1] == l[..i - 1] && l[..i][i - 1] == l[i - 1]
  {
  }
}
