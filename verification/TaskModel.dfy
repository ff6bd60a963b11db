/** The scheduler's keyspace and, as functions on it, its atomic steps:
    the three Lua scripts, the MULTI/EXEC blocks of `set_task_status` and the
    supervisor's pipeline. */
module TaskModel {
  import opened RedisLists

  type TaskId = nat
  type WorkerId = nat

  datatype Option<+T> = None | Some(value: T)
  datatype Status = PrePending | Pending | Ongoing | Finished | Failed
  datatype Policy = Halt | Continue

  /** The list keys: '<status>_tasks', '<task>:dependencies' and '<task>:prior_to'. */
  datatype Key = Tasks(status: Status) | Dependencies(task: TaskId) | PriorTo(task: TaskId)

  /** The fields of a task's hash that steer the scheduling. */
  datatype Task = Task(status: Status, policy: Policy, started: bool, worker: Option<WorkerId>)

  datatype Store = Store(
    count: nat,                        // tasks_count
    lists: map<Key, seq<TaskId>>,      // an empty list has no key, as in Redis
    tasks: map<TaskId, Task>,          // the 'task:<id>' hashes
    current: map<WorkerId, TaskId>)    // current_task of each worker; 'None' has no entry
  {
    function L(k: Key): seq<TaskId> {
      if k in lists then lists[k] else []
    }

    function Put(k: Key, l: seq<TaskId>): (s: Store)
      ensures s.L(k) == l
      ensures forall k' {:trigger s.L(k')} :: k' != k ==> s.L(k') == L(k')
      ensures s.count == count && s.tasks == tasks && s.current == current
    {
      this.(lists := if l == [] then lists - {k} else lists[k := l])
    }

    function Lpush(k: Key, x: TaskId): Store { Put(k, [x] + L(k)) }

    function Rpush(k: Key, x: TaskId): Store { Put(k, L(k) + [x]) }

    function Lrem(k: Key, x: TaskId): Store { Put(k, Remove(L(k), x)) }

    predicate FinishedNow(t: TaskId) { t in tasks && tasks[t].status == Finished }

    /** HSET task status; every id that reaches this command has a hash already. */
    function SetStatus(t: TaskId, st: Status): Store {
      if t in tasks then this.(tasks := tasks[t := tasks[t].(status := st)]) else this
    }
  }

  const EmptyStore := Store(0, map[], map[], map[])

  // ---- add_task.lua ----

  function AddDependency(s: Store, n: TaskId, d: TaskId): Store {
    if s.FinishedNow(d) then s
    else s.Lpush(Dependencies(n), d).Lpush(PriorTo(d), n)
  }

  function AddDependencies(s: Store, n: TaskId, ds: seq<TaskId>): Store {
    if ds == [] then s
    else AddDependency(AddDependencies(s, n, ds[..|ds| - 1]), n, ds[|ds| - 1])
  }

  function Enqueue(s: Store, n: TaskId, ds: seq<TaskId>, policy: Policy): Store {
    if ds == [] then
      var s' := s.Rpush(Tasks(Pending), n);
      s'.(tasks := s'.tasks[n := Task(Pending, policy, false, None)])
    else if s.L(Dependencies(n)) == [] then
      var s' := s.Lpush(Tasks(Pending), n);
      s'.(tasks := s'.tasks[n := Task(Pending, policy, false, None)])
    else
      var s' := s.Rpush(Tasks(PrePending), n);
      s'.(tasks := s'.tasks[n := Task(PrePending, policy, false, None)])
  }

  function Add(s: Store, ds: seq<TaskId>, policy: Policy): Store {
    var n := s.count + 1;
    Enqueue(AddDependencies(s.(count := n), n, ds), n, ds, policy)
  }

  // ---- worker_pop_pendnig_task.lua ----

  function Pop(s: Store, w: WorkerId): Store {
    var queue := s.L(Tasks(Pending));
    if queue == [] || queue[0] !in s.tasks then s
    else
      var t := queue[0];
      var s' := s.Put(Tasks(Pending), queue[1..]).Rpush(Tasks(Ongoing), t);
      s'.(tasks := s'.tasks[t := s'.tasks[t].(status := Ongoing, started := true, worker := Some(w))],
          current := s'.current[w := t])
  }

  // ---- update_dependent_tasks.lua ----

  function ReleaseOne(s: Store, d: TaskId, t: TaskId): Store {
    var s1 := s.Lrem(Dependencies(t), d);
    if s1.L(Dependencies(t)) != [] then s1
    else
      var before := |s1.L(Tasks(PrePending))|;
      var s2 := s1.Lrem(Tasks(PrePending), t);
      if before - |s2.L(Tasks(PrePending))| == 1
      then s2.Lpush(Tasks(Pending), t).SetStatus(t, Pending)
      else s2
  }

  function ReleaseEach(s: Store, d: TaskId, ts: seq<TaskId>): Store {
    if ts == [] then s
    else ReleaseOne(ReleaseEach(s, d, ts[..|ts| - 1]), d, ts[|ts| - 1])
  }

  function Release(s: Store, d: TaskId): Store {
    ReleaseEach(s, d, s.L(PriorTo(d)))
  }

  // ---- set_task_status.m; `seen` is the hash as it was read before EXEC ----

  /** The body of a MULTI/EXEC block: leave the list of the status that was read,
      enter the target list, write the target status. */
  function Move(s: Store, t: TaskId, seen: Status, target: Status): Store {
    s.Lrem(Tasks(seen), t).Lpush(Tasks(target), t).SetStatus(t, target)
  }

  /** A retry; pending and ongoing tasks are left alone. */
  function MarkPending(s: Store, t: TaskId, seen: Task): Store {
    if seen.status == Pending || seen.status == Ongoing then s else Move(s, t, seen.status, Pending)
  }

  /** Reading started_on of a task that never started is an error: nothing is written. */
  function MarkFinished(s: Store, t: TaskId, seen: Task): Store {
    if seen.status == Finished || !seen.started then s else Move(s, t, seen.status, Finished)
  }

  function MarkFailed(s: Store, t: TaskId, seen: Task): Store {
    if !seen.started then s else Move(s, t, seen.status, Failed)
  }

  /** Deleting an ongoing task only asks the supervisor to restart its worker. */
  function MarkDeleted(s: Store, t: TaskId, seen: Task): Store {
    if seen.status == Ongoing then s else s.Lrem(Tasks(seen.status), t)
  }

  /** DEL '<status>_tasks' ('all_ongoing' goes through the supervisor instead). */
  function DeleteAll(s: Store, st: Status): Store {
    if st == Ongoing then s else s.Put(Tasks(st), [])
  }

  // ---- server.py and join_as_worker.m ----

  function FailCurrent(s: Store, w: WorkerId): Store {
    if w !in s.current then s
    else
      var s' := Move(s, s.current[w], Ongoing, Failed);
      s'.(current := s'.current - {w})
  }

  function ClearCurrent(s: Store, w: WorkerId): Store {
    s.(current := s.current - {w})
  }
}
