/** The server process that owns the workers of a host: its commands and the crash check
    of its event loop. */
module Supervisor {
  import opened RedisLists
  import opened TaskModel
  import opened TaskScripts
  import opened TaskInvariants
  import opened SchedulerRuns
  import opened SchedulerInvariant
  import opened TaskStore
  import opened WorkerCycle

  /** fail_current_task for one worker after the other. */
  function FailAll(s: Store, ws: seq<WorkerId>): Store
    decreases |ws|
  {
    if ws == [] then s else FailAll(FailCurrent(s, ws[0]), ws[1..])
  }

  /** The recorded tasks of ws, the last worker's first; a worker listed twice counts once. */
  function TasksOf(current: map<WorkerId, TaskId>, ws: seq<WorkerId>): seq<TaskId>
    decreases |ws|
  {
    if ws == [] then []
    else TasksOf(current - {ws[0]}, ws[1..]) + if ws[0] in current then [current[ws[0]]] else []
  }

  /** For busy workers, each listed once: their tasks backwards. */
  lemma {:induction false} TasksOfOrder(current: map<WorkerId, TaskId>, ws: seq<WorkerId>)
    requires NoDup(ws) && forall w :: w in ws ==> w in current
    ensures |TasksOf(current, ws)| == |ws|
    ensures forall i :: 0 <= i < |ws| ==> TasksOf(current, ws)[|ws| - 1 - i] == current[ws[i]]
    decreases |ws|
  {
    if ws != [] {
      NoDupTail(ws);
      assert forall w :: w in ws[1..] ==> w in current - {ws[0]};
      TasksOfOrder(current - {ws[0]}, ws[1..]);
      forall i | 0 <= i < |ws| ensures TasksOf(current, ws)[|ws| - 1 - i] == current[ws[i]] {
        if i > 0 { assert ws[1..][i - 1] == ws[i]; }
      }
    }
  }

  /** Each of the workers is still at its recorded task, and no two record the same. */
  ghost predicate Busy(s: Store, ws: seq<WorkerId>) {
    && (forall w :: w in ws && w in s.current ==>
          s.current[w] in s.tasks && s.tasks[s.current[w]].status == Ongoing)
    && (forall v, w :: v in ws && w in ws && v in s.current && w in s.current && v != w ==>
          s.current[v] != s.current[w])
  }

  /** From s to s' exactly the tasks `failed` went from ongoing to the head of failed,
      and their workers have no current task; nobody is released. */
  ghost predicate CleanedUp(s: Store, ws: seq<WorkerId>, failed: seq<TaskId>, s': Store) {
    && s'.count == s.count && s'.current == s.current - Elems(ws)
    && s'.L(Tasks(Failed)) == failed + s.L(Tasks(Failed))
    && s'.L(Tasks(Ongoing)) == Without(s.L(Tasks(Ongoing)), Elems(failed))
    && (forall k :: k != Tasks(Failed) && k != Tasks(Ongoing) ==> s'.L(k) == s.L(k))
    && s'.tasks.Keys == s.tasks.Keys
    && (forall t :: t in s.tasks ==>
          s'.tasks[t] == if t in failed then s.tasks[t].(status := Failed) else s.tasks[t])
  }

  /** One worker with an ongoing current task, list by list. */
  ghost predicate Failed1(s: Store, w: WorkerId, s1: Store) {
    if w !in s.current then s1 == s
    else Moved(s, s.current[w], Ongoing, Failed, s1.(current := s.current)) && s1.current == s.current - {w}
  }

  lemma FailStep(s: Store, w: WorkerId, rest: seq<WorkerId>, s1: Store)
    requires Valid(s) && Busy(s, [w] + rest) && Failed1(s, w, s1)
    ensures Valid(s1) && Busy(s1, rest)
  {
    assert forall v :: v in rest ==> v in [w] + rest;
    assert w in [w] + rest;
    if w in s.current {
      var moved := s1.(current := s.current);
      assert InList(s, Ongoing, s.current[w]);
      MovedValid(s, s.current[w], Failed, moved);
      ForgetValid(moved, s1);
    }
  }

  lemma Compose(s: Store, w: WorkerId, s1: Store, rest: seq<WorkerId>, failed: seq<TaskId>, s2: Store)
    requires Failed1(s, w, s1) && CleanedUp(s1, rest, failed, s2)
    requires w in s.current ==> s.current[w] !in failed
    ensures CleanedUp(s, [w] + rest, failed + if w in s.current then [s.current[w]] else [], s2)
  {
    assert Elems([w] + rest) == Elems(rest) + {w};
    if w in s.current {
      ComposeBusy(s, w, s1, rest, failed, s2);
    } else {
      assert failed + [] == failed;
      assert s.current - (Elems(rest) + {w}) == s.current - Elems(rest);
    }
  }

  lemma ComposeBusy(s: Store, w: WorkerId, s1: Store, rest: seq<WorkerId>, failed: seq<TaskId>, s2: Store)
    requires w in s.current && Failed1(s, w, s1) && CleanedUp(s1, rest, failed, s2)
    requires s.current[w] !in failed && Elems([w] + rest) == Elems(rest) + {w}
    ensures CleanedUp(s, [w] + rest, failed + [s.current[w]], s2)
  {
    var t := s.current[w];
    assert Elems(failed + [t]) == {t} + Elems(failed);
    ComposeLists(s, w, s1, failed, s2.L(Tasks(Failed)), s2.L(Tasks(Ongoing)));
    assert forall k :: s1.(current := s.current).L(k) == s1.L(k);
    assert s2.current == s.current - (Elems(rest) + {w});
    ComposeTasks(s.tasks, t, failed, s1.tasks, s2.tasks);
  }

  lemma ComposeTasks(tasks: map<TaskId, Task>, t: TaskId, failed: seq<TaskId>, tasks1: map<TaskId, Task>, tasks2: map<TaskId, Task>)
    requires t in tasks && t !in failed && tasks1 == tasks[t := tasks[t].(status := Failed)] && tasks2.Keys == tasks1.Keys
    requires forall x :: x in tasks1 ==> tasks2[x] == if x in failed then tasks1[x].(status := Failed) else tasks1[x]
    ensures tasks2.Keys == tasks.Keys
    ensures forall x :: x in tasks ==>
      tasks2[x] == if x in failed + [t] then tasks[x].(status := Failed) else tasks[x]
  {
    assert forall x :: x in failed + [t] <==> x in failed || x == t;
  }

  lemma ComposeLists(s: Store, w: WorkerId, s1: Store, failed: seq<TaskId>, fails: seq<TaskId>, ongoing: seq<TaskId>)
    requires w in s.current && Failed1(s, w, s1)
    requires fails == failed + s1.L(Tasks(Failed)) && ongoing == Without(s1.L(Tasks(Ongoing)), Elems(failed))
    ensures fails == failed + [s.current[w]] + s.L(Tasks(Failed))
    ensures ongoing == Without(s.L(Tasks(Ongoing)), {s.current[w]} + Elems(failed))
  {
    var t := s.current[w];
    assert forall k :: s1.(current := s.current).L(k) == s1.L(k);
    RemoveThenWithout(s.L(Tasks(Ongoing)), t, Elems(failed));
  }

  lemma {:induction false} RemoveThenWithout(l: seq<nat>, x: nat, gone: set<nat>)
    ensures Without(Remove(l, x), gone) == Without(l, {x} + gone)
  {
    if l != [] {
      RemoveThenWithout(l[1..], x, gone);
      if l[0] != x { assert Remove(l, x)[1..] == Remove(l[1..], x); }
    }
  }

  lemma {:induction false} TasksOfMembers(current: map<WorkerId, TaskId>, ws: seq<WorkerId>, t: TaskId)
    requires t in TasksOf(current, ws)
    ensures exists w :: w in ws && w in current && current[w] == t
    decreases |ws|
  {
    var rest := current - {ws[0]};
    if t in TasksOf(rest, ws[1..]) {
      TasksOfMembers(rest, ws[1..], t);
      var w :| w in ws[1..] && w in rest && rest[w] == t;
      assert w in ws && w in current && current[w] == t;
    } else {
      assert ws[0] in ws;
    }
  }

  /** The cleanup of any list of busy workers fails exactly their tasks. */
  lemma {:induction false} FailAllExact(s: Store, ws: seq<WorkerId>)
    requires Valid(s) && Busy(s, ws)
    ensures CleanedUp(s, ws, TasksOf(s.current, ws), FailAll(s, ws)) && Valid(FailAll(s, ws))
    decreases |ws|
  {
    if ws == [] {
      assert Elems(ws) == {} && s.current - {} == s.current;
      WithoutNone(s.L(Tasks(Ongoing)));
    } else {
      var w, rest := ws[0], ws[1..];
      assert ws == [w] + rest;
      var s1 := FailCurrent(s, w);
      FailedOne(s, w);
      FailStep(s, w, rest, s1);
      FailAllExact(s1, rest);
      if w in s.current && s.current[w] in TasksOf(s1.current, rest) {
        TasksOfMembers(s1.current, rest, s.current[w]);
      }
      Compose(s, w, s1, rest, TasksOf(s1.current, rest), FailAll(s1, rest));
    }
  }

  lemma FailedOne(s: Store, w: WorkerId)
    requires w in s.current ==> s.current[w] in s.tasks
    ensures Failed1(s, w, FailCurrent(s, w))
    ensures FailCurrent(s, w).current == s.current - {w}
  {
    if w in s.current { MoveEffect(s, s.current[w], Ongoing, Failed); }
    else { assert s.current - {w} == s.current; }
  }

  function Crashes(ws: seq<WorkerId>): seq<Event> {
    if ws == [] then [] else [Crash(ws[0])] + Crashes(ws[1..])
  }

  /** A cleanup is a run of crash steps, so all that holds over runs holds over it;
      it adds no release. */
  lemma {:induction false} CleanupIsRun(sys: System, ws: seq<WorkerId>) returns (sys': System)
    requires Inv(sys) && Busy(sys.store, ws)
    ensures Run(sys, Crashes(ws), sys') && sys'.store == FailAll(sys.store, ws)
    ensures sys'.releases == sys.releases && Inv(sys')
    decreases |ws|
  {
    if ws == [] {
      sys' := sys;
    } else {
      var w, rest := ws[0], ws[1..];
      assert ws == [w] + rest;
      assert w in ws;
      FailedOne(sys.store, w);
      FailStep(sys.store, w, rest, FailCurrent(sys.store, w));
      InvKept(sys, Crash(w));
      sys' := CleanupIsRun(Next(sys, Crash(w)), rest);
      assert Crashes(ws)[1..] == Crashes(rest);
    }
  }

  /** When workers keep to their cycle and nobody retries a recorded task, any workers whose
      current tasks are ongoing can be cleaned up after, together. */
  lemma CarefulIsBusy(es: seq<Event>, sys: System, ws: seq<WorkerId>)
    requires CarefulRun(Start, es, sys)
    requires forall w :: w in ws && w in sys.store.current && sys.store.current[w] in sys.store.tasks ==>
      sys.store.tasks[sys.store.current[w]].status == Ongoing
    ensures Busy(sys.store, ws)
  {
    InvStart();
    ApartRun(Start, es, sys);
  }

  // ---- the server ----

  datatype WorkerStatus = Starting | Active | Restart | Dead

  /** The workers a command is about, and the others; without keys it is about all. */
  function Chosen(ws: seq<WorkerId>, keys: seq<WorkerId>): seq<WorkerId> {
    if ws == [] then []
    else if keys == [] || ws[0] in keys then [ws[0]] + Chosen(ws[1..], keys)
    else Chosen(ws[1..], keys)
  }

  function Others(ws: seq<WorkerId>, keys: seq<WorkerId>): seq<WorkerId> {
    if ws == [] then []
    else if keys == [] || ws[0] in keys then Others(ws[1..], keys)
    else [ws[0]] + Others(ws[1..], keys)
  }

  /** The chosen are what the list has at the positions of named workers, all positions
      without keys, and the others what it has at the rest, both in the order of the list. */
  lemma {:induction false} ChosenOrOthers(ws: seq<WorkerId>, keys: seq<WorkerId>)
      returns (chosenAt: seq<nat>, othersAt: seq<nat>)
    ensures Picks(ws, chosenAt, Chosen(ws, keys)) && Picks(ws, othersAt, Others(ws, keys))
    ensures forall k :: 0 <= k < |ws| ==> (k in chosenAt <==> keys == [] || ws[k] in keys)
    ensures forall k :: 0 <= k < |ws| ==> (k in othersAt <==> keys != [] && ws[k] !in keys)
    ensures forall w :: w in Chosen(ws, keys) <==> w in ws && (keys == [] || w in keys)
    ensures forall w :: w in Others(ws, keys) <==> w in ws && keys != [] && w !in keys
  {
    if ws == [] {
      chosenAt, othersAt := [], [];
    } else {
      var c, o := ChosenOrOthers(ws[1..], keys);
      assert forall w :: w in ws <==> w == ws[0] || w in ws[1..];
      if keys == [] || ws[0] in keys {
        PicksKeep(ws, c, Chosen(ws[1..], keys));
        PicksSkip(ws, o, Others(ws[1..], keys));
        chosenAt, othersAt := [0] + Shift(c), Shift(o);
      } else {
        PicksSkip(ws, c, Chosen(ws[1..], keys));
        PicksKeep(ws, o, Others(ws[1..], keys));
        chosenAt, othersAt := Shift(c), [0] + Shift(o);
      }
    }
  }

  lemma ChosenNext(ws: seq<WorkerId>, i: nat, keys: seq<WorkerId>)
    requires i < |ws|
    ensures if keys == [] || ws[i] in keys
      then Chosen(ws[i..], keys) == [ws[i]] + Chosen(ws[i + 1..], keys) && Others(ws[i..], keys) == Others(ws[i + 1..], keys)
      else Chosen(ws[i..], keys) == Chosen(ws[i + 1..], keys) && Others(ws[i..], keys) == [ws[i]] + Others(ws[i + 1..], keys)
  {
    assert ws[i..][1..] == ws[i + 1..];
  }

  function Marked(m: map<WorkerId, WorkerStatus>, ws: seq<WorkerId>, st: WorkerStatus): map<WorkerId, WorkerStatus> {
    m + map w | w in ws :: st
  }

  lemma MarkedExactly(m: map<WorkerId, WorkerStatus>, ws: seq<WorkerId>, st: WorkerStatus)
    ensures forall w :: w in Marked(m, ws, st) <==> w in m || w in ws
    ensures forall w :: w in Marked(m, ws, st) ==> Marked(m, ws, st)[w] == if w in ws then st else m[w]
  {
  }

  lemma MarkedNext(m: map<WorkerId, WorkerStatus>, todo: seq<WorkerId>, st: WorkerStatus, seen: WorkerStatus,
                   m': map<WorkerId, WorkerStatus>)
    requires todo != [] && m' == m[todo[0] := seen][todo[0] := st]
    ensures Marked(m, todo, st) == Marked(m', todo[1..], st)
  {
    assert todo == [todo[0]] + todo[1..];
  }

  lemma MarkedPush(m: map<WorkerId, WorkerStatus>, ws: seq<WorkerId>, st: WorkerStatus, w: WorkerId)
    ensures Marked(m, ws + [w], st) == Marked(m, ws, st)[w := st]
  {
  }

  /** Every current task has a hash, as in any valid store. */
  ghost predicate Recorded(s: Store) { forall w :: w in s.current ==> s.current[w] in s.tasks }

  /** Where a loop that marks its workers with st is to end. */
  datatype Goal = Goal(end: Store, marks: map<WorkerId, WorkerStatus>, st: WorkerStatus) {
    /** From the present state the rest of the loop leads there. */
    ghost predicate Ahead(s: Store, m: map<WorkerId, WorkerStatus>, todo: seq<WorkerId>) {
      Recorded(s) && FailAll(s, todo) == end && Marked(m, todo, st) == marks
    }

    lemma Reached(s: Store, m: map<WorkerId, WorkerStatus>, todo: seq<WorkerId>)
      requires Ahead(s, m, todo) && todo == []
      ensures s == end && m == marks
    {
      assert Marked(m, [], st) == m;
    }
  }

  lemma GoalOf(s: Store, m: map<WorkerId, WorkerStatus>, all: seq<WorkerId>, st: WorkerStatus) returns (goal: Goal)
    requires Recorded(s)
    ensures goal == Goal(FailAll(s, all), Marked(m, all, st), st) && goal.Ahead(s, m, all)
    ensures Valid(s) && Busy(s, all) ==> Valid(goal.end)
  {
    goal := Goal(FailAll(s, all), Marked(m, all, st), st);
    if Valid(s) && Busy(s, all) { FailAllExact(s, all); }
  }

  lemma FailAllNext(s: Store, todo: seq<WorkerId>, s1: Store)
    requires todo != [] && Recorded(s) && s1 == FailCurrent(s, todo[0])
    ensures Recorded(s1) && FailAll(s, todo) == FailAll(s1, todo[1..])
  {
  }

  lemma WithoutNext(ws: seq<WorkerId>, i: nat, spared: set<WorkerId>)
    requires i < |ws|
    ensures Without(ws[i..], spared) ==
      if ws[i] in spared then Without(ws[i + 1..], spared) else [ws[i]] + Without(ws[i + 1..], spared)
    ensures ws[i] !in spared ==>
      Without(ws[i..], spared) != [] && Without(ws[i..], spared)[0] == ws[i]
      && Without(ws[i..], spared)[1..] == Without(ws[i + 1..], spared)
  {
    assert ws[i..][1..] == ws[i + 1..];
  }

  /** n keys counted on from c. */
  function Fresh(c: nat, n: nat): seq<WorkerId> {
    if n == 0 then [] else Fresh(c, n - 1) + [c + n]
  }

  lemma {:induction false} FreshExactly(c: nat, n: nat)
    ensures |Fresh(c, n)| == n && forall j :: 0 <= j < n ==> Fresh(c, n)[j] == c + 1 + j
  {
    if n > 0 { FreshExactly(c, n - 1); }
  }

  class Server {
    const rdb: Redis
    var workers: seq<WorkerId>
    var statuses: map<WorkerId, WorkerStatus>   // the 'status' field of the worker hashes
    var workersCount: nat                       // worker:<host>:count

    constructor (r: Redis, count: nat)
      ensures rdb == r && workers == [] && workersCount == count && statuses == map[]
    {
      rdb, workers, statuses, workersCount := r, [], map[], count;
    }

    /** One turn of a loop: fail_current_task, then the process is killed or started. */
    method FailNext(w: WorkerId, seen: WorkerStatus, st: WorkerStatus, ghost goal: Goal, ghost todo: seq<WorkerId>)
      requires todo != [] && todo[0] == w && goal.st == st && goal.Ahead(rdb.Contents(), statuses, todo)
      modifies rdb, this`statuses
      ensures goal.Ahead(rdb.Contents(), statuses, todo[1..])
    {
      ghost var s, m := rdb.Contents(), statuses;
      rdb.FailCurrentTask(w);
      statuses := statuses[w := seen];
      statuses := statuses[w := st];
      FailAllNext(s, todo, rdb.Contents());
      MarkedNext(m, todo, st, seen, statuses);
    }

    /** 'restart': fail the current task, kill the process, start a new one. */
    method RestartWorkers(keys: seq<WorkerId>)
      requires Recorded(rdb.Contents())
      modifies this`statuses, rdb
      ensures rdb.Contents() == FailAll(old(rdb.Contents()), Chosen(workers, keys))
      ensures statuses == Marked(old(statuses), Chosen(workers, keys), Starting)
      ensures old(rdb.Ok() && Busy(rdb.Contents(), Chosen(workers, keys))) ==> rdb.Ok()
    {
      ghost var todo := Chosen(workers, keys);
      ghost var goal := GoalOf(rdb.Contents(), statuses, todo, Starting);
      var i := 0;
      assert workers[0..] == workers;
      while i < |workers|
        invariant 0 <= i <= |workers| && todo == Chosen(workers[i..], keys)
        invariant goal.Ahead(rdb.Contents(), statuses, todo)
      {
        var w := workers[i];
        ChosenNext(workers, i, keys);
        if keys == [] || w in keys {
          FailNext(w, Dead, Starting, goal, todo);
          todo := todo[1..];
        }
        i := i + 1;
      }
      goal.Reached(rdb.Contents(), statuses, todo);
    }

    /** 'kill': the named workers go, the others stay in their order. */
    method KillWorkers(keys: seq<WorkerId>)
      requires Recorded(rdb.Contents())
      modifies this`statuses, this`workers, rdb
      ensures rdb.Contents() == FailAll(old(rdb.Contents()), Chosen(old(workers), keys))
      ensures statuses == Marked(old(statuses), Chosen(old(workers), keys), Dead)
      ensures workers == Others(old(workers), keys)
      ensures old(rdb.Ok() && Busy(rdb.Contents(), Chosen(workers, keys))) ==> rdb.Ok()
    {
      ghost var todo, stay := Chosen(workers, keys), Others(workers, keys);
      ghost var goal := GoalOf(rdb.Contents(), statuses, todo, Dead);
      ghost var left := stay;
      var alive: seq<WorkerId> := [];
      var i := 0;
      assert workers[0..] == workers;
      while i < |workers|
        invariant 0 <= i <= |workers| && workers == old(workers)
        invariant todo == Chosen(workers[i..], keys) && left == Others(workers[i..], keys)
        invariant goal.Ahead(rdb.Contents(), statuses, todo)
        invariant alive + left == stay
      {
        var w := workers[i];
        ChosenNext(workers, i, keys);
        if keys == [] || w in keys {
          FailNext(w, Dead, Dead, goal, todo);
          todo := todo[1..];
        } else {
          Assoc(alive, [w], left[1..]);
          alive := alive + [w];
          left := left[1..];
        }
        i := i + 1;
      }
      goal.Reached(rdb.Contents(), statuses, todo);
      workers := alive;
    }

    /** 'shutdown', up to the exit of the process. */
    method Shutdown()
      requires Recorded(rdb.Contents())
      modifies this`statuses, rdb
      ensures rdb.Contents() == FailAll(old(rdb.Contents()), workers)
      ensures statuses == Marked(old(statuses), workers, Dead)
      ensures old(rdb.Ok() && Busy(rdb.Contents(), workers)) ==> rdb.Ok()
    {
      ghost var goal := GoalOf(rdb.Contents(), statuses, workers, Dead);
      var i := 0;
      assert workers[0..] == workers;
      while i < |workers|
        invariant 0 <= i <= |workers| && goal.Ahead(rdb.Contents(), statuses, workers[i..])
      {
        assert workers[i..][1..] == workers[i + 1..];
        FailNext(workers[i], Dead, Dead, goal, workers[i..]);
        i := i + 1;
      }
      goal.Reached(rdb.Contents(), statuses, workers[i..]);
    }

    /** The end of each round of the event loop; `alive` are the processes found running. */
    method ReviveCrashed(alive: set<WorkerId>)
      requires Recorded(rdb.Contents())
      modifies this`statuses, rdb
      ensures rdb.Contents() == FailAll(old(rdb.Contents()), Without(workers, alive))
      ensures statuses == Marked(old(statuses), Without(workers, alive), Starting)
      ensures old(rdb.Ok() && Busy(rdb.Contents(), Without(workers, alive))) ==> rdb.Ok()
    {
      ghost var goal := GoalOf(rdb.Contents(), statuses, Without(workers, alive), Starting);
      var i := 0;
      assert workers[0..] == workers;
      while i < |workers|
        invariant 0 <= i <= |workers| && goal.Ahead(rdb.Contents(), statuses, Without(workers[i..], alive))
      {
        WithoutNext(workers, i, alive);
        if workers[i] !in alive {
          FailNext(workers[i], Restart, Starting, goal, Without(workers[i..], alive));
        }
        i := i + 1;
      }
      goal.Reached(rdb.Contents(), statuses, Without(workers[i..], alive));
    }

    /** 'new': more keys from the host's counter. */
    method NewWorkers(n: nat)
      modifies this
      ensures workersCount == old(workersCount) + n
      ensures workers == old(workers) + Fresh(old(workersCount), n)
      ensures statuses == Marked(old(statuses), Fresh(old(workersCount), n), Starting)
    {
      var i := 0;
      while i < n
        invariant 0 <= i <= n && workersCount == old(workersCount) + i
        invariant workers == old(workers) + Fresh(old(workersCount), i)
        invariant statuses == Marked(old(statuses), Fresh(old(workersCount), i), Starting)
      {
        ghost var more := Fresh(old(workersCount), i);
        Assoc(old(workers), more, [workersCount + 1]);
        MarkedPush(old(statuses), more, Starting, workersCount + 1);
        workersCount := workersCount + 1;
        workers := workers + [workersCount];
        statuses := statuses[workersCount := Starting];
        i := i + 1;
      }
    }
  }

  /** Keys from the counter are new as long as the listed ones came from it. */
  lemma {:induction false} FreshNoDup(ws: seq<WorkerId>, c: nat, n: nat)
    requires NoDup(ws) && forall w :: w in ws ==> w <= c
    ensures NoDup(ws + Fresh(c, n)) && forall w :: w in ws + Fresh(c, n) ==> w <= c + n
  {
    if n == 0 {
      assert ws + [] == ws;
    } else {
      FreshNoDup(ws, c, n - 1);
      assert ws + Fresh(c, n) == (ws + Fresh(c, n - 1)) + [c + n];
      NoDupPush(ws + Fresh(c, n - 1), c + n);
    }
  }
}
