# MatlabRedisCluster: a verified model

A Dafny model of the distributed task scheduler that MatlabRedisCluster keeps in
Redis, and of the stateful parts of the Redis client that its server process uses.
`dafny verify dfyconfig.toml` checks all of it.

## The scheduler

Tasks are numbered by a counter. Five lists hold them by status, a hash gives each its
status, fail policy, worker and whether it ever started, a `dependencies` list says what
it still waits for, and a `prior_to` list whom it notifies. Each Lua script, MULTI/EXEC
block and pipeline is one atomic step.

| file | contents |
|---|---|
| `RedisLists.dfy`, `TaskModel.dfy` | the list commands, the keyspace, each step as a function on it |
| `TaskScripts.dfy`, `TaskInvariants.dfy` | what the looping scripts do list by list; what every step keeps |
| `TaskStore.dfy` | the store as an object: each step as the Redis commands it issues, with their loops |
| `SchedulerRuns.dfy`, `SchedulerInvariant.dfy` | runs: any interleaving of clients, workers, supervisors and delayed release scripts; the inductive invariant |
| `SchedulerTheorems.dfy`, `SchedulerProgress.dfy` | safety over runs; nothing is stuck, every drain ends |
| `WorkerCycle.dfy`, `Worker.dfy`, `Supervisor.dfy` | which worker has which task, one round of a worker, the commands and the crash check of the server |

Finishing a task takes two steps, the commit and later the release script; the theorems
hold for every interleaving of other steps in between. A run carries a history next to
the store: releases still to run, releases lost because whoever was to run them is gone, the
dependencies each task was submitted with, which tasks were ever finished (or failed
under `continue`), put back by hand, or deleted, and which workers reported their task.

What the code needs from its surroundings, and what happens without it:

- `set_task_status` reads the hash (`+mrc/set_task_status.m:77`) before its MULTI. A run
  reads and commits in one step; `MovePartitionIff` gives the exact condition under
  which a commit after a stale read keeps the lists disjoint.
- `fail_current_task` does not look at the task's status. A run only lets it act on an
  ongoing task; `CleanupPartitionIff` gives the exact condition for one call, and the
  server's loops are described for any state.
- A client may declare a task finished and put it back while its worker is still inside
  it, or between that worker's report and its clear (`+mrc/join_as_worker.m:99-117`).
  Then a second worker takes it: `TwoWorkersRunOneTask` is such a run. A pop keeps the
  recorded tasks apart iff it does not take a recorded one (`PopInjectiveIff`), and
  without such retries no two workers ever record the same task (`OneWorkerATask`).
- `add_task` does not check that a dependency exists, or that the graph has no cycle.
  `NothingStuckIffAcyclic` shows this to be the exact condition under which nobody is
  left waiting when nothing failed, was deleted, lost or forced; with a missing
  dependency a task waits in every run (`MissingDependencyWaits`,
  `DanglingDependencyStuck`).
- A worker killed between its commit and its release script leaves its dependents
  waiting: the `Lose` step, and the lost releases in the progress theorems.
- Reading `started_on` of a task that never started is an error, so finishing or
  failing such a task writes nothing.

Where code and documentation differ the model follows the code. `README.md:30` of the
repository says that dependents see a failed task with policy `continue` as finished.
The code does this for the tasks submitted before the failure is reported through
`set_task_status` (`EveryoneHears`); a task submitted afterwards waits
(`LateSubmissionWaits`), and a failure set by the server releases nobody
(`CrashReleasesNobody`).

## The Redis client

| file | contents |
|---|---|
| `Resp.dfy` | the Redis serialization protocol (RESP2, sections "Simple strings", "Bulk strings" and "Arrays"): canonical encodings, what the client's parser reads, decimal numbers |
| `SocketBuffer.dfy`, `PythonParser.dfy` | the buffer between socket and parser, and the parser on it |
| `Packing.dfy` | `pack_command` and `pack_commands` against the canonical encoding |
| `PubSub.dfy` | the subscription tables against the server's set |
| `Transaction.dfy` | results of a transaction at the right positions |
| `Lock.dfy` | the leased lock over timed runs, the blocking acquire |
| `Pools.dfy` | the two connection pools |

Results the code does not give unconditionally, with the exact condition:

- an unsubscription that has to reconnect loses itself iff the client was subscribed
  (`ReconnectingUnsubscribeIff`), for good (`StaleForever`); one with an empty list of
  names goes out as an unsubscription from all, and is harmless iff there was nothing to
  leave (`EmptyUnsubscribeIff`);
- `SocketBuffer.read` is independent of how the stream was cut iff its length is at
  least -2 (`ReadSplitIndependentIff`); smaller lengths come from malformed replies only;
- releasing a connection keeps the pool's books iff it was in use (`ReleaseBalancedIff`);
- another client's release or extension of the lock succeeds iff it carries the owner's
  token (`SharedTokenIff`), so exclusion rests on fresh tokens;
- the error of a rejected MULTI takes the place of a result: with one result too few the
  response is returned with everything moved by one (`ExecuteTransaction`).

A line that ends in a bare LF is never complete for the parser; it reads on until the
connection closes. `ReadLine` models this.

## Model

| member | source | states |
|---|---|---|
| RedisLists.RemoveNoDup | +mrc/private/update_dependent_tasks.lua:8 | on a duplicate-free list LREM removes one element if it is there and none otherwise, so its answer is 1 exactly for a member |
| RedisLists.RemoveMembers | +mrc/private/update_dependent_tasks.lua:6 | LREM with count 0 removes every occurrence and nothing else |
| RedisLists.RemoveOrder | +mrc/private/update_dependent_tasks.lua:6 | what LREM keeps are exactly the positions that hold something else, in their order |
| TaskScripts.UnfinishedBackwards | +mrc/private/add_task.lua:9-13 | the dependency list of a new task has its unfinished dependencies backwards, as often as declared |
| TaskScripts.AddDependenciesEffect | +mrc/private/add_task.lua:9-14 | the loop leaves the new task waiting for its unfinished dependencies and on top of each reverse list once per declaration; all else is untouched |
| TaskScripts.AddEffect | +mrc/private/add_task.lua:9-25 | whole keyspace after a submission: pending at once iff every declared dependency is finished now, at the tail iff none was declared |
| TaskScripts.AddWiring | +mrc/private/add_task.lua:10-13 | afterwards the new task waits for exactly its unfinished dependencies, each of them notifies it, and reverse lists stay newest first |
| TaskScripts.ReleaseOneRound | +mrc/private/update_dependent_tasks.lua:5-12 | one round of the loop: the task leaves pre_pending iff it has nothing left to wait for and is there |
| TaskScripts.FreedByMembers | +mrc/private/update_dependent_tasks.lua:7-11 | a pass over the reverse list frees exactly the waiting tasks with nothing left, each once however often it is listed, oldest first |
| TaskScripts.ReleaseEffect | +mrc/private/update_dependent_tasks.lua:1-14 | whole keyspace after a release: the finished task is in no dependency list, the freed tasks are put in front of the queue in ascending order |
| TaskInvariants.MovePartitionIff | +mrc/set_task_status.m:77-110 | a commit keeps the lists disjoint and matching the hashes iff the status read is still current or the task is in no list |
| TaskInvariants.MovedValid | +mrc/set_task_status.m:80-121 | retry, finish and fail with a current status keep the whole store invariant |
| TaskInvariants.PoppedValid | +mrc/private/worker_pop_pendnig_task.lua:6-11 | so does a pop |
| TaskInvariants.SubmittedValid | +mrc/private/add_task.lua:1-25 | so does a submission |
| TaskInvariants.ReleasedValid | +mrc/private/update_dependent_tasks.lua:4-13 | so does a release |
| TaskInvariants.DroppedValid | +mrc/set_task_status.m:36-71 | so does taking tasks off a list that is not the ongoing one |
| TaskStore.Redis.constructor | +mrc/flush_db.m:1-3 | an empty database satisfies the store invariant |
| TaskStore.Redis.AddTask | +mrc/private/add_task.lua:1-26 | the script's loop and pushes are one submission step; keeps the invariant; the id is the next one |
| TaskStore.Redis.AddDependencyOf | +mrc/private/add_task.lua:10-13 | one turn of the dependency loop |
| TaskStore.Redis.EnqueueTask | +mrc/private/add_task.lua:15-25 | choice of list and status, the new hash |
| TaskStore.Redis.PopPendingTask | +mrc/private/worker_pop_pendnig_task.lua:1-12 | takes the head of the queue, or nothing from an empty one; keeps the invariant |
| TaskStore.Redis.UpdateDependentTasks | +mrc/private/update_dependent_tasks.lua:1-14 | the indexed loop over the reverse list is the release step although it reads the list anew each time; keeps the invariant |
| TaskStore.Redis.ReleaseStep | +mrc/private/update_dependent_tasks.lua:6-12 | one turn of that loop, with the test on the answer of LREM |
| TaskStore.Redis.Commit | +mrc/set_task_status.m:84-92 | the MULTI/EXEC block for any status that was read and any target |
| TaskStore.Redis.SetPending | +mrc/set_task_status.m:80-92 | a pre_pending, finished or failed task leaves its list for the head of pending; a pending or ongoing one is left alone; keeps the invariant |
| TaskStore.Redis.SetFinished | +mrc/set_task_status.m:93-110 | a started task that is not finished is moved to finished and its release script run; nothing for finished tasks; an error for tasks never started; keeps the invariant |
| TaskStore.Redis.SetFailed | +mrc/set_task_status.m:111-124 | a started task is moved to failed, and its release script run iff the policy is continue; an error for tasks never started; keeps the invariant |
| TaskStore.Redis.SetDeleted | +mrc/set_task_status.m:125-130 | off its list with the status unchanged; an ongoing task is left to a restart of its worker |
| TaskStore.Redis.DeleteAllOf | +mrc/set_task_status.m:36-71 | empties one list and changes nothing else |
| TaskStore.Redis.FailCurrentTask | server.py:53-66 | the supervisor's pipeline for any status of the current task; the store stays valid if that is ongoing |
| TaskStore.Redis.ClearCurrentTask | +mrc/join_as_worker.m:116-118 | the worker forgets its task |
| SchedulerRuns.StepEffect | +mrc/private/add_task.lua:1-26 | every enabled step of a run has the effect stated for it, list by list |
| SchedulerRuns.ClientsAreFree | +mrc/set_task_status.m:1-6 | no call of a client on a created task is shut out of the runs |
| SchedulerInvariant.InvKept | +mrc/set_task_status.m:79-130 | the run invariant is inductive: every client, worker and supervisor step keeps it |
| SchedulerInvariant.InvReachable | +mrc/private/worker_pop_pendnig_task.lua:7-12 | hence every reachable state has it |
| SchedulerTheorems.ExactlyOneList | +mrc/set_task_status.m:79-130 | in every reachable state lists are duplicate-free, a task is in a list iff its hash says so and it was not deleted |
| SchedulerTheorems.ExactRelease | +mrc/private/update_dependent_tasks.lua:2-13 | a release puts exactly the tasks that waited for this one alone, in ascending order, in front of the old queue, takes them off pre_pending, and changes no other list or hash |
| SchedulerTheorems.ReleaseTwice | +mrc/private/update_dependent_tasks.lua:4-13 | a second run of the release script changes nothing |
| SchedulerTheorems.WakeUpOutstanding | +mrc/set_task_status.m:99-110 | in every reachable state whoever still waits for a finished task has its release outstanding, or it was lost with its worker |
| SchedulerTheorems.EveryoneHears | +mrc/set_task_status.m:99-124 | after a finish, or a failure under continue, every task submitted before stops waiting for it as soon as no release of it is outstanding or lost, whatever happened in between |
| SchedulerTheorems.LateSubmissionWaits | +mrc/private/add_task.lua:10 | a task submitted later waits iff the dependency is not finished, whatever its policy |
| SchedulerTheorems.CrashReleasesNobody | server.py:53-66 | a failure set by the supervisor releases nobody |
| SchedulerTheorems.DependencySafety | +mrc/private/add_task.lua:9-21 | a task that started and was never forced into the queue had every declared dependency resolved |
| SchedulerTheorems.TakenAfterItsDependencies | +mrc/private/update_dependent_tasks.lua:6-10 | on the trace: for a task about to be taken that no step forced out of pre_pending, retried later or not, some earlier step finished each declared dependency, or failed it under continue |
| SchedulerTheorems.ForcedRun | +mrc/set_task_status.m:80-92 | a task counts as forced only through a retry of it while it was pre_pending |
| SchedulerTheorems.GrownRun | +mrc/private/add_task.lua:22-25 | over any run tasks stay, keep policy and declaration, and stay started |
| SchedulerTheorems.QueueShape | +mrc/private/add_task.lua:15-20 | the queue is always released, retried or satisfied tasks, then tasks without dependencies by increasing id |
| SchedulerTheorems.TakenInOrder | +mrc/private/worker_pop_pendnig_task.lua:7 | tasks without dependencies that are not retried are taken in the order of submission, in every run |
| SchedulerProgress.StuckOnlyByFailure | +mrc/private/update_dependent_tasks.lua:4-13 | with nothing queued, ongoing or outstanding, a waiting task heads a chain of waiting tasks down to one that failed, was deleted or lost its release |
| SchedulerProgress.NothingStuck | +mrc/private/add_task.lua:9-21 | with an acyclic graph and no failure, deletion or loss every task is finished then |
| SchedulerProgress.NothingStuckIffAcyclic | +mrc/private/add_task.lua:9-21 | with nothing failed, deleted, lost or forced, nobody is left waiting iff the declarations form a closed acyclic graph |
| SchedulerProgress.LayeredRun | +mrc/private/add_task.lua:15-21 | in every unforced run the tasks that got past pre_pending can be ranked above all their dependencies |
| SchedulerProgress.OlderIsAcyclic | +mrc/private/add_task.lua:1-14 | naming only existing tasks makes the graph acyclic |
| SchedulerProgress.WorkDecreases | +mrc/private/worker_pop_pendnig_task.lua:7-12 | every pop, report, release, lost release or crash of a busy worker lowers 4*pre_pending + 3*pending + 2*ongoing + releases |
| SchedulerProgress.DrainBound | +mrc/set_task_status.m:99-124 | a run of such steps is no longer than what it lowers the measure by |
| SchedulerProgress.WorkAvailable | +mrc/join_as_worker.m:44-51 | unless nothing is queued, ongoing or outstanding, such a step can be taken |
| SchedulerProgress.DrainEnds | +mrc/set_task_status.m:99-124 | a drain that cannot go on took at most that many steps; every task is finished, failed, deleted or blocked below one that failed, was deleted or lost its release |
| SchedulerProgress.MissingDependencyWaits | +mrc/private/add_task.lua:9-14 | in every run a task waits for a declared dependency as long as that does not exist, and stays pre_pending unless forced |
| SchedulerProgress.DanglingDependencyStuck | +mrc/private/add_task.lua:9-14 | the shortest such run: one submission, nothing failed, deleted, lost or forced, and the task is left waiting |
| WorkerCycle.MatchedKept | +mrc/join_as_worker.m:72-118 | steps of workers that follow the cycle keep ongoing tasks matched to workers that run them, across retries, client reports and crashes |
| WorkerCycle.WorkersMatch | +mrc/private/worker_pop_pendnig_task.lua:7-12 | in every such run an ongoing task's recorded worker has it as its current task and did not report it, and ongoing tasks are at most as many as workers with a task |
| WorkerCycle.PopInjectiveIff | +mrc/private/worker_pop_pendnig_task.lua:10-11 | a pop by an idle worker keeps recorded tasks apart iff the task it takes is not recorded |
| WorkerCycle.OneWorkerATask | +mrc/join_as_worker.m:76-117 | in every run in which no recorded task is retried, no two workers record the same task |
| WorkerCycle.RoundIsRun | +mrc/join_as_worker.m:72-118 | a worker's round, pop, report, release, clear, is such a run from every reachable state with an idle worker and a queued task |
| WorkerCycle.TwoWorkersRunOneTask | +mrc/join_as_worker.m:99-117 | a run from the empty database that leaves two workers inside the same task |
| WorkerCycle.CleanupPartitionIff | server.py:53-66 | the supervisor's cleanup keeps the lists disjoint iff the current task is ongoing or in no list |
| Worker.PerformTask | +mrc/join_as_worker.m:72-118 | an undisturbed round takes the head of the queue, leaves it in finished or failed and nowhere ongoing, clears the worker, and ends the waiting for it exactly under finish or continue |
| Supervisor.FailAllExact | server.py:230-236 | cleaning up after any list of busy workers fails exactly their tasks, in reverse order at the head of failed, and changes no other list, hash or worker |
| Supervisor.TasksOfOrder | server.py:106-109 | the tasks of workers listed once each end up backwards |
| Supervisor.CleanupIsRun | server.py:53-66 | such a cleanup is a run of crash steps and adds no release |
| Supervisor.CarefulIsBusy | server.py:230-236 | in a run without such retries any workers whose current tasks are ongoing can be cleaned up together |
| Supervisor.ChosenOrOthers | server.py:122-135 | the chosen workers are those at exactly the positions whose key is named, at all positions without keys, the others those at the rest, both in the order of the list |
| Supervisor.MarkedExactly | server.py:32-42 | exactly the workers of the list get the new mark, all others keep theirs |
| Supervisor.Server.RestartWorkers | server.py:122-126 | in any state the loop fails the current tasks of exactly the chosen workers, in order, and leaves them starting; the store stays valid if they were busy |
| Supervisor.Server.KillWorkers | server.py:127-136 | the same with dead; the others remain in their order |
| Supervisor.Server.Shutdown | server.py:106-110 | the same for all workers |
| Supervisor.Server.ReviveCrashed | server.py:230-236 | the same for the workers whose process is gone |
| Supervisor.Server.NewWorkers | server.py:137-142 | appends workers with the next keys of the counter |
| Supervisor.FreshNoDup | server.py:139-141 | such keys keep the list of workers duplicate-free |
| Supervisor.FreshExactly | server.py:138-141 | the n keys are the next n numbers of the counter, in order |
| Resp.DecimalRoundTrip | redis/connection.py:346-350 | reading a printed number gives the number; no leading zeros |
| Resp.PyIntExactly | redis/connection.py:346-356 | for any bytes, whether int() accepts them and the value: surrounding whitespace, one sign, digits with single underscores between them |
| Resp.ReadLineOf | redis/connection.py:246-263 | a text without LF followed by CRLF is read as one line, with what follows left |
| Resp.ReadLineIff | redis/connection.py:246-263 | a line is read iff the stream starts with it, it holds no LF and CRLF follows |
| Resp.RefusesIff | redis/connection.py:127-163 | which error lines are raised as connection errors, written out |
| Resp.ErrorReplies | redis/connection.py:330-341 | every other error line is returned |
| Resp.BulkReplies | redis/connection.py:349-353 | nil, empty, short, malformed and negative bulk replies |
| Resp.ArrayReplies | redis/connection.py:355-359 | nil, empty and malformed arrays; otherwise the items |
| Resp.ItemsInOrder | redis/connection.py:359 | items are parsed one after the other, and the first failure ends it |
| Resp.OtherReplies | redis/connection.py:326-347 | simple strings, integers, and the rejection of any other first byte |
| Resp.NoReply | redis/connection.py:320-322 | a stream that does not start with a non-empty line gives a closed connection |
| Resp.RoundTrip | redis/connection.py:319-362 | parsing the encoding of any value, nested as it may be, followed by any bytes gives its meaning and leaves exactly those bytes |
| Resp.RoundTripAll | redis/connection.py:355-359 | the same for the items of an array, in order |
| SocketBuffer.CompleteLine | redis/connection.py:246-254 | a complete first line of what is buffered is the first line of the whole stream |
| SocketBuffer.Buffer.constructor | redis/connection.py:167-175 | an empty buffer has the whole stream before it |
| SocketBuffer.Buffer.ReadFromSocket | redis/connection.py:181-205 | receives at least once and until the length is there; the unread stream is unchanged |
| SocketBuffer.Buffer.Read | redis/connection.py:229-244 | returns the bytes of the stream before the terminator and leaves the rest, purging included; fails iff the stream is too short; for any length what ReadResult says |
| SocketBuffer.Buffer.Readline | redis/connection.py:246-263 | returns the first line of the stream, wherever the reads cut it, and leaves the rest |
| SocketBuffer.Buffer.Purge | redis/connection.py:265-269 | empties the buffer and resets both counters |
| SocketBuffer.ReadSplitIndependentIff | redis/connection.py:229-244 | a read is independent of how the stream is cut iff the length is at least -2 |
| PythonParser.Parser.ReadResponse | redis/connection.py:319-362 | returns or raises what the grammar gives for the stream, and leaves the rest of the stream |
| PythonParser.Parser.ReadBulk | redis/connection.py:349-353 | the same for a bulk reply after its header |
| PythonParser.Parser.ReadItems | redis/connection.py:355-359 | the same for the items of an array |
| PythonParser.SplitIndependent | redis/connection.py:181-205 | two ways of cutting one stream give the same n replies, or the same failure, and the same bytes left |
| Packing.SplitWords | redis/connection.py:763-766 | splitting a command name gives exactly its maximal runs without whitespace: non-empty words, with only whitespace left out and some between any two |
| Packing.ExpandWords | redis/connection.py:763-766 | what goes out is the words of the name, or the bytes name itself when it holds no space, and then the arguments |
| Packing.AddArgumentJoin | redis/connection.py:771-785 | output and buffer grow by exactly the argument's bulk encoding, chunked or joined |
| Packing.ChunksJoin | redis/connection.py:755-787 | for any cutoff, arguments and views the chunks joined are the canonical encoding |
| Packing.Uncopied | redis/connection.py:772-781 | a large value or a view is a chunk of its own |
| Packing.ChunksBounded | redis/connection.py:772-785 | a joined chunk of a command has at most twice the cutoff and twice the longest length line |
| Packing.CanonicalBytes | redis/connection.py:768-785 | the bytes of a command, argument by argument |
| Packing.PackCommand | redis/connection.py:755-787 | followed by any bytes, the joined output is read back as exactly the words of the name and then the arguments, in order; the loop produces exactly the chunks described |
| Packing.PackChunk | redis/connection.py:798-809 | one turn of the inner loop appends the chunk to the grouping and keeps every group within its bound |
| Packing.PackChunks | redis/connection.py:797-809 | the inner loop appends exactly the command's chunks |
| Packing.PackCommands | redis/connection.py:789-813 | the output is a grouping of all chunks in order: a piece is the join of small chunks and at most twice the cutoff, or a single large chunk or view; followed by any bytes it is read back as the commands, each with its words and arguments |
| Packing.AllChunksJoin | redis/connection.py:796-797 | the chunks of all commands joined are their encodings one after the other |
| Packing.CommandReadsBack | redis/connection.py:755-787 | a RESP parser reads the command back as its arguments and stops at its end |
| Packing.CommandsReadBack | redis/connection.py:789-813 | it reads several commands back one after the other |
| PubSub.PubSubClient.constructor | redis/client.py:3559-3562 | nothing subscribed, nothing pending |
| PubSub.PubSubClient.SubscribeTo | redis/client.py:3700-3719 | sends, then enters the names and takes them off pending |
| PubSub.PubSubClient.PsubscribeTo | redis/client.py:3666-3685 | the same for patterns |
| PubSub.PubSubClient.UnsubscribeFrom | redis/client.py:3721-3732 | marks the names, all of them without arguments, none for an empty list, as pending and sends; a connection that is gone is remade in between |
| PubSub.PubSubClient.PunsubscribeFrom | redis/client.py:3687-3698 | the same for patterns |
| PubSub.PubSubClient.OnConnect | redis/client.py:3567-3583 | clears what is pending and subscribes again to everything in the tables, with the handlers kept |
| PubSub.PubSubClient.HandleMessage | redis/client.py:3761-3818 | an acknowledged unsubscription leaves the table only if it is pending; which handler a publication goes to |
| PubSub.InvKept | redis/client.py:3567-3583 | every step of client, server and connection keeps the two views in line |
| PubSub.Converges | redis/client.py:3666-3732 | in every run the tables less what is pending are the server's set after all sent commands; with nothing in flight nothing is pending and the tables are the server's set |
| PubSub.ReconnectingUnsubscribeIff | redis/client.py:3726-3732 | an unsubscription that reconnects, with or without arguments, keeps the views in line iff nothing it leaves was in the tables |
| PubSub.EmptyUnsubscribeIff | redis/client.py:3726-3732 | an unsubscription with an empty list of names keeps them in line iff there was nothing to leave |
| PubSub.StaleForever | redis/client.py:3791-3801 | such a name stays in the table under any deliveries although the server dropped it |
| Transaction.CollectErrors | redis/client.py:4028-4048 | the loop collects the locally answered and the rejected commands with their indices |
| Transaction.InsertErrors | redis/client.py:4064-4066 | the insertions in order |
| Transaction.RaiseFirstError | redis/client.py:4105-4109 | raises the first error of the response, or returns it |
| Transaction.ExecuteTransaction | redis/client.py:4023-4086 | for any replies: one result per accepted command gives the aligned response, any other number the count error, a rejected MULTI counting as the first result; what an aborted or watched EXEC raises |
| Transaction.InsertionsAlign | redis/client.py:4064-4066 | inserting at ascending original indices gives the merge of local and sent results, every index in range |
| Transaction.MergeAligned | redis/client.py:4040-4048 | the j-th entry of the merge is the j-th command's own local result, or the EXEC result with as many before it as sent commands before j |
| Transaction.AbsentAt | redis/client.py:4040-4048 | command j has its local answer, or the error in the reply with as many before it as commands were sent before it, or nothing until EXEC |
| Transaction.ErrorsCount | redis/client.py:4068-4071 | local and sent results together are as many as the commands |
| Lock.LockObject.DoAcquire | redis/lock.py:199-207 | one SET; success means nobody held the key and the token holds it now, with the timeout in whole milliseconds or none; otherwise the key is untouched |
| Lock.LockObject.Acquire | redis/lock.py:159-197 | success means the key holds the token; it gives up only on a live lock, when not blocking or when the next try would be past the deadline; every sleep it starts has the given length and ends by the deadline; it sends at most 1 + floor(timeout / sleep) SET commands |
| Lock.LockObject.Release | redis/lock.py:228-241 | it succeeds iff the key holds the object's token, and then the key is gone; otherwise nothing changes; the local token is gone either way |
| Lock.LockObject.Extend | redis/lock.py:243-276 | it succeeds iff the key holds the object's token and has an expiry; the new expiry in numbers, from now or from the old one |
| Lock.LockObject.Reacquire | redis/lock.py:278-295 | it succeeds iff the key holds the object's token; the new expiry in numbers |
| Lock.Truncates | redis/lock.py:202 | int(seconds * 1000) truncates toward zero |
| Lock.ReleaseScriptExactly | redis/lock.py:24-31 | the script deletes the key iff it holds the token |
| Lock.OneOwner | redis/lock.py:215-226 | in no run do two clients own the lock |
| Lock.OthersCannot | redis/lock.py:24-71 | while a client owns the lock no other client's call succeeds or changes the key |
| Lock.SharedTokenIff | redis/lock.py:24-71 | in any world another client's call succeeds iff it carries the owner's token |
| Lock.ExclusionFrom | redis/lock.py:24-71 | the same over any run, the owner's own extensions and reacquisitions included, as long as the key does not lapse and the owner does not release |
| Lock.Exclusion | redis/lock.py:159-207 | from a successful attempt until the key expires or is released, no other client succeeds, and key and expiry change only in the owner's own steps |
| Lock.LeaseLasts | redis/lock.py:199-207 | a lease its owner leaves alone does not lapse before its expiry and stays as it was set |
| Lock.ReleaseFrees | redis/lock.py:228-241 | after the release of its owner the next attempt with a positive timeout or none succeeds |
| Lock.ExpiryFrees | redis/lock.py:199-207 | once the expiry is reached nobody owns the lock, and the next attempt succeeds |
| Lock.OwnLease | redis/lock.py:39-71 | in numbers, the expiry after the owner's own extension or reacquisition |
| Pools.ConnectionPool.constructor | redis/connection.py:1043-1062 | an empty pool is balanced |
| Pools.ConnectionPool.GetConnection | redis/connection.py:1134-1181 | hands out a connection nobody holds, makes one only when none is idle, fails iff all are out and the maximum is made; a connection that is not ready goes back; keeps the books |
| Pools.ConnectionPool.Release | redis/connection.py:1183-1195 | back on top of the idle ones; keeps the books |
| Pools.ReleaseBalancedIff | redis/connection.py:1183-1195 | a release keeps the books iff the connection was in use |
| Pools.FilledQueue | redis/connection.py:1271-1278 | the queue starts with as many placeholders as connections are allowed |
| Pools.BlockingConnectionPool.constructor | redis/connection.py:1260-1282 | nothing made, nothing held, all slots free |
| Pools.BlockingConnectionPool.GetConnection | redis/connection.py:1301-1351 | slots and held connections add up to the maximum, placeholders stay below connections, so connections made are the peak held at once |
| Pools.BlockingConnectionPool.Release | redis/connection.py:1353-1372 | back on top of the queue, which is never full then |

## Left out

- Lock.LockObject.Acquire: the loop stops after `fuel` attempts; without a blocking timeout the original may go on for ever, so only the bound on attempts is total.
- PythonParser.SplitIndependent: replies with a bulk length below -2 are outside the claim, because what they read depends on what is buffered.
- Worker.PerformTask: nobody else acts during the round; interleavings are in the runs, where each part of the round is its own step.
- Supervisor.Server.ReviveCrashed: which processes run is an input that does not change during the loop.
- Transaction.ExecuteTransaction: the annotation of exceptions and the response callbacks are not modelled.
- The clock of the lock moves in the two calls that read or sleep; no time passes between reading it and starting to sleep.
- Reachable runs read a status and commit it in one step, and the supervisor acts on ongoing tasks only; both restrictions are stated above with the exact condition for one step.
- Which worker process executes a task, its exit when the database is replaced (`db_timetag`), and worker status flags beyond the server's own marks, the `force` flag included.
- Task text, log and error fields, time stamps, durations and the `str` field; `get_tasks.lua` and `wait.m`.
- The server's start-up, `restart_server`, installation as a service, and the check for a second server.
- Sockets, SSL, process creation and termination, real clocks, read timeouts and non-blocking reads.
- The MATLAB user interface, plots, configuration files, and the MATLAB reader of Redis replies.
- One-line command wrappers and reply callbacks of the client; `HiredisParser`; URLs, authentication, health checks; Sentinel; `BitFieldOperation`.
- Decoding of replies to text, Python's limits on recursion and on digits of a number, bytes that are not valid UTF-8 in error lines.
- Encoding of arguments to bytes before packing, and the rejection of other types.
- A pub/sub object's `reset`, its thread, and the empty acknowledgement of an unsubscription when nothing is subscribed.
- Forks in the pools and exceptions while a connection object is made.
- The wording of exceptions, and reasons for EXEC errors other than an abort.
