/** What every atomic step keeps of the keyspace. */
module TaskInvariants {
  import opened RedisLists
  import opened TaskModel
  import opened TaskScripts

  /** Nobody waits for nothing; the hash fields agree on what a task went through. */
  ghost predicate Coherent(s: Store) {
    && (forall t :: InList(s, PrePending, t) ==> s.L(Dependencies(t)) != [])
    && (forall t :: t in s.tasks && s.tasks[t].started ==> s.tasks[t].status != PrePending)
    && (forall t :: t in s.tasks && !s.tasks[t].started ==>
          s.tasks[t].status == PrePending || s.tasks[t].status == Pending)
    && (forall t :: t in s.tasks && s.tasks[t].status == Ongoing ==> InList(s, Ongoing, t))
    && (forall w :: w in s.current ==> s.current[w] in s.tasks)
  }

  ghost predicate Valid(s: Store) { Partition(s) && Wired(s) && Coherent(s) }

  // ---- effects of the short steps, list by list ----

  ghost predicate Moved(s: Store, t: TaskId, seen: Status, target: Status, s': Store) {
    var rest := Remove(s.L(Tasks(seen)), t);
    && s'.count == s.count && s'.current == s.current
    && s'.L(Tasks(target)) == [t] + (if seen == target then rest else s.L(Tasks(target)))
    && (seen != target ==> s'.L(Tasks(seen)) == rest)
    && (forall k :: k != Tasks(seen) && k != Tasks(target) ==> s'.L(k) == s.L(k))
    && t in s.tasks && s'.tasks == s.tasks[t := s.tasks[t].(status := target)]
  }

  lemma MoveEffect(s: Store, t: TaskId, seen: Status, target: Status)
    requires t in s.tasks
    ensures Moved(s, t, seen, target, Move(s, t, seen, target))
  {
  }

  lemma MovedLists(s: Store, t: TaskId, seen: Status, target: Status, s': Store)
    requires Moved(s, t, seen, target, s')
    ensures forall st, x :: InList(s', st, x) <==>
      if x == t then st == target || (st != seen && InList(s, st, t)) else InList(s, st, x)
  {
    RemoveMembers(s.L(Tasks(seen)), t);
    forall st, x ensures InList(s', st, x) <==>
      if x == t then st == target || (st != seen && InList(s, st, t)) else InList(s, st, x)
    {
      if st == target {
        var tail := if seen == target then Remove(s.L(Tasks(seen)), t) else s.L(Tasks(target));
        assert x in [t] + tail <==> x == t || x in tail;
      }
    }
  }

  ghost predicate Dropped(s: Store, st: Status, l: seq<TaskId>, s': Store) {
    && s'.count == s.count && s'.current == s.current && s'.tasks == s.tasks
    && s'.L(Tasks(st)) == l
    && (forall k :: k != Tasks(st) ==> s'.L(k) == s.L(k))
  }

  ghost predicate Popped(s: Store, w: WorkerId, s': Store) {
    var queue := s.L(Tasks(Pending));
    && queue != [] && queue[0] in s.tasks
    && (var t := queue[0];
        && s'.count == s.count && s'.current == s.current[w := t]
        && s'.L(Tasks(Pending)) == queue[1..]
        && s'.L(Tasks(Ongoing)) == s.L(Tasks(Ongoing)) + [t]
        && (forall k :: k != Tasks(Pending) && k != Tasks(Ongoing) ==> s'.L(k) == s.L(k))
        && s'.tasks == s.tasks[t := s.tasks[t].(status := Ongoing, started := true, worker := Some(w))])
  }

  lemma PopEffect(s: Store, w: WorkerId)
    requires Partition(s)
    ensures s.L(Tasks(Pending)) == [] ==> Pop(s, w) == s
    ensures s.L(Tasks(Pending)) != [] ==> Popped(s, w, Pop(s, w))
  {
    if s.L(Tasks(Pending)) != [] {
      assert InList(s, Pending, s.L(Tasks(Pending))[0]);
    }
  }

  lemma PoppedLists(s: Store, w: WorkerId, s': Store)
    requires Partition(s) && Popped(s, w, s')
    ensures var t := s.L(Tasks(Pending))[0];
      && InList(s, Pending, t)
      && (forall st, x :: InList(s', st, x) <==> if x == t then st == Ongoing else InList(s, st, x))
  {
    var queue := s.L(Tasks(Pending));
    var t := queue[0];
    assert InList(s, Pending, t);
    NoDupTail(queue);
    forall st, x ensures InList(s', st, x) <==> if x == t then st == Ongoing else InList(s, st, x) {
      var l := s.L(Tasks(st));
      assert x in l + [t] <==> x in l || x == t;
      assert x in l <==> InList(s, st, x);
      assert x in s'.L(Tasks(st)) <==> InList(s', st, x);
    }
  }

  // ---- the partition ----

  /** t is in no list but possibly the one its hash named when it was read. */
  ghost predicate OnlyIn(s: Store, t: TaskId, seen: Status) {
    forall st :: InList(s, st, t) ==> st == seen
  }

  lemma MovedPartition(s: Store, t: TaskId, seen: Status, target: Status, s': Store)
    requires Partition(s) && Moved(s, t, seen, target, s')
    requires OnlyIn(s, t, seen)
    ensures Partition(s')
  {
    MovedLists(s, t, seen, target, s');
    RemoveNoDup(s.L(Tasks(seen)), t);
    RemoveMembers(s.L(Tasks(seen)), t);
    var tail := if seen == target then Remove(s.L(Tasks(seen)), t) else s.L(Tasks(target));
    assert t !in tail by {
      if seen != target { assert InList(s, target, t) <==> t in tail; }
    }
    NoDupPush(tail, t);
    forall st ensures NoDup(s'.L(Tasks(st))) {
      if st != seen && st != target { assert s'.L(Tasks(st)) == s.L(Tasks(st)); }
    }
    forall st, x | InList(s', st, x) ensures x in s'.tasks && s'.tasks[x].status == st {
      if x != t { assert InList(s, st, x); }
    }
  }

  lemma MovedNoPartition(s: Store, t: TaskId, seen: Status, target: Status, s': Store)
    requires Partition(s) && Moved(s, t, seen, target, s')
    requires !OnlyIn(s, t, seen)
    ensures !Partition(s')
  {
    MovedLists(s, t, seen, target, s');
    var st :| InList(s, st, t) && st != seen;
    if st == target {
      var old_ := s.L(Tasks(target));
      var i :| 0 <= i < |old_| && old_[i] == t;
      assert s'.L(Tasks(target)) == [t] + old_;
      assert s'.L(Tasks(target))[0] == s'.L(Tasks(target))[i + 1];
    } else {
      assert InList(s', st, t);
    }
  }

  /** A commit keeps the partition iff the status it read is still the current one,
      or the task sits in no list at all (it was deleted). */
  lemma MovePartitionIff(s: Store, t: TaskId, seen: Status, target: Status)
    requires Partition(s) && t in s.tasks
    ensures Partition(Move(s, t, seen, target)) <==>
      seen == s.tasks[t].status || !InList(s, s.tasks[t].status, t)
  {
    MoveEffect(s, t, seen, target);
    var now := s.tasks[t].status;
    assert forall st :: InList(s, st, t) ==> st == now;
    if OnlyIn(s, t, seen) {
      MovedPartition(s, t, seen, target, Move(s, t, seen, target));
    } else {
      MovedNoPartition(s, t, seen, target, Move(s, t, seen, target));
    }
  }

  lemma PoppedPartition(s: Store, w: WorkerId, s': Store)
    requires Partition(s) && Popped(s, w, s')
    ensures Partition(s')
  {
    PoppedLists(s, w, s');
    var queue := s.L(Tasks(Pending));
    NoDupTail(queue);
    assert !InList(s, Ongoing, queue[0]);
    NoDupPush(s.L(Tasks(Ongoing)), queue[0]);
    forall st ensures NoDup(s'.L(Tasks(st))) {
      if st != Pending && st != Ongoing { assert s'.L(Tasks(st)) == s.L(Tasks(st)); }
    }
    forall st, x | InList(s', st, x) ensures x in s'.tasks && s'.tasks[x].status == st {
      if x != queue[0] { assert InList(s, st, x); }
    }
  }

  lemma DroppedPartition(s: Store, st: Status, l: seq<TaskId>, s': Store)
    requires Partition(s) && Dropped(s, st, l, s')
    requires NoDup(l) && forall x :: x in l ==> x in s.L(Tasks(st))
    ensures Partition(s')
  {
    forall z ensures NoDup(s'.L(Tasks(z))) {
      if z != st { assert s'.L(Tasks(z)) == s.L(Tasks(z)); }
    }
    forall z, x | InList(s', z, x) ensures InList(s, z, x) {
    }
  }

  lemma SubmittedLists(s: Store, ds: seq<TaskId>, policy: Policy, s': Store)
    requires Partition(s) && Submitted(s, ds, policy, s')
    ensures forall st, x :: InList(s', st, x) <==>
      if x == s.count + 1 then st == s'.tasks[x].status else InList(s, st, x)
  {
    var n := s.count + 1;
    forall st, x ensures InList(s', st, x) <==> if x == n then st == s'.tasks[x].status else InList(s, st, x) {
      var l := s.L(Tasks(st));
      assert x in l + [n] <==> x in l || x == n;
      assert x in [n] + l <==> x in l || x == n;
      if x == n { assert !InList(s, st, n); }
      assert x in s'.L(Tasks(st)) <==> InList(s', st, x);
      assert x in l <==> InList(s, st, x);
    }
  }

  lemma SubmittedPartition(s: Store, ds: seq<TaskId>, policy: Policy, s': Store)
    requires Partition(s) && Submitted(s, ds, policy, s')
    ensures Partition(s')
  {
    SubmittedLists(s, ds, policy, s');
    var n := s.count + 1;
    forall st ensures NoDup(s'.L(Tasks(st))) {
      var l := s.L(Tasks(st));
      assert !InList(s, st, n);
      NoDupPush(l, n);
    }
    forall st, x | InList(s', st, x) ensures x in s'.tasks && s'.tasks[x].status == st {
      if x != n { assert InList(s, st, x); }
    }
  }

  lemma ReleasedLists(s: Store, d: TaskId, touched: set<TaskId>, freed: seq<TaskId>, s': Store)
    requires Partition(s) && ReleaseResult(s, d, touched, freed, Elems(freed), s')
    requires forall t :: t in freed ==> InList(s, PrePending, t)
    ensures forall st, x :: InList(s', st, x) <==> if x in freed then st == Pending else InList(s, st, x)
  {
    WithoutMembers(s.L(Tasks(PrePending)), Elems(freed));
    forall st, x ensures InList(s', st, x) <==> if x in freed then st == Pending else InList(s, st, x) {
      var l := s.L(Tasks(st));
      assert x in freed + l <==> x in freed || x in l;
      if x in freed { assert InList(s, PrePending, x); assert InList(s, st, x) ==> st == PrePending; }
      assert x in l <==> InList(s, st, x);
      assert x in s'.L(Tasks(st)) <==> InList(s', st, x);
    }
  }

  lemma ReleasedPartition(s: Store, d: TaskId, touched: set<TaskId>, freed: seq<TaskId>, s': Store)
    requires Partition(s) && ReleaseResult(s, d, touched, freed, Elems(freed), s')
    requires NoDup(freed) && forall t :: t in freed ==> InList(s, PrePending, t)
    ensures Partition(s')
  {
    ReleasedLists(s, d, touched, freed, s');
    WithoutNoDup(s.L(Tasks(PrePending)), Elems(freed));
    var pending := s.L(Tasks(Pending));
    forall x | x in freed ensures x !in pending {
      assert InList(s, PrePending, x);
      assert x in pending <==> InList(s, Pending, x);
    }
    NoDupConcat(freed, pending);
    forall st ensures NoDup(s'.L(Tasks(st))) {
      if st != Pending && st != PrePending { assert s'.L(Tasks(st)) == s.L(Tasks(st)); }
    }
    forall st, x | InList(s', st, x) ensures x in s'.tasks && s'.tasks[x].status == st {
      if x !in freed { assert InList(s, st, x); }
    }
  }

  lemma NoDupConcat(a: seq<nat>, b: seq<nat>)
    requires NoDup(a) && NoDup(b) && forall x :: x in a ==> x !in b
    ensures NoDup(a + b)
  {
    forall i, j | 0 <= i < j < |a + b| ensures (a + b)[i] != (a + b)[j] {
      if i < |a| <= j { assert a[i] in a && b[j - |a|] in b; }
    }
  }

  // ---- wiring and coherence ----

  ghost predicate SameWaiting(s: Store, s': Store) {
    && (forall t :: s'.L(Dependencies(t)) == s.L(Dependencies(t)))
    && (forall d :: s'.L(PriorTo(d)) == s.L(PriorTo(d)))
    && s'.tasks.Keys == s.tasks.Keys
  }

  lemma SameWaitingWired(s: Store, s': Store)
    requires Wired(s) && SameWaiting(s, s')
    ensures Wired(s')
    ensures forall t, d :: Waits(s', t, d) <==> Waits(s, t, d)
  {
    forall t, d ensures Waits(s', t, d) <==> Waits(s, t, d) { }
    forall t, d ensures Notifies(s', d, t) <==> Notifies(s, d, t) { }
  }

  /** Retry, finish and fail: the commit of a status that was read before. */
  lemma MovedValid(s: Store, t: TaskId, target: Status, s': Store)
    requires Valid(s) && t in s.tasks && Moved(s, t, s.tasks[t].status, target, s')
    requires if target == Pending then s.tasks[t].status != Pending && s.tasks[t].status != Ongoing
             else (target == Finished || target == Failed) && s.tasks[t].started
    ensures Valid(s')
  {
    var seen := s.tasks[t].status;
    MovedPartition(s, t, seen, target, s');
    SameWaitingWired(s, s');
    MovedLists(s, t, seen, target, s');
    forall x | InList(s', PrePending, x) ensures s'.L(Dependencies(x)) != [] {
      assert InList(s, PrePending, x);
    }
    forall x | x in s'.tasks && s'.tasks[x].status == Ongoing ensures InList(s', Ongoing, x) {
      assert x != t && s.tasks[x].status == Ongoing;
      assert InList(s, Ongoing, x);
    }
  }

  lemma PoppedValid(s: Store, w: WorkerId, s': Store)
    requires Valid(s) && Popped(s, w, s')
    ensures Valid(s')
  {
    PoppedPartition(s, w, s');
    SameWaitingWired(s, s');
    PoppedLists(s, w, s');
    forall x | InList(s', PrePending, x) ensures s'.L(Dependencies(x)) != [] {
      assert InList(s, PrePending, x);
    }
    forall x | x in s'.tasks && s'.tasks[x].status == Ongoing ensures InList(s', Ongoing, x) {
      if x != s.L(Tasks(Pending))[0] { assert InList(s, Ongoing, x); }
    }
  }

  lemma DroppedValid(s: Store, st: Status, l: seq<TaskId>, s': Store)
    requires Valid(s) && Dropped(s, st, l, s') && st != Ongoing
    requires NoDup(l) && forall x :: x in l ==> x in s.L(Tasks(st))
    ensures Valid(s')
  {
    DroppedPartition(s, st, l, s');
    SameWaitingWired(s, s');
    forall x | InList(s', PrePending, x) ensures s'.L(Dependencies(x)) != [] {
      assert InList(s, PrePending, x);
    }
    forall x | x in s'.tasks && s'.tasks[x].status == Ongoing ensures InList(s', Ongoing, x) {
      assert InList(s, Ongoing, x);
    }
  }

  lemma SubmittedValid(s: Store, ds: seq<TaskId>, policy: Policy, s': Store)
    requires Valid(s) && Submitted(s, ds, policy, s')
    ensures Valid(s')
  {
    SubmittedPartition(s, ds, policy, s');
    SubmittedLists(s, ds, policy, s');
    AddWiring(s, ds, policy, s');
    var n := s.count + 1;
    forall x | InList(s', PrePending, x) ensures s'.L(Dependencies(x)) != [] {
      if x != n { assert InList(s, PrePending, x); }
    }
    forall x | x in s'.tasks && s'.tasks[x].status == Ongoing ensures InList(s', Ongoing, x) {
      assert x != n;
      assert InList(s, Ongoing, x);
    }
    assert Wired(s');
  }

  /** Workers forgetting their current task. */
  lemma ForgetValid(s: Store, s': Store)
    requires Valid(s) && s' == s.(current := s'.current)
    requires forall w :: w in s'.current ==> w in s.current && s'.current[w] == s.current[w]
    ensures Valid(s')
  {
    assert forall k :: s'.L(k) == s.L(k);
    assert forall st, t :: InList(s', st, t) <==> InList(s, st, t);
    SameWaitingWired(s, s');
  }

  /** s' is s after the release script ran for d and freed `freed`. */
  ghost predicate Released(s: Store, d: TaskId, freed: seq<TaskId>, s': Store) {
    && ReleaseResult(s, d, Elems(s.L(PriorTo(d))), freed, Elems(freed), s')
    && NoDup(freed) && Ascending(freed)
    && (forall t :: t in freed <==> InList(s, PrePending, t) && Notifies(s, d, t) && s'.L(Dependencies(t)) == [])
    && (forall t, e :: Waits(s', t, e) <==> e != d && Waits(s, t, e))
  }

  lemma ReleasedValid(s: Store, d: TaskId, freed: seq<TaskId>, s': Store)
    requires Valid(s) && Released(s, d, freed, s')
    ensures Valid(s')
  {
    ReleasedPartition(s, d, Elems(s.L(PriorTo(d))), freed, s');
    ReleasedLists(s, d, Elems(s.L(PriorTo(d))), freed, s');
    forall e, t ensures Notifies(s', e, t) <==> Notifies(s, e, t) { }
    forall x | InList(s', PrePending, x) ensures s'.L(Dependencies(x)) != [] {
      assert x !in freed && InList(s, PrePending, x);
      assert Notifies(s, d, x) <==> x in Elems(s.L(PriorTo(d)));
    }
    forall x | x in s'.tasks && s'.tasks[x].status == Ongoing ensures InList(s', Ongoing, x) {
      assert InList(s, Ongoing, x);
    }
    forall x | x in freed ensures x in s.tasks && !s.tasks[x].started {
      assert InList(s, PrePending, x);
    }
    forall x | x in s'.tasks ensures s'.tasks[x].started == s.tasks[x].started {
    }
  }
}
