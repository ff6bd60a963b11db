/** The Redis list commands used by the scheduler, on `seq` with the head at index 0. */
module RedisLists {

  lemma Assoc(a: seq<nat>, b: seq<nat>, c: seq<nat>)
    ensures a + b + c == a + (b + c)
  {
  }

  /** LREM key 0 x: every occurrence of x goes, the rest keep their order. */
  function Remove(l: seq<nat>, x: nat): (r: seq<nat>)
    ensures |r| <= |l|
  {
    if l == [] then []
    else if l[0] == x then Remove(l[1..], x)
    else [l[0]] + Remove(l[1..], x)
  }

  lemma {:induction false} RemoveMembers(l: seq<nat>, x: nat)
    ensures forall y :: y in Remove(l, x) <==> y in l && y != x
    ensures x !in l ==> Remove(l, x) == l
  {
    if l != [] {
      RemoveMembers(l[1..], x);
      assert l == [l[0]] + l[1..];
      assert forall y :: y in l <==> y == l[0] || y in l[1..];
    }
  }

  /** r is what l has at the positions `at`, in the order of l. */
  ghost predicate Picks(l: seq<nat>, at: seq<nat>, r: seq<nat>) {
    && |at| == |r|
    && (forall i, j :: 0 <= i < j < |at| ==> at[i] < at[j])
    && (forall i :: 0 <= i < |at| ==> at[i] < |l| && r[i] == l[at[i]])
  }

  function Shift(at: seq<nat>): (r: seq<nat>)
    ensures |r| == |at| && forall i :: 0 <= i < |at| ==> r[i] == at[i] + 1
  {
    seq(|at|, i requires 0 <= i < |at| => at[i] + 1)
  }

  lemma PicksSkip(l: seq<nat>, at: seq<nat>, r: seq<nat>)
    requires l != [] && Picks(l[1..], at, r)
    ensures Picks(l, Shift(at), r)
    ensures forall k :: k in Shift(at) <==> k >= 1 && k - 1 in at
  {
    forall k | k >= 1 && k - 1 in at ensures k in Shift(at) {
      var i :| 0 <= i < |at| && at[i] == k - 1;
      assert Shift(at)[i] == k;
    }
  }

  lemma PicksKeep(l: seq<nat>, at: seq<nat>, r: seq<nat>)
    requires l != [] && Picks(l[1..], at, r)
    ensures Picks(l, [0] + Shift(at), [l[0]] + r)
    ensures forall k :: k in [0] + Shift(at) <==> k == 0 || (k >= 1 && k - 1 in at)
  {
    PicksSkip(l, at, r);
  }

  /** LREM keeps exactly the positions that do not hold x, in their order. */
  lemma {:induction false} RemoveOrder(l: seq<nat>, x: nat) returns (at: seq<nat>)
    ensures Picks(l, at, Remove(l, x))
    ensures forall k :: 0 <= k < |l| ==> (k in at <==> l[k] != x)
  {
    if l == [] {
      at := [];
    } else {
      var later := RemoveOrder(l[1..], x);
      if l[0] == x {
        PicksSkip(l, later, Remove(l[1..], x));
        at := Shift(later);
      } else {
        PicksKeep(l, later, Remove(l[1..], x));
        at := [0] + Shift(later);
      }
    }
  }

  ghost predicate NoDup(l: seq<nat>) {
    forall i, j :: 0 <= i < j < |l| ==> l[i] != l[j]
  }

  /** On a duplicate-free list LREM takes out one element at most, and reports it. */
  lemma {:induction false} RemoveNoDup(l: seq<nat>, x: nat)
    requires NoDup(l)
    ensures NoDup(Remove(l, x))
    ensures |l| - |Remove(l, x)| == if x in l then 1 else 0
  {
    if l != [] {
      var tail := l[1..];
      assert NoDup(tail);
      RemoveNoDup(tail, x);
      RemoveMembers(tail, x);
      if l[0] == x {
        assert x !in tail;
      } else {
        assert l[0] !in tail;
        assert Remove(l, x) == [l[0]] + Remove(tail, x);
      }
    }
  }

  lemma NoDupPush(l: seq<nat>, x: nat)
    requires NoDup(l) && x !in l
    ensures NoDup([x] + l) && NoDup(l + [x])
  {
  }

  lemma NoDupTail(l: seq<nat>)
    requires NoDup(l) && l != []
    ensures NoDup(l[1..]) && l[0] !in l[1..]
    ensures forall y :: y in l <==> y == l[0] || y in l[1..]
  {
    assert l == [l[0]] + l[1..];
  }

  lemma NoMembers(l: seq<nat>)
    ensures l == [] || exists x :: x in l
  {
    if l != [] { assert l[0] in l; }
  }

  function Elems(l: seq<nat>): set<nat> { set y | y in l }

  /** The elements of l outside `gone`, in their order. */
  function Without(l: seq<nat>, gone: set<nat>): (r: seq<nat>)
    ensures |r| <= |l|
  {
    if l == [] then []
    else if l[0] in gone then Without(l[1..], gone)
    else [l[0]] + Without(l[1..], gone)
  }

  lemma {:induction false} WithoutOrder(l: seq<nat>, gone: set<nat>) returns (at: seq<nat>)
    ensures Picks(l, at, Without(l, gone))
    ensures forall k :: 0 <= k < |l| ==> (k in at <==> l[k] !in gone)
  {
    if l == [] {
      at := [];
    } else {
      var later := WithoutOrder(l[1..], gone);
      if l[0] in gone {
        PicksSkip(l, later, Without(l[1..], gone));
        at := Shift(later);
      } else {
        PicksKeep(l, later, Without(l[1..], gone));
        at := [0] + Shift(later);
      }
    }
  }

  lemma {:induction false} WithoutMembers(l: seq<nat>, gone: set<nat>)
    ensures forall y :: y in Without(l, gone) <==> y in l && y !in gone
  {
    if l != [] {
      WithoutMembers(l[1..], gone);
      assert forall y :: y in l <==> y == l[0] || y in l[1..];
    }
  }

  lemma {:induction false} WithoutNone(l: seq<nat>)
    ensures Without(l, {}) == l
  {
    if l != [] {
      WithoutNone(l[1..]);
    }
  }

  lemma {:induction false} RemoveWithout(l: seq<nat>, gone: set<nat>, x: nat)
    ensures Remove(Without(l, gone), x) == Without(l, gone + {x})
  {
    if l != [] {
      RemoveWithout(l[1..], gone, x);
      if l[0] !in gone {
        assert Without(l, gone)[1..] == Without(l[1..], gone);
      }
    }
  }

  lemma {:induction false} WithoutLength(l: seq<nat>, r: seq<nat>)
    requires NoDup(l) && NoDup(r)
    requires forall y :: y in r ==> y in l
    ensures |Without(l, Elems(r))| == |l| - |r|
    decreases |r|
  {
    if r == [] {
      assert Elems(r) == {};
      WithoutNone(l);
    } else {
      var x, rest := r[0], r[1..];
      NoDupTail(r);
      WithoutLength(l, rest);
      RemoveWithout(l, Elems(rest), x);
      assert Elems(rest) + {x} == Elems(r);
      WithoutNoDup(l, Elems(rest));
      WithoutMembers(l, Elems(rest));
      RemoveNoDup(Without(l, Elems(rest)), x);
    }
  }

  lemma {:induction false} WithoutNoDup(l: seq<nat>, gone: set<nat>)
    requires NoDup(l)
    ensures NoDup(Without(l, gone))
  {
    if l != [] {
      NoDupTail(l);
      WithoutNoDup(l[1..], gone);
      WithoutMembers(l[1..], gone);
    }
  }

  ghost predicate Ascending(l: seq<nat>) {
    forall i, j :: 0 <= i < j < |l| ==> l[i] < l[j]
  }

  ghost predicate NonIncreasing(l: seq<nat>) {
    forall i, j :: 0 <= i < j < |l| ==> l[i] >= l[j]
  }
}
