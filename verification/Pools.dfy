/** The two connection pools within one process: who holds which connection, and how
    many were ever made. */
module Pools {
  type Conn = nat

  datatype Option<+T> = None | Some(value: T)
  datatype Got = Got(conn: Conn) | TooMany | NotReady

  ghost predicate Distinct(l: seq<Conn>) { forall i, j :: 0 <= i < j < |l| ==> l[i] != l[j] }

  /** What the pool's books say: the idle stack and the connections handed out are
      disjoint, each connection is there once, and `created` counts them all. */
  ghost predicate Balanced(available: seq<Conn>, inUse: set<Conn>, created: int, max: nat) {
    && Distinct(available)
    && (forall c :: c in available ==> c !in inUse)
    && created == |available| + |inUse|
    && created <= max
  }

  class ConnectionPool {
    const maxConnections: nat
    var createdConnections: int
    var availableConnections: seq<Conn>
    var inUseConnections: set<Conn>
    var nextId: Conn             // stands for object identity: ids below it were made

    ghost predicate Valid()
      reads this
    {
      && Balanced(availableConnections, inUseConnections, createdConnections, maxConnections)
      && (forall c :: c in availableConnections || c in inUseConnections ==> c < nextId)
    }

    constructor (max: nat)
      ensures Valid() && maxConnections == max && createdConnections == 0
      ensures availableConnections == [] && inUseConnections == {}
    {
      maxConnections := max;
      createdConnections, availableConnections, inUseConnections, nextId := 0, [], {}, 0;
    }

    /** `ready` tells whether connecting and the readiness check went well; if not, the
        connection goes back to the pool and the exception goes on. */
    method GetConnection(ready: bool) returns (got: Got)
      requires Valid()
      modifies this
      ensures Valid()
      ensures got.TooMany? <==> old(availableConnections == [] && createdConnections >= maxConnections)
      ensures got.TooMany? ==> inUseConnections == old(inUseConnections) && availableConnections == old(availableConnections)
      ensures got.Got? ==> ready && got.conn !in old(inUseConnections)
      ensures got.Got? ==> inUseConnections == old(inUseConnections) + {got.conn}
      ensures got.NotReady? ==> !ready && inUseConnections == old(inUseConnections)
      ensures got.NotReady? ==>
        if old(availableConnections) != []
        then availableConnections == old(availableConnections) && createdConnections == old(createdConnections)
        else availableConnections == [old(nextId)] && createdConnections == old(createdConnections) + 1
      ensures got.Got? && old(availableConnections) != [] ==>
        old(availableConnections) == availableConnections + [got.conn] && createdConnections == old(createdConnections)
      ensures got.Got? && old(availableConnections) == [] ==>
        availableConnections == [] && createdConnections == old(createdConnections) + 1 && got.conn == old(nextId)
      ensures createdConnections >= old(createdConnections)
    {
      var connection;
      if availableConnections != [] {
        connection := availableConnections[|availableConnections| - 1];
        assert connection in availableConnections;
        assert forall c :: c in availableConnections[..|availableConnections| - 1] ==> c in availableConnections;
        availableConnections := availableConnections[..|availableConnections| - 1];
      } else {
        if createdConnections >= maxConnections {
          return TooMany;
        }
        createdConnections := createdConnections + 1;
        connection := nextId;
        nextId := nextId + 1;
      }
      inUseConnections := inUseConnections + {connection};
      if !ready {
        Release(connection);
        return NotReady;
      }
      got := Got(connection);
    }

    /** For a connection that the caller got from this pool. */
    method Release(connection: Conn)
      requires Valid() && connection in inUseConnections
      modifies this`availableConnections, this`inUseConnections
      ensures Valid()
      ensures inUseConnections == old(inUseConnections) - {connection}
      ensures availableConnections == old(availableConnections) + [connection]
    {
      inUseConnections := inUseConnections - {connection};
      availableConnections := availableConnections + [connection];
    }
  }

  /** The code appends the released connection to the idle ones whoever holds it. This
      keeps the books iff the connection was in use: a second release, or one of a
      connection of another pool, breaks them. */
  lemma ReleaseBalancedIff(available: seq<Conn>, inUse: set<Conn>, created: int, max: nat, c: Conn)
    requires Balanced(available, inUse, created, max)
    ensures Balanced(available + [c], inUse - {c}, created, max) <==> c in inUse
  {
  }

  // ---- the blocking pool ----

  /** The queue is a stack; the placeholders lie below every real connection. */
  ghost predicate Stacked(queue: seq<Option<Conn>>, k: nat) {
    && k <= |queue|
    && (forall i :: 0 <= i < k ==> queue[i] == None)
    && (forall i :: k <= i < |queue| ==> queue[i].Some?)
  }

  /** LifoQueue.put_nowait(None) in a loop until Full. */
  method FilledQueue(max: nat) returns (queue: seq<Option<Conn>>)
    ensures |queue| == max && Stacked(queue, max)
  {
    queue := [];
    while |queue| < max
      invariant |queue| <= max && Stacked(queue, |queue|)
    {
      queue := queue + [None];
    }
  }

  class BlockingConnectionPool {
    const maxConnections: nat
    var pool: seq<Option<Conn>>       // LifoQueue, top at the end
    var connections: seq<Conn>        // every connection made
    ghost var held: set<Conn>         // handed out and not released
    ghost var peak: nat               // the most ever held at once
    ghost var empty: nat              // placeholders in the queue

    ghost predicate Valid()
      reads this
    {
      && Stacked(pool, empty)
      && |pool| + |held| == maxConnections
      && |connections| == |pool| - empty + |held| == peak
      && |held| <= peak
      && (forall i, j :: empty <= i < j < |pool| ==> pool[i] != pool[j])
      && (forall i :: empty <= i < |pool| ==> pool[i].value !in held && pool[i].value < |connections|)
      && (forall c :: c in held ==> c < |connections|)
      && (forall i :: 0 <= i < |connections| ==> connections[i] == i)   // identities in order of creation
    }

    constructor (max: nat)
      ensures Valid() && maxConnections == max && held == {} && peak == 0
      ensures |pool| == max
    {
      var queue := FilledQueue(max);
      maxConnections := max;
      pool := queue;
      connections, held, peak, empty := [], {}, 0, max;
    }

    /** An empty queue is the timed-out wait. A connection counts as held from the moment
        it is taken. */
    method GetConnection(ready: bool) returns (got: Got)
      requires Valid()
      modifies this
      ensures Valid()
      ensures got.TooMany? <==> old(|held|) == maxConnections
      ensures got.TooMany? ==> held == old(held) && pool == old(pool)
      ensures got.Got? ==> ready && got.conn !in old(held) && held == old(held) + {got.conn}
      ensures got.Got? ==> pool == old(pool)[..|old(pool)| - 1]
      ensures got.NotReady? ==> !ready && held == old(held)
      ensures got.NotReady? ==> pool == old(pool)[..|old(pool)| - 1] + [pool[|pool| - 1]] && pool[|pool| - 1].Some?
      ensures !got.TooMany? && old(pool)[|old(pool)| - 1].Some? ==> connections == old(connections)
      ensures got.Got? && old(pool)[|old(pool)| - 1].Some? ==> Some(got.conn) == old(pool)[|old(pool)| - 1]
      ensures got.NotReady? && old(pool)[|old(pool)| - 1].Some? ==> pool == old(pool)
      ensures peak == if !got.TooMany? && old(|held|) + 1 > old(peak) then old(|held|) + 1 else old(peak)
      ensures |connections| == peak
    {
      if pool == [] {
        return TooMany;
      }
      var connection := Take();
      if !ready {
        Release(connection);
        return NotReady;
      }
      got := Got(connection);
    }

    /** The top of the queue, or for a placeholder there a connection made now. */
    method Take() returns (connection: Conn)
      requires Valid() && pool != []
      modifies this
      ensures Valid() && |pool| < maxConnections
      ensures connection !in old(held) && held == old(held) + {connection}
      ensures pool == old(pool)[..|old(pool)| - 1]
      ensures if old(pool)[|old(pool)| - 1].Some?
        then Some(connection) == old(pool)[|old(pool)| - 1] && connections == old(connections)
        else connection == |old(connections)| && connections == old(connections) + [connection]
      ensures peak == if old(|held|) + 1 > old(peak) then old(|held|) + 1 else old(peak)
    {
      var top := pool[|pool| - 1];
      if top == None {
        connection := |connections|;
        connections := connections + [connection];
        empty := empty - 1;
        peak := peak + 1;
      } else {
        connection := top.value;
      }
      pool := pool[..|pool| - 1];
      held := held + {connection};
    }

    /** For a connection that the caller got from this pool; the queue cannot be full. */
    method Release(connection: Conn)
      requires Valid() && connection in held
      modifies this`pool, this`held
      ensures Valid()
      ensures held == old(held) - {connection} && pool == old(pool) + [Some(connection)]
    {
      if |pool| < maxConnections {
        pool := pool + [Some(connection)];
      }
      held := held - {connection};
    }
  }
}
