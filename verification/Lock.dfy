/** The leased lock: one key with a token and an expiry, four commands on it, and the
    lock objects of the clients that use it. Times of the key are in milliseconds. */
module Lock {
  type Token = nat
  type ClientId = nat

  datatype Option<+T> = None | Some(value: T)
  datatype Lease = Lease(token: Token, expiry: Option<int>)
  datatype Server = Server(now: int, key: Option<Lease>)

  /** An expired key does not exist any more. */
  predicate Live(s: Server) {
    s.key.Some? && (s.key.value.expiry.None? || s.now < s.key.value.expiry.value)
  }

  predicate HeldWith(s: Server, t: Token) { Live(s) && s.key.value.token == t }

  datatype Reply = Yes | No | InvalidExpire

  /** PEXPIRE: a time that is not in the future deletes the key. */
  function Pexpire(s: Server, ms: int): Server {
    if !Live(s) then s
    else if ms <= 0 then s.(key := None)
    else s.(key := Some(s.key.value.(expiry := Some(s.now + ms))))
  }

  /** SET name token NX PX px */
  function SetNx(s: Server, t: Token, px: Option<int>): (Server, Reply) {
    if px.Some? && px.value <= 0 then (s, InvalidExpire)
    else if Live(s) then (s, No)
    else (s.(key := Some(Lease(t, if px.Some? then Some(s.now + px.value) else None))), Yes)
  }

  function ReleaseScript(s: Server, t: Token): (Server, Reply) {
    if !HeldWith(s, t) then (s, No) else (s.(key := None), Yes)
  }

  /** A key without expiry has PTTL -1 and is not extended. */
  function ExtendScript(s: Server, t: Token, ms: int, replace: bool): (Server, Reply) {
    if !HeldWith(s, t) || s.key.value.expiry.None? then (s, No)
    else (Pexpire(s, if replace then ms else ms + (s.key.value.expiry.value - s.now)), Yes)
  }

  function ReacquireScript(s: Server, t: Token, ms: int): (Server, Reply) {
    if !HeldWith(s, t) then (s, No) else (Pexpire(s, ms), Yes)
  }

  /** What the release script does: the key goes iff it holds the token. */
  lemma ReleaseScriptExactly(s: Server, t: Token)
    ensures ReleaseScript(s, t).1 == Yes <==> HeldWith(s, t)
    ensures ReleaseScript(s, t).0 == if HeldWith(s, t) then Server(s.now, None) else s
  {
  }

  // ---- the lock object ----

  /** int(seconds * 1000) truncates toward zero. */
  function Milliseconds(seconds: real): int {
    if seconds >= 0.0 then (seconds * 1000.0).Floor else -(-seconds * 1000.0).Floor
  }

  lemma Truncates(seconds: real)
    ensures var ms := Milliseconds(seconds) as real;
      if seconds >= 0.0 then 0.0 <= ms <= seconds * 1000.0 < ms + 1.0 else ms - 1.0 < seconds * 1000.0 <= ms <= 0.0
  {
  }

  datatype Outcome = Done | LockError | NotOwned | ResponseError

  /** The world outside one lock object: the shared key and the monotonic clock. Other
      clients act while this one sleeps. */
  class Environment {
    var server: Server
    var clock: real
    ghost var readings: seq<real>     // what Monotonic returned
    ghost var sleeps: seq<Nap>        // the sleeps that were started
    ghost var sets: nat               // how many SET commands were sent

    constructor ()
      ensures readings == [] && sleeps == [] && sets == 0
    {
      server, clock, readings, sleeps, sets := Server(0, None), 0.0, [], [], 0;
    }

    method Monotonic() returns (t: real)
      modifies this`clock, this`readings
      ensures t == clock >= old(clock) && readings == old(readings) + [t]
    {
      var passed: real := *;
      clock := if passed >= 0.0 then clock + passed else clock;
      t := clock;
      readings := readings + [t];
    }

    method Sleep(d: real)
      modifies this`clock, this`server, this`sleeps
      ensures clock >= old(clock) + d
      ensures sleeps == old(sleeps) + [Nap(old(clock), d)]
    {
      sleeps := sleeps + [Nap(clock, d)];
      server := *;
      var late: real := *;
      clock := clock + d + if late >= 0.0 then late else 0.0;
    }

    method Set(t: Token, px: Option<int>) returns (r: Reply)
      modifies this`server, this`sets
      ensures (server, r) == SetNx(old(server), t, px) && sets == old(sets) + 1
    {
      var (s, reply) := SetNx(server, t, px);
      server, sets, r := s, sets + 1, reply;
    }
  }

  datatype Nap = Nap(start: real, duration: real)

  /** The naps from position `from` on are of the given length and end by the deadline. */
  ghost predicate InTime(naps: seq<Nap>, from: nat, sleep: real, deadline: Option<real>) {
    forall k :: from <= k < |naps| ==>
      naps[k].duration == sleep && (deadline.Some? ==> naps[k].start + naps[k].duration <= deadline.value)
  }

  lemma OneMoreNap(naps: seq<Nap>, from: nat, sleep: real, deadline: Option<real>, now: real)
    requires InTime(naps, from, sleep, deadline) && (deadline.Some? ==> now + sleep <= deadline.value)
    ensures InTime(naps + [Nap(now, sleep)], from, sleep, deadline)
  {
  }

  datatype Acquisition = Acquired | GaveUp | Failed | StillTrying

  /** How many attempts a blocking acquire with a timeout can make. */
  function AttemptBound(blockingTimeout: real, sleep: real): int
    requires sleep > 0.0
  {
    if blockingTimeout < 0.0 then 1 else 1 + (blockingTimeout / sleep).Floor
  }

  class LockObject {
    const env: Environment
    const timeout: Option<real>   // seconds
    var token: Option<Token>      // local.token

    constructor (e: Environment, timeout: Option<real>)
      ensures env == e && this.timeout == timeout && token == None
    {
      env := e;
      this.timeout := timeout;
      token := None;
    }

    /** The px argument: a timeout of None or 0 gives none. */
    function Px(): Option<int> {
      if timeout.Some? && timeout.value != 0.0 then Some(Milliseconds(timeout.value)) else None
    }

    /** Yes means that nobody held the key and t holds it now, with the timeout in whole
        milliseconds; otherwise the key is as it was. */
    method DoAcquire(t: Token) returns (r: Reply)
      modifies env`server, env`sets
      ensures env.sets == old(env.sets) + 1 && env.server.now == old(env.server.now)
      ensures r == InvalidExpire <==> timeout.Some? && timeout.value != 0.0 && Milliseconds(timeout.value) <= 0
      ensures r == Yes ==> !Live(old(env.server)) && HeldWith(env.server, t)
      ensures r == Yes ==>
        env.server.key.value.expiry == if timeout.Some? && timeout.value != 0.0
          then Some(env.server.now + Milliseconds(timeout.value)) else None
      ensures r == No ==> Live(old(env.server))
      ensures r != Yes ==> env.server == old(env.server)
    {
      r := env.Set(t, Px());
    }

    /** The retry loop, stopped after `fuel` attempts. With a blocking timeout and a positive
        sleep it ends by itself within AttemptBound attempts, and no sleep is started that
        would end after the deadline, the first clock reading plus the timeout. */
    method Acquire(t: Token, blocking: bool, blockingTimeout: Option<real>, sleep: real, fuel: nat)
        returns (r: Acquisition, attempts: nat)
      requires sleep >= 0.0
      modifies this, env
      ensures attempts <= fuel && if r == StillTrying then attempts == fuel else attempts > 0
      ensures env.sets == old(env.sets) + attempts
      ensures blockingTimeout.Some? && sleep > 0.0 ==>
        attempts <= if blockingTimeout.value < 0.0 then 1 else 1 + (blockingTimeout.value / sleep).Floor
      ensures blockingTimeout.Some? && sleep > 0.0 && fuel > AttemptBound(blockingTimeout.value, sleep) ==>
        r != StillTrying
      ensures old(env.readings) <= env.readings
      ensures blockingTimeout.Some? ==> |old(env.readings)| < |env.readings|
      ensures |env.sleeps| == |old(env.sleeps)| + if r == StillTrying then attempts else attempts - 1
      ensures old(env.sleeps) <= env.sleeps
      ensures blockingTimeout.None? ==> InTime(env.sleeps, |old(env.sleeps)|, sleep, None)
      ensures blockingTimeout.Some? ==>
        var deadline := env.readings[|old(env.readings)|] + blockingTimeout.value;
        && InTime(env.sleeps, |old(env.sleeps)|, sleep, Some(deadline))
        && (r == GaveUp && blocking ==> env.clock + sleep > deadline)
      ensures r == GaveUp ==> Live(env.server) && (blocking ==> blockingTimeout.Some?)
      ensures fuel > 0 ==> attempts > 0
      ensures fuel > 0 ==>
        (r == Failed <==> timeout.Some? && timeout.value != 0.0 && Milliseconds(timeout.value) <= 0)
      ensures r == Acquired ==> token == Some(t) && HeldWith(env.server, t)
      ensures r != Acquired ==> token == old(token)
      ensures !blocking && fuel > 0 ==> attempts == 1
      ensures !blocking && fuel > 0 ==>
        var (s, reply) := SetNx(old(env.server), t, Px());
        env.server == s && r == match reply case Yes => Acquired case No => GaveUp case InvalidExpire => Failed
    {
      ghost var napped, seen := |env.sleeps|, |env.readings|;
      var stop := 0.0;
      if blockingTimeout.Some? {
        var start := env.Monotonic();
        stop := start + blockingTimeout.value;
      }
      ghost var begin := env.clock;
      attempts := 0;
      while attempts < fuel
        invariant attempts <= fuel && env.sets == old(env.sets) + attempts
        invariant token == old(token)
        invariant old(env.readings) <= env.readings
        invariant blockingTimeout.Some? ==>
          seen < |env.readings| && begin == env.readings[seen] && stop == begin + blockingTimeout.value
        invariant |env.sleeps| == napped + attempts && old(env.sleeps) <= env.sleeps
        invariant InTime(env.sleeps, napped, sleep, if blockingTimeout.Some? then Some(stop) else None)
        invariant env.clock >= begin + Slept(attempts, sleep)
        invariant blockingTimeout.Some? && attempts > 0 ==> Slept(attempts, sleep) <= blockingTimeout.value
        invariant attempts == 0 ==> env.server == old(env.server)
        invariant attempts > 0 ==> blocking && (Px().None? || Px().value > 0)
        decreases fuel - attempts
      {
        var reply := DoAcquire(t);
        attempts := attempts + 1;
        if blockingTimeout.Some? && sleep > 0.0 { AttemptsBounded(attempts, blockingTimeout.value, sleep); }
        if reply == InvalidExpire {
          return Failed, attempts;
        }
        if reply == Yes {
          token := Some(t);
          return Acquired, attempts;
        }
        if !blocking {
          return GaveUp, attempts;
        }
        var now := env.Monotonic();
        var nextTry := now + sleep;
        if blockingTimeout.Some? && nextTry > stop {
          return GaveUp, attempts;
        }
        SleptMore(attempts - 1, sleep);
        ghost var naps := env.sleeps;
        env.Sleep(sleep);
        OneMoreNap(naps, napped, sleep, if blockingTimeout.Some? then Some(stop) else None, now);
      }
      if blockingTimeout.Some? && sleep > 0.0 && attempts > 0 {
        AttemptsBounded(attempts, blockingTimeout.value, sleep);
      }
      if blockingTimeout.Some? && sleep > 0.0 && attempts == 0 {
        BoundPositive(blockingTimeout.value, sleep);
      }
      r := StillTrying;
    }

    /** The local token goes first, whatever the script answers. */
    method Release() returns (r: Outcome)
      modifies this`token, env`server
      ensures token == None
      ensures old(token) == None ==> r == LockError && env.server == old(env.server)
      ensures old(token).Some? ==>
        var (s, reply) := ReleaseScript(old(env.server), old(token).value);
        env.server == s && r == if reply == Yes then Done else NotOwned
      ensures r == Done <==> old(token).Some? && HeldWith(old(env.server), old(token).value)
      ensures env.server == if r == Done then Server(old(env.server.now), None) else old(env.server)
    {
      if token.None? {
        return LockError;
      }
      var expected := token.value;
      token := None;
      var (s, reply) := ReleaseScript(env.server, expected);
      env.server := s;
      r := if reply == Yes then Done else NotOwned;
    }

    /** The new expiry is `additional` from now, or from the old expiry; a lease that would
        be over by then is gone. */
    method Extend(additional: real, replace: bool) returns (r: Outcome)
      modifies env`server
      ensures token.None? || timeout.None? ==> r == LockError && env.server == old(env.server)
      ensures token.Some? && timeout.Some? ==>
        var (s, reply) := ExtendScript(old(env.server), token.value, Milliseconds(additional), replace);
        env.server == s && r == if reply == Yes then Done else NotOwned
      ensures var held := token.Some? && HeldWith(old(env.server), token.value);
        r == Done <==> held && timeout.Some? && old(env.server).key.value.expiry.Some?
      ensures r != Done ==> env.server == old(env.server)
      ensures r == Done ==>
        var now := old(env.server.now);
        var until := Milliseconds(additional) + if replace then now else old(env.server).key.value.expiry.value;
        env.server == Server(now, if until <= now then None else Some(Lease(token.value, Some(until))))
    {
      if token.None? || timeout.None? {
        return LockError;
      }
      var (s, reply) := ExtendScript(env.server, token.value, Milliseconds(additional), replace);
      env.server := s;
      r := if reply == Yes then Done else NotOwned;
    }

    method Reacquire() returns (r: Outcome)
      modifies env`server
      ensures token.None? || timeout.None? ==> r == LockError && env.server == old(env.server)
      ensures token.Some? && timeout.Some? ==>
        var (s, reply) := ReacquireScript(old(env.server), token.value, Milliseconds(timeout.value));
        env.server == s && r == if reply == Yes then Done else NotOwned
      ensures r == Done <==> token.Some? && timeout.Some? && HeldWith(old(env.server), token.value)
      ensures r != Done ==> env.server == old(env.server)
      ensures r == Done ==>
        var now := old(env.server.now);
        var until := now + Milliseconds(timeout.value);
        env.server == Server(now, if until <= now then None else Some(Lease(token.value, Some(until))))
    {
      if token.None? || timeout.None? {
        return LockError;
      }
      var (s, reply) := ReacquireScript(env.server, token.value, Milliseconds(timeout.value));
      env.server := s;
      r := if reply == Yes then Done else NotOwned;
    }
  }

  // ---- counting the sleeps ----

  function Slept(k: nat, sleep: real): real { if k == 0 then 0.0 else Slept(k - 1, sleep) + sleep }

  lemma SleptMore(k: nat, sleep: real)
    ensures Slept(k + 1, sleep) == Slept(k, sleep) + sleep
  {
  }

  lemma {:induction false} SleptProduct(k: nat, sleep: real)
    ensures Slept(k, sleep) == k as real * sleep
  {
    if k > 0 {
      SleptProduct(k - 1, sleep);
      assert (k - 1) as real * sleep + sleep == k as real * sleep;
    }
  }

  lemma BoundPositive(timeout: real, sleep: real)
    requires sleep > 0.0
    ensures AttemptBound(timeout, sleep) >= 1
  {
    if timeout >= 0.0 { assert timeout / sleep >= 0.0; }
  }

  lemma AttemptsBounded(attempts: nat, timeout: real, sleep: real)
    requires sleep > 0.0 && attempts > 0
    requires attempts > 1 ==> Slept(attempts - 1, sleep) <= timeout
    ensures attempts <= AttemptBound(timeout, sleep)
  {
    BoundPositive(timeout, sleep);
    if attempts > 1 {
      SleptProduct(attempts - 1, sleep);
      var k := (attempts - 1) as real;
      assert k * sleep <= timeout;
      assert timeout >= 0.0;
      Quotient(k, sleep, timeout);
      assert (timeout / sleep).Floor >= attempts - 1;
    }
  }

  lemma Quotient(k: real, sleep: real, timeout: real)
    requires sleep > 0.0 && k * sleep <= timeout
    ensures k <= timeout / sleep
  {
    var q := timeout / sleep;
    assert q * sleep == timeout;
    assert (k - q) * sleep <= 0.0;
  }

  // ---- timed runs of several clients ----

  datatype World = World(server: Server, tokens: map<ClientId, Token>, used: set<Token>)

  const Begin := World(Server(0, None), map[], {})

  datatype Event =
    | Tick(elapsed: nat)
    | TryAcquire(client: ClientId, token: Token, px: Option<int>)   // one attempt
    | DoRelease(client: ClientId)
    | DoExtend(client: ClientId, ms: int, replace: bool)
    | DoReacquire(client: ClientId, ms: int)

  /** Tokens are fresh: none is tried again once it was acquired. */
  predicate Enabled(w: World, e: Event) {
    e.TryAcquire? ==> e.token !in w.used
  }

  function Call(w: World, e: Event): (Server, Reply) {
    match e
    case Tick(ms) => (w.server.(now := w.server.now + ms), Yes)
    case TryAcquire(c, t, px) => SetNx(w.server, t, px)
    case DoRelease(c) => if c in w.tokens then ReleaseScript(w.server, w.tokens[c]) else (w.server, No)
    case DoExtend(c, ms, replace) => if c in w.tokens then ExtendScript(w.server, w.tokens[c], ms, replace) else (w.server, No)
    case DoReacquire(c, ms) => if c in w.tokens then ReacquireScript(w.server, w.tokens[c], ms) else (w.server, No)
  }

  function Next(w: World, e: Event): World {
    var (s, reply) := Call(w, e);
    match e
    case TryAcquire(c, t, px) =>
      if reply == Yes then World(s, w.tokens[c := t], w.used + {t}) else w.(server := s)
    case DoRelease(c) => World(s, w.tokens - {c}, w.used)
    case _ => w.(server := s)
  }

  ghost predicate Run(w: World, es: seq<Event>, w': World)
    decreases |es|
  {
    if es == [] then w == w' else Enabled(w, es[0]) && Run(Next(w, es[0]), es[1..], w')
  }

  ghost predicate Inv(w: World) {
    && (forall c :: c in w.tokens ==> w.tokens[c] in w.used)
    && (w.server.key.Some? ==> w.server.key.value.token in w.used)
    && (forall c1, c2 :: c1 in w.tokens && c2 in w.tokens && c1 != c2 ==> w.tokens[c1] != w.tokens[c2])
  }

  lemma {:induction false} InvRun(w: World, es: seq<Event>, w': World)
    requires Inv(w) && Run(w, es, w')
    ensures Inv(w')
    decreases |es|
  {
    if es != [] { InvRun(Next(w, es[0]), es[1..], w'); }
  }

  /** owned(): the stored token is the client's. */
  predicate Owns(w: World, c: ClientId) { c in w.tokens && HeldWith(w.server, w.tokens[c]) }

  /** Never do two clients own the lock. */
  lemma OneOwner(es: seq<Event>, w: World, c1: ClientId, c2: ClientId)
    requires Run(Begin, es, w) && Owns(w, c1) && Owns(w, c2)
    ensures c1 == c2
  {
    InvRun(Begin, es, w);
  }

  predicate ByOthers(e: Event, c: ClientId) { e.Tick? || e.client != c }

  /** While c owns the lock nobody else's call succeeds or touches the key. */
  lemma OthersCannot(w: World, c: ClientId, e: Event)
    requires Inv(w) && Owns(w, c) && Enabled(w, e) && ByOthers(e, c)
    ensures !e.Tick? ==> Call(w, e).1 != Yes
    ensures Next(w, e).server.key == w.server.key
    ensures c in Next(w, e).tokens && Next(w, e).tokens[c] == w.tokens[c]
  {
  }

  /** Without freshness, for any world at all: another client's release, and with a
      lease its extension, succeeds iff it carries the owner's token. */
  lemma SharedTokenIff(w: World, c: ClientId, other: ClientId, ms: int, replace: bool)
    requires Owns(w, c) && other in w.tokens
    ensures Call(w, DoRelease(other)).1 == Yes <==> w.tokens[other] == w.tokens[c]
    ensures Call(w, DoReacquire(other, ms)).1 == Yes <==> w.tokens[other] == w.tokens[c]
    ensures w.server.key.value.expiry.Some? ==>
      (Call(w, DoExtend(other, ms, replace)).1 == Yes <==> w.tokens[other] == w.tokens[c])
  {
  }

  /** Once the owner has released it, the lock is free for any attempt with a sane timeout. */
  lemma ReleaseFrees(w: World, c: ClientId, c2: ClientId, t: Token, px: Option<int>)
    requires Owns(w, c) && (px.Some? ==> px.value > 0)
    ensures Call(w, DoRelease(c)).1 == Yes && Next(w, DoRelease(c)).server.key == None
    ensures Call(Next(w, DoRelease(c)), TryAcquire(c2, t, px)).1 == Yes
    ensures Owns(Next(Next(w, DoRelease(c)), TryAcquire(c2, t, px)), c2)
  {
  }

  /** So is it once the lease is over: nobody owns it, and the next attempt succeeds. */
  lemma ExpiryFrees(w: World, c: ClientId, t: Token, px: Option<int>)
    requires w.server.key.Some? && w.server.key.value.expiry.Some? && w.server.key.value.expiry.value <= w.server.now
    requires px.Some? ==> px.value > 0
    ensures forall other :: !Owns(w, other)
    ensures Call(w, TryAcquire(c, t, px)).1 == Yes && Owns(Next(w, TryAcquire(c, t, px)), c)
  {
  }

  /** In numbers, what the owner's own calls make of a lease. */
  lemma OwnLease(w: World, c: ClientId, ms: int, replace: bool)
    requires Owns(w, c) && w.server.key.value.expiry.Some? && ms > 0
    ensures Next(w, DoReacquire(c, ms)).server.key == Some(Lease(w.tokens[c], Some(w.server.now + ms)))
    ensures Next(w, DoExtend(c, ms, replace)).server.key ==
      Some(Lease(w.tokens[c], Some(ms + if replace then w.server.now else w.server.key.value.expiry.value)))
  {
  }

  /** The key is there at every moment of the run. */
  ghost predicate NeverLapses(w: World, es: seq<Event>)
    decreases |es|
  {
    Live(w.server) && (es == [] || NeverLapses(Next(w, es[0]), es[1..]))
  }

  /** In every step that is not c's own nobody succeeds and the key stays as it is. */
  ghost predicate Excluded(w: World, c: ClientId, es: seq<Event>)
    decreases |es|
  {
    es == [] ||
    (&& (ByOthers(es[0], c) ==>
           && (es[0].Tick? || Call(w, es[0]).1 != Yes)
           && Next(w, es[0]).server.key == w.server.key)
     && Excluded(Next(w, es[0]), c, es[1..]))
  }

  /** The owner's own extension, reacquisition or further attempt keeps it the owner as
      long as the key is there afterwards. */
  lemma OwnStep(w: World, c: ClientId, e: Event)
    requires Owns(w, c) && !ByOthers(e, c) && !e.DoRelease? && Live(Next(w, e).server)
    ensures Owns(Next(w, e), c) && Next(w, e).tokens == w.tokens
    ensures e.TryAcquire? ==> Next(w, e).server.key == w.server.key && Call(w, e).1 != Yes
  {
  }

  lemma {:induction false} ExclusionFrom(w: World, c: ClientId, es: seq<Event>, w': World)
    requires Inv(w) && Owns(w, c) && Run(w, es, w')
    requires DoRelease(c) !in es && NeverLapses(w, es)
    ensures Excluded(w, c, es) && Owns(w', c) && w'.tokens[c] == w.tokens[c]
    decreases |es|
  {
    if es != [] {
      assert es[0] in es;
      assert forall e :: e in es[1..] ==> e in es;
      var next := Next(w, es[0]);
      if ByOthers(es[0], c) { OthersCannot(w, c, es[0]); } else { OwnStep(w, c, es[0]); }
      InvRun(w, [es[0]], next) by { assert [es[0]][1..] == []; assert Run(next, [], next); }
      ExclusionFrom(next, c, es[1..], w');
    }
  }

  /** From a client's successful attempt on, until the key expires or the client releases
      it, whatever it does to its lease meanwhile: nobody else's attempt, release,
      extension or reacquisition succeeds or touches the key. */
  lemma Exclusion(before: seq<Event>, w: World, c: ClientId, t: Token, px: Option<int>, es: seq<Event>, w': World)
    requires Run(Begin, before, w) && Enabled(w, TryAcquire(c, t, px))
    requires Call(w, TryAcquire(c, t, px)).1 == Yes
    requires Run(Next(w, TryAcquire(c, t, px)), es, w') && DoRelease(c) !in es
    requires NeverLapses(Next(w, TryAcquire(c, t, px)), es)
    ensures Excluded(Next(w, TryAcquire(c, t, px)), c, es) && Owns(w', c)
    ensures w'.server.key.value.token == t
  {
    InvRun(Begin, before, w);
    ExclusionFrom(Next(w, TryAcquire(c, t, px)), c, es, w');
  }

  lemma {:induction false} TimePasses(w: World, es: seq<Event>, w': World)
    requires Run(w, es, w')
    ensures w.server.now <= w'.server.now
    decreases |es|
  {
    if es != [] { TimePasses(Next(w, es[0]), es[1..], w'); }
  }

  /** A lease that its owner leaves alone does not lapse before its expiry, whatever the
      others try; so `Exclusion` covers all the time up to it. */
  lemma {:induction false} LeaseLasts(w: World, c: ClientId, es: seq<Event>, w': World)
    requires Inv(w) && Owns(w, c) && Run(w, es, w')
    requires forall e :: e in es ==> ByOthers(e, c)
    requires w.server.key.value.expiry.Some? ==> w'.server.now < w.server.key.value.expiry.value
    ensures NeverLapses(w, es) && w'.server.key == w.server.key
    decreases |es|
  {
    if es != [] {
      assert es[0] in es;
      assert forall e :: e in es[1..] ==> e in es;
      var next := Next(w, es[0]);
      OthersCannot(w, c, es[0]);
      TimePasses(next, es[1..], w');
      InvRun(w, [es[0]], next) by { assert [es[0]][1..] == []; assert Run(next, [], next); }
      LeaseLasts(next, c, es[1..], w');
    }
  }
}
