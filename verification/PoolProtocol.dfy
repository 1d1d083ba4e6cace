/**
 One connection pool as a state machine. Every function is one region that the source runs under the pool's
 mutex; dialling happens between two of them. The connections lent out and the dials in progress are part of
 the state, although the source only counts them.
 */
module PoolProtocol {

  /** An idle connection: when it was last used, and whether its client is still there. */
  datatype Idle = Idle(conn: nat, lastUsed: int, live: bool)

  datatype Pool = Pool(
    maxCapacity: nat,
    idleTimeout: int,
    available: seq<Idle>,
    active: int,
    closed: bool,
    lastActive: int,
    lent: set<nat>,
    dialling: nat)

  /** What a region gives its caller, and the connections it closed. */
  datatype Grant = Got(conn: nat) | Dial | Wait | PoolClosed
  datatype Result = Result(pool: Pool, grant: Grant, shut: set<nat>)

  function NewPool(maxCapacity: int, idleTimeout: int, now: int): Pool {
    Pool(if maxCapacity <= 0 then 4 else maxCapacity, if idleTimeout <= 0 then 300_000_000_000 else idleTimeout, [], 0,
      false, now, {}, 0)
  }

  predicate Usable(p: Pool, c: Idle, now: int) { now - c.lastUsed < p.idleTimeout && c.live }

  function Last(p: Pool): Idle
    requires p.available != []
  {
    p.available[|p.available| - 1]
  }

  /** The idle connection at the end goes to a borrower. */
  function LendLast(p: Pool): Pool
    requires p.available != []
  {
    p.(available := p.available[..|p.available| - 1], lent := p.lent + {Last(p).conn})
  }

  /** The idle connection at the end has been closed, and is no longer counted. */
  function DropLast(p: Pool): Pool
    requires p.available != []
  {
    p.(available := p.available[..|p.available| - 1], active := p.active - 1)
  }

  /** Takes connections from the end until one is usable; unusable ones are closed. */
  function TakeUsable(p: Pool, now: int): Result
    decreases |p.available|
  {
    if p.available == [] then Result(p, Wait, {})
    else if Usable(p, Last(p), now) then Result(LendLast(p), Got(Last(p).conn), {})
    else
      var r := TakeUsable(DropLast(p), now);
      r.(shut := r.shut + {Last(p).conn})
  }

  /** `Acquire` up to its first unlock. */
  function Acquire(p: Pool, now: int): Result {
    if p.closed then Result(p, PoolClosed, {})
    else
      var r := TakeUsable(p.(lastActive := now), now);
      if r.grant.Got? then r
      else if r.pool.active < r.pool.maxCapacity then
        r.(pool := r.pool.(active := r.pool.active + 1, dialling := r.pool.dialling + 1), grant := Dial)
      else r
  }

  /** One tick of the waiting loop: at most one connection is examined. */
  function Poll(p: Pool, now: int): Result {
    if p.closed then Result(p, PoolClosed, {})
    else if p.available == [] then Result(p, Wait, {})
    else if Usable(p, Last(p), now) then Result(LendLast(p), Got(Last(p).conn), {})
    else Result(DropLast(p), Wait, {Last(p).conn})
  }

  function DialFailed(p: Pool): Pool
    requires p.dialling > 0
  {
    p.(active := p.active - 1, dialling := p.dialling - 1)
  }

  /** A finished dial: the source takes no lock here, the new connection goes straight to the borrower. */
  function DialDone(p: Pool, c: nat): Pool
    requires p.dialling > 0
  {
    p.(lent := p.lent + {c}, dialling := p.dialling - 1)
  }

  /** `Release` of a lent connection. */
  function Release(p: Pool, c: nat, live: bool, now: int): Result {
    if p.closed then Result(p.(active := p.active - 1, lent := p.lent - {c}), Wait, {c})
    else Result(p.(lastActive := now, available := p.available + [Idle(c, now, live)], lent := p.lent - {c}), Wait, {})
  }

  /** The connections of an idle list. */
  function Conns(idle: seq<Idle>): set<nat>
    decreases |idle|
  {
    if idle == [] then {} else Conns(idle[..|idle| - 1]) + {idle[|idle| - 1].conn}
  }

  /** `Close`, and what the janitor does to an idle pool. */
  function Close(p: Pool): Result {
    if p.closed then Result(p, PoolClosed, {})
    else Result(p.(closed := true, available := [], active := 0), PoolClosed, Conns(p.available))
  }

  // ----- the invariant of one pool -----

  /** Every connection the pool is responsible for. */
  function Held(p: Pool): set<nat> { Conns(p.available) + p.lent }

  ghost predicate Distinct(idle: seq<Idle>)
    decreases |idle|
  {
    idle != [] ==> idle[|idle| - 1].conn !in Conns(idle[..|idle| - 1]) && Distinct(idle[..|idle| - 1])
  }

  /** What the two definitions above mean, position by position. */
  lemma {:induction false} ConnsAt(idle: seq<Idle>)
    ensures forall c :: c in Conns(idle) <==> exists k :: 0 <= k < |idle| && idle[k].conn == c
    ensures Distinct(idle) <==> forall i, j :: 0 <= i < j < |idle| ==> idle[i].conn != idle[j].conn
    decreases |idle|
  {
    if idle != [] {
      var front := idle[..|idle| - 1];
      ConnsAt(front);
      forall c | c in Conns(front) ensures exists k :: 0 <= k < |idle| && idle[k].conn == c {
        assert exists k :: 0 <= k < |front| && front[k].conn == c;
        var k :| 0 <= k < |front| && front[k].conn == c;
        assert idle[k] == front[k];
      }
      assert forall k :: 0 <= k < |front| ==> front[k] == idle[k];
    }
  }

  /** No connection is available twice, or available and lent; a closed pool keeps none. */
  ghost predicate Exclusive(p: Pool) {
    Distinct(p.available) && Conns(p.available) !! p.lent && (p.closed ==> p.available == [])
  }

  /** Capacity, and what the source's counter means while the pool is open. */
  ghost predicate Counted(p: Pool) {
    && |p.available| + |p.lent| + p.dialling <= p.maxCapacity
    && (!p.closed ==> p.active == |p.available| + |p.lent| + p.dialling)
  }

  /**
   * A region keeps lending exclusive; every connection the pool held is still held or was closed by the region.
   */
  ghost predicate Accounts(p: Pool, r: Result) {
    && Exclusive(r.pool)
    && Held(r.pool) !! r.shut && Held(r.pool) + r.shut == Held(p)
    && (p.closed ==> r.pool.closed)
  }

  /** What a grant promises: an idle connection nobody had, or a place for a dial. */
  ghost predicate GrantKept(p: Pool, r: Result) {
    match r.grant
    case Got(c) => c !in p.lent && c in Conns(p.available) && r.pool.lent == p.lent + {c} &&
      r.pool.dialling == p.dialling
    case Dial => r.pool.lent == p.lent && r.pool.dialling == p.dialling + 1
    case _ => r.pool.lent == p.lent && r.pool.dialling == p.dialling
  }

  /** The connection at the end moves from available to lent. */
  lemma LendLastAccounts(p: Pool)
    requires Exclusive(p) && p.available != []
    ensures Accounts(p, Result(LendLast(p), Got(Last(p).conn), {}))
    ensures GrantKept(p, Result(LendLast(p), Got(Last(p).conn), {}))
  {}

  /** The connection at the end is closed. */
  lemma DropLastAccounts(p: Pool)
    requires Exclusive(p) && p.available != []
    ensures Accounts(p, Result(DropLast(p), Wait, {Last(p).conn}))
    ensures Conns(DropLast(p).available) <= Conns(p.available)
  {}

  /** Closing one connection and then running a region that accounts for the rest. */
  lemma DropThen(p: Pool, r: Result)
    requires Exclusive(p) && p.available != [] && Accounts(DropLast(p), r) && GrantKept(DropLast(p), r)
    ensures Accounts(p, r.(shut := r.shut + {Last(p).conn})) && GrantKept(p, r.(shut := r.shut + {Last(p).conn}))
  {
    DropLastAccounts(p);
  }

  /** Taking a connection moves it from available to lent, closing the unusable ones on the way. */
  lemma {:induction false} TakeUsableAccounts(p: Pool, now: int)
    requires Exclusive(p)
    ensures Accounts(p, TakeUsable(p, now)) && GrantKept(p, TakeUsable(p, now))
    decreases |p.available|
  {
    if p.available != [] {
      if Usable(p, Last(p), now) { LendLastAccounts(p); }
      else {
        DropLastAccounts(p);
        TakeUsableAccounts(DropLast(p), now);
        DropThen(p, TakeUsable(DropLast(p), now));
      }
    }
  }

  /** The counter follows the idle list; a connection is refused only when none is left. */
  lemma {:induction false} TakeUsableCounts(p: Pool, now: int)
    ensures var r := TakeUsable(p, now);
            && r.pool.active - |r.pool.available| == p.active - |p.available| + (if r.grant.Got? then 1 else 0)
            && |r.pool.available| + (if r.grant.Got? then 1 else 0) <= |p.available|
            && r.pool.maxCapacity == p.maxCapacity && r.pool.closed == p.closed && r.pool.dialling == p.dialling
            && (r.grant.Got? || (r.grant == Wait && r.pool.available == [] && r.pool.lent == p.lent))
    decreases |p.available|
  {
    if p.available != [] && !Usable(p, Last(p), now) { TakeUsableCounts(DropLast(p), now); }
  }

  // ----- which connection is lent, and which are closed -----

  /** The client is there and was used less than the idle timeout ago. */
  predicate Fresh(c: Idle, timeout: int, now: int) { c.live && now - c.lastUsed < timeout }

  /** Position `k` holds a fresh connection and no later one does. */
  predicate NewestFresh(idle: seq<Idle>, timeout: int, now: int, k: nat) {
    k < |idle| && Fresh(idle[k], timeout, now) && NoneFresh(idle, timeout, now, k + 1)
  }

  /** No connection from position `k` on is fresh. */
  predicate NoneFresh(idle: seq<Idle>, timeout: int, now: int, k: nat) {
    forall j :: k <= j < |idle| ==> !Fresh(idle[j], timeout, now)
  }

  predicate IdleFrom(idle: seq<Idle>, k: nat, c: nat) { exists j :: k <= j < |idle| && idle[j].conn == c }

  /** The connections at position `k` and later. */
  ghost predicate ConnsFrom(idle: seq<Idle>, k: nat, conns: set<nat>) {
    forall c :: c in conns <==> IdleFrom(idle, k, c)
  }

  lemma ConnsFromEarlier(idle: seq<Idle>, k: nat, conns: set<nat>)
    requires k < |idle| && ConnsFrom(idle[..|idle| - 1], k, conns)
    ensures ConnsFrom(idle, k, conns + {idle[|idle| - 1].conn})
  {
    var front, n := idle[..|idle| - 1], |idle| - 1;
    forall c: nat ensures IdleFrom(idle, k, c) <==> IdleFrom(front, k, c) || c == idle[n].conn {
      if IdleFrom(front, k, c) {
        var j :| k <= j < |front| && front[j].conn == c;
        assert idle[j].conn == c;
      }
      if IdleFrom(idle, k, c) {
        var j :| k <= j < |idle| && idle[j].conn == c;
        assert j < n ==> front[j].conn == c;
      }
      assert idle[n].conn == c ==> IdleFrom(idle, k, c);
    }
  }

  /** Taking from the end lends the newest fresh connection and closes those after it. */
  lemma {:induction false} TakesNewestFresh(p: Pool, now: int, k: nat)
    requires NewestFresh(p.available, p.idleTimeout, now, k)
    ensures var r := TakeUsable(p, now);
            && r.grant == Got(p.available[k].conn) && r.pool.available == p.available[..k]
            && ConnsFrom(p.available, k + 1, r.shut)
    decreases |p.available|
  {
    var n := |p.available| - 1;
    if k < n {
      assert !Fresh(p.available[n], p.idleTimeout, now);
      TakesNewestFresh(DropLast(p), now, k);
      assert p.available[..n][..k] == p.available[..k];
      if k + 1 == n {
        assert p.available[..n][..n] == p.available[..n];
        OneConn(p.available, n, TakeUsable(DropLast(p), now).shut);
      } else {
        ConnsFromEarlier(p.available, k + 1, TakeUsable(DropLast(p), now).shut);
      }
    }
  }

  lemma OneConn(idle: seq<Idle>, n: nat, conns: set<nat>)
    requires |idle| == n + 1 && ConnsFrom(idle[..n], n, conns)
    ensures ConnsFrom(idle, n, conns + {idle[n].conn})
  {
    forall c: nat ensures IdleFrom(idle, n, c) <==> c == idle[n].conn {
      assert idle[n].conn == c ==> IdleFrom(idle, n, c);
    }
  }

  /** With no fresh connection, all are closed. */
  lemma {:induction false} TakesNone(p: Pool, now: int)
    requires NoneFresh(p.available, p.idleTimeout, now, 0)
    ensures var r := TakeUsable(p, now);
            r.grant == Wait && r.pool.available == [] && ConnsFrom(p.available, 0, r.shut)
    decreases |p.available|
  {
    if p.available != [] {
      var n := |p.available| - 1;
      assert !Fresh(p.available[n], p.idleTimeout, now);
      TakesNone(DropLast(p), now);
      if n == 0 {
        OneConn(p.available, n, TakeUsable(DropLast(p), now).shut);
      } else {
        ConnsFromEarlier(p.available, 0, TakeUsable(DropLast(p), now).shut);
      }
    }
  }

  lemma OneNewest(idle: seq<Idle>, timeout: int, now: int, j: nat, k: nat)
    requires NewestFresh(idle, timeout, now, j) && NewestFresh(idle, timeout, now, k)
    ensures j == k
  {}

  /** Some position is the newest fresh one, or none is fresh. */
  lemma {:induction false} FindFresh(idle: seq<Idle>, timeout: int, now: int, n: nat) returns (k: nat)
    requires n <= |idle| && NoneFresh(idle, timeout, now, n)
    ensures NewestFresh(idle, timeout, now, k) || NoneFresh(idle, timeout, now, 0)
    decreases n
  {
    k := 0;
    if n > 0 {
      if Fresh(idle[n - 1], timeout, now) { k := n - 1; } else { k := FindFresh(idle, timeout, now, n - 1); }
    }
  }

  /**
   What `Acquire` gives on an open pool, in full. The newest idle connection that is there and was used less than the
   timeout ago is lent, those behind it are closed and those before it stay. With none all are closed, and the borrower
   dials if the others leave a place, or waits. Either way the pool was active now.
   */
  lemma AcquireExactly(p: Pool, now: int)
    requires !p.closed
    ensures forall c :: Acquire(p, now).grant == Got(c) <==>
              exists k: nat :: NewestFresh(p.available, p.idleTimeout, now, k) && p.available[k].conn == c
    ensures forall k: nat :: NewestFresh(p.available, p.idleTimeout, now, k) ==>
              && ConnsFrom(p.available, k + 1, Acquire(p, now).shut)
              && Acquire(p, now).pool.available == p.available[..k]
    ensures NoneFresh(p.available, p.idleTimeout, now, 0) ==>
              && ConnsFrom(p.available, 0, Acquire(p, now).shut) && Acquire(p, now).pool.available == []
              && (Acquire(p, now).grant == Dial <==> p.active - |p.available| < p.maxCapacity)
              && (Acquire(p, now).grant == Wait <==> p.active - |p.available| >= p.maxCapacity)
    ensures Acquire(p, now).pool.lastActive == now
  {
    var q := p.(lastActive := now);
    TakeUsableCounts(q, now);
    TakeUsableActive(q, now);
    var n := FindFresh(p.available, p.idleTimeout, now, |p.available|);
    if NewestFresh(p.available, p.idleTimeout, now, n) {
      TakesNewestFresh(q, now, n);
      forall k: nat | NewestFresh(p.available, p.idleTimeout, now, k) ensures k == n {
        OneNewest(p.available, p.idleTimeout, now, k, n);
      }
    } else {
      TakesNone(q, now);
      forall k: nat ensures !NewestFresh(p.available, p.idleTimeout, now, k) {
        assert k < |p.available| ==> !Fresh(p.available[k], p.idleTimeout, now);
      }
    }
  }

  lemma {:induction false} TakeUsableActive(p: Pool, now: int)
    ensures TakeUsable(p, now).pool.lastActive == p.lastActive
    decreases |p.available|
  {
    if p.available != [] && !Usable(p, Last(p), now) { TakeUsableActive(DropLast(p), now); }
  }

  /** One tick of the waiting loop on an open pool looks at the last connection only: lent if fresh, else closed. */
  lemma PollExactly(p: Pool, now: int)
    requires !p.closed
    ensures var r, n := Poll(p, now), |p.available|;
            if n == 0 then r == Result(p, Wait, {})
            else && r.pool.available == p.available[..n - 1] && r.pool.lastActive == p.lastActive
                 && if Fresh(p.available[n - 1], p.idleTimeout, now)
                    then r.grant == Got(p.available[n - 1].conn) && r.shut == {} && r.pool.active == p.active
                    else r.grant == Wait && r.shut == {p.available[n - 1].conn} && r.pool.active == p.active - 1
  {}

  lemma AcquireAccounts(p: Pool, now: int)
    requires Exclusive(p)
    ensures Accounts(p, Acquire(p, now)) && GrantKept(p, Acquire(p, now))
    ensures Acquire(p, now).grant == PoolClosed <==> p.closed
  {
    if !p.closed {
      TakeUsableAccounts(p.(lastActive := now), now);
      TakeUsableCounts(p.(lastActive := now), now);
    }
  }

  /** Acquiring stays within capacity, and makes a borrower wait only when every place is lent or being dialled. */
  lemma AcquireCounted(p: Pool, now: int)
    requires Exclusive(p) && Counted(p)
    ensures Counted(Acquire(p, now).pool)
    ensures Acquire(p, now).grant == Wait ==> |p.lent| + p.dialling == p.maxCapacity
  {
    AcquireAccounts(p, now);
    TakeUsableCounts(p.(lastActive := now), now);
  }

  lemma PollAccounts(p: Pool, now: int)
    requires Exclusive(p)
    ensures Accounts(p, Poll(p, now)) && GrantKept(p, Poll(p, now))
  {
    if !p.closed && p.available != [] {
      if Usable(p, Last(p), now) { LendLastAccounts(p); } else { DropLastAccounts(p); }
    }
  }

  lemma PollCounted(p: Pool, now: int)
    requires Exclusive(p) && Counted(p)
    ensures Counted(Poll(p, now).pool)
  {
    PollAccounts(p, now);
  }

  lemma ReleaseAccounts(p: Pool, c: nat, live: bool, now: int)
    requires Exclusive(p) && c in p.lent
    ensures Accounts(p, Release(p, c, live, now))
    ensures p.closed <==> Release(p, c, live, now).shut == {c}
    ensures !p.closed ==> Release(p, c, live, now).pool.lastActive == now
    ensures !p.closed ==> Release(p, c, live, now).pool.available == p.available + [Idle(c, now, live)]
  {
    if !p.closed { assert (p.available + [Idle(c, now, live)])[..|p.available|] == p.available; }
  }

  /** The source does not check what is returned: an open pool keeps its count exactly when the connection was lent. */
  lemma ReleaseNeedsLent(p: Pool, c: nat, live: bool, now: int)
    requires Counted(p) && !p.closed
    ensures Release(p, c, live, now).pool.active ==
            |Release(p, c, live, now).pool.available| + |Release(p, c, live, now).pool.lent| + p.dialling
            <==> c in p.lent
  {
    if c !in p.lent { assert p.lent - {c} == p.lent; }
  }

  lemma ReleaseCounted(p: Pool, c: nat, live: bool, now: int)
    requires Counted(p) && c in p.lent
    ensures Counted(Release(p, c, live, now).pool)
  {}

  /** What `Close` and the janitor leave: nothing available, and what was lent still lent. */
  lemma CloseAccounts(p: Pool)
    requires Exclusive(p)
    ensures Accounts(p, Close(p)) && GrantKept(p, Close(p)) && Close(p).pool.closed
  {}

  lemma CloseCounted(p: Pool)
    requires Counted(p)
    ensures Counted(Close(p).pool)
  {}

  /** A finished dial lends a connection that was not held before. */
  lemma DialAccounts(p: Pool, c: nat)
    requires Exclusive(p) && p.dialling > 0 && c !in Held(p)
    ensures Exclusive(DialFailed(p)) && Held(DialFailed(p)) == Held(p)
    ensures Exclusive(DialDone(p, c)) && Held(DialDone(p, c)) == Held(p) + {c}
  {}

  lemma DialCounted(p: Pool, c: nat)
    requires Counted(p) && p.dialling > 0 && c !in p.lent
    ensures Counted(DialFailed(p)) && Counted(DialDone(p, c))
  {}
}
