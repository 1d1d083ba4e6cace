/**
 * All connection pools of the server, the registry that finds them, and every interleaving of their steps. A
 * borrower may keep using a pool after it has left the registry, so pools are never forgotten here. The loops over
 * the registry hold its lock all the time but each pool's only while they close it, so borrowers' steps come between.
 */
module PoolSystem {
  import opened PoolProtocol

  /** A loop that holds the registry's lock: what it closes, the keys still to come, and the keys when it began. */
  datatype Loop =
    | NoLoop
    | Closing(prefix: string, todo: seq<string>, began: set<string>)
    | Sweeping(now: int, todo: seq<string>, began: set<string>)

  /** `open` are the connections dialled and not closed yet; connections are numbered as they are dialled. */
  datatype System = System(pools: seq<Pool>, registry: map<string, nat>, open: set<nat>, nextConn: nat, loop: Loop)

  datatype Step =
    | Lookup(session: string, account: string, now: int)
    | Take(pool: nat, now: int)
    | Wake(pool: nat, now: int)
    | Dialled(pool: nat)
    | NotDialled(pool: nat)
    | Return(pool: nat, conn: nat, live: bool, now: int)
    | Destroy(session: string, account: string)
    | DestroySession(session: string, order: seq<string>)
    | CloseAll(order: seq<string>)
    | Janitor(order: seq<string>, now: int)
    | Continue

  const IDLE_TIMEOUT := 300_000_000_000
  const JANITOR_LIMIT := 900_000_000_000

  // ----- registry keys -----

  function KeyOf(session: string, account: string): string { session + "::" + account }

  predicate HasPrefix(key: string, prefix: string) { prefix <= key }

  // ----- steps -----

  function Start(): System { System([], map[], {}, 0, NoLoop) }

  /** A region of one pool, with the connections it closed. */
  function Apply(s: System, i: nat, r: Result): System
    requires i < |s.pools|
  {
    s.(pools := s.pools[i := r.pool], open := s.open - r.shut)
  }

  function Unregister(s: System, key: string): System { s.(registry := s.registry - {key}) }

  /** Closes a registered pool and forgets its key. */
  function CloseKey(s: System, key: string): System
    requires RegistryInRange(s)
  {
    if key in s.registry then Unregister(Apply(s, s.registry[key], Close(s.pools[s.registry[key]])), key) else s
  }

  predicate RegistryInRange(s: System) { forall k :: k in s.registry ==> s.registry[k] < |s.pools| }

  function Elements(order: seq<string>): set<string> { set k | k in order }

  /** The registry's keys in some order, each once. */
  predicate Enumerates(order: seq<string>, registry: map<string, nat>) {
    Elements(order) == registry.Keys && forall i, j :: 0 <= i < j < |order| ==> order[i] != order[j]
  }

  /**
   * What a step needs: a pool in range, a dial to finish, a connection that was lent; the registry's lock, which a
   * loop holds until it has seen all keys.
   */
  predicate Enabled(s: System, step: Step) {
    match step
    case Take(i, _) => i < |s.pools|
    case Wake(i, _) => i < |s.pools|
    case Dialled(i) => i < |s.pools| && s.pools[i].dialling > 0
    case NotDialled(i) => i < |s.pools| && s.pools[i].dialling > 0
    case Return(i, c, _, _) => i < |s.pools| && c in s.pools[i].lent
    case Lookup(_, _, _) => s.loop.NoLoop?
    case Destroy(_, _) => s.loop.NoLoop?
    case DestroySession(_, order) => s.loop.NoLoop? && Enumerates(order, s.registry)
    case CloseAll(order) => s.loop.NoLoop? && Enumerates(order, s.registry)
    case Janitor(order, _) => s.loop.NoLoop? && Enumerates(order, s.registry)
    case Continue => !s.loop.NoLoop?
  }

  /** One key of a loop: its pool is closed and the key deleted if it matches. */
  function Visit(s: System, key: string): System
    requires RegistryInRange(s)
  {
    match s.loop
    case NoLoop => s
    case Closing(prefix, _, _) => if HasPrefix(key, prefix) then CloseKey(s, key) else s
    case Sweeping(now, _, _) =>
      if key in s.registry && now - s.pools[s.registry[key]].lastActive > JANITOR_LIMIT then CloseKey(s, key) else s
  }

  /** The next key of a loop, or its end. */
  function Advance(s: System): System
    requires RegistryInRange(s) && !s.loop.NoLoop?
  {
    if s.loop.todo == [] then s.(loop := NoLoop)
    else Visit(s, s.loop.todo[0]).(loop := s.loop.(todo := s.loop.todo[1..]))
  }

  function Next(s: System, step: Step): System
    requires Enabled(s, step) && RegistryInRange(s)
  {
    match step
    case Lookup(session, account, now) =>
      var key := KeyOf(session, account);
      if key in s.registry then s
      else s.(pools := s.pools + [NewPool(4, IDLE_TIMEOUT, now)], registry := s.registry[key := |s.pools|])
    case Take(i, now) => Apply(s, i, Acquire(s.pools[i], now))
    case Wake(i, now) => Apply(s, i, Poll(s.pools[i], now))
    case Dialled(i) =>
      s.(pools := s.pools[i := DialDone(s.pools[i], s.nextConn)], open := s.open + {s.nextConn},
        nextConn := s.nextConn + 1)
    case NotDialled(i) => s.(pools := s.pools[i := DialFailed(s.pools[i])])
    case Return(i, c, live, now) => Apply(s, i, Release(s.pools[i], c, live, now))
    case Destroy(session, account) => CloseKey(s, KeyOf(session, account))
    case DestroySession(session, order) => s.(loop := Closing(session + "::", order, s.registry.Keys))
    case CloseAll(order) => s.(loop := Closing("", order, s.registry.Keys))
    case Janitor(order, now) => s.(loop := Sweeping(now, order, s.registry.Keys))
    case Continue => Advance(s)
  }

  // ----- the invariant -----

  ghost predicate Owns(s: System, i: int, c: nat) { 0 <= i < |s.pools| && c in Held(s.pools[i]) }

  ghost predicate PoolOk(p: Pool) { Exclusive(p) && Counted(p) && p.maxCapacity == 4 }

  ghost predicate PoolsOk(s: System) { forall i :: 0 <= i < |s.pools| ==> PoolOk(s.pools[i]) }

  /** A connection is open exactly while one pool, and no other, is responsible for it. */
  ghost predicate OpenIsOwned(s: System) {
    && (forall c :: c in s.open ==> exists i :: Owns(s, i, c))
    && (forall i: int, c: nat :: Owns(s, i, c) ==> c in s.open && c < s.nextConn)
    && (forall i, j, c :: Owns(s, i, c) && Owns(s, j, c) ==> i == j)
  }

  ghost predicate Names(s: System, k: string, i: int) { k in s.registry && s.registry[k] == i }

  /** The registry names exactly the pools that are not closed, each once. */
  ghost predicate RegistryOk(s: System) {
    && (forall k, i :: Names(s, k, i) ==> 0 <= i < |s.pools| && !s.pools[i].closed)
    && (forall k, m, i :: Names(s, k, i) && Names(s, m, i) ==> k == m)
    && (forall i :: 0 <= i < |s.pools| && !s.pools[i].closed ==> exists k :: Names(s, k, i))
  }

  ghost predicate Core(s: System) { PoolsOk(s) && OpenIsOwned(s) && RegistryOk(s) }

  /**
   A closing loop has removed exactly the matching keys that it has passed; the janitor has touched no key ahead of it.
   */
  ghost predicate LoopOk(s: System) {
    match s.loop
    case NoLoop => true
    case Closing(prefix, todo, began) =>
      && (forall i, j :: 0 <= i < j < |todo| ==> todo[i] != todo[j])
      && Elements(todo) <= began
      && (forall k :: k in s.registry <==> k in began && !(HasPrefix(k, prefix) && k !in todo))
    case Sweeping(_, todo, began) =>
      && (forall i, j :: 0 <= i < j < |todo| ==> todo[i] != todo[j])
      && s.registry.Keys <= began && Elements(todo) <= s.registry.Keys
  }

  ghost predicate Inv(s: System) { Core(s) && LoopOk(s) }

  /** So every step is defined in every state that satisfies the invariant. */
  lemma InRange(s: System)
    requires RegistryOk(s)
    ensures RegistryInRange(s)
  {
    forall k | k in s.registry ensures s.registry[k] < |s.pools| { assert Names(s, k, s.registry[k]); }
  }

  // ----- every step keeps it -----

  /** A region of one pool that accounts for its connections leaves every connection with one owner. */
  lemma ApplyOwned(s: System, i: nat, r: Result)
    requires i < |s.pools| && OpenIsOwned(s) && Accounts(s.pools[i], r)
    ensures OpenIsOwned(Apply(s, i, r))
  {
    var t := Apply(s, i, r);
    forall j, c ensures Owns(t, j, c) ==> Owns(s, j, c) && c !in r.shut {
      if Owns(t, j, c) && j != i && c in r.shut { assert Owns(s, i, c); assert Owns(s, j, c); }
    }
    forall c | c in t.open ensures exists j :: Owns(t, j, c) {
      var j :| Owns(s, j, c);
      assert Owns(t, j, c);
    }
  }

  lemma ApplyRegistry(s: System, i: nat, r: Result)
    requires i < |s.pools| && RegistryOk(s) && r.pool.closed == s.pools[i].closed
    ensures RegistryOk(Apply(s, i, r))
  {
    var t := Apply(s, i, r);
    assert forall k, j :: Names(t, k, j) <==> Names(s, k, j);
  }

  lemma ApplyInv(s: System, i: nat, r: Result)
    requires i < |s.pools| && Core(s) && Accounts(s.pools[i], r) && PoolOk(r.pool) && r.pool.closed == s.pools[i].closed
    ensures Core(Apply(s, i, r))
  {
    ApplyOwned(s, i, r);
    ApplyRegistry(s, i, r);
  }

  lemma CloseKeyInv(s: System, key: string)
    requires Core(s) && RegistryInRange(s)
    ensures Core(CloseKey(s, key)) && CloseKey(s, key).registry == s.registry - {key}
    ensures key in s.registry ==>
            CloseKey(s, key).pools == s.pools[s.registry[key] := Close(s.pools[s.registry[key]]).pool]
  {
    if key in s.registry {
      var i := s.registry[key];
      var p := s.pools[i];
      CloseAccounts(p);
      CloseCounted(p);
      ApplyOwned(s, i, Close(p));
      CloseKeyRegistry(s, key);
      assert OpenIsOwned(Apply(s, i, Close(p)));
      UnregisterOwned(Apply(s, i, Close(p)), key);
    }
  }

  lemma UnregisterOwned(s: System, key: string)
    requires OpenIsOwned(s)
    ensures OpenIsOwned(Unregister(s, key))
  {
    assert forall i, c :: Owns(Unregister(s, key), i, c) <==> Owns(s, i, c);
  }

  lemma CloseKeyRegistry(s: System, key: string)
    requires RegistryOk(s) && RegistryInRange(s) && key in s.registry
    ensures RegistryOk(CloseKey(s, key))
  {
    var t := CloseKey(s, key);
    var i := s.registry[key];
    assert Names(s, key, i);
    forall k, j ensures Names(t, k, j) <==> Names(s, k, j) && k != key {}
    forall j | 0 <= j < |t.pools| && !t.pools[j].closed ensures exists k :: Names(t, k, j) {
      var k :| Names(s, k, j);
      assert Names(t, k, j);
    }
  }

  ghost predicate Added(s: System, t: System, key: string, p: Pool) {
    t == s.(pools := s.pools + [p], registry := s.registry[key := |s.pools|])
  }

  lemma LookupOwned(s: System, t: System, key: string, p: Pool)
    requires OpenIsOwned(s) && Added(s, t, key, p) && Held(p) == {}
    ensures OpenIsOwned(t)
  {
    assert forall i, c :: Owns(t, i, c) <==> Owns(s, i, c);
    forall c | c in t.open ensures exists j :: Owns(t, j, c) {
      var j :| Owns(s, j, c);
      assert Owns(t, j, c);
    }
  }

  lemma LookupRegistry(s: System, t: System, key: string, p: Pool)
    requires RegistryOk(s) && Added(s, t, key, p) && key !in s.registry && !p.closed
    ensures RegistryOk(t)
  {
    assert forall k, i :: Names(t, k, i) <==> Names(s, k, i) || (k == key && i == |s.pools|);
    assert Names(t, key, |s.pools|);
    forall i | 0 <= i < |t.pools| && !t.pools[i].closed ensures exists k :: Names(t, k, i) {
      if i < |s.pools| {
        var k :| Names(s, k, i);
        assert Names(t, k, i);
      }
    }
  }

  lemma LookupInv(s: System, session: string, account: string, now: int)
    requires Core(s) && RegistryInRange(s) && s.loop.NoLoop?
    ensures Core(Next(s, Lookup(session, account, now)))
    ensures KeyOf(session, account) in Next(s, Lookup(session, account, now)).registry
  {
    var key, p := KeyOf(session, account), NewPool(4, IDLE_TIMEOUT, now);
    if key !in s.registry {
      var t := Next(s, Lookup(session, account, now));
      assert Added(s, t, key, p) && Held(p) == {} && PoolOk(p);
      LookupOwned(s, t, key, p);
      LookupRegistry(s, t, key, p);
    }
  }

  lemma PoolDialled(s: System, i: nat)
    requires Core(s) && i < |s.pools| && s.pools[i].dialling > 0
    ensures s.nextConn !in Held(s.pools[i]) && PoolOk(DialDone(s.pools[i], s.nextConn))
    ensures PoolOk(DialFailed(s.pools[i])) && Accounts(s.pools[i], Result(DialFailed(s.pools[i]), Wait, {}))
  {
    assert Owns(s, i, s.nextConn) <==> s.nextConn in Held(s.pools[i]);
    DialAccounts(s.pools[i], s.nextConn);
    DialCounted(s.pools[i], s.nextConn);
  }

  lemma DialledOwned(s: System, t: System, i: nat, p: Pool)
    requires OpenIsOwned(s) && i < |s.pools| && Held(p) == Held(s.pools[i]) + {s.nextConn}
    requires t == s.(pools := s.pools[i := p], open := s.open + {s.nextConn}, nextConn := s.nextConn + 1)
    ensures OpenIsOwned(t)
  {
    assert forall j, c :: Owns(t, j, c) <==> Owns(s, j, c) || (j == i && c == s.nextConn);
    assert Owns(t, i, s.nextConn);
    forall c | c in s.open ensures exists j :: Owns(t, j, c) {
      var j :| Owns(s, j, c);
      assert Owns(t, j, c);
    }
  }

  lemma DialledInv(s: System, i: nat)
    requires Core(s) && RegistryInRange(s) && Enabled(s, Dialled(i))
    ensures Core(Next(s, Dialled(i)))
  {
    var p, t := DialDone(s.pools[i], s.nextConn), Next(s, Dialled(i));
    DialledPool(s, i);
    DialledOwned(s, t, i, p);
    OnePoolOk(s, t, i, p);
    ApplyRegistry(s, i, Result(p, Wait, {}));
    SameRegistry(Apply(s, i, Result(p, Wait, {})), t);
  }

  lemma DialledPool(s: System, i: nat)
    requires Core(s) && i < |s.pools| && s.pools[i].dialling > 0
    ensures PoolOk(DialDone(s.pools[i], s.nextConn)) &&
            Held(DialDone(s.pools[i], s.nextConn)) == Held(s.pools[i]) + {s.nextConn}
  {
    PoolDialled(s, i);
    DialAccounts(s.pools[i], s.nextConn);
  }

  lemma OnePoolOk(s: System, t: System, i: nat, p: Pool)
    requires PoolsOk(s) && i < |s.pools| && PoolOk(p) && t.pools == s.pools[i := p]
    ensures PoolsOk(t)
  {}

  /** The registry's invariant does not look at the open connections. */
  lemma SameRegistry(s: System, t: System)
    requires RegistryOk(s) && s.pools == t.pools && s.registry == t.registry
    ensures RegistryOk(t)
  {
    assert forall k, i :: Names(t, k, i) <==> Names(s, k, i);
  }

  lemma NotDialledInv(s: System, i: nat)
    requires Core(s) && RegistryInRange(s) && Enabled(s, NotDialled(i))
    ensures Core(Next(s, NotDialled(i)))
  {
    var r := Result(DialFailed(s.pools[i]), Wait, {});
    PoolDialled(s, i);
    ApplyInv(s, i, r);
    assert Next(s, NotDialled(i)) == Apply(s, i, r);
  }

  lemma TakeInv(s: System, i: nat, now: int)
    requires Core(s) && i < |s.pools|
    ensures Core(Apply(s, i, Acquire(s.pools[i], now)))
  {
    AcquireAccounts(s.pools[i], now);
    AcquireCounted(s.pools[i], now);
    TakeUsableCounts(s.pools[i].(lastActive := now), now);
    ApplyInv(s, i, Acquire(s.pools[i], now));
  }

  lemma WakePool(p: Pool, now: int)
    requires PoolOk(p)
    ensures PoolOk(Poll(p, now).pool) && Poll(p, now).pool.closed == p.closed && Accounts(p, Poll(p, now))
  {
    PollAccounts(p, now);
    PollCounted(p, now);
    assert Poll(p, now).pool.maxCapacity == p.maxCapacity && Poll(p, now).pool.closed == p.closed;
  }

  lemma WakeInv(s: System, i: nat, now: int)
    requires Core(s) && i < |s.pools|
    ensures Core(Apply(s, i, Poll(s.pools[i], now)))
  {
    WakePool(s.pools[i], now);
    ApplyInv(s, i, Poll(s.pools[i], now));
  }

  // ----- the loops -----

  /** The invariant of the pools does not look at the loop. */
  lemma CoreWithLoop(s: System, loop: Loop)
    requires Core(s)
    ensures Core(s.(loop := loop))
  {
    var t := s.(loop := loop);
    assert forall i, c :: Owns(t, i, c) <==> Owns(s, i, c);
    assert forall k, i :: Names(t, k, i) <==> Names(s, k, i);
  }

  lemma VisitKeeps(s: System, key: string)
    requires Core(s) && RegistryInRange(s)
    ensures Core(Visit(s, key)) && Visit(s, key).loop == s.loop
    ensures Visit(s, key).registry == s.registry || (Visit(s, key).registry == s.registry - {key} && key in s.registry)
    ensures s.loop.Closing? ==>
            Visit(s, key).registry == if HasPrefix(key, s.loop.prefix) then s.registry - {key} else s.registry
  {
    CloseKeyInv(s, key);
  }

  lemma TodoStep(todo: seq<string>)
    requires todo != [] && forall i, j :: 0 <= i < j < |todo| ==> todo[i] != todo[j]
    ensures todo[0] !in todo[1..] && Elements(todo) == Elements(todo[1..]) + {todo[0]}
    ensures forall i, j :: 0 <= i < j < |todo[1..]| ==> todo[1..][i] != todo[1..][j]
  {
    assert forall k :: k in todo <==> k == todo[0] || k in todo[1..];
  }

  lemma AdvanceInv(s: System)
    requires Inv(s) && RegistryInRange(s) && !s.loop.NoLoop?
    ensures Inv(Advance(s))
  {
    if s.loop.todo == [] {
      CoreWithLoop(s, NoLoop);
    } else {
      var key := s.loop.todo[0];
      VisitKeeps(s, key);
      TodoStep(s.loop.todo);
      CoreWithLoop(Visit(s, key), s.loop.(todo := s.loop.todo[1..]));
      AdvanceLoop(s);
    }
  }

  lemma AdvanceLoop(s: System)
    requires Core(s) && LoopOk(s) && RegistryInRange(s) && !s.loop.NoLoop? && s.loop.todo != []
    ensures LoopOk(Advance(s))
  {
    VisitKeeps(s, s.loop.todo[0]);
    TodoStep(s.loop.todo);
    var t := Advance(s);
    if s.loop.Closing? {
      var prefix, todo, began := s.loop.prefix, s.loop.todo, s.loop.began;
      assert todo[0] in Elements(todo);
      forall k ensures k in t.registry <==> k in began && !(HasPrefix(k, prefix) && k !in todo[1..]) {
        assert k in todo <==> k == todo[0] || k in todo[1..];
      }
    }
  }

  lemma BeginInv(s: System, order: seq<string>, loop: Loop)
    requires Inv(s) && Enumerates(order, s.registry)
    requires (loop.Closing? || loop.Sweeping?) && loop.todo == order && loop.began == s.registry.Keys
    ensures Inv(s.(loop := loop))
  {
    CoreWithLoop(s, loop);
    assert forall k :: k in order <==> k in Elements(order);
  }

  lemma ReturnInv(s: System, i: nat, c: nat, live: bool, now: int)
    requires Core(s) && i < |s.pools| && c in s.pools[i].lent
    ensures Core(Apply(s, i, Release(s.pools[i], c, live, now)))
  {
    ReleaseAccounts(s.pools[i], c, live, now);
    ReleaseCounted(s.pools[i], c, live, now);
    ApplyInv(s, i, Release(s.pools[i], c, live, now));
  }

  /** The loop does not look at the pools. */
  lemma SameLoopOk(s: System, t: System)
    requires LoopOk(s) && t.loop == s.loop && t.registry == s.registry
    ensures LoopOk(t)
  {}

  /** A borrower's step, at any time. */
  lemma PoolStepInv(s: System, step: Step)
    requires Inv(s) && RegistryInRange(s) && Enabled(s, step)
    requires step.Take? || step.Wake? || step.Dialled? || step.NotDialled? || step.Return?
    ensures Inv(Next(s, step))
  {
    SameLoopOk(s, Next(s, step));
    match step
    case Take(i, now) => TakeInv(s, i, now);
    case Wake(i, now) => WakeInv(s, i, now);
    case Dialled(i) => DialledInv(s, i);
    case NotDialled(i) => NotDialledInv(s, i);
    case Return(i, c, live, now) => ReturnInv(s, i, c, live, now);
  }

  lemma StepKeepsInv(s: System, step: Step)
    requires Inv(s) && RegistryInRange(s) && Enabled(s, step)
    ensures Inv(Next(s, step))
  {
    match step
    case Lookup(session, account, now) => LookupInv(s, session, account, now);
    case Destroy(session, account) => CloseKeyInv(s, KeyOf(session, account));
    case DestroySession(session, order) => BeginInv(s, order, Closing(session + "::", order, s.registry.Keys));
    case CloseAll(order) => BeginInv(s, order, Closing("", order, s.registry.Keys));
    case Janitor(order, now) => BeginInv(s, order, Sweeping(now, order, s.registry.Keys));
    case Continue => AdvanceInv(s);
    case _ => PoolStepInv(s, step);
  }

  // ----- runs -----

  /** The states a server can reach; every step is one that was possible when it was taken. */
  ghost predicate Run(states: seq<System>, steps: seq<Step>) {
    && |states| == |steps| + 1 && states[0] == Start()
    && forall k :: 0 <= k < |steps| ==> Moves(states[k], steps[k], states[k + 1])
  }

  ghost predicate Moves(s: System, step: Step, t: System) {
    RegistryInRange(s) && Enabled(s, step) && t == Next(s, step)
  }

  /** Capacity, exclusive lending and one owner per open connection hold in every state of every run. */
  lemma {:induction false} RunSafe(states: seq<System>, steps: seq<Step>, n: nat)
    requires Run(states, steps) && n < |states|
    ensures Inv(states[n]) && RegistryInRange(states[n])
    decreases n
  {
    if n > 0 {
      RunSafe(states, steps, n - 1);
      assert Moves(states[n - 1], steps[n - 1], states[n]);
      StepKeepsInv(states[n - 1], steps[n - 1]);
    }
    InRange(states[n]);
  }

  // ----- what the invariant gives -----

  ghost predicate Lends(s: System, i: int, c: nat) { 0 <= i < |s.pools| && c in s.pools[i].lent }

  /** A connection handed to a borrower is open, and no borrower of any pool has it already. */
  lemma NeverLentTwice(s: System, i: nat, now: int, c: nat)
    requires Inv(s) && i < |s.pools|
    requires Acquire(s.pools[i], now).grant == Got(c) || Poll(s.pools[i], now).grant == Got(c)
    ensures c in s.open && forall j :: !Lends(s, j, c)
  {
    AcquireAccounts(s.pools[i], now);
    PollAccounts(s.pools[i], now);
    assert Owns(s, i, c);
    forall j ensures !Lends(s, j, c) {
      if Lends(s, j, c) { assert Owns(s, j, c); }
    }
  }

  /** A freshly dialled connection is nobody's. */
  lemma DialledIsNew(s: System, i: nat)
    requires Inv(s) && RegistryInRange(s) && Enabled(s, Dialled(i))
    ensures forall j :: Lends(Next(s, Dialled(i)), j, s.nextConn) <==> j == i
  {
    var t := Next(s, Dialled(i));
    assert t.pools == s.pools[i := DialDone(s.pools[i], s.nextConn)];
    assert Lends(t, i, s.nextConn);
    forall j ensures Lends(t, j, s.nextConn) ==> j == i {
      assert Lends(t, j, s.nextConn) && j != i ==> Owns(s, j, s.nextConn);
    }
  }

  /** No leak: an open connection is with a borrower, or waits in a pool that the registry still names. */
  lemma OpenIsLentOrRegistered(s: System, c: nat)
    requires Inv(s) && c in s.open
    ensures (exists i :: Lends(s, i, c)) || (exists k, i :: Names(s, k, i) && Owns(s, i, c))
  {
    var i :| Owns(s, i, c);
    if c in s.pools[i].lent {
      assert Lends(s, i, c);
    } else {
      assert Exclusive(s.pools[i]);
      assert !s.pools[i].closed;
      var k :| Names(s, k, i);
    }
  }

  /** When a closing loop has seen all keys, exactly the matching ones it began with are gone. */
  lemma ClosingDone(s: System)
    requires Inv(s) && s.loop.Closing? && s.loop.todo == []
    ensures forall k :: k in s.registry <==> k in s.loop.began && !HasPrefix(k, s.loop.prefix)
  {}

  /**
   The janitor's pass removes a key, when its turn comes, exactly if its pool was last used more than fifteen minutes
   before the pass, and no other key; the pool it closes has no idle connection left, and every other pool is as it was.
   */
  lemma JanitorStep(s: System)
    requires Inv(s) && RegistryInRange(s) && s.loop.Sweeping? && s.loop.todo != []
    ensures forall k :: k in Advance(s).registry <==>
              k in s.registry &&
              !(k == s.loop.todo[0] && s.loop.now - s.pools[s.registry[k]].lastActive > 900_000_000_000)
    ensures forall i :: 0 <= i < |s.pools| && (s.loop.todo[0] in s.registry ==> i != s.registry[s.loop.todo[0]]) ==>
              Advance(s).pools[i] == s.pools[i]
    ensures var key := s.loop.todo[0];
            key in s.registry && key !in Advance(s).registry ==>
              Advance(s).pools[s.registry[key]].closed && Advance(s).pools[s.registry[key]].available == []
  {
    var key := s.loop.todo[0];
    if key in s.registry { assert PoolOk(s.pools[s.registry[key]]); }
  }

  /** At the end of `CloseAll` the registry is empty, and once every borrower has returned no connection is open. */
  lemma CloseAllDrains(s: System)
    requires Inv(s) && s.loop.Closing? && s.loop.prefix == "" && s.loop.todo == []
    ensures s.registry == map[]
    ensures (forall i, c :: !Lends(s, i, c)) ==> s.open == {}
  {
    ClosingDone(s);
    assert s.registry.Keys == {};
    if c :| c in s.open && forall i, c :: !Lends(s, i, c) { OpenIsLentOrRegistered(s, c); }
  }

  /** While the registry is empty and no lookup comes, only borrowed connections are open. */
  lemma EmptyRegistryStays(s: System, step: Step)
    requires Inv(s) && RegistryInRange(s) && Enabled(s, step) && s.registry == map[] && !step.Lookup?
    ensures Next(s, step).registry == map[] && forall c :: c in Next(s, step).open ==>
            exists i :: Lends(Next(s, step), i, c)
  {
    StepKeepsInv(s, step);
    var t := Next(s, step);
    if step.Continue? && s.loop.todo != [] { VisitKeeps(s, s.loop.todo[0]); }
    assert t.registry == map[];
    forall c | c in t.open ensures exists i :: Lends(t, i, c) { OpenIsLentOrRegistered(t, c); }
  }

  // ----- sessions -----

  /** With no colon in session identifiers, the prefix of a session matches its own keys and no other's. */
  lemma PrefixIsSession(session: string, other: string, account: string)
    requires ':' !in session && ':' !in other
    ensures HasPrefix(KeyOf(other, account), session + "::") <==> other == session
  {
    var key, prefix := KeyOf(other, account), session + "::";
    if HasPrefix(key, prefix) {
      assert key[|session|] == ':' && prefix[|session|] == ':' && key[|other|] == ':';
      assert |session| >= |other|;
      assert |session| <= |other|;
      assert other == key[..|other|] && session == prefix[..|session|];
      assert key[..|session|] == prefix[..|session|];
    }
    if other == session { assert key == prefix + account; }
  }

  /** Two accounts never share a pool. */
  lemma KeysAreDistinct(session: string, account: string, session2: string, account2: string)
    requires ':' !in session && ':' !in session2
    ensures KeyOf(session, account) == KeyOf(session2, account2) <==> session == session2 && account == account2
  {
    if KeyOf(session, account) == KeyOf(session2, account2) {
      assert KeyOf(session, account) == (session + "::") + account;
      PrefixIsSession(session, session2, account2);
      assert account == KeyOf(session, account)[|session| + 2..];
      assert account2 == KeyOf(session2, account2)[|session2| + 2..];
    }
  }

  ghost predicate LoopRuns(states: seq<System>, i: nat, j: nat) {
    i <= j < |states| && forall k :: i <= k <= j ==> states[k].loop.Closing?
  }

  ghost predicate SameLoop(s: System, t: System) {
    s.loop.Closing? && t.loop.Closing? && t.loop.began == s.loop.began && t.loop.prefix == s.loop.prefix
  }

  /** While a loop runs, it is the loop that began. */
  lemma {:induction false} LoopStays(states: seq<System>, steps: seq<Step>, i: nat, j: nat)
    requires Run(states, steps) && LoopRuns(states, i, j)
    ensures SameLoop(states[i], states[j])
    decreases j
  {
    if i < j {
      LoopStays(states, steps, i, j - 1);
      LoopMove(states, steps, j - 1);
    }
  }

  lemma LoopMove(states: seq<System>, steps: seq<Step>, k: nat)
    requires Run(states, steps) && k < |steps| && states[k].loop.Closing? && states[k + 1].loop.Closing?
    ensures SameLoop(states[k], states[k + 1])
  {
    RunSafe(states, steps, k);
    assert Moves(states[k], steps[k], states[k + 1]);
    LoopStep(states[k], steps[k]);
  }

  lemma LoopStep(s: System, step: Step)
    requires Inv(s) && RegistryInRange(s) && Enabled(s, step) && s.loop.Closing? && Next(s, step).loop.Closing?
    ensures Next(s, step).loop.began == s.loop.began && Next(s, step).loop.prefix == s.loop.prefix
  {
    if step.Continue? && s.loop.todo != [] { VisitKeeps(s, s.loop.todo[0]); }
  }

  /**
   * Ending a session, in any run: from its first step to the last key of its loop, whatever borrowers do in between,
   * its keys leave the registry and no key of another session does.
   */
  lemma SessionEnds(states: seq<System>, steps: seq<Step>, i: nat, j: nat, session: string, order: seq<string>,
      other: string, account: string)
    requires Run(states, steps) && i < j < |states| && steps[i] == DestroySession(session, order)
    requires LoopRuns(states, i + 1, j) && states[j].loop.todo == []
    requires ':' !in session && ':' !in other
    ensures KeyOf(other, account) in states[j].registry
            <==> KeyOf(other, account) in states[i].registry && other != session
  {
    assert Moves(states[i], steps[i], states[i + 1]);
    RunSafe(states, steps, j);
    LoopStays(states, steps, i + 1, j);
    ClosingDone(states[j]);
    PrefixIsSession(session, other, account);
  }

  /** With colons allowed, ending one session could close another's pool. */
  lemma ColonConfusesSessions()
    ensures HasPrefix(KeyOf("a::b", "inbox"), "a" + "::") && KeyOf("a::b", "c") == KeyOf("a", "b::c")
  {
    assert KeyOf("a::b", "inbox") == "a::b::inbox";
    assert KeyOf("a::b", "c") == KeyOf("a", "b::c") == "a::b::c";
  }
}
