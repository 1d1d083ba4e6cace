/**
 * The pool, its clients and the registry as the source keeps them: objects updated in place. Every method is
 * one locked region, and is proved to move the pool as the corresponding function of PoolProtocol does.
 */
module PoolObjects {
  import opened PoolProtocol
  import PoolSystem

  /** An IMAP client; `raw` tells whether it has a connection underneath, `open` whether that is still open. */
  class Client {
    const id: nat
    const raw: bool
    var lastUsed: int
    var open: bool

    constructor (id: nat, raw: bool, now: int)
      ensures this.id == id && this.raw == raw && lastUsed == now && open
    {
      this.id, this.raw, lastUsed, open := id, raw, now, true;
    }

    method Close()
      modifies this`open
      ensures !open
    {
      open := false;
    }
  }

  /** What a client in the idle list stands for. */
  ghost predicate Matches(c: Client, i: Idle)
    reads c
  {
    c.id == i.conn && c.lastUsed == i.lastUsed && c.raw == i.live
  }

  /** Of the clients that were idle, those in `left` and the one in `taken` are as they were; the others are closed. */
  twostate predicate RestClosed(clients: seq<Client>, new left: seq<Client>, new taken: Client?)
    reads clients
  {
    forall c :: c in clients ==> c.open == (old(c.open) && (c in left || c == taken))
  }

  /** What is left to do from `p` completes what began at `start`. */
  ghost predicate Continues(start: Pool, p: Pool, now: int) {
    TakeUsable(start, now).pool == TakeUsable(p, now).pool && TakeUsable(start, now).grant == TakeUsable(p, now).grant
  }

  /**
   * A pool. The ghost field `state` is the pool of PoolProtocol: it also knows who has a connection and how many
   * dials are in progress. `Valid` ties it to the fields.
   */
  class UserPool {
    const maxCapacity: nat
    const idleTimeout: int
    var available: seq<Client>
    var activeCount: int
    var closed: bool
    var lastActive: int
    ghost var state: Pool

    ghost predicate Valid()
      reads this, available
    {
      && state.maxCapacity == maxCapacity && state.idleTimeout == idleTimeout && state.active == activeCount
      && state.closed == closed && state.lastActive == lastActive
      && |state.available| == |available| && (closed ==> available == [])
      && forall k :: 0 <= k < |available| ==> Matches(available[k], state.available[k])
    }

    constructor (maxCap: int, idle: int, now: int)
      ensures Valid() && state == NewPool(maxCap, idle, now)
    {
      maxCapacity := if maxCap <= 0 then 4 else maxCap;
      idleTimeout := if idle <= 0 then 300_000_000_000 else idle;
      available, activeCount, closed, lastActive := [], 0, false, now;
      state := NewPool(maxCap, idle, now);
    }

    /** Takes the last idle client off the list, for a borrower or to close it. */
    method TakeLast(now: int) returns (client: Client, usable: bool)
      requires Valid() && available != [] && Distinct(state.available)
      modifies this`available, this`activeCount, this`state, available
      ensures Valid() && closed == old(closed)
      ensures client == old(available)[|old(available)| - 1] && available == old(available)[..|old(available)| - 1]
      ensures client.id == Last(old(state)).conn && usable == Usable(old(state), Last(old(state)), now)
      ensures state == if usable then LendLast(old(state)) else DropLast(old(state))
      ensures client !in available && RestClosed(old(available), available, if usable then client else null)
    {
      var n := |available| - 1;
      NoneTwice(n);
      client := available[n];
      available := available[..n];
      usable := now - client.lastUsed < idleTimeout && client.raw;
      if usable {
        state := LendLast(state);
      } else {
        client.Close();
        activeCount := activeCount - 1;
        state := DropLast(state);
      }
    }

    lemma NoneTwice(n: nat)
      requires Valid() && n < |available| && Distinct(state.available)
      ensures available[n] !in available[..n]
    {
      ConnsAt(state.available);
      forall k | 0 <= k < n ensures available[k] != available[n] {
        assert Matches(available[k], state.available[k]) && Matches(available[n], state.available[n]);
      }
    }

    /** The loop of `Acquire`: the newest usable client, closing the unusable ones before it. */
    method TakeIdle(now: int) returns (client: Client?)
      requires Valid() && Distinct(state.available)
      modifies this`available, this`activeCount, this`state, available
      ensures Valid() && closed == old(closed)
      ensures var r := TakeUsable(old(state), now);
              state == r.pool && r.grant == (if client == null then Wait else Got(client.id))
      ensures RestClosed(old(available), available, client)
      ensures client != null ==> client in old(available)
    {
      while |available| > 0
        invariant |available| <= |old(available)| && available == old(available)[..|available|]
        invariant Valid() && Distinct(state.available) && closed == old(closed)
        invariant Continues(old(state), state, now)
        invariant RestClosed(old(available), available, null)
      {
        var usable;
        client, usable := TakeLast(now);
        if usable { return client; }
      }
      return null;
    }

    /** `Acquire` up to its first unlock; `grant` says what happens next. */
    method Acquire(now: int) returns (grant: Grant, client: Client?)
      requires Valid() && Distinct(state.available)
      modifies this, available
      ensures Valid()
      ensures var r := PoolProtocol.Acquire(old(state), now);
              state == r.pool && grant == r.grant
      ensures RestClosed(old(available), available, client)
      ensures client != null <==> grant.Got?
      ensures client != null ==> client in old(available) && grant == Got(client.id)
    {
      if closed { return PoolClosed, null; }
      lastActive := now;
      state := state.(lastActive := now);
      client := TakeIdle(now);
      if client != null { return Got(client.id), client; }
      if activeCount >= maxCapacity { return Wait, null; }
      activeCount := activeCount + 1;
      state := state.(active := state.active + 1, dialling := state.dialling + 1);
      return Dial, null;
    }

    /** The end of a dial: a failure gives the place back; a new client goes straight to the borrower. */
    method FinishDial(client: Client?)
      requires Valid() && state.dialling > 0
      modifies this`activeCount, this`state
      ensures Valid()
      ensures state == if client == null then DialFailed(old(state)) else DialDone(old(state), client.id)
    {
      if client == null {
        activeCount := activeCount - 1;
        state := DialFailed(state);
      } else {
        state := DialDone(state, client.id);
      }
    }

    /** One tick of the waiting loop. */
    method Poll(now: int) returns (grant: Grant, client: Client?)
      requires Valid() && Distinct(state.available)
      modifies this, available
      ensures Valid()
      ensures var r := PoolProtocol.Poll(old(state), now);
              state == r.pool && grant == r.grant
      ensures RestClosed(old(available), available, client)
      ensures client != null <==> grant.Got?
      ensures client != null ==> client in old(available) && grant == Got(client.id)
    {
      if closed { return PoolClosed, null; }
      if |available| > 0 {
        var usable;
        client, usable := TakeLast(now);
        if usable { return Got(client.id), client; }
      }
      return Wait, null;
    }

    /** Gives a lent client back: it waits at the end of the list, or is closed with the pool. */
    method Release(c: Client, now: int)
      requires Valid() && c.id in state.lent && Exclusive(state)
      modifies this, c
      ensures Valid()
      ensures state == PoolProtocol.Release(old(state), c.id, c.raw, now).pool
      ensures c.open == (old(c.open) && !closed)
      ensures !closed ==> available == old(available) + [c]
    {
      NotIdle(c);
      state := PoolProtocol.Release(state, c.id, c.raw, now).pool;
      if closed {
        c.Close();
        activeCount := activeCount - 1;
      } else {
        c.lastUsed := now;
        lastActive := now;
        available := available + [c];
      }
    }

    lemma NotIdle(c: Client)
      requires Valid() && c.id !in Conns(state.available)
      ensures c !in available
    {
      ConnsAt(state.available);
      forall k | 0 <= k < |available| ensures available[k] != c { assert Matches(available[k], state.available[k]); }
    }

    /** Closes the pool and every idle client. */
    method Close()
      requires Valid()
      modifies this`available, this`activeCount, this`closed, this`state, available`open
      ensures Valid() && closed
      ensures state == PoolProtocol.Close(old(state)).pool
      ensures forall c :: c in old(available) ==> !c.open
    {
      state := PoolProtocol.Close(state).pool;
      if closed { return; }
      closed := true;
      for n := 0 to |available|
        invariant forall k :: 0 <= k < n ==> !available[k].open
        modifies available`open
      {
        available[n].Close();
      }
      available := [];
      activeCount := 0;
    }
  }

  ghost predicate Covered(clients: seq<Client>, all: set<Client>) { forall c :: c in clients ==> c in all }

  ghost predicate AllClosed(clients: seq<Client>)
    reads clients
  {
    forall c :: c in clients ==> !c.open
  }

  ghost function Flat(idle: map<string, seq<Client>>): set<Client> { set k, c | k in idle && c in idle[k] :: c }

  lemma FlatCovers(idle: map<string, seq<Client>>)
    ensures forall k :: k in idle ==> Covered(idle[k], Flat(idle))
  {}

  /** The registry. Several keys never name one pool. */
  class PoolManager {
    var pools: map<string, UserPool>

    ghost predicate Valid()
      reads this, pools.Values, Clients()
    {
      && (forall k :: k in pools ==> Covered(pools[k].available, Clients()) && pools[k].Valid())
      && (forall k, m :: k in pools && m in pools && k != m ==> pools[k] != pools[m])
    }

    ghost function Clients(): set<Client>
      reads this, pools.Values
    {
      set k, c | k in pools && c in pools[k].available :: c
    }

    constructor ()
      ensures Valid() && pools == map[]
    {
      pools := map[];
    }

    /** The first region of `GetClient`. */
    method Lookup(session: string, account: string, now: int) returns (pool: UserPool)
      requires Valid()
      modifies this
      ensures Valid()
      ensures var key := PoolSystem.KeyOf(session, account);
              key in pools && pools[key] == pool && pools - {key} == old(pools) - {key}
              && (if key in old(pools) then pool == old(pools)[key]
                  else fresh(pool) && pool.state == NewPool(4, PoolSystem.IDLE_TIMEOUT, now))
    {
      var key := session + "::" + account;
      if key in pools { return pools[key]; }
      pool := new UserPool(4, 300_000_000_000, now);
      pools := pools[key := pool];
    }

    ghost function Left(p: Pool, gone: bool): Pool { if gone then PoolProtocol.Close(p).pool else p }

    /**
     A key that has left, whose pool is closed with its idle clients, or one that has not, whose pool is untouched.
     */
    ghost predicate KeyLeft(key: string, pool: UserPool, state: Pool, idle: seq<Client>, gone: bool)
      reads this, pool, idle
    {
      && (key in pools <==> !gone) && pool.state == Left(state, gone)
      && (if gone then AllClosed(idle) else pool.available == idle)
    }

    /** What is left of registered pools `was`, with these states and idle clients, when the keys `gone` have left. */
    ghost predicate Removed(was: map<string, UserPool>, states: map<string, Pool>, idle: map<string, seq<Client>>,
        gone: set<string>)
      reads this, was.Values, Flat(idle)
    {
      && states.Keys == was.Keys == idle.Keys
      && (forall k :: k in pools ==> k in was && pools[k] == was[k])
      && (forall k {:trigger KeyLeft(k, was[k], states[k], idle[k], k in gone)} :: k in was ==>
            Covered(idle[k], Flat(idle)) && KeyLeft(k, was[k], states[k], idle[k], k in gone))
    }

    ghost function States(): map<string, Pool>
      reads this, pools.Values
    {
      map k | k in pools :: pools[k].state
    }

    /** The idle clients of every registered pool. */
    ghost function Idle(): map<string, seq<Client>>
      reads this, pools.Values
    {
      map k | k in pools :: pools[k].available
    }

    /** Closes a registered pool and deletes its key; the other pools are left alone. */
    method CloseOne(key: string)
      requires Valid() && key in pools
      modifies this, pools[key], pools[key].available`open
      ensures Valid() && pools == old(pools) - {key}
      ensures old(pools)[key].state == PoolProtocol.Close(old(pools[key].state)).pool
      ensures forall c :: c in old(pools[key].available) ==> !c.open
    {
      var pool := pools[key];
      pool.Close();
      pools := pools - {key};
      assert forall k :: k in pools ==> pools[k] == old(pools)[k] && pools[k] != pool;
      assert forall k :: k in pools ==> pools[k].available == old(pools[k].available) && pools[k].Valid();
    }

    /** One more key of a loop. */
    method Drop(key: string, ghost was: map<string, UserPool>, ghost states: map<string, Pool>,
        ghost idle: map<string, seq<Client>>,
                ghost gone: set<string>)
      requires Valid() && key in pools && Removed(was, states, idle, gone)
      requires forall k :: k in was && k != key ==> was[k] != pools[key]
      modifies this, pools[key], pools[key].available`open
      ensures Valid() && Removed(was, states, idle, gone + {key})
    {
      assert KeyLeft(key, was[key], states[key], idle[key], key in gone);
      CloseOne(key);
      forall k | k in was ensures KeyLeft(k, was[k], states[k], idle[k], k in gone + {key}) {
        assert old(KeyLeft(k, was[k], states[k], idle[k], k in gone));
      }
    }

    method DestroyPool(session: string, account: string)
      requires Valid()
      modifies this, pools.Values, Clients()`open
      ensures Valid() && Removed(old(pools), old(States()), old(Idle()), {PoolSystem.KeyOf(session, account)})
    {
      var key := session + "::" + account;
      ghost var was, states, idle := pools, States(), Idle();
      FlatCovers(idle);
      assert forall k :: k in was ==> KeyLeft(k, was[k], states[k], idle[k], k in {});
      assert {} + {key} == {key};
      if key in pools { Drop(key, was, states, idle, {}); }
      else { assert forall k :: k in was ==> KeyLeft(k, was[k], states[k], idle[k], k in {key}); }
    }

    /** The loop that closes pools and deletes their keys, in any order. */
    method DropEach(keys: set<string>)
      requires Valid() && keys <= pools.Keys
      modifies this, pools.Values, Clients()`open
      ensures Valid() && Removed(old(pools), old(States()), old(Idle()), keys)
    {
      ghost var was, states, idle := pools, States(), Idle();
      FlatCovers(idle);
      ghost var gone: set<string> := {};
      var todo := keys;
      while todo != {}
        invariant todo <= keys && todo !! gone && todo + gone == keys
        invariant Valid() && Removed(was, states, idle, gone)
      {
        var k :| k in todo;
        assert KeyLeft(k, was[k], states[k], idle[k], k in gone);
        Drop(k, was, states, idle, gone);
        todo, gone := todo - {k}, gone + {k};
      }
    }

    method DestroySessionPools(session: string)
      requires Valid()
      modifies this, pools.Values, Clients()`open
      ensures Valid() &&
              Removed(old(pools), old(States()), old(Idle()),
                set k | k in old(pools) && PoolSystem.HasPrefix(k, session + "::"))
    {
      DropEach(set k | k in pools && PoolSystem.HasPrefix(k, session + "::"));
    }

    method CloseAll()
      requires Valid()
      modifies this, pools.Values, Clients()`open
      ensures Valid() && Removed(old(pools), old(States()), old(Idle()), old(pools).Keys) && pools == map[]
    {
      ghost var was, states, idle := pools, States(), Idle();
      DropEach(pools.Keys);
      forall k ensures k !in pools { if k in was { assert KeyLeft(k, was[k], states[k], idle[k], k in was.Keys); } }
      assert pools.Keys == {};
    }

    /** One pass of the janitor: pools nobody used for a quarter of an hour are closed. */
    method Janitor(now: int)
      requires Valid()
      modifies this, pools.Values, Clients()`open
      ensures Valid()
      ensures Removed(old(pools), old(States()), old(Idle()),
              set k | k in old(pools) && now - old(pools[k].state.lastActive) > 900_000_000_000)
    {
      var unused := set k | k in pools && now - pools[k].lastActive > PoolSystem.JANITOR_LIMIT;
      assert unused == set k | k in pools && now - pools[k].state.lastActive > PoolSystem.JANITOR_LIMIT;
      DropEach(unused);
    }
  }
}
