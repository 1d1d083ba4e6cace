/**
 * Every run of logins, password changes, added accounts and changes made to LDAP from outside. The books kept
 * beside the stores remember each owner's first DEK and last committed master password.
 */
module PasswordRuns {
  import opened Wrappers
  import opened Envelope
  import opened PasswordSaga
  import Attempts

  /** `log` are the calls made to the limiter of wrong passwords, the last of them not after `clock`. */
  datatype State = State(
    world: World,
    sessions: set<Context>,
    first: map<string, Key>,
    master: map<string, string>,
    log: seq<Attempts.Op>,
    clock: int)

  /** A login, or the end of one with a second factor. */
  ghost predicate SignsIn(cfg: Config, s: State, t: State, email: string, password: string, session: string, e: Env) {
    var (c, w) := OpenSession(cfg, s.world, email, password, session, e);
    var owner := cfg.normalize(email);
    var isFirst := owner !in s.world.users && owner in w.users;
    t == State(
      w,
      if c.Some? then s.sessions + {c.value} else s.sessions,
      if isFirst then s.first[owner := Dek(e.dek)] else s.first,
      if isFirst then s.master[owner := password] else s.master,
      s.log,
      s.clock)
  }

  ghost predicate Changes(cfg: Config, s: State, t: State, c: Context, q: Request, e: Env, r: Result) {
    && c in s.sessions && s.clock <= e.now == t.clock && Served(cfg, s.world, s.log, c, q, e, r, t.world, t.log)
    && t.sessions == s.sessions && t.first == s.first
    && t.master == (if r.Changed? && PlanFor(cfg, s.world, c, q).login then s.master[c.email := q.newPassword]
      else s.master)
  }

  /** An account added in a session, its passwords encrypted under the session's DEK. */
  ghost predicate AddsAccount(s: State, t: State, c: Context, row: Row) {
    && c in s.sessions && Readable(row, c.dek)
    && t == s.(world := s.world.(rows := s.world.rows[c.email := RowsOf(s.world, c.email) + [row]]))
  }

  /** Time passes, sessions end, and somebody else writes to LDAP. */
  ghost predicate Outside(s: State, t: State) {
    && t.sessions <= s.sessions && s.clock <= t.clock
    && t == s.(world := s.world.(ldap := t.world.ldap), sessions := t.sessions, clock := t.clock)
  }

  ghost predicate Moves(cfg: Config, s: State, t: State) {
    || (exists email, password, session, e :: SignsIn(cfg, s, t, email, password, session, e))
    || (exists c, q, e, r :: Changes(cfg, s, t, c, q, e, r))
    || (exists c, row :: AddsAccount(s, t, c, row))
    || Outside(s, t)
  }

  // ----- the invariant -----

  predicate Readable(row: Row, dek: Key) {
    Decrypt(dek, row.imapPassword).Some? && Decrypt(dek, row.smtpPassword).Some?
  }

  predicate RowsReadable(rows: seq<Row>, dek: Key) { forall r :: r in rows ==> Readable(r, dek) }

  ghost predicate WrapsOk(s: State) {
    && s.world.users.Keys == s.first.Keys == s.master.Keys
    && forall o :: o in s.first ==> WrapOpens(s.world, o, s.master[o], s.first[o])
  }

  ghost predicate RowsOk(s: State) {
    forall o :: o in s.world.rows ==>
      s.world.rows[o] == [] || (o in s.first && RowsReadable(s.world.rows[o], s.first[o]))
  }

  ghost predicate SessionsOk(s: State) {
    forall c :: c in s.sessions ==> c.email in s.first && c.dek == s.first[c.email]
  }

  /**
   Every wrap opens under the last master password to the first DEK, which reads every row and is in every session.
   */
  ghost predicate Inv(s: State) { WrapsOk(s) && RowsOk(s) && SessionsOk(s) }

  ghost predicate Start(s: State) {
    s.world.users == map[] && s.world.rows == map[] && s.sessions == {} && s.first == map[] && s.master == map[] &&
      s.log == []
  }

  /** The first DEK of an owner is never replaced. */
  ghost predicate Extends(s: State, t: State) { forall o :: o in s.first ==> o in t.first && t.first[o] == s.first[o] }

  /** Resolving a credential: the books stay right, and the key it gives is the owner's first DEK. */
  lemma ResolveKeeps(s: State, t: State, owner: string, password: string, e: Env)
    requires WrapsOk(s)
    requires var users := Resolve(s.world.users, owner, password, e).1;
             && t.world.users == users
             && (if owner !in s.world.users && owner in users
                 then t.first == s.first[owner := Dek(e.dek)] && t.master == s.master[owner := password]
                 else t.first == s.first && t.master == s.master)
    ensures WrapsOk(t) && Extends(s, t)
    ensures var dek := Resolve(s.world.users, owner, password, e).0;
            dek.Some? ==> owner in t.first && t.first[owner] == dek.value
  {
    if owner in s.world.users {
      assert WrapOpens(s.world, owner, s.master[owner], s.first[owner]);
    }
    assert t.world.users.Keys == t.first.Keys == t.master.Keys;
    forall o | o in t.first ensures WrapOpens(t.world, o, t.master[o], t.first[o]) {
      if o in s.first { assert WrapOpens(s.world, o, s.master[o], s.first[o]); }
    }
  }

  /** Signing in adds at most a first row, which the resolved DEK reads. */
  lemma OpenSessionRows(cfg: Config, w: World, email: string, password: string, session: string, e: Env)
    ensures var (c, w2) := OpenSession(cfg, w, email, password, session, e);
            var owner := cfg.normalize(email);
            var (dek, users) := Resolve(w.users, owner, password, e);
            && w2.users == users
            && (c.Some? ==> dek.Some? && c.value.email == owner && c.value.dek == dek.value)
            && (w2.rows == w.rows ||
              (dek.Some? && exists row :: Readable(row, dek.value) && w2.rows == w.rows[owner := [row]]))
  {
    var dek := Resolve(w.users, cfg.normalize(email), password, e).0;
    if dek.Some? { assert Readable(FirstRow(email, password, dek.value, e), dek.value); }
  }

  /** At most a readable first row was added. */
  lemma RowsAdded(s: State, t: State, owner: string)
    requires RowsOk(s) && Extends(s, t)
    requires t.world.rows == s.world.rows
          || (&& owner in t.first
              && exists row :: Readable(row, t.first[owner]) && t.world.rows == s.world.rows[owner := [row]])
    ensures RowsOk(t)
  {
    if t.world.rows != s.world.rows {
      var row :| Readable(row, t.first[owner]) && t.world.rows == s.world.rows[owner := [row]];
      assert RowsReadable([row], t.first[owner]);
    }
  }

  lemma SessionAdded(s: State, t: State, c: Option<Context>)
    requires SessionsOk(s) && Extends(s, t)
    requires t.sessions == if c.Some? then s.sessions + {c.value} else s.sessions
    requires c.Some? ==> c.value.email in t.first && c.value.dek == t.first[c.value.email]
    ensures SessionsOk(t)
  {}

  lemma SignsInKeeps(cfg: Config, s: State, t: State, email: string, password: string, session: string, e: Env)
    requires Inv(s) && SignsIn(cfg, s, t, email, password, session, e)
    ensures Inv(t) && Extends(s, t)
  {
    OpenSessionRows(cfg, s.world, email, password, session, e);
    ResolveKeeps(s, t, cfg.normalize(email), password, e);
    RowsAdded(s, t, cfg.normalize(email));
    SessionAdded(s, t, OpenSession(cfg, s.world, email, password, session, e).0);
  }

  lemma ChangesKeeps(cfg: Config, s: State, t: State, c: Context, q: Request, e: Env, r: Result)
    requires Inv(s) && Changes(cfg, s, t, c, q, e, r)
    ensures Inv(t) && Extends(s, t)
  {
    var p := PlanFor(cfg, s.world, c, q);
    ChangesStores(cfg, s.world, s.log, c, q, e, r, t.world);
    StoresKeep(s, t, c, p, q, e, r.Changed? && p.login);
  }

  /** A row that may have a new password, and a wrap that has one if `rewrapped`. */
  lemma StoresKeep(s: State, t: State, c: Context, p: Plan, q: Request, e: Env, rewrapped: bool)
    requires Inv(s) && c in s.sessions && t.sessions == s.sessions && t.first == s.first
    requires p.row.Some? ==> p.row.value < |RowsOf(s.world, c.email)|
    requires t.world.rows == s.world.rows || t.world.rows == WithRow(s.world, c, p, q, e)
    requires t.world.users == if rewrapped then s.world.users[c.email := NewWrap(c, q, e)] else s.world.users
    requires t.master == if rewrapped then s.master[c.email := q.newPassword] else s.master
    ensures Inv(t)
  {
    RowWritten(s.world, c, p, q, e, s.first[c.email]);
    if rewrapped { RewrapKeeps(s, t, c, q, e); } else { WrapsSame(s, t); }
    assert RowsOk(t);
  }

  lemma WrapsSame(s: State, t: State)
    requires WrapsOk(s) && t.world.users == s.world.users && t.first == s.first && t.master == s.master
    ensures WrapsOk(t)
  {
    forall o | o in t.first ensures WrapOpens(t.world, o, t.master[o], t.first[o]) {
      assert WrapOpens(s.world, o, s.master[o], s.first[o]);
    }
  }

  lemma RewrapKeeps(s: State, t: State, c: Context, q: Request, e: Env)
    requires WrapsOk(s) && SessionsOk(s) && c in s.sessions && t.first == s.first
    requires t.world.users == s.world.users[c.email := NewWrap(c, q, e)] &&
            t.master == s.master[c.email := q.newPassword]
    ensures WrapsOk(t)
  {
    forall o | o in t.first ensures WrapOpens(t.world, o, t.master[o], t.first[o]) {
      assert WrapOpens(s.world, o, s.master[o], s.first[o]);
    }
  }

  /** The rows are as before or have the new one; the wraps are as before unless the login password changed. */
  lemma ChangesStores(cfg: Config, w: World, log: seq<Attempts.Op>, c: Context, q: Request, e: Env, r: Result,
      after: World)
    requires Outcome(cfg, w, log, c, q, e, r, after)
    ensures var p := PlanFor(cfg, w, c, q);
            && (after.rows == w.rows || after.rows == WithRow(w, c, p, q, e))
            && after.users == if r.Changed? && p.login then w.users[c.email := NewWrap(c, q, e)] else w.users
  {}

  /** The rows of the session's owner stay readable when one of them gets a new password. */
  lemma RowWritten(w: World, c: Context, p: Plan, q: Request, e: Env, dek: Key)
    requires p.row.Some? ==> p.row.value < |RowsOf(w, c.email)|
    requires c.dek == dek && (c.email in w.rows ==> RowsReadable(w.rows[c.email], dek))
    ensures c.email in WithRow(w, c, p, q, e) ==> RowsReadable(WithRow(w, c, p, q, e)[c.email], dek)
    ensures forall o :: o != c.email ==> (o in WithRow(w, c, p, q, e) <==> o in w.rows)
    ensures forall o :: o != c.email && o in w.rows ==> WithRow(w, c, p, q, e)[o] == w.rows[o]
  {}

  lemma StepKeeps(cfg: Config, s: State, t: State)
    requires Inv(s) && Moves(cfg, s, t)
    ensures Inv(t) && Extends(s, t)
  {
    if email, password, session, e :| SignsIn(cfg, s, t, email, password, session, e) {
      SignsInKeeps(cfg, s, t, email, password, session, e);
    } else if c, q, e, r :| Changes(cfg, s, t, c, q, e, r) {
      ChangesKeeps(cfg, s, t, c, q, e, r);
    } else if c, row :| AddsAccount(s, t, c, row) {
      assert forall r :: r in RowsOf(s.world, c.email) + [row] ==> r in RowsOf(s.world, c.email) || r == row;
    }
  }

  ghost predicate Run(cfg: Config, states: seq<State>) {
    && states != [] && Start(states[0])
    && forall k :: 0 <= k < |states| - 1 ==> Moves(cfg, states[k], states[k + 1])
  }

  lemma {:induction false} RunInv(cfg: Config, states: seq<State>, i: nat)
    requires Run(cfg, states) && i < |states|
    ensures Inv(states[i])
    decreases i
  {
    if i > 0 {
      RunInv(cfg, states, i - 1);
      assert Moves(cfg, states[i - 1], states[i]);
      StepKeeps(cfg, states[i - 1], states[i]);
    }
  }

  lemma ExtendsOn(r: State, s: State, t: State)
    requires Extends(r, s) && Extends(s, t)
    ensures Extends(r, t)
  {}

  lemma MoveExtends(cfg: Config, states: seq<State>, j: nat)
    requires Run(cfg, states) && 0 < j < |states|
    ensures Extends(states[j - 1], states[j])
  {
    RunInv(cfg, states, j - 1);
    assert Moves(cfg, states[j - 1], states[j]);
    StepKeeps(cfg, states[j - 1], states[j]);
  }

  lemma {:induction false} RunExtends(cfg: Config, states: seq<State>, i: nat, j: nat)
    requires Run(cfg, states) && i <= j < |states|
    ensures Extends(states[i], states[j])
    decreases j
  {
    if i < j {
      RunExtends(cfg, states, i, j - 1);
      MoveExtends(cfg, states, j);
      ExtendsOn(states[i], states[j - 1], states[j]);
    }
  }

  /**
   * The DEK of an owner never changes: whatever happened since its first login, the stored wrap opens under the
   * last committed master password, and only under it, to the first DEK, and that DEK reads every stored password.
   */
  lemma DekNeverChanges(cfg: Config, states: seq<State>, i: nat, j: nat, owner: string)
    requires Run(cfg, states) && i <= j < |states| && owner in states[i].world.users
    ensures owner in states[i].first && owner in states[j].master
    ensures var dek := states[i].first[owner];
            && (forall password, k ::
                  WrapOpens(states[j].world, owner, password, k) <==> password == states[j].master[owner] && k == dek)
            && RowsReadable(RowsOf(states[j].world, owner), dek)
  {
    RunInv(cfg, states, i);
    RunInv(cfg, states, j);
    RunExtends(cfg, states, i, j);
    assert owner in states[i].first;
    assert WrapOpens(states[j].world, owner, states[j].master[owner], states[j].first[owner]);
  }

  // ----- the limiter over runs -----

  ghost predicate LogOk(s: State) {
    Attempts.Timely(s.log, s.clock) && forall key :: Attempts.OneWindow(s.log, key, FAILURE_WINDOW)
  }

  lemma {:induction false} TimelyLater(log: seq<Attempts.Op>, end: int, later: int)
    requires Attempts.Timely(log, end) && end <= later
    ensures Attempts.Timely(log, later)
    decreases |log|
  {
    if log != [] && log[|log| - 1].Clear? { TimelyLater(log[..|log| - 1], end, later); }
  }

  /** A call that is not before the others. */
  lemma TimelySnoc(log: seq<Attempts.Op>, op: Attempts.Op, now: int)
    requires Attempts.Timely(log, now) && (op.Ask? ==> op.now == now && op.window > 0) && (op.Record? ==> op.now == now)
    ensures Attempts.Timely(log + [op], now)
  {
    assert (log + [op])[..|log|] == log;
  }

  lemma RequestKeepsLog(log: seq<Attempts.Op>, key: string, e: Env, r: Result)
    requires Attempts.Timely(log, e.now)
    ensures Attempts.Timely(log + LimiterCalls(key, e, r), e.now)
  {
    var ask := Attempts.Ask(key, MAX_FAILURES, FAILURE_WINDOW, e.now);
    if StopsBeforeLimiter(r) {
      assert log + [] == log;
    } else {
      TimelySnoc(log, ask, e.now);
      var next := if r.Changed? then [Attempts.Clear(key)] else if r.WrongPassword? then [Attempts.Record(key, e.now)]
        else [];
      if next == [] {
        assert log + ([ask] + []) == log + [ask];
      } else {
        TimelySnoc(log + [ask], next[0], e.now);
        assert log + ([ask] + next) == (log + [ask]) + [next[0]];
      }
    }
  }

  lemma StepKeepsLog(cfg: Config, s: State, t: State)
    requires LogOk(s) && Moves(cfg, s, t)
    ensures LogOk(t)
  {
    if c, q, e, r :| Changes(cfg, s, t, c, q, e, r) {
      var key := LimiterKey(cfg, c, PlanFor(cfg, s.world, c, q));
      TimelyLater(s.log, s.clock, e.now);
      RequestKeepsLog(s.log, key, e, r);
      forall k ensures Attempts.OneWindow(t.log, k, FAILURE_WINDOW) { LimiterCallsUseOneWindow(s.log, k, key, e, r); }
    } else {
      assert t.log == s.log && s.clock <= t.clock;
      TimelyLater(s.log, s.clock, t.clock);
    }
  }

  lemma {:induction false} RunKeepsLog(cfg: Config, states: seq<State>, i: nat)
    requires Run(cfg, states) && i < |states|
    ensures LogOk(states[i])
    decreases i
  {
    if i > 0 {
      RunKeepsLog(cfg, states, i - 1);
      assert Moves(cfg, states[i - 1], states[i]);
      StepKeepsLog(cfg, states[i - 1], states[i]);
    }
  }

  /**
   * In every state of every run, a password change is refused by the limiter exactly when the wrong passwords
   * recorded for the session and target since the last success, and within ten minutes, number ten.
   */
  lemma RefusedAfterTen(cfg: Config, states: seq<State>, i: nat, c: Context, p: Plan, e: Env)
    requires Run(cfg, states) && i < |states| && states[i].clock <= e.now
    ensures var log, key := states[i].log, LimiterKey(cfg, c, p);
            Blocked(cfg, log, c, p, e)
            <==> |Attempts.Recent(Attempts.History(log, key), e.now - FAILURE_WINDOW)| >= MAX_FAILURES
  {
    RunKeepsLog(cfg, states, i);
    TimelyLater(states[i].log, states[i].clock, e.now);
    BlockedByRecentFailures(cfg, states[i].log, c, p, e);
  }
}
