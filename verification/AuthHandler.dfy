/**
 * The handler as the source runs it: one store call after another, with early returns and compensation. Its
 * methods are proved to have the outcomes that PasswordSaga describes.
 */
module AuthHandler {
  import opened Wrappers
  import opened Envelope
  import opened PasswordSaga
  import Attempts

  /** `UPDATE accounts … WHERE owner_id = ? AND id = ?`, on the rows of one owner. */
  function UpdateWhere(rows: seq<Row>, row: Row): (r: seq<Row>)
    ensures |r| == |rows| && forall i :: 0 <= i < |r| ==> r[i] == if rows[i].id == row.id then row else rows[i]
  {
    if rows == [] then [] else [if rows[0].id == row.id then row else rows[0]] + UpdateWhere(rows[1..], row)
  }

  lemma UpdateIsOneRow(rows: seq<Row>, i: nat, row: Row)
    requires DistinctIds(rows) && i < |rows| && row.id == rows[i].id
    ensures UpdateWhere(rows, row) == rows[i := row]
    ensures UpdateWhere(rows[i := row], rows[i]) == rows && DistinctIds(rows[i := row])
  {}

  /** A request that the limiter, the directory or the old password refuses. */
  lemma Refused(w: World, c: Context, p: Plan, blocked: bool, q: Request, e: Env, r: Result)
    requires ReachesLimiter(p, q, e) && (p.row.Some? ==> p.row.value < |RowsOf(w, c.email)|)
    requires r.Limited? || r.NoDN? || r.LdapDown? || r.WrongPassword?
    requires r.Limited? <==> blocked
    requires r.WrongPassword? <==> ReachesBind(p, blocked, q, e) && !Accepts(w, p.dn.value, q.oldPassword)
    requires ReachesBind(p, blocked, q, e) ==> !Accepts(w, p.dn.value, q.oldPassword)
    requires DirectoryRefusal(p, blocked, e, r)
    ensures Verdict(w, c, p, blocked, q, e, r) && Leaves(w, c, p, q, e, r, w)
  {}

  /** A request whose old password was verified. */
  lemma Verified(w: World, c: Context, p: Plan, blocked: bool, q: Request, e: Env, r: Result)
    requires ReachesBind(p, blocked, q, e) && Accepts(w, p.dn.value, q.oldPassword)
    requires p.row.Some? ==> p.row.value < |RowsOf(w, c.email)|
    requires r.CryptoFailed? || r.LdapRefused? || r.Changed? || r.RowFailed? || r.CredentialFailed?
    requires r.CryptoFailed? <==> !Computed(p, e)
    requires r.LdapRefused? <==> Computed(p, e) && LdapWrite in e.fails
    requires r.RowFailed? ==> !RowStored(w, c, p, e)
    requires r.CredentialFailed? ==> RowStored(w, c, p, e) && !WrapStored(w, c, p, e)
    requires r.Changed? ==> RowStored(w, c, p, e) && WrapStored(w, c, p, e)
    ensures Verdict(w, c, p, blocked, q, e, r)
  {}

  class Handler {
    const cfg: Config
    var ldap: map<string, set<string>>
    var rows: map<string, seq<Row>>
    var users: map<string, Credential>
    /** The calls made to the limiter; its answers are what Attempts gives after them. */
    var log: seq<Attempts.Op>

    function State(): World
      reads this
    {
      World(ldap, rows, users)
    }

    ghost predicate Valid()
      reads this
    {
      forall o :: o in rows ==> DistinctIds(rows[o])
    }

    constructor (cfg: Config)
      ensures Valid() && State() == World(map[], map[], map[]) && log == [] && this.cfg == cfg
    {
      this.cfg := cfg;
      ldap, rows, users, log := map[], map[], map[], [];
    }

    // ----- store calls -----

    /** `UpdateAccount`: false when the call fails. */
    method UpdateAccount(owner: string, row: Row, call: Call, e: Env) returns (ok: bool)
      modifies this`rows
      ensures ok == (call !in e.fails && row.id != "")
      ensures rows == if ok && owner in old(rows) then old(rows)[owner := UpdateWhere(old(rows)[owner], row)]
              else old(rows)
    {
      if row.id == "" || call in e.fails { return false; }
      if owner in rows { rows := rows[owner := UpdateWhere(rows[owner], row)]; }
      return true;
    }

    /** `ldap.Client.ChangePassword`: replaces the passwords of an entry. */
    method WriteLdap(dn: string, password: string, call: Call, e: Env) returns (ok: bool)
      modifies this`ldap
      ensures ok == (call !in e.fails && dn in old(ldap))
      ensures ldap == if ok then old(ldap)[dn := {password}] else old(ldap)
    {
      if call in e.fails || dn !in ldap { return false; }
      ldap := ldap[dn := {password}];
      return true;
    }

    /** `GetUserCredential`: false when the call fails. */
    method GetUserCredential(owner: string, e: Env) returns (ok: bool, cred: Option<Credential>)
      ensures ok == (ReadCredential !in e.fails)
      ensures cred == if ok && owner in users then Some(users[owner]) else None
    {
      if ReadCredential in e.fails { return false, None; }
      return true, if owner in users then Some(users[owner]) else None;
    }

    /** `CreateUserCredential`: the owner is a primary key. */
    method CreateUserCredential(owner: string, cred: Credential, e: Env) returns (ok: bool)
      modifies this`users
      ensures ok == (owner != "" && WriteCredential !in e.fails && owner !in old(users))
      ensures users == if ok then old(users)[owner := cred] else old(users)
    {
      if owner == "" || WriteCredential in e.fails || owner in users { return false; }
      users := users[owner := cred];
      return true;
    }

    /** `UpdateUserCredential` changes nothing for an unknown owner. */
    method UpdateUserCredential(owner: string, cred: Credential, call: Call, e: Env) returns (ok: bool)
      modifies this`users
      ensures ok == (owner != "" && call !in e.fails)
      ensures users == if ok && owner in old(users) then old(users)[owner := cred] else old(users)
    {
      if owner == "" || call in e.fails { return false; }
      if owner in users { users := users[owner := cred]; }
      return true;
    }

    // ----- logging in -----

    /** `resolveCredential` */
    method ResolveCredential(owner: string, password: string, e: Env) returns (dek: Option<Key>)
      modifies this`users
      ensures (dek, users) == Resolve(old(users), owner, password, e)
    {
      var ok, cred := GetUserCredential(owner, e);
      if !ok { return None; }
      if cred.None? {
        if GenerateSalt in e.fails || GenerateDek in e.fails || WrapDek in e.fails { return None; }
        var wrapped := Encrypt(Master(password, e.salt), e.nonce, KeyBytes(Dek(e.dek)));
        ok := CreateUserCredential(owner, Credential(e.salt, wrapped), e);
        return if ok then Some(Dek(e.dek)) else None;
      }
      var plain := Decrypt(Master(password, cred.value.salt), cred.value.wrapped);
      return if plain.Some? then Some(AsKey(plain.value)) else None;
    }

    /** `Login`; the rest of a login with a second factor is `CompleteLogin`. */
    method Login(email: string, password: string, session: string, secondFactor: bool, e: Env)
        returns (c: Option<Context>)
      requires Valid()
      modifies this`users, this`rows
      ensures Valid() && (c, State()) == SignIn(cfg, old(State()), email, password, session, secondFactor, e)
    {
      if email == "" || password == "" { return None; }
      if ImapLogin in e.fails { return None; }
      if secondFactor { return None; }
      c := CompleteLogin(email, password, session, e);
    }

    /** What follows the checks of a login. */
    method CompleteLogin(email: string, password: string, session: string, e: Env) returns (c: Option<Context>)
      requires Valid()
      modifies this`users, this`rows
      ensures Valid() && (c, State()) == OpenSession(cfg, old(State()), email, password, session, e)
    {
      var owner := cfg.normalize(email);
      var dek := ResolveCredential(owner, password, e);
      if dek.None? || ListAccounts in e.fails { return None; }
      var accounts := RowsOf(State(), owner);
      if |accounts| == 0 {
        if SealImap in e.fails || SealSmtp in e.fails || CreateRow in e.fails { return None; }
        if IdTaken(State(), e.id) { return None; }
        rows := rows[owner := [FirstRow(email, password, dek.value, e)]];
      }
      return if CreateSession in e.fails then None else Some(Context(session, owner, dek.value));
    }

    // ----- changing a password -----

    /** The loop that looks for the account to change. */
    method FindAccount(accounts: seq<Row>, owner: string, account: string) returns (r: Option<nat>)
      ensures r == Target(cfg, accounts, owner, account)
    {
      for i := 0 to |accounts|
        invariant forall j :: 0 <= j < i ==> !Selected(cfg, accounts[j], owner, account)
      {
        if Selected(cfg, accounts[i], owner, account) { return Some(i); }
      }
      return None;
    }

    /** The checks of a request body. */
    method Validate(q: Request, ghost e: Env) returns (refusal: Option<Result>)
      ensures refusal == if WellFormed(q) then None else Some(EarlyRefusal(q, e))
    {
      if q.oldPassword == "" || q.newPassword == "" { return Some(Missing); }
      if q.newPassword != q.confirm { return Some(Mismatch); }
      if |q.newPassword| < MIN_LENGTH { return Some(TooShort); }
      if q.newPassword == q.oldPassword { return Some(Unchanged); }
      return None;
    }

    /** Finds the target of a request. */
    method ResolveTarget(c: Context, q: Request, e: Env) returns (refusal: Option<Result>, p: Plan)
      requires WellFormed(q)
      ensures p == PlanFor(cfg, State(), c, q)
      ensures refusal == if ReachesLimiter(p, q, e) then None else Some(EarlyRefusal(q, e))
    {
      var accounts := RowsOf(State(), c.email);
      var acc := FindAccount(accounts, c.email, q.account);
      var login := acc.None? || cfg.normalize(accounts[acc.value].email) == c.email;
      var email := if login then c.email else accounts[acc.value].email;
      p := Plan(acc, login, email, cfg.userDN(email));
      refusal := if ListAccounts in e.fails then Some(ListFailed)
                 else if q.account != "" && acc.None? then Some(NoSuchAccount) else None;
    }

    /** The limiter's answer and the bind as the user: what refuses the request, if anything. */
    method VerifyOld(q: Request, p: Plan, blocked: bool, e: Env) returns (refusal: Option<Result>)
      ensures var bound := !blocked && p.dn.Some? && VerifyBind !in e.fails;
              && (refusal.None? <==> bound && Accepts(State(), p.dn.value, q.oldPassword))
              && ((refusal.Some? && refusal.value.WrongPassword?)
                <==> bound && !Accepts(State(), p.dn.value, q.oldPassword))
      ensures (refusal.Some? && refusal.value.Limited?) <==> blocked
      ensures refusal.Some? ==>
              (refusal.value.Limited? || refusal.value.NoDN? || refusal.value.LdapDown? || refusal.value.WrongPassword?)
      ensures refusal.Some? ==> DirectoryRefusal(p, blocked, e, refusal.value)
    {
      if blocked { return Some(Limited); }
      if p.dn.None? { return Some(NoDN); }
      if VerifyBind in e.fails { return Some(LdapDown); }
      if !Accepts(State(), p.dn.value, q.oldPassword) { return Some(WrongPassword); }
      return None;
    }

    /** The passwords of a session's accounts, decrypted one by one. */
    method DecryptPasswords(accounts: seq<Row>, dek: Key) returns (passwords: map<string, Plain>)
      ensures passwords == PasswordsOf(accounts, dek)
    {
      passwords := map[];
      for i := 0 to |accounts|
        invariant passwords == PasswordsOf(accounts[..i], dek)
      {
        assert accounts[..i + 1][..i] == accounts[..i];
        var plain := Decrypt(dek, accounts[i].imapPassword);
        if plain.Some? { passwords := passwords[accounts[i].id := plain.value]; }
      }
      assert accounts[..|accounts|] == accounts;
    }

    /** `ChangePassword`; after success the session is given its refreshed accounts. */
    method ChangePassword(context: Option<Context>, body: Option<Request>, e: Env)
        returns (r: Result, refresh: Option<Refresh>)
      requires Valid()
      modifies this
      ensures Valid()
      ensures context.None? ==> r == Unauthorized
      ensures context.Some? && !cfg.ready ==> r == NotEnabled
      ensures context.Some? && cfg.ready && body.None? ==> r == BadBody
      ensures context.None? || !cfg.ready || body.None? ==>
              State() == old(State()) && log == old(log) && refresh == None
      ensures context.Some? && cfg.ready && body.Some? ==>
        Served(cfg, old(State()), old(log), context.value, body.value, e, r, State(), log)
      ensures context.Some? && cfg.ready && body.Some? ==>
        var p := PlanFor(cfg, old(State()), context.value, body.value);
        && (p.row.Some? ==> p.row.value < |RowsOf(State(), context.value.email)|)
        && refresh == (if r.Changed? then Some(RefreshFor(State(), context.value, p)) else None)
    {
      if context.None? { return Unauthorized, None; }
      if !cfg.ready { return NotEnabled, None; }
      if body.None? { return BadBody, None; }
      var c, p := context.value, None;
      r, p := Serve(c, body.value, e);
      refresh := None;
      if r.Changed? {
        var accounts := RowsOf(State(), c.email);
        var passwords := DecryptPasswords(accounts, c.dek);
        var row := p.value.row;
        refresh := Some(Refresh(accounts, passwords, if row.Some? then Some(accounts[row.value].id) else None));
      }
    }

    method Serve(c: Context, q: Request, e: Env) returns (r: Result, plan: Option<Plan>)
      requires Valid()
      modifies this
      ensures Valid() && Served(cfg, old(State()), old(log), c, q, e, r, State(), log)
      ensures plan.Some? ==> plan.value == PlanFor(cfg, old(State()), c, q)
      ensures r.Changed? ==> plan.Some?
    {
      var refusal := Validate(q, e);
      if refusal.Some? { return refusal.value, None; }
      var p;
      refusal, p := ResolveTarget(c, q, e);
      if refusal.Some? { return refusal.value, None; }
      var key := LimiterKey(cfg, c, p);
      var blocked := Attempts.IsBlocked(Attempts.After(log), key, MAX_FAILURES, FAILURE_WINDOW, e.now);
      r := ServePlan(c, p, blocked, q, e);
      log := log + LimiterCalls(key, e, r);
      plan := Some(p);
    }

    /** Everything after the limiter answered. */
    method ServePlan(c: Context, p: Plan, blocked: bool, q: Request, e: Env) returns (r: Result)
      requires Valid() && ReachesLimiter(p, q, e) && (p.row.Some? ==> p.row.value < |RowsOf(State(), c.email)|)
      modifies this`rows, this`users, this`ldap
      ensures Valid() && !StopsBeforeLimiter(r)
      ensures Verdict(old(State()), c, p, blocked, q, e, r)
      ensures Leaves(old(State()), c, p, q, e, r, State())
    {
      ghost var w := State();
      var refusal := VerifyOld(q, p, blocked, e);
      if refusal.Some? {
        r := refusal.value;
        Refused(w, c, p, blocked, q, e, r);
      } else {
        r := WriteStores(c, q, p, e);
        Verified(w, c, p, blocked, q, e, r);
      }
    }

    /** Everything after the old password was verified. */
    method WriteStores(c: Context, q: Request, p: Plan, e: Env) returns (r: Result)
      requires Valid() && p.dn.Some? && p.dn.value in ldap && (p.row.Some? ==> p.row.value < |RowsOf(State(), c.email)|)
      modifies this`rows, this`users, this`ldap
      ensures Valid() && (r.CryptoFailed? || r.LdapRefused? || r.Changed? || r.RowFailed? || r.CredentialFailed?)
      ensures r.CryptoFailed? <==> !Computed(p, e)
      ensures r.LdapRefused? <==> Computed(p, e) && LdapWrite in e.fails
      ensures r.RowFailed? ==> !RowStored(old(State()), c, p, e)
      ensures r.CredentialFailed? ==> RowStored(old(State()), c, p, e) && !WrapStored(old(State()), c, p, e)
      ensures r.Changed? ==> RowStored(old(State()), c, p, e) && WrapStored(old(State()), c, p, e)
      ensures ldap == LdapAfter(old(State()), p, q, e, r)
      ensures rows == RowsAfter(old(State()), c, p, q, e, r)
      ensures users == UsersAfter(old(State()), c, p, q, e, r)
    {
      var newCred := Credential(0, Garbage(""));
      if p.login {
        if GenerateSalt in e.fails || WrapDek in e.fails { return CryptoFailed; }
        newCred := NewWrap(c, q, e);
      }
      if SealImap in e.fails || SealSmtp in e.fails { return CryptoFailed; }

      ghost var w := State();
      var ok := WriteLdap(p.dn.value, q.newPassword, LdapWrite, e);
      if !ok { return LdapRefused; }
      var origAcc := if p.row.Some? then rows[c.email][p.row.value] else Row("", "", Garbage(""), Garbage(""));
      ok := StoreRow(c, q, p, e);
      if !ok {
        var _ := WriteLdap(p.dn.value, q.oldPassword, RestoreLdap, e);
        return RowFailed;
      }
      if p.login {
        ok := StoreWrap(c, q, p, newCred, origAcc, w, e);
        if !ok {
          var _ := WriteLdap(p.dn.value, q.oldPassword, RestoreLdap, e);
          return CredentialFailed;
        }
      }
      return Changed;
    }

    /** Writes the row of the account, if there is one, with the new password. */
    method StoreRow(c: Context, q: Request, p: Plan, e: Env) returns (ok: bool)
      requires Valid() && (p.row.Some? ==> p.row.value < |RowsOf(State(), c.email)|)
      modifies this`rows
      ensures Valid() && ok == RowStored(old(State()), c, p, e)
      ensures rows == if ok then WithRow(old(State()), c, p, q, e) else old(rows)
    {
      if p.row.None? { return true; }
      var row := NewRow(rows[c.email][p.row.value], c, q, e);
      UpdateIsOneRow(rows[c.email], p.row.value, row);
      ok := UpdateAccount(c.email, row, UpdateRow, e);
    }

    /** Puts the row back as it was. */
    method RestoreAccount(c: Context, q: Request, p: Plan, origAcc: Row, ghost w: World, e: Env)
      requires p.row.Some? && p.row.value < |RowsOf(w, c.email)| && rows == WithRow(w, c, p, q, e)
      requires DistinctIds(w.rows[c.email]) && origAcc == w.rows[c.email][p.row.value] && origAcc.id != ""
      modifies this`rows
      ensures rows == if RestoreRow in e.fails then old(rows) else w.rows
    {
      UpdateIsOneRow(w.rows[c.email], p.row.value, NewRow(origAcc, c, q, e));
      var _ := UpdateAccount(c.email, origAcc, RestoreRow, e);
    }

    /**
     * Stores the new wrap. When that fails, the row and the wrap are put back; the old wrap was read for that, and
     * to tell an update from a creation.
     */
    method StoreWrap(c: Context, q: Request, p: Plan, newCred: Credential, origAcc: Row, ghost w: World, e: Env)
        returns (ok: bool)
      requires p.login && users == w.users && (p.row.Some? ==> p.row.value < |RowsOf(w, c.email)|) &&
              rows == WithRow(w, c, p, q, e)
      requires p.row.Some? ==>
              DistinctIds(w.rows[c.email]) && origAcc == w.rows[c.email][p.row.value] && origAcc.id != ""
      modifies this`users, this`rows
      ensures ok == WrapStored(w, c, p, e)
      ensures users == if ok then w.users[c.email := newCred] else w.users
      ensures rows == if ok || RestoreRow in e.fails then old(rows) else w.rows
    {
      var read, oldCred := GetUserCredential(c.email, e);
      if oldCred.Some? {
        ok := UpdateUserCredential(c.email, newCred, WriteCredential, e);
      } else {
        ok := CreateUserCredential(c.email, newCred, e);
      }
      if !ok {
        if p.row.Some? { RestoreAccount(c, q, p, origAcc, w, e); }
        if oldCred.Some? { var _ := UpdateUserCredential(c.email, oldCred.value, RestoreCredential, e); }
      }
    }
  }
}
