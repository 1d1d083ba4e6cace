/**
 What password changes and logins do, in terms of the request and the stores alone: which LDAP entry, row and wrap are
 meant, when each answer is given, what the limiter remembers, and what a login leaves.
 */
module PasswordTargets {
  import opened Wrappers
  import opened Envelope
  import opened PasswordSaga
  import Attempts
  import PasswordRuns

  /** Row `i` is the first with the requested id or, without a request, the first with the owner's email. */
  ghost predicate IsRow(cfg: Config, rows: seq<Row>, owner: string, account: string, i: nat) {
    i < |rows| &&
    if account != "" then rows[i].id == account && forall k :: 0 <= k < i ==> rows[k].id != account
    else cfg.normalize(rows[i].email) == owner && forall k :: 0 <= k < i ==> cfg.normalize(rows[k].email) != owner
  }

  /**
   A request means a row, and the LDAP entry of that row's email, or of the owner's email if that is the row's once
   normalised. Without a requested account and without a row of the owner's email it means no row, and the owner's
   entry.
   */
  ghost predicate Meant(cfg: Config, rows: seq<Row>, owner: string, account: string, row: Option<nat>, email: string) {
    match row
    case Some(i) =>
      && IsRow(cfg, rows, owner, account, i)
      && email == if cfg.normalize(rows[i].email) == owner then owner else rows[i].email
    case None =>
      && account == "" && email == owner
      && forall k :: 0 <= k < |rows| ==> cfg.normalize(rows[k].email) != owner
  }

  /** What is meant is the login identity. */
  predicate IsLogin(cfg: Config, rows: seq<Row>, owner: string, row: Option<nat>)
    requires row.Some? ==> row.value < |rows|
  {
    row.Some? ==> cfg.normalize(rows[row.value].email) == owner
  }

  lemma {:induction false} TargetIsFirst(cfg: Config, rows: seq<Row>, owner: string, account: string, i: nat)
    requires IsRow(cfg, rows, owner, account, i)
    ensures Target(cfg, rows, owner, account) == Some(i)
  {
    if i > 0 {
      assert !Selected(cfg, rows[0], owner, account);
      TargetIsFirst(cfg, rows[1..], owner, account, i - 1);
    }
  }

  lemma {:induction false} NoTarget(cfg: Config, rows: seq<Row>, owner: string, account: string)
    requires forall k :: 0 <= k < |rows| ==> !Selected(cfg, rows[k], owner, account)
    ensures Target(cfg, rows, owner, account) == None
  {
    if rows != [] { NoTarget(cfg, rows[1..], owner, account); }
  }

  lemma PlanIsMeant(cfg: Config, w: World, c: Context, q: Request, row: Option<nat>, email: string)
    requires Meant(cfg, RowsOf(w, c.email), c.email, q.account, row, email)
    ensures PlanFor(cfg, w, c, q) ==
            Plan(row, IsLogin(cfg, RowsOf(w, c.email), c.email, row), email, cfg.userDN(email))
  {
    match row
    case Some(i) => TargetIsFirst(cfg, RowsOf(w, c.email), c.email, q.account, i);
    case None => NoTarget(cfg, RowsOf(w, c.email), c.email, q.account);
  }

  // ----- what changes -----

  /** A row that differs only in its passwords, both of which open to `password`. */
  predicate WithPassword(before: Row, after: Row, dek: Key, password: string) {
    after.id == before.id && after.email == before.email && RowOpens(after, dek, password)
  }

  /**
   Success changes exactly what is meant: the meant LDAP entry, which had accepted the old password, accepts the new one
   only; the meant row has the new password in both fields; the owner's wrap changes if and only if the login identity
   is meant, and opens under the new password only, to the same DEK.
   */
  lemma ChangesWhatIsMeant(cfg: Config, w: World, log: seq<Attempts.Op>, c: Context, q: Request, e: Env, after: World,
      row: Option<nat>, email: string)
    requires Outcome(cfg, w, log, c, q, e, Changed, after)
    requires Meant(cfg, RowsOf(w, c.email), c.email, q.account, row, email)
    ensures cfg.userDN(email).Some? && Accepts(w, cfg.userDN(email).value, q.oldPassword)
    ensures after.ldap == w.ldap[cfg.userDN(email).value := {q.newPassword}]
    ensures row.None? ==> after.rows == w.rows
    ensures row.Some? ==>
              && c.email in after.rows && |after.rows[c.email]| == |RowsOf(w, c.email)|
              && after.rows == w.rows[c.email := w.rows[c.email][row.value := after.rows[c.email][row.value]]]
              && WithPassword(w.rows[c.email][row.value], after.rows[c.email][row.value], c.dek, q.newPassword)
    ensures !IsLogin(cfg, RowsOf(w, c.email), c.email, row) ==> after.users == w.users
    ensures IsLogin(cfg, RowsOf(w, c.email), c.email, row) ==>
              && c.email in after.users && after.users == w.users[c.email := after.users[c.email]]
              && forall password, dek ::
                   WrapOpens(after, c.email, password, dek) <==> password == q.newPassword && dek == c.dek
  {
    PlanIsMeant(cfg, w, c, q, row, email);
    AllChanged(cfg, w, log, c, q, e, after);
  }

  ghost predicate SameEntry(w: World, after: World, dn: string) {
    (dn in after.ldap <==> dn in w.ldap) && (dn in w.ldap ==> after.ldap[dn] == w.ldap[dn])
  }

  ghost predicate SameOwner(w: World, after: World, owner: string) {
    && RowsOf(after, owner) == RowsOf(w, owner)
    && (owner in after.users <==> owner in w.users)
    && (owner in w.users ==> after.users[owner] == w.users[owner])
  }

  /** Whatever the result, no other LDAP entry, row or wrap is touched. */
  lemma NothingElseChanges(cfg: Config, w: World, log: seq<Attempts.Op>, c: Context, q: Request, e: Env, r: Result,
      after: World, row: Option<nat>, email: string)
    requires Outcome(cfg, w, log, c, q, e, r, after)
    requires Meant(cfg, RowsOf(w, c.email), c.email, q.account, row, email)
    ensures forall dn :: cfg.userDN(email) != Some(dn) ==> SameEntry(w, after, dn)
    ensures forall owner :: owner != c.email ==> SameOwner(w, after, owner)
    ensures |RowsOf(after, c.email)| == |RowsOf(w, c.email)|
    ensures forall k :: 0 <= k < |RowsOf(w, c.email)| && row != Some(k) ==>
              RowsOf(after, c.email)[k] == RowsOf(w, c.email)[k]
    ensures !IsLogin(cfg, RowsOf(w, c.email), c.email, row) ==> after.users == w.users
  {
    PlanIsMeant(cfg, w, c, q, row, email);
  }

  /** A request for an account that the owner does not have changes nothing and is answered with that. */
  lemma UnknownAccount(cfg: Config, w: World, log: seq<Attempts.Op>, c: Context, q: Request, e: Env, r: Result,
      after: World)
    requires Outcome(cfg, w, log, c, q, e, r, after)
    requires q.account != "" && forall k :: 0 <= k < |RowsOf(w, c.email)| ==> RowsOf(w, c.email)[k].id != q.account
    ensures after == w && StopsBeforeLimiter(r)
    ensures r.NoSuchAccount? <==> GoodBody(q) && ListAccounts !in e.fails
  {
    NoTarget(cfg, RowsOf(w, c.email), c.email, q.account);
  }

  // ----- when each answer is given -----

  /** The old password is given, and the new one twice, with eight characters or more and not the old one. */
  predicate GoodBody(q: Request) {
    && q.oldPassword != "" && q.newPassword == q.confirm && |q.newPassword| >= 8 && q.newPassword != q.oldPassword
  }

  /** Ten failures within ten minutes are remembered for this session and email. */
  predicate TooMany(cfg: Config, log: seq<Attempts.Op>, c: Context, email: string, now: int) {
    Attempts.IsBlocked(Attempts.After(log), c.session + "|" + cfg.normalize(email), 10, 600_000_000_000, now)
  }

  /** Everything up to the bind as the user went well, and the password is checked. */
  ghost predicate OldIsChecked(cfg: Config, log: seq<Attempts.Op>, c: Context, q: Request, e: Env, email: string) {
    && GoodBody(q) && ListAccounts !in e.fails && !TooMany(cfg, log, c, email, e.now) && cfg.userDN(email).Some?
    && VerifyBind !in e.fails
  }

  lemma {:induction false} Reaches(cfg: Config, w: World, log: seq<Attempts.Op>, c: Context, q: Request, e: Env,
      row: Option<nat>, email: string)
    requires Meant(cfg, RowsOf(w, c.email), c.email, q.account, row, email)
    ensures var p := PlanFor(cfg, w, c, q);
            && (ReachesLimiter(p, q, e) <==> GoodBody(q) && ListAccounts !in e.fails)
            && (Blocked(cfg, log, c, p, e) <==> TooMany(cfg, log, c, email, e.now))
            && (ReachesBind(p, Blocked(cfg, log, c, p, e), q, e) <==> OldIsChecked(cfg, log, c, q, e, email))
  {
    PlanIsMeant(cfg, w, c, q, row, email);
  }

  /**
   Exactly when a request succeeds: the old password is checked and accepted, everything new can be computed and stored,
   and a credential that could not be read did not exist.
   */
  lemma SucceedsExactly(cfg: Config, w: World, log: seq<Attempts.Op>, c: Context, q: Request, e: Env, r: Result,
      after: World, row: Option<nat>, email: string)
    requires Outcome(cfg, w, log, c, q, e, r, after)
    requires Meant(cfg, RowsOf(w, c.email), c.email, q.account, row, email)
    ensures r.Changed? <==>
      && OldIsChecked(cfg, log, c, q, e, email) && Accepts(w, cfg.userDN(email).value, q.oldPassword)
      && e.fails !! {SealImap, SealSmtp, LdapWrite}
      && (row.Some? ==> UpdateRow !in e.fails && RowsOf(w, c.email)[row.value].id != "")
      && (IsLogin(cfg, RowsOf(w, c.email), c.email, row) ==>
            && e.fails !! {GenerateSalt, WrapDek, WriteCredential} && c.email != ""
            && (ReadCredential in e.fails ==> c.email !in w.users))
  {
    PlanIsMeant(cfg, w, c, q, row, email);
    Reaches(cfg, w, log, c, q, e, row, email);
  }

  /** Exactly when each refusal is given before anything is written. */
  lemma RefusesExactly(cfg: Config, w: World, log: seq<Attempts.Op>, c: Context, q: Request, e: Env, r: Result,
      after: World, row: Option<nat>, email: string)
    requires Outcome(cfg, w, log, c, q, e, r, after)
    requires Meant(cfg, RowsOf(w, c.email), c.email, q.account, row, email)
    ensures r.Missing? <==> q.oldPassword == "" || q.newPassword == ""
    ensures r.Mismatch? <==> q.oldPassword != "" && q.newPassword != "" && q.newPassword != q.confirm
    ensures r.TooShort? <==> q.oldPassword != "" && q.newPassword == q.confirm && 0 < |q.newPassword| < 8
    ensures r.Unchanged? <==> q.newPassword == q.confirm == q.oldPassword && |q.newPassword| >= 8
    ensures r.ListFailed? <==> GoodBody(q) && ListAccounts in e.fails
    ensures !r.NoSuchAccount?
    ensures r.Limited? <==> GoodBody(q) && ListAccounts !in e.fails && TooMany(cfg, log, c, email, e.now)
    ensures r.NoDN? <==>
              && GoodBody(q) && ListAccounts !in e.fails && !TooMany(cfg, log, c, email, e.now)
              && cfg.userDN(email).None?
    ensures r.LdapDown? <==>
              && GoodBody(q) && ListAccounts !in e.fails && !TooMany(cfg, log, c, email, e.now)
              && cfg.userDN(email).Some? && VerifyBind in e.fails
    ensures r.WrongPassword? <==>
              OldIsChecked(cfg, log, c, q, e, email) && !Accepts(w, cfg.userDN(email).value, q.oldPassword)
  {
    PlanIsMeant(cfg, w, c, q, row, email);
    Reaches(cfg, w, log, c, q, e, row, email);
  }

  // ----- what the limiter remembers -----

  lemma {:induction false} HistoryOfTwo(log: seq<Attempts.Op>, a: Attempts.Op, b: Attempts.Op, key: string)
    ensures Attempts.History(log + [a], key) == Attempts.Remember(Attempts.History(log, key), a, key)
    ensures Attempts.History(log + [a, b], key) ==
            Attempts.Remember(Attempts.Remember(Attempts.History(log, key), a, key), b, key)
  {
    assert (log + [a])[..|log|] == log;
    assert (log + [a, b])[..|log| + 1] == log + [a];
  }

  /**
   A wrong old password adds one failure, at its time, to the record of this session and email; success empties it; any
   other answer leaves it. No other record is touched.
   */
  lemma LimiterRemembers(cfg: Config, w: World, log: seq<Attempts.Op>, c: Context, q: Request, e: Env, r: Result,
      after: World, log2: seq<Attempts.Op>, row: Option<nat>, email: string)
    requires Served(cfg, w, log, c, q, e, r, after, log2)
    requires Meant(cfg, RowsOf(w, c.email), c.email, q.account, row, email)
    ensures var key := c.session + "|" + cfg.normalize(email);
            && Attempts.History(log2, key) ==
                 (if r.WrongPassword? then Attempts.History(log, key) + [e.now]
                  else if r.Changed? then [] else Attempts.History(log, key))
            && forall other :: other != key ==> Attempts.History(log2, other) == Attempts.History(log, other)
  {
    PlanIsMeant(cfg, w, c, q, row, email);
    var key := c.session + "|" + cfg.normalize(email);
    var ask := Attempts.Ask(key, MAX_FAILURES, FAILURE_WINDOW, e.now);
    var next := if r.Changed? then Attempts.Clear(key) else Attempts.Record(key, e.now);
    assert LimiterKey(cfg, c, PlanFor(cfg, w, c, q)) == key;
    assert log + [] == log;
    if !StopsBeforeLimiter(r) {
      assert [ask] + [next] == [ask, next] && [ask] + [] == [ask];
      forall k ensures Attempts.History(log2, k) ==
          if (r.WrongPassword? || r.Changed?) then Attempts.Remember(Attempts.History(log, k), next, k)
          else Attempts.History(log, k)
      {
        HistoryOfTwo(log, ask, next, k);
      }
    }
  }

  /**
   In every run: a well-formed request is refused for too many failures exactly when ten wrong passwords, none older
   than ten minutes, were given for this session and email since the last success.
   */
  lemma LimitedAfterTen(cfg: Config, states: seq<PasswordRuns.State>, i: nat, c: Context, q: Request, e: Env, r: Result,
      row: Option<nat>, email: string)
    requires PasswordRuns.Run(cfg, states) && i + 1 < |states|
    requires PasswordRuns.Changes(cfg, states[i], states[i + 1], c, q, e, r)
    requires Meant(cfg, RowsOf(states[i].world, c.email), c.email, q.account, row, email)
    ensures var failures := Attempts.History(states[i].log, c.session + "|" + cfg.normalize(email));
            r.Limited? <==>
              && GoodBody(q) && ListAccounts !in e.fails
              && |Attempts.Recent(failures, e.now - 600_000_000_000)| >= 10
  {
    var s := states[i];
    PlanIsMeant(cfg, s.world, c, q, row, email);
    RefusesExactly(cfg, s.world, s.log, c, q, e, r, states[i + 1].world, row, email);
    PasswordRuns.RefusedAfterTen(cfg, states, i, c, PlanFor(cfg, s.world, c, q), e);
  }

  // ----- logins -----

  /** The key a login gets: what the owner's wrap opens to under the password, or a new DEK if there is no wrap. */
  ghost predicate KeyFor(w: World, owner: string, password: string, e: Env, dek: Key) {
    if owner in w.users then
      exists plain :: Decrypt(Master(password, w.users[owner].salt), w.users[owner].wrapped) == Some(plain) &&
        dek == AsKey(plain)
    else e.fails !! {GenerateSalt, GenerateDek, WrapDek, WriteCredential} && owner != "" && dek == Dek(e.dek)
  }

  /** The owner has accounts, or a first one can be made. */
  ghost predicate HasAccounts(w: World, owner: string, e: Env) {
    RowsOf(w, owner) != [] || (e.fails !! {SealImap, SealSmtp, CreateRow} && !IdTaken(w, e.id))
  }

  /**
   Exactly when a login gives a session, and which: email and password are given and accepted by the mail server, no
   second factor is due, the owner's key opens and its accounts are there.
   */
  lemma SessionExactly(cfg: Config, w: World, email: string, password: string, session: string, secondFactor: bool,
      e: Env, c: Context)
    ensures SignIn(cfg, w, email, password, session, secondFactor, e).0 == Some(c) <==>
      && email != "" && password != "" && !secondFactor
      && e.fails !! {ImapLogin, ReadCredential, ListAccounts, CreateSession}
      && KeyFor(w, cfg.normalize(email), password, e, c.dek) && HasAccounts(w, cfg.normalize(email), e)
      && c.session == session && c.email == cfg.normalize(email)
  {
    var owner := cfg.normalize(email);
    if owner in w.users && Decrypt(Master(password, w.users[owner].salt), w.users[owner].wrapped).Some? {
      var plain := Decrypt(Master(password, w.users[owner].salt), w.users[owner].wrapped).value;
      assert KeyFor(w, owner, password, e, AsKey(plain));
    }
  }

  /** A login touches no LDAP entry and nothing of other owners; rows and wraps that exist stay as they are. */
  lemma LoginKeeps(cfg: Config, w: World, email: string, password: string, session: string, secondFactor: bool,
      e: Env)
    ensures var w2 := SignIn(cfg, w, email, password, session, secondFactor, e).1;
            && w2.ldap == w.ldap
            && (forall owner :: owner != cfg.normalize(email) ==> SameOwner(w, w2, owner))
            && (forall owner :: owner in w.users ==> owner in w2.users && w2.users[owner] == w.users[owner])
            && (forall owner :: RowsOf(w, owner) != [] ==> RowsOf(w2, owner) == RowsOf(w, owner))
  {}

  /** A first login leaves one account, with the email as given and a password that opens in both fields. */
  lemma FirstLogin(cfg: Config, w: World, email: string, password: string, session: string, e: Env)
    requires RowsOf(w, cfg.normalize(email)) == []
    ensures var (c, w2) := SignIn(cfg, w, email, password, session, false, e);
            c.Some? ==>
              && |RowsOf(w2, c.value.email)| == 1
              && var row := RowsOf(w2, c.value.email)[0];
                 row.id == e.id && row.email == email && RowOpens(row, c.value.dek, password)
  {}

  /** A new owner's wrap opens under the password of the first login only, to the DEK of its session. */
  lemma FirstWrap(cfg: Config, w: World, email: string, password: string, session: string, e: Env)
    requires cfg.normalize(email) !in w.users
    ensures var (c, w2) := SignIn(cfg, w, email, password, session, false, e);
            c.Some? ==> forall other, dek ::
              WrapOpens(w2, c.value.email, other, dek) <==> other == password && dek == c.value.dek
  {
    forall other, dek
      ensures (Decrypt(Master(other, e.salt), Encrypt(Master(password, e.salt), e.nonce, KeyBytes(Dek(e.dek)))) ==
               Some(KeyBytes(dek))) <==> other == password && dek == Dek(e.dek)
    {
      WrapOpensOnce(password, e.salt, e.nonce, Dek(e.dek), other, dek);
    }
  }
}
