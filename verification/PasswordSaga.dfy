/**
 * What a password change does to the three stores that must agree: the LDAP entry, the account row and the
 * wrapped DEK. Any set of calls may fail; a call that fails changes nothing.
 */
module PasswordSaga {
  import opened Wrappers
  import opened Envelope
  import Attempts

  datatype Row = Row(id: string, email: string, imapPassword: Cipher, smtpPassword: Cipher)
  datatype Credential = Credential(salt: nat, wrapped: Cipher)

  /** The passwords each LDAP entry accepts, the account rows of each owner, and each owner's wrapped DEK. */
  datatype World = World(ldap: map<string, set<string>>, rows: map<string, seq<Row>>, users: map<string, Credential>)

  datatype Call =
    | ImapLogin | ListAccounts | VerifyBind | GenerateSalt | GenerateDek | WrapDek | SealImap | SealSmtp | LdapWrite
    | UpdateRow | CreateRow | ReadCredential | WriteCredential | RestoreRow | RestoreCredential | RestoreLdap
    | CreateSession

  /** The surroundings of one request: which calls fail, the random values it draws, and the time. */
  datatype Env = Env(fails: set<Call>, salt: nat, dek: nat, nonce: nat, id: string, now: int)

  datatype Context = Context(session: string, email: string, dek: Key)
  datatype Request = Request(oldPassword: string, newPassword: string, confirm: string, account: string)

  datatype Result =
    | Unauthorized | NotEnabled | BadBody | Missing | Mismatch | TooShort | Unchanged | ListFailed | NoSuchAccount
    | Limited | NoDN | LdapDown | WrongPassword | CryptoFailed | LdapRefused | RowFailed | CredentialFailed | Changed

  /** What a deployment fixes: how emails are normalised and how an email names an LDAP entry. */
  datatype Config = Config(ready: bool, normalize: string -> string, userDN: string -> Option<string>)

  const MIN_LENGTH := 8
  const MAX_FAILURES := 10
  const FAILURE_WINDOW := 600_000_000_000

  // ----- the target of a request -----

  function RowsOf(w: World, owner: string): seq<Row> { if owner in w.rows then w.rows[owner] else [] }

  /** The requested account; without a request, the account of the login identity. */
  predicate Selected(cfg: Config, row: Row, owner: string, account: string) {
    if account != "" then row.id == account else cfg.normalize(row.email) == owner
  }

  /** The first row that is selected. */
  function Target(cfg: Config, rows: seq<Row>, owner: string, account: string): (r: Option<nat>)
    ensures r.Some? ==> r.value < |rows| && Selected(cfg, rows[r.value], owner, account)
    ensures forall j :: 0 <= j < (if r.Some? then r.value else |rows|) ==> !Selected(cfg, rows[j], owner, account)
  {
    if rows == [] then None
    else if Selected(cfg, rows[0], owner, account) then Some(0)
    else
      var r := Target(cfg, rows[1..], owner, account);
      if r.Some? then Some(r.value + 1) else None
  }

  /** A request resolved: the row to change if there is one, the identity it belongs to, and its LDAP entry. */
  datatype Plan = Plan(row: Option<nat>, login: bool, email: string, dn: Option<string>)

  function PlanFor(cfg: Config, w: World, c: Context, q: Request): (p: Plan)
    ensures p.row.Some? ==> p.row.value < |RowsOf(w, c.email)|
  {
    var rows := RowsOf(w, c.email);
    var row := Target(cfg, rows, c.email, q.account);
    var login := row.None? || cfg.normalize(rows[row.value].email) == c.email;
    var email := if login then c.email else rows[row.value].email;
    Plan(row, login, email, cfg.userDN(email))
  }

  function LimiterKey(cfg: Config, c: Context, p: Plan): string { c.session + "|" + cfg.normalize(p.email) }

  // ----- what has to go well -----

  predicate WellFormed(q: Request) {
    q.oldPassword != "" && q.newPassword != "" && q.newPassword == q.confirm && |q.newPassword| >= MIN_LENGTH
    && q.newPassword != q.oldPassword
  }

  predicate Accepts(w: World, dn: string, password: string) { dn in w.ldap && password in w.ldap[dn] }

  /** The request reaches the limiter. */
  predicate ReachesLimiter(p: Plan, q: Request, e: Env) {
    WellFormed(q) && ListAccounts !in e.fails && (q.account == "" || p.row.Some?)
  }

  predicate Blocked(cfg: Config, log: seq<Attempts.Op>, c: Context, p: Plan, e: Env) {
    Attempts.IsBlocked(Attempts.After(log), LimiterKey(cfg, c, p), MAX_FAILURES, FAILURE_WINDOW, e.now)
  }

  /** It then reaches the verification of the old password. */
  predicate ReachesBind(p: Plan, blocked: bool, q: Request, e: Env) {
    ReachesLimiter(p, q, e) && !blocked && p.dn.Some? && VerifyBind !in e.fails
  }

  /** The new passwords, and for the login identity the new wrap, can be computed. */
  predicate Computed(p: Plan, e: Env) {
    SealImap !in e.fails && SealSmtp !in e.fails && (p.login ==> GenerateSalt !in e.fails && WrapDek !in e.fails)
  }

  /** The LDAP entry gets the new password. */
  predicate Written(w: World, p: Plan, blocked: bool, q: Request, e: Env) {
    ReachesBind(p, blocked, q, e) && Accepts(w, p.dn.value, q.oldPassword) && Computed(p, e) && LdapWrite !in e.fails
  }

  predicate RowStored(w: World, c: Context, p: Plan, e: Env)
    requires p.row.Some? ==> p.row.value < |RowsOf(w, c.email)|
  {
    p.row.Some? ==> UpdateRow !in e.fails && RowsOf(w, c.email)[p.row.value].id != ""
  }

  /** A credential that could not be read is taken for missing; creating it then fails if it exists. */
  predicate WrapStored(w: World, c: Context, p: Plan, e: Env) {
    p.login ==> c.email != "" && WriteCredential !in e.fails && (ReadCredential in e.fails ==> c.email !in w.users)
  }

  // ----- what a request leaves behind -----

  function NewRow(row: Row, c: Context, q: Request, e: Env): Row {
    row.(imapPassword := Encrypt(c.dek, e.nonce, Text(q.newPassword)),
      smtpPassword := Encrypt(c.dek, e.nonce + 1, Text(q.newPassword)))
  }

  function NewWrap(c: Context, q: Request, e: Env): Credential {
    Credential(e.salt, Encrypt(Master(q.newPassword, e.salt), e.nonce + 2, KeyBytes(c.dek)))
  }

  function WithRow(w: World, c: Context, p: Plan, q: Request, e: Env): map<string, seq<Row>>
    requires p.row.Some? ==> p.row.value < |RowsOf(w, c.email)|
  {
    if p.row.None? then w.rows
    else w.rows[c.email := w.rows[c.email][p.row.value := NewRow(w.rows[c.email][p.row.value], c, q, e)]]
  }

  /** The entry has the new password; after a failure the old one, unless that could not be written back. */
  function LdapAfter(w: World, p: Plan, q: Request, e: Env, r: Result): map<string, set<string>>
    requires p.dn.Some?
  {
    if r.Changed? || ((r.RowFailed? || r.CredentialFailed?) && RestoreLdap in e.fails)
      then w.ldap[p.dn.value := {q.newPassword}]
    else if (r.RowFailed? || r.CredentialFailed?) then w.ldap[p.dn.value := {q.oldPassword}]
    else w.ldap
  }

  /** The row has the new password; after a failure it is as before, unless it could not be put back. */
  function RowsAfter(w: World, c: Context, p: Plan, q: Request, e: Env, r: Result): map<string, seq<Row>>
    requires p.row.Some? ==> p.row.value < |RowsOf(w, c.email)|
  {
    if r.Changed? || (r.CredentialFailed? && RestoreRow in e.fails) then WithRow(w, c, p, q, e) else w.rows
  }

  /** The wrap is new after a change of the login password, and never otherwise. */
  function UsersAfter(w: World, c: Context, p: Plan, q: Request, e: Env, r: Result): map<string, Credential> {
    if r.Changed? && p.login then w.users[c.email := NewWrap(c, q, e)] else w.users
  }

  /** When a request succeeds, and when it fails after LDAP was written, at the limiter or at the old password. */
  ghost predicate Verdict(w: World, c: Context, p: Plan, blocked: bool, q: Request, e: Env, r: Result)
    requires p.row.Some? ==> p.row.value < |RowsOf(w, c.email)|
  {
    var written := Written(w, p, blocked, q, e);
    && (r.Changed? <==> written && RowStored(w, c, p, e) && WrapStored(w, c, p, e))
    && (r.RowFailed? <==> written && !RowStored(w, c, p, e))
    && (r.CredentialFailed? <==> written && RowStored(w, c, p, e) && !WrapStored(w, c, p, e))
    && (r.Limited? <==> ReachesLimiter(p, q, e) && blocked)
    && (r.WrongPassword? <==> ReachesBind(p, blocked, q, e) && !Accepts(w, p.dn.value, q.oldPassword))
    && (r.CryptoFailed? <==>
          ReachesBind(p, blocked, q, e) && Accepts(w, p.dn.value, q.oldPassword) && !Computed(p, e))
    && (r.LdapRefused? <==>
          && ReachesBind(p, blocked, q, e) && Accepts(w, p.dn.value, q.oldPassword) && Computed(p, e)
          && LdapWrite in e.fails)
    && (ReachesLimiter(p, q, e) ==> DirectoryRefusal(p, blocked, e, r))
    && (!ReachesLimiter(p, q, e) ==> r == EarlyRefusal(q, e))
  }

  /** Why a request that the limiter let pass does not reach the verification of the old password. */
  predicate DirectoryRefusal(p: Plan, blocked: bool, e: Env, r: Result) {
    && (r.NoDN? <==> !blocked && p.dn.None?)
    && (r.LdapDown? <==> !blocked && p.dn.Some? && VerifyBind in e.fails)
    && !StopsBeforeLimiter(r)
  }

  /** The answer to a request that does not reach the limiter. */
  function EarlyRefusal(q: Request, e: Env): Result {
    if q.oldPassword == "" || q.newPassword == "" then Missing
    else if q.newPassword != q.confirm then Mismatch
    else if |q.newPassword| < MIN_LENGTH then TooShort
    else if q.newPassword == q.oldPassword then Unchanged
    else if ListAccounts in e.fails then ListFailed
    else NoSuchAccount
  }

  /** The world after a request with a result. */
  ghost predicate Leaves(w: World, c: Context, p: Plan, q: Request, e: Env, r: Result, after: World)
    requires p.row.Some? ==> p.row.value < |RowsOf(w, c.email)|
  {
    && (if p.dn.Some? then after.ldap == LdapAfter(w, p, q, e, r) else after.ldap == w.ldap)
    && after.rows == RowsAfter(w, c, p, q, e, r)
    && after.users == UsersAfter(w, c, p, q, e, r)
  }

  /** The outcome of a request, and the world after it. */
  ghost predicate Outcome(cfg: Config, w: World, log: seq<Attempts.Op>, c: Context, q: Request, e: Env, r: Result,
      after: World) {
    var p := PlanFor(cfg, w, c, q);
    Verdict(w, c, p, Blocked(cfg, log, c, p, e), q, e, r) && Leaves(w, c, p, q, e, r, after)
  }

  predicate StopsBeforeLimiter(r: Result) {
    r.Unauthorized? || r.NotEnabled? || r.BadBody? || r.Missing? || r.Mismatch? || r.TooShort? || r.Unchanged?
    || r.ListFailed? || r.NoSuchAccount?
  }

  /**
   The calls a request makes to the limiter: it asks, then success clears the record and a wrong password adds to it.
   */
  function LimiterCalls(key: string, e: Env, r: Result): seq<Attempts.Op> {
    if StopsBeforeLimiter(r) then []
    else
      [Attempts.Ask(key, MAX_FAILURES, FAILURE_WINDOW, e.now)]
      + (if r.Changed? then [Attempts.Clear(key)] else if r.WrongPassword? then [Attempts.Record(key, e.now)] else [])
  }

  /** The outcome of a request, with the calls it made to the limiter. */
  ghost predicate Served(
    cfg: Config, w: World, log: seq<Attempts.Op>, c: Context, q: Request, e: Env, r: Result, after: World,
    log2: seq<Attempts.Op>)
  {
    Outcome(cfg, w, log, c, q, e, r, after) &&
      log2 == log + LimiterCalls(LimiterKey(cfg, c, PlanFor(cfg, w, c, q)), e, r)
  }

  /** All requests use one window, so the limiter's pruned lists answer like the full history of wrong passwords. */
  lemma BlockedByRecentFailures(cfg: Config, log: seq<Attempts.Op>, c: Context, p: Plan, e: Env)
    requires Attempts.Timely(log, e.now) && Attempts.OneWindow(log, LimiterKey(cfg, c, p), FAILURE_WINDOW)
    ensures var key := LimiterKey(cfg, c, p);
            Blocked(cfg, log, c, p, e)
            <==> |Attempts.Recent(Attempts.History(log, key), e.now - FAILURE_WINDOW)| >= MAX_FAILURES
  {
    Attempts.PrunedAnswersLikeFull(log, LimiterKey(cfg, c, p), MAX_FAILURES, FAILURE_WINDOW, e.now);
  }

  lemma LimiterCallsUseOneWindow(log: seq<Attempts.Op>, key: string, asked: string, e: Env, r: Result)
    requires Attempts.OneWindow(log, key, FAILURE_WINDOW)
    ensures Attempts.OneWindow(log + LimiterCalls(asked, e, r), key, FAILURE_WINDOW)
  {
    assert forall op :: op in log + LimiterCalls(asked, e, r) ==> op in log || op in LimiterCalls(asked, e, r);
  }

  // ----- all or nothing -----

  predicate WrapOpens(w: World, owner: string, password: string, dek: Key) {
    owner in w.users && Decrypt(Master(password, w.users[owner].salt), w.users[owner].wrapped) == Some(KeyBytes(dek))
  }

  predicate RowOpens(row: Row, dek: Key, password: string) {
    Opens(dek, row.imapPassword, password) && Opens(dek, row.smtpPassword, password)
  }

  /** Success: the entry accepts, the row holds and the wrap opens under the new password, and under no other. */
  lemma AllChanged(cfg: Config, w: World, log: seq<Attempts.Op>, c: Context, q: Request, e: Env, after: World)
    requires Outcome(cfg, w, log, c, q, e, Changed, after)
    ensures var p := PlanFor(cfg, w, c, q);
            && (forall password :: Accepts(after, p.dn.value, password) <==> password == q.newPassword)
            && (p.row.Some? ==> |RowsOf(after, c.email)| == |RowsOf(w, c.email)|
                                && RowOpens(RowsOf(after, c.email)[p.row.value], c.dek, q.newPassword))
            && (p.login ==> forall password, dek ::
                  WrapOpens(after, c.email, password, dek) <==> password == q.newPassword && dek == c.dek)
            && (!p.login ==> after.users == w.users)
  {
    var p := PlanFor(cfg, w, c, q);
    if p.login {
      forall password, dek
        ensures WrapOpens(after, c.email, password, dek) <==> password == q.newPassword && dek == c.dek
      {
        WrapOpensOnce(q.newPassword, e.salt, e.nonce + 2, c.dek, password, dek);
      }
    }
  }

  /** The compensating calls a failed request needs. */
  predicate Compensated(p: Plan, e: Env, r: Result) {
    && (r.RowFailed? || r.CredentialFailed? ==> RestoreLdap !in e.fails)
    && (r.CredentialFailed? && p.row.Some? ==> RestoreRow !in e.fails)
  }

  /** What putting back can restore: an LDAP entry that had accepted only the old password. */
  predicate OldWasOnly(w: World, p: Plan, q: Request, r: Result)
    requires (r.RowFailed? || r.CredentialFailed?) ==> p.dn.Some? && p.dn.value in w.ldap
  {
    r.RowFailed? || r.CredentialFailed? ==> w.ldap[p.dn.value] == {q.oldPassword}
  }

  /** The row kept its ciphertexts: it was put back, or the new ones are the same by chance. */
  predicate RowKept(w: World, c: Context, p: Plan, q: Request, e: Env, r: Result)
    requires p.row.Some? ==> p.row.value < |RowsOf(w, c.email)|
  {
    r.CredentialFailed? && p.row.Some? && RestoreRow in e.fails ==>
      NewRow(RowsOf(w, c.email)[p.row.value], c, q, e) == RowsOf(w, c.email)[p.row.value]
  }

  /**
   * Anything but success leaves the world exactly as it was, if and only if LDAP was written back, to an entry that
   * had accepted only the old password, and the row kept its ciphertexts. The wrapped DEK never changes.
   */
  lemma NothingChanged(cfg: Config, w: World, log: seq<Attempts.Op>, c: Context, q: Request, e: Env, r: Result,
      after: World)
    requires Outcome(cfg, w, log, c, q, e, r, after) && !r.Changed?
    ensures after.users == w.users
    ensures var p := PlanFor(cfg, w, c, q);
            after == w <==> (r.RowFailed? || r.CredentialFailed? ==> RestoreLdap !in e.fails)
                            && OldWasOnly(w, p, q, r) && RowKept(w, c, p, q, e, r)
  {
    var p := PlanFor(cfg, w, c, q);
    if r.RowFailed? || r.CredentialFailed? {
      LdapBack(w, p.dn.value, q.oldPassword, q.newPassword);
      if p.row.Some? { RowDiffers(w, c, p, q, e); }
    }
  }

  /** So a failure whose compensating calls worked changes nothing, whatever the rows held. */
  lemma CompensatedChangesNothing(cfg: Config, w: World, log: seq<Attempts.Op>, c: Context, q: Request, e: Env,
      r: Result, after: World)
    requires Outcome(cfg, w, log, c, q, e, r, after) && !r.Changed?
    requires Compensated(PlanFor(cfg, w, c, q), e, r) && OldWasOnly(w, PlanFor(cfg, w, c, q), q, r)
    ensures after == w
  {
    NothingChanged(cfg, w, log, c, q, e, r, after);
  }

  /** Two rows whose passwords open under the same keys to the same texts. */
  ghost predicate SameOpening(a: Row, b: Row) {
    forall dek, password ::
      && (Opens(dek, a.imapPassword, password) <==> Opens(dek, b.imapPassword, password))
      && (Opens(dek, a.smtpPassword, password) <==> Opens(dek, b.smtpPassword, password))
  }

  ghost predicate SameRows(a: seq<Row>, b: seq<Row>) {
    |a| == |b| && forall k :: 0 <= k < |a| ==> SameOpening(a[k], b[k])
  }

  /** Every entry, row and wrap accepts after the request what it accepted before. */
  ghost predicate AcceptsAsBefore(w: World, after: World) {
    && (forall dn, password :: Accepts(after, dn, password) <==> Accepts(w, dn, password))
    && (forall owner :: SameRows(RowsOf(w, owner), RowsOf(after, owner)))
    && (forall owner, password, dek :: WrapOpens(after, owner, password, dek) <==> WrapOpens(w, owner, password, dek))
  }

  /** The row was put back, or had already opened under the new password. */
  predicate RowOpensAsBefore(w: World, c: Context, p: Plan, q: Request, e: Env, r: Result)
    requires p.row.Some? ==> p.row.value < |RowsOf(w, c.email)|
  {
    r.CredentialFailed? && p.row.Some? && RestoreRow in e.fails ==>
      RowOpens(RowsOf(w, c.email)[p.row.value], c.dek, q.newPassword)
  }

  /**
   * What users notice: after anything but success every store accepts what it accepted before, if and only if LDAP was
   * written back, to an entry that had accepted only the old password, and the row was put back or had already opened
   * under the new password.
   */
  lemma AcceptanceKept(cfg: Config, w: World, log: seq<Attempts.Op>, c: Context, q: Request, e: Env, r: Result,
      after: World)
    requires Outcome(cfg, w, log, c, q, e, r, after) && !r.Changed?
    ensures var p := PlanFor(cfg, w, c, q);
            AcceptsAsBefore(w, after) <==> (r.RowFailed? || r.CredentialFailed? ==> RestoreLdap !in e.fails)
                                           && OldWasOnly(w, p, q, r) && RowOpensAsBefore(w, c, p, q, e, r)
  {
    var p := PlanFor(cfg, w, c, q);
    LdapAcceptance(cfg, w, log, c, q, e, r, after);
    RowAcceptance(cfg, w, log, c, q, e, r, after);
    assert after.users == w.users;
  }

  lemma LdapAcceptance(cfg: Config, w: World, log: seq<Attempts.Op>, c: Context, q: Request, e: Env, r: Result,
      after: World)
    requires Outcome(cfg, w, log, c, q, e, r, after) && !r.Changed?
    ensures (forall dn, password :: Accepts(after, dn, password) <==> Accepts(w, dn, password))
       <==> (r.RowFailed? || r.CredentialFailed? ==> RestoreLdap !in e.fails)
            && OldWasOnly(w, PlanFor(cfg, w, c, q), q, r)
  {
    if r.RowFailed? || r.CredentialFailed? {
      var dn := PlanFor(cfg, w, c, q).dn.value;
      if forall d, password :: Accepts(after, d, password) <==> Accepts(w, d, password) {
        assert Accepts(w, dn, q.oldPassword) && Accepts(after, dn, q.oldPassword);
        forall password ensures password in w.ldap[dn] <==> password == q.oldPassword {
          assert Accepts(after, dn, password) <==> Accepts(w, dn, password);
        }
      }
    }
  }

  lemma NewRowOpens(row: Row, c: Context, q: Request, e: Env)
    ensures SameOpening(row, NewRow(row, c, q, e)) <==> RowOpens(row, c.dek, q.newPassword)
  {
    var next := NewRow(row, c, q, e);
    assert Opens(c.dek, next.imapPassword, q.newPassword) && Opens(c.dek, next.smtpPassword, q.newPassword);
  }

  lemma RowAcceptance(cfg: Config, w: World, log: seq<Attempts.Op>, c: Context, q: Request, e: Env, r: Result,
      after: World)
    requires Outcome(cfg, w, log, c, q, e, r, after) && !r.Changed?
    ensures (forall owner :: SameRows(RowsOf(w, owner), RowsOf(after, owner)))
            <==> RowOpensAsBefore(w, c, PlanFor(cfg, w, c, q), q, e, r)
  {
    var p := PlanFor(cfg, w, c, q);
    if r.CredentialFailed? && p.row.Some? && RestoreRow in e.fails {
      var rows, k := RowsOf(w, c.email), p.row.value;
      var next := rows[k := NewRow(rows[k], c, q, e)];
      assert RowsOf(after, c.email) == next;
      NewRowOpens(rows[k], c, q, e);
      assert forall owner :: owner != c.email ==> RowsOf(after, owner) == RowsOf(w, owner);
      if RowOpens(rows[k], c.dek, q.newPassword) {
        assert SameRows(rows, next);
      } else {
        assert !SameOpening(rows[k], next[k]);
        assert !SameRows(RowsOf(w, c.email), RowsOf(after, c.email));
      }
    } else {
      assert after.rows == w.rows;
    }
  }

  lemma LdapBack(w: World, dn: string, was: string, next: string)
    requires Accepts(w, dn, was) && was != next
    ensures w.ldap[dn := {was}] == w.ldap <==> w.ldap[dn] == {was}
    ensures w.ldap[dn := {next}] != w.ldap
  {
    assert w.ldap[dn := {was}][dn] == {was} && w.ldap[dn := {next}][dn] == {next};
    assert next in {next} && was !in {next};
  }

  lemma RowDiffers(w: World, c: Context, p: Plan, q: Request, e: Env)
    requires p.row.Some? && p.row.value < |RowsOf(w, c.email)|
    ensures var row := RowsOf(w, c.email)[p.row.value];
            WithRow(w, c, p, q, e) == w.rows <==> NewRow(row, c, q, e) == row
  {
    var rows, row := w.rows[c.email], RowsOf(w, c.email)[p.row.value];
    assert WithRow(w, c, p, q, e)[c.email] == rows[p.row.value := NewRow(row, c, q, e)];
    if NewRow(row, c, q, e) == row { assert rows[p.row.value := row] == rows; }
  }

  /** When the LDAP compensation fails, no password both passes LDAP and opens the wrap of the old one. */
  lemma FailedCompensationLocksOut(cfg: Config, w: World, log: seq<Attempts.Op>, c: Context, q: Request, e: Env,
      r: Result, after: World)
    requires Outcome(cfg, w, log, c, q, e, r, after) && (r.RowFailed? || r.CredentialFailed?) && RestoreLdap in e.fails
    requires PlanFor(cfg, w, c, q).login && WrapOpens(w, c.email, q.oldPassword, c.dek)
    ensures forall password, dek ::
            !(Accepts(after, PlanFor(cfg, w, c, q).dn.value, password) && WrapOpens(after, c.email, password, dek))
  {}

  // ----- what the session is given after success -----

  /** The accounts of the session, their passwords decrypted, and the account to reconnect. */
  datatype Refresh = Refresh(accounts: seq<Row>, passwords: map<string, Plain>, reconnect: Option<string>)

  /** The passwords that can be decrypted, by account. */
  function PasswordsOf(rows: seq<Row>, dek: Key): map<string, Plain>
    decreases |rows|
  {
    if rows == [] then map[]
    else
      var last := rows[|rows| - 1];
      var before := PasswordsOf(rows[..|rows| - 1], dek);
      match Decrypt(dek, last.imapPassword)
      case Some(plain) => before[last.id := plain]
      case None => before
  }

  function RefreshFor(w: World, c: Context, p: Plan): Refresh
    requires p.row.Some? ==> p.row.value < |RowsOf(w, c.email)|
  {
    var rows := RowsOf(w, c.email);
    Refresh(rows, PasswordsOf(rows, c.dek), if p.row.Some? then Some(rows[p.row.value].id) else None)
  }

  ghost predicate DistinctIds(rows: seq<Row>) { forall i, j :: 0 <= i < j < |rows| ==> rows[i].id != rows[j].id }

  /** With unique identifiers, every decryptable row has its own password in the table, and nothing else is in it. */
  lemma {:induction false} PasswordsByRow(rows: seq<Row>, dek: Key)
    requires DistinctIds(rows)
    ensures forall k :: 0 <= k < |rows| ==>
      if Decrypt(dek, rows[k].imapPassword).Some?
      then rows[k].id in PasswordsOf(rows, dek) &&
        PasswordsOf(rows, dek)[rows[k].id] == Decrypt(dek, rows[k].imapPassword).value
      else rows[k].id !in PasswordsOf(rows, dek)
    ensures forall id :: id in PasswordsOf(rows, dek) ==> exists k :: 0 <= k < |rows| && rows[k].id == id
    decreases |rows|
  {
    if rows != [] {
      var front, last := rows[..|rows| - 1], rows[|rows| - 1];
      PasswordsByRow(front, dek);
      assert forall k :: 0 <= k < |front| ==> rows[k] == front[k] && rows[k].id != last.id;
      assert last.id !in PasswordsOf(front, dek);
    }
  }

  // ----- logging in -----

  /** `resolveCredential`: the DEK of an owner, made at the first login and unwrapped at later ones. */
  function Resolve(users: map<string, Credential>, owner: string, password: string,
      e: Env): (Option<Key>, map<string, Credential>) {
    if ReadCredential in e.fails then (None, users)
    else if owner in users then
      var plain := Decrypt(Master(password, users[owner].salt), users[owner].wrapped);
      (if plain.Some? then Some(AsKey(plain.value)) else None, users)
    else if e.fails !! {GenerateSalt, GenerateDek, WrapDek, WriteCredential} && owner != "" then
      var wrapped := Encrypt(Master(password, e.salt), e.nonce, KeyBytes(Dek(e.dek)));
      (Some(Dek(e.dek)), users[owner := Credential(e.salt, wrapped)])
    else (None, users)
  }

  /** An account with its passwords encrypted, as the first login makes it. */
  function FirstRow(email: string, password: string, dek: Key, e: Env): Row {
    Row(e.id, email, Encrypt(dek, e.nonce + 1, Text(password)), Encrypt(dek, e.nonce + 2, Text(password)))
  }

  predicate IdTaken(w: World, id: string) {
    exists owner :: owner in w.rows && exists r :: r in w.rows[owner] && r.id == id
  }

  predicate FirstRowStored(w: World, e: Env) { e.fails !! {SealImap, SealSmtp, CreateRow} && !IdTaken(w, e.id) }

  /** The part of a login that follows its checks: resolve the credential, make a first account, open a session. */
  function OpenSession(cfg: Config, w: World, email: string, password: string, session: string,
      e: Env): (Option<Context>, World) {
    var owner := cfg.normalize(email);
    var (dek, users) := Resolve(w.users, owner, password, e);
    var w1 := w.(users := users);
    if dek.None? || ListAccounts in e.fails then (None, w1)
    else if RowsOf(w1, owner) == [] && !FirstRowStored(w1, e) then (None, w1)
    else
      var w2 := if RowsOf(w1, owner) == [] then w1.(rows := w1.rows[owner := [FirstRow(email, password, dek.value, e)]])
        else w1;
      (if CreateSession in e.fails then None else Some(Context(session, owner, dek.value)), w2)
  }

  /** `Login`: the mail server checks the password; an owner with a second factor gets no session yet. */
  function SignIn(cfg: Config, w: World, email: string, password: string, session: string, secondFactor: bool,
      e: Env): (Option<Context>, World) {
    if email == "" || password == "" || ImapLogin in e.fails || secondFactor then (None, w)
    else OpenSession(cfg, w, email, password, session, e)
  }

  /** After a changed login password, the new password and no other resolves, to the same DEK as before. */
  lemma ResolveAfterChange(cfg: Config, w: World, log: seq<Attempts.Op>, c: Context, q: Request, e: Env, after: World,
      password: string, e2: Env)
    requires Outcome(cfg, w, log, c, q, e, Changed, after) && PlanFor(cfg, w, c, q).login && ReadCredential !in e2.fails
    ensures Resolve(after.users, c.email, password, e2).0 == if password == q.newPassword then Some(c.dek) else None
  {}

  /** After success the session has the new password for the changed account, and reconnects that account. */
  lemma RefreshHasNewPassword(
    cfg: Config, w: World, log: seq<Attempts.Op>, c: Context, q: Request, e: Env, after: World)
    requires Outcome(cfg, w, log, c, q, e, Changed, after) && DistinctIds(RowsOf(after, c.email))
    requires PlanFor(cfg, w, c, q).row.Some?
    ensures var p := PlanFor(cfg, w, c, q);
            && p.row.value < |RowsOf(after, c.email)|
            && var refresh, id := RefreshFor(after, c, p), RowsOf(w, c.email)[p.row.value].id;
            refresh.reconnect == Some(id) && id in refresh.passwords && refresh.passwords[id] == Text(q.newPassword)
  {
    PasswordsByRow(RowsOf(after, c.email), c.dek);
  }
}
