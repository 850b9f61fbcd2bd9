/** Logins seen from outside: what one does to the account it names, and when an account is locked, told from the
    answers alone. */
module Logins {
  import opened Prelude
  import opened Json
  import opened Protocol
  import opened Schema
  import opened Passwords
  import opened Server
  import opened Runs
  import opened Readback
  import opened Lockout

  /** An AUTH request under the name of account u. */
  predicate Names(db: Db, req: Request, u: int) {
    req.op == AUTH && u in db.users && Text(req.data, "username") == db.users[u].username
  }

  // ---------------------------------------------------------------- one login

  lemma NamedOutcome(cfg: Config, db: Db, env: Env, req: Request, u: int)
    requires Integrity(db) && Names(db, req, u)
    ensures var password := Text(req.data, "password");
            Decide(cfg, db, env, req) == if password == "" then Invalid("Missing username or password")
                                         else Authenticate(cfg, db, env, u, password)
  {
    NamedIs(db, u);
    assert |db.users[u].username| >= 3;
    hide Integrity, Caller, DecideOpen, DecideAdmin, Authenticate, Text, UserNamed;
  }

  /** The answers to a login under the name of an account, in the order they are considered. */
  lemma LoginCode(cfg: Config, db: Db, env: Env, req: Request, u: int)
    requires Integrity(db) && Names(db, req, u)
    ensures var (a, resp) := (db.users[u], Step(cfg, db, env, req).1);
            var hash := HashToken(cfg.crypto, env.token);
            && resp.code == (if Text(req.data, "password") == "" then VALIDATION_ERROR
                             else if !a.isActive then ACCOUNT_INACTIVE
                             else if a.lockedUntil.Some? && a.lockedUntil.value > env.now then ACCOUNT_LOCKED
                             else if !RightPassword(cfg, a, env, Text(req.data, "password")) then AUTH_DENIED
                             else if exists s | s in db.sessions :: db.sessions[s].tokenHash == hash then INTERNAL_ERROR
                             else OK)
            && resp.status == (if resp.code == OK then Ok else Error)
  {
    hide Decide, RightPassword, HashToken, Text, Integrity, NewSession, LockAfter, UserFields, AttrsOf;
    NamedOutcome(cfg, db, env, req, u);
  }

  /** What becomes of the account. An accepted comparison clears counter and lock, even when no session can be opened; a
      failed one counts, up to 32 bits, and from the configured number on locks; any other answer leaves it alone. */
  function AfterLogin(cfg: Config, a: User, now: int, code: ResultCode): User {
    match code
    case OK => a.(failedAttempts := 0, lockedUntil := None, lastLogin := Some(now))
    case INTERNAL_ERROR => a.(failedAttempts := 0, lockedUntil := None, lastLogin := Some(now))
    case AUTH_DENIED =>
      var n := Min(a.failedAttempts + 1, Max(a.failedAttempts, INT32_MAX));
      a.(failedAttempts := n,
         lockedUntil := if n >= cfg.maxFailed then Some(now + 60 * cfg.lockoutMinutes) else a.lockedUntil)
    case _ => a
  }

  /** A login moves the account it names, as its answer tells, and no other account. */
  lemma LoginStep(cfg: Config, db: Db, env: Env, req: Request, u: int)
    requires Integrity(db) && Names(db, req, u)
    ensures var (d, resp) := Step(cfg, db, env, req);
            d.users == db.users[u := AfterLogin(cfg, db.users[u], env.now, resp.code)]
  {
    hide Decide, RightPassword, HashToken, Text, Integrity, NewSession, UserFields, AttrsOf, HashFree, WriteAudit;
    NamedOutcome(cfg, db, env, req, u);
    var o := Decide(cfg, db, env, req);
    AuditKeepsSessions(Apply(db, env.now, o.effect), env.now, o.note);
    assert db.users[u := db.users[u]] == db.users;
    NothingWritten(db, env.now);
  }

  /** What an accepted login opens and writes: one session for the configured hours, one audit row, and nothing else
      but the account's counters. */
  lemma LoginOpens(cfg: Config, db: Db, env: Env, req: Request, u: int)
    requires Integrity(db) && Names(db, req, u) && Step(cfg, db, env, req).1.status == Ok
    ensures var (d, a) := (Step(cfg, db, env, req).0, db.users[u]);
            var end := env.now + 3600 * cfg.sessionHours;
            var session := Session(u, HashToken(cfg.crypto, env.token), env.now, end, None);
            var row := AuditRow(db.nextAudit, env.now, Some(u), a.username, "AUTH_SUCCESS", "user", Some(u), "ok",
                                Some(Obj(map[])));
            d == db.(users := d.users, sessions := db.sessions[db.nextSession := session],
                     nextSession := db.nextSession + 1, audit := db.audit + [row], nextAudit := db.nextAudit + 1)
  {
    hide Decide, RightPassword, HashToken, Text, Integrity, HashFree, UserFields, AttrsOf;
    NamedOutcome(cfg, db, env, req, u);
    PositiveUser(db, u);
  }

  lemma PositiveUser(db: Db, u: int)
    requires Integrity(db) && u in db.users
    ensures u > 0
  {
    assert UsersIntact(db.users, db.nextUser);
    hide Integrity;
  }

  /** What it answers: the token, and the account with its attributes, which read as those of a plain user where it has
      none. */
  lemma LoginTells(cfg: Config, db: Db, env: Env, req: Request, u: int)
    requires Integrity(db) && Names(db, req, u) && Step(cfg, db, env, req).1.status == Ok
    ensures var (a, known) := (db.users[u], u in db.attrs);
            Step(cfg, db, env, req).1.data == map["token" := Str(env.token), "user" := Obj(
              map["id" := Number(u), "username" := Str(a.username), "full_name" := Str(a.fullName),
                  "role" := Str(if known then db.attrs[u].role else "user"),
                  "clearance_level" := Number(if known then db.attrs[u].clearance else 0),
                  "department" := Str(if known then db.attrs[u].department else "")])]
  {
    hide Decide, RightPassword, HashToken, Text, Integrity, HashFree, Apply, WriteAudit;
    NamedOutcome(cfg, db, env, req, u);
  }

  /** A logout with a valid token stamps the token's session with the time, and does nothing else. */
  lemma LogoutStep(cfg: Config, db: Db, env: Env, req: Request)
    requires req.op == LOGOUT && Caller(cfg, db, env.now, req.token).Some?
    ensures var (d, resp) := Step(cfg, db, env, req);
            && resp.status == Ok
            && exists s | s in db.sessions ::
                 && db.sessions[s].tokenHash == HashToken(cfg.crypto, req.token)
                 && d == db.(sessions := db.sessions[s := db.sessions[s].(revokedAt := Some(env.now))])
  {
    hide DecideAuth, DecideAdmin, DecideList, HashToken, Integrity;
    NothingWritten(Step(cfg, db, env, req).0, env.now);
    var s := LiveSession(db, env.now, HashToken(cfg.crypto, req.token)).value;
    assert Revoked(db.sessions[s], env.now) == db.sessions[s].(revokedAt := Some(env.now));
  }

  // ---------------------------------------------------------------- the history of an account's logins

  /** Request i was a login under the name of account u whose password was compared and found wrong. */
  ghost predicate Failed(run: Run, i: nat, u: int)
    requires i < |run.events|
  {
    Names(run.State(i), run.events[i].req, u) && run.Answer(i).code == AUTH_DENIED
  }

  /** Found right: it was accepted, or no session could be opened. */
  ghost predicate Succeeded(run: Run, i: nat, u: int)
    requires i < |run.events|
  {
    Names(run.State(i), run.events[i].req, u) && run.Answer(i).code in {OK, INTERNAL_ERROR}
  }

  /** Failed logins since the latest successful one, those counted before the run included. */
  ghost function FailuresSince(run: Run, n: nat, u: int): int
    requires n <= |run.events|
  {
    if n == 0 then if u in run.init.users then run.init.users[u].failedAttempts else 0
    else if Failed(run, n - 1, u) then FailuresSince(run, n - 1, u) + 1
    else if Succeeded(run, n - 1, u) then 0
    else FailuresSince(run, n - 1, u)
  }

  /** When the latest of those in the run happened. */
  ghost function LatestFailure(run: Run, n: nat, u: int): Option<int>
    requires n <= |run.events|
  {
    if n == 0 then None
    else if Failed(run, n - 1, u) then Some(run.events[n - 1].env.now)
    else if Succeeded(run, n - 1, u) then None
    else LatestFailure(run, n - 1, u)
  }

  /** The lock the account had before the run, which ends with the first success. */
  ghost function LockBefore(run: Run, n: nat, u: int): Option<int>
    requires n <= |run.events|
  {
    if u in run.init.users && forall k: nat | k < n :: !Succeeded(run, k, u) then run.init.users[u].lockedUntil
    else None
  }

  /** The lock as the history has it: a full lockout from the latest failure once the failures reached the configured
      number. */
  ghost function LockByHistory(run: Run, n: nat, u: int): Option<int>
    requires n <= |run.events|
  {
    var latest := LatestFailure(run, n, u);
    if latest.Some? && FailuresSince(run, n, u) >= run.cfg.maxFailed
    then Some(latest.value + 60 * run.cfg.lockoutMinutes) else LockBefore(run, n, u)
  }

  ghost predicate FollowsHistory(run: Run, n: nat, u: int)
    requires n <= |run.events|
  {
    && (u in run.State(n).users ==>
          && run.State(n).users[u].failedAttempts == Min(FailuresSince(run, n, u), INT32_MAX)
          && run.State(n).users[u].lockedUntil == LockByHistory(run, n, u))
    && (u >= run.State(n).nextUser ==>
          FailuresSince(run, n, u) == 0 && LatestFailure(run, n, u) == None && LockBefore(run, n, u) == None)
  }

  /** Whatever is not a login under the account's name leaves its counter and lock, and a new account has both clear. */
  lemma QuietRequest(run: Run, i: nat, u: int)
    requires run.Valid() && i < |run.events| && u > 0 && !Names(run.State(i), run.events[i].req, u)
    ensures var (db, d) := (run.State(i), run.State(i + 1));
            && (u in db.users && u in d.users ==>
                  && d.users[u].failedAttempts == db.users[u].failedAttempts
                  && d.users[u].lockedUntil == db.users[u].lockedUntil)
            && (u !in db.users && u in d.users ==>
                  u >= db.nextUser && d.users[u].failedAttempts == 0 && d.users[u].lockedUntil == None)
            && d.nextUser >= db.nextUser
  {
    hide Decide, Apply, WriteAudit, Step, Integrity, Text;
    StatesIntact(run, i);
    Advance(run, i);
    var (db, now, o) := (run.State(i), run.events[i].env.now, run.Outcome(i));
    LoginMeansAuth(run.cfg, db, run.events[i].env, run.events[i].req);
    OtherEffects(db, now, o.effect, u);
    AuditKeepsIds(Apply(db, now, o.effect), now, o.note);
  }

  lemma LoginKeepsNext(run: Run, i: nat, u: int)
    requires i < |run.events| && run.events[i].req.op == AUTH
    ensures run.State(i + 1).nextUser == run.State(i).nextUser
  {
    hide DecideOpen, DecideAdmin, WriteAudit;
    Advance(run, i);
    var (db, now, o) := (run.State(i), run.events[i].env.now, run.Outcome(i));
    LoginMeansAuth(run.cfg, db, run.events[i].env, run.events[i].req);
    AuditKeepsIds(Apply(db, now, o.effect), now, o.note);
  }

  lemma HistoryStep(run: Run, i: nat, u: int)
    requires run.Valid() && i < |run.events| && u > 0 && FollowsHistory(run, i, u)
    ensures FollowsHistory(run, i + 1, u)
  {
    hide Decide, Step, Integrity, Text;
    if Names(run.State(i), run.events[i].req, u) {
      StatesIntact(run, i);
      NamedAdvance(run, i, u);
      LoginKeepsNext(run, i, u);
      AccountId(run.State(i), u);
    } else {
      QuietRequest(run, i, u);
    }
  }

  lemma NamedAdvance(run: Run, i: nat, u: int)
    requires run.Valid() && i < |run.events| && Names(run.State(i), run.events[i].req, u)
    ensures var (users, now) := (run.State(i).users, run.events[i].env.now);
            run.State(i + 1).users == users[u := AfterLogin(run.cfg, users[u], now, run.Answer(i).code)]
  {
    hide Step, Integrity, Names;
    StatesIntact(run, i);
    LoginStep(run.cfg, run.State(i), run.events[i].env, run.events[i].req, u);
  }

  /** The counter counts. At every moment of every run an account's counter is the number of failed logins under its
      name since the latest successful one, up to 32 bits, and its lock is the one the history gives. */
  lemma {:induction false} CounterCounts(run: Run, n: nat, u: int)
    requires run.Valid() && n <= |run.events| && u > 0
    requires u in run.init.users ==> run.init.users[u].failedAttempts <= INT32_MAX
    ensures FollowsHistory(run, n, u)
  {
    hide Step, Integrity, FollowsHistory;
    if n == 0 {
      AtStart(run, u);
    } else {
      CounterCounts(run, n - 1, u);
      HistoryStep(run, n - 1, u);
    }
  }

  lemma AtStart(run: Run, u: int)
    requires run.Valid()
    requires u in run.init.users ==> run.init.users[u].failedAttempts <= INT32_MAX
    ensures FollowsHistory(run, 0, u)
  {
  }

  /** Locked exactly. A login with a password, under the name of an active account, is answered ACCOUNT_LOCKED if and
      only if the failed logins under that name since the latest successful one have reached the configured number (one
      of them at least in this run) and the lockout since the latest has not passed, or a lock from before still
      stands. */
  lemma LockedExactly(run: Run, n: nat, u: int)
    requires run.Valid() && n < |run.events| && Names(run.State(n), run.events[n].req, u)
    requires Text(run.events[n].req.data, "password") != "" && run.State(n).users[u].isActive
    requires u in run.init.users ==> run.init.users[u].failedAttempts <= INT32_MAX
    ensures var (now, latest, before) := (run.events[n].env.now, LatestFailure(run, n, u), LockBefore(run, n, u));
            run.Answer(n).code == ACCOUNT_LOCKED <==>
              if latest.Some? && FailuresSince(run, n, u) >= run.cfg.maxFailed
              then now < latest.value + 60 * run.cfg.lockoutMinutes
              else before.Some? && now < before.value
  {
    StatesIntact(run, n);
    assert u > 0;
    hide Step, Integrity, Text, RightPassword, HashToken, LatestFailure, FailuresSince, LockBefore;
    CounterCounts(run, n, u);
    LoginCode(run.cfg, run.State(n), run.events[n].env, run.events[n].req, u);
  }
}
