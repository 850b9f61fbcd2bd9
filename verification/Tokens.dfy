/** A token is valid exactly when its history says so. */
module Tokens {
  import opened Prelude
  import opened Protocol
  import opened Schema
  import opened Passwords
  import opened Server
  import opened Runs

  // ---------------------------------------------------------------- the history of a token hash

  /** A session for token hash `h` of user `u` expiring at `exp` came into being just before moment k: it was there
      at the start, or request k - 1 was an accepted AUTH naming u whose fresh token hashes to h. */
  ghost predicate Issued(run: Run, k: nat, h: string, u: int, exp: int)
    requires k <= |run.events|
  {
    if k == 0 then HasSession(run.init, h, u, exp)
    else
      var env, req := run.events[k - 1].env, run.events[k - 1].req;
      && req.op == AUTH && run.Answer(k - 1).status == Ok
      && UserNamed(run.State(k - 1), Text(req.data, "username")) == Some(u)
      && h == HashToken(run.cfg.crypto, env.token) && exp == env.now + HOUR * run.cfg.sessionHours
  }

  ghost predicate LoggedOut(run: Run, j: nat, h: string)
    requires j < |run.events|
  {
    var req := run.events[j].req;
    req.op == LOGOUT && run.Answer(j).status == Ok && HashToken(run.cfg.crypto, req.token) == h
  }

  ghost predicate Deleted(run: Run, j: nat, u: int)
    requires j < |run.events|
  {
    var req := run.events[j].req;
    req.op == USER_DELETE && run.Answer(j).status == Ok && Id(req.data, "user_id") == u
  }

  ghost predicate UndisturbedSince(run: Run, k: nat, n: nat, h: string, u: int)
    requires k <= n <= |run.events|
  {
    forall j | k <= j < n :: !LoggedOut(run, j, h) && !Deleted(run, j, u)
  }

  /** Issued at some moment, neither logged out nor deleted with its user since. */
  ghost predicate Standing(run: Run, n: nat, h: string, u: int, exp: int)
    requires n <= |run.events|
  {
    exists k: nat | k <= n :: Issued(run, k, h, u, exp) && UndisturbedSince(run, k, n, h, u)
  }

  // ---------------------------------------------------------------- the sessions table

  ghost predicate HasSession(db: Db, h: string, u: int, exp: int) {
    exists s | s in db.sessions :: IsSession(db.sessions[s], h, u, exp)
  }

  predicate IsSession(s: Session, h: string, u: int, exp: int) {
    s.tokenHash == h && s.userId == u && s.expiresAt == exp && s.revokedAt.None?
  }

  ghost predicate Ends(db: Db, e: Effect, h: string, u: int)
    requires Admissible(db, e)
  {
    (e.Revoke? && db.sessions[e.sid].tokenHash == h) || (e.DropUser? && e.uid == u)
  }

  lemma ApplySessions(db: Db, now: int, e: Effect, h: string, u: int, exp: int)
    requires Integrity(db) && Admissible(db, e)
    ensures HasSession(Apply(db, now, e), h, u, exp) <==>
            || (e.Login? && IsSession(e.session, h, u, exp))
            || (HasSession(db, h, u, exp) && !Ends(db, e, h, u))
  {
    var d := Apply(db, now, e);
    if e.Login? && IsSession(e.session, h, u, exp) {
      assert IsSession(d.sessions[db.nextSession], h, u, exp);
    } else if HasSession(db, h, u, exp) && !Ends(db, e, h, u) {
      var s :| s in db.sessions && IsSession(db.sessions[s], h, u, exp);
      assert s != db.nextSession;
      assert IsSession(d.sessions[s], h, u, exp);
    }
  }

  lemma IssuedByLogin(run: Run, n: nat, h: string, u: int, exp: int)
    requires n < |run.events|
    ensures var e := run.Outcome(n).effect;
            Issued(run, n + 1, h, u, exp) <==> e.Login? && IsSession(e.session, h, u, exp)
  {
    hide Decide, Apply, Step, HashToken, UserNamed;
    Advance(run, n);
    LoginMeansAuth(run.cfg, run.State(n), run.events[n].env, run.events[n].req);
  }

  lemma EndedByLogoutOrDeletion(run: Run, n: nat, h: string, u: int)
    requires n < |run.events|
    ensures Ends(run.State(n), run.Outcome(n).effect, h, u) <==> LoggedOut(run, n, h) || Deleted(run, n, u)
  {
    hide Decide, Apply, Step, HashToken, Caller, Id;
    Advance(run, n);
    RevokeMeansLogout(run.cfg, run.State(n), run.events[n].env, run.events[n].req);
    DropUserMeansDelete(run.cfg, run.State(n), run.events[n].env, run.events[n].req);
  }

  lemma StepSessions(run: Run, n: nat, h: string, u: int, exp: int)
    requires run.Valid() && n < |run.events|
    ensures HasSession(run.State(n + 1), h, u, exp) <==>
            || Issued(run, n + 1, h, u, exp)
            || (HasSession(run.State(n), h, u, exp) && !LoggedOut(run, n, h) && !Deleted(run, n, u))
  {
    hide Decide, Apply, Integrity, Step, Issued, LoggedOut, Deleted, Ends;
    StatesIntact(run, n);
    Advance(run, n);
    IssuedByLogin(run, n, h, u, exp);
    EndedByLogoutOrDeletion(run, n, h, u);
    ApplySessions(run.State(n), run.events[n].env.now, run.Outcome(n).effect, h, u, exp);
  }

  lemma {:induction false} SessionsFollowHistory(run: Run, n: nat, h: string, u: int, exp: int)
    requires run.Valid() && n <= |run.events|
    ensures HasSession(run.State(n), h, u, exp) <==> Standing(run, n, h, u, exp)
  {
    hide Decide, Apply, Integrity, Issued, LoggedOut, Deleted, HasSession;
    if n == 0 {
      IssuedAtStart(run, h, u, exp);
      assert UndisturbedSince(run, 0, 0, h, u);
    } else {
      SessionsFollowHistory(run, n - 1, h, u, exp);
      StepSessions(run, n - 1, h, u, exp);
      if Standing(run, n, h, u, exp) {
        var k: nat :| k <= n && Issued(run, k, h, u, exp) && UndisturbedSince(run, k, n, h, u);
        assert k < n ==> UndisturbedSince(run, k, n - 1, h, u);
      }
      if Issued(run, n, h, u, exp) {
        assert UndisturbedSince(run, n, n, h, u);
      }
      if Standing(run, n - 1, h, u, exp) && !LoggedOut(run, n - 1, h) && !Deleted(run, n - 1, u) {
        var k: nat :| k <= n - 1 && Issued(run, k, h, u, exp) && UndisturbedSince(run, k, n - 1, h, u);
        assert UndisturbedSince(run, k, n, h, u);
      }
    }
  }

  lemma IssuedAtStart(run: Run, h: string, u: int, exp: int)
    ensures Issued(run, 0, h, u, exp) <==> HasSession(run.State(0), h, u, exp)
  {
  }

  // ---------------------------------------------------------------- main results

  /** In every reachable state a token validates to u exactly when some login issued it to u, it has not expired, no
      accepted logout of it and no deletion of u came since, and u is active and has attributes now. A lock of the
      account plays no part. */
  lemma TokenValidity(run: Run, n: nat, now: int, token: string, u: int)
    requires run.Valid() && n <= |run.events|
    ensures var db := run.State(n);
            Caller(run.cfg, db, now, token) == Some(u) <==>
            && (exists exp | exp > now :: Standing(run, n, HashToken(run.cfg.crypto, token), u, exp))
            && u in db.users && db.users[u].isActive && u in db.attrs
  {
    var db, h := run.State(n), HashToken(run.cfg.crypto, token);
    StatesIntact(run, n);
    hide Decide, Apply, Standing;
    forall exp ensures HasSession(db, h, u, exp) <==> Standing(run, n, h, u, exp) {
      SessionsFollowHistory(run, n, h, u, exp);
    }
    CallerFromSession(run.cfg, db, now, token, u);
    if exists exp | exp > now :: Standing(run, n, h, u, exp) {
      var exp :| exp > now && Standing(run, n, h, u, exp);
      assert HasSession(db, h, u, exp);
    }
  }

  lemma CallerFromSession(cfg: Config, db: Db, now: int, token: string, u: int)
    requires Integrity(db)
    ensures Caller(cfg, db, now, token) == Some(u) <==>
            && (exists exp | exp > now :: HasSession(db, HashToken(cfg.crypto, token), u, exp))
            && u in db.users && db.users[u].isActive && u in db.attrs
  {
    var h := HashToken(cfg.crypto, token);
    var live := LiveSession(db, now, h);
    if live.Some? {
      var s := db.sessions[live.value];
      assert IsSession(s, h, s.userId, s.expiresAt);
      assert HasSession(db, h, s.userId, s.expiresAt);
    }
    if exp :| exp > now && HasSession(db, h, u, exp) {
      var s :| s in db.sessions && IsSession(db.sessions[s], h, u, exp);
      assert SessionLive(db.sessions[s], now, h);
      assert live == Some(s);
    }
  }

  /** A hash without a live session, even one that was never issued or is gone with its user, stays without one until a
      login draws a token with that hash. */
  lemma {:induction false} NoneWithoutIssue(run: Run, i: nat, n: nat, now: int, h: string)
    requires run.Valid() && i <= n <= |run.events|
    requires i < |run.events| ==> run.events[i].env.now >= now
    requires LiveSession(run.State(i), now, h).None?
    requires forall k, u, exp | i < k <= n :: !Issued(run, k, h, u, exp)
    ensures forall later | later >= now :: LiveSession(run.State(n), later, h).None?
  {
    hide Decide, Apply, Integrity, Issued, Step;
    var sessions := run.State(n).sessions;
    forall s | s in sessions && IsSession(sessions[s], h, sessions[s].userId, sessions[s].expiresAt)
      ensures sessions[s].expiresAt <= now
    {
      var row := sessions[s];
      assert HasSession(run.State(n), h, row.userId, row.expiresAt);
      StillThere(run, i, n, h, row.userId, row.expiresAt);
      var t :| t in run.State(i).sessions && IsSession(run.State(i).sessions[t], h, row.userId, row.expiresAt);
      assert !SessionLive(run.State(i).sessions[t], now, h);
    }
  }

  lemma {:induction false} StillThere(run: Run, i: nat, n: nat, h: string, u: int, exp: int)
    requires run.Valid() && i <= n <= |run.events|
    requires HasSession(run.State(n), h, u, exp)
    requires forall k | i < k <= n :: !Issued(run, k, h, u, exp)
    ensures HasSession(run.State(i), h, u, exp)
  {
    hide Decide, Apply, Integrity, Issued, Step;
    if i < n {
      StepSessions(run, n - 1, h, u, exp);
      StillThere(run, i, n - 1, h, u, exp);
    }
  }

  // ---------------------------------------------------------------- spent tokens

  /** A row of user u for hash h that is revoked, or expired at `now`. */
  predicate IsSpent(s: Session, h: string, u: int, now: int) {
    s.tokenHash == h && s.userId == u && (s.revokedAt.Some? || s.expiresAt <= now)
  }

  ghost predicate Spent(db: Db, h: string, u: int, now: int) {
    exists s | s in db.sessions :: IsSpent(db.sessions[s], h, u, now)
  }

  lemma EffectKeepsSpent(db: Db, now: int, e: Effect, h: string, u: int, at: int)
    requires Integrity(db) && Admissible(db, e) && Spent(db, h, u, at) && !(e.DropUser? && e.uid == u)
    ensures Spent(Apply(db, now, e), h, u, at)
  {
    var s :| s in db.sessions && IsSpent(db.sessions[s], h, u, at);
    assert s != db.nextSession;
    assert IsSpent(Apply(db, now, e).sessions[s], h, u, at);
  }

  lemma AuditKeepsSpent(db: Db, now: int, note: Option<AuditNote>, h: string, u: int, at: int)
    ensures Spent(WriteAudit(db, now, note), h, u, at) == Spent(db, h, u, at)
  {
    hide WriteAudit, IsSpent;
    WriteAuditOnlyLogs(db, now, note);
  }

  /** A spent row stays until its user is deleted. */
  lemma {:induction false} SpentStays(run: Run, i: nat, n: nat, h: string, u: int, at: int)
    requires run.Valid() && i <= n <= |run.events| && Spent(run.State(i), h, u, at)
    requires forall j: nat | i <= j < n :: !Deleted(run, j, u)
    ensures Spent(run.State(n), h, u, at)
  {
    hide Decide, Apply, WriteAudit, Step, Integrity, Spent, Id, Caller, LiveSession;
    if i < n {
      SpentStays(run, i, n - 1, h, u, at);
      StatesIntact(run, n - 1);
      Advance(run, n - 1);
      var (db, now, o) := (run.State(n - 1), run.events[n - 1].env.now, run.Outcome(n - 1));
      DropUserMeansDelete(run.cfg, db, run.events[n - 1].env, run.events[n - 1].req);
      assert !Deleted(run, n - 1, u);
      EffectKeepsSpent(db, now, o.effect, h, u, at);
      AuditKeepsSpent(Apply(db, now, o.effect), now, o.note, h, u, at);
    }
  }

  /** The row of a hash is the only one, so nobody has a live session with it. */
  lemma SpentIsDead(db: Db, h: string, u: int, at: int, now: int)
    requires Integrity(db) && Spent(db, h, u, at) && at <= now
    ensures LiveSession(db, now, h).None?
  {
    var s :| s in db.sessions && IsSpent(db.sessions[s], h, u, at);
    assert !SessionLive(db.sessions[s], now, h);
  }

  /** An expired or revoked session is final: as long as its user is not deleted, its token validates to nobody at any
      later moment of any run. Nothing is asked of the generator: a login that draws the token again is refused by
      UNIQUE(token_hash). */
  lemma DeadStaysDead(run: Run, i: nat, n: nat, token: string, u: int, at: int, now: int)
    requires run.Valid() && i <= n <= |run.events| && at <= now
    requires Spent(run.State(i), HashToken(run.cfg.crypto, token), u, at)
    requires forall j: nat | i <= j < n :: !Deleted(run, j, u)
    ensures Caller(run.cfg, run.State(n), now, token).None?
  {
    hide Step, Integrity, Spent, HashToken, Deleted;
    SpentStays(run, i, n, HashToken(run.cfg.crypto, token), u, at);
    StatesIntact(run, n);
    SpentIsDead(run.State(n), HashToken(run.cfg.crypto, token), u, at, now);
  }

  lemma LogoutSpends(run: Run, i: nat, token: string, u: int, at: int)
    requires run.Valid() && i < |run.events| && LoggedOut(run, i, HashToken(run.cfg.crypto, token))
    requires Caller(run.cfg, run.State(i), run.events[i].env.now, run.events[i].req.token) == Some(u)
    ensures Spent(run.State(i + 1), HashToken(run.cfg.crypto, token), u, at)
  {
    hide Decide, WriteAudit, Integrity, HashToken, Step;
    var (db, now, o) := (run.State(i), run.events[i].env.now, run.Outcome(i));
    Advance(run, i);
    RevokeMeansLogout(run.cfg, db, run.events[i].env, run.events[i].req);
    var d := Apply(db, now, o.effect);
    AuditKeepsSpent(d, now, o.note, HashToken(run.cfg.crypto, token), u, at);
    assert IsSpent(d.sessions[o.effect.sid], HashToken(run.cfg.crypto, token), u, at);
  }

  /** A logged-out token validates to nobody at any later moment of any run, as long as its user is not deleted. */
  lemma LogoutIsFinal(run: Run, i: nat, n: nat, now: int, token: string, u: int)
    requires run.Valid() && i < n <= |run.events| && LoggedOut(run, i, HashToken(run.cfg.crypto, token))
    requires Caller(run.cfg, run.State(i), run.events[i].env.now, run.events[i].req.token) == Some(u)
    requires forall j: nat | i < j < n :: !Deleted(run, j, u)
    ensures Caller(run.cfg, run.State(n), now, token).None?
  {
    hide Step, Integrity, Spent, HashToken, Deleted, LoggedOut, Caller;
    LogoutSpends(run, i, token, u, now);
    DeadStaysDead(run, i + 1, n, token, u, now, now);
  }

  /** Deletions or not, it is invalid unless a later login draws its hash again. */
  lemma LoggedOutUnlessIssued(run: Run, i: nat, n: nat, now: int, token: string)
    requires run.Valid() && i < n <= |run.events| && LoggedOut(run, i, HashToken(run.cfg.crypto, token))
    requires forall k, u, exp | i < k <= n :: !Issued(run, k, HashToken(run.cfg.crypto, token), u, exp)
    ensures Caller(run.cfg, run.State(n), now, token).None?
  {
    hide Decide, Apply, Step, Issued, LoggedOut, Standing, HashToken, Integrity, Caller;
    var h := HashToken(run.cfg.crypto, token);
    forall u ensures Caller(run.cfg, run.State(n), now, token) != Some(u) {
      forall exp ensures !Standing(run, n, h, u, exp) {
        NothingStands(run, i, n, h, u, exp);
      }
      TokenValidity(run, n, now, token, u);
    }
  }

  lemma NothingStands(run: Run, i: nat, n: nat, h: string, u: int, exp: int)
    requires i < n <= |run.events| && LoggedOut(run, i, h)
    requires forall k, v, e | i < k <= n :: !Issued(run, k, h, v, e)
    ensures !Standing(run, n, h, u, exp)
  {
    hide Issued, LoggedOut, Deleted;
  }
}
