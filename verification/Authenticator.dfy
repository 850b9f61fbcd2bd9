/** Logging in, checking a token and logging out, against the data layer. */
module Authenticator {
  import opened Prelude
  import opened Json
  import opened Protocol
  import opened Schema
  import opened Passwords
  import opened Server
  import opened Pip

  datatype AuthResult =
    | Rejected(errorCode: string)
    | Accepted(token: string, userId: int, username: string, fullName: string, role: string, clearance: int,
               department: string)

  class Auth {
    const pip: PIP
    const cfg: Config

    constructor (pip: PIP, cfg: Config)
      ensures this.pip == pip && this.cfg == cfg
    {
      this.pip := pip;
      this.cfg := cfg;
    }

    /** The token and the random bytes come from `env`. */
    method Authenticate(username: string, password: string, env: Env) returns (r: AuthResult)
      requires Integrity(pip.Tables())
      modifies pip
      ensures var db := old(pip.Tables());
              var o := AuthOutcome(cfg, db, env, username, password);
              && pip.Tables() == Apply(db, env.now, o.effect)
              && (r.Accepted? <==> o.status == Ok)
              && (r.Rejected? ==> o == Outcome(o.effect, None, Error, CodeFor(r.errorCode), r.errorCode, map[]))
              && (r.Accepted? ==> o == Done(o.effect,
                    AuditNote(r.userId, r.username, "AUTH_SUCCESS", "user", r.userId, map[]), LoginData(r)))
    {
      hide UsersIntact, AttrsIntact, ResourcesIntact, PoliciesIntact, AuditIntact, HashToken, HashedPassword;
      var user := pip.FindUserByUsername(username);
      if user.None? {
        return Rejected("AUTH_DENIED");
      }
      var id, row := user.value.id, user.value.row;
      if !row.isActive {
        return Rejected("ACCOUNT_INACTIVE");
      }
      if row.lockedUntil.Some? && row.lockedUntil.value > env.now {
        return Rejected("ACCOUNT_LOCKED");
      }
      var storedHash := row.passwordHash + ":" + row.salt;
      var computedHash := HashPassword(cfg.crypto, password, row.salt, env.salt);
      if storedHash != computedHash {
        RecordFailure(id, env.now);
        return Rejected("AUTH_DENIED");
      }
      r := OpenSession(id, row, env);
    }

    method RecordFailure(id: int, now: int)
      requires id in pip.users
      modifies pip
      ensures pip.Tables() == Apply(old(pip.Tables()), now, CountFailure(id, LockAfter(cfg, old(pip.users[id]), now)))
      ensures id in pip.users
              && (old(pip.users[id].failedAttempts) < INT32_MAX ==>
                    pip.users[id].failedAttempts == old(pip.users[id].failedAttempts) + 1)
              && (pip.users[id].failedAttempts >= cfg.maxFailed ==>
                    pip.users[id].lockedUntil == Some(now + 60 * cfg.lockoutMinutes))
    {
      ghost var before := pip.users;
      pip.IncrementFailedAttempts(id);
      var updated := pip.FindUserById(id);
      if updated.Some? && updated.value.row.failedAttempts >= cfg.maxFailed {
        pip.LockUser(id, cfg.lockoutMinutes, now);
      }
      assert pip.users == Apply(old(pip.Tables()), now, CountFailure(id, LockAfter(cfg, before[id], now))).users;
    }

    /** Clears the account's counter and lock whether or not a session can be opened. */
    method OpenSession(id: int, row: User, env: Env) returns (r: AuthResult)
      requires id in pip.users && row == pip.users[id] && pip.nextSession > 0
      modifies pip
      ensures var db := old(pip.Tables());
              var free := HashFree(db.sessions, HashToken(cfg.crypto, env.token));
              && pip.Tables() == Apply(db, env.now, if free then Login(id, NewSession(cfg, env, id)) else LoginBurn(id))
              && (var a := AttrsOf(db, id);
                  r == if free
                       then Accepted(env.token, id, row.username, row.fullName, a.role, a.clearance, a.department)
                       else Rejected("INTERNAL_ERROR"))
      ensures id in pip.users && pip.users[id] == row.(failedAttempts := 0, lockedUntil := None,
                                                       lastLogin := Some(env.now))
    {
      hide HashToken;
      ghost var before := pip.users;
      pip.ResetFailedAttempts(id);
      pip.UpdateLastLogin(id, env.now);
      assert pip.users == before[id := LoggedIn(before[id], env.now)];
      var attrs := pip.GetSubjectAttrs(id);
      var tokenHash := HashToken(cfg.crypto, env.token);
      var sessionId := pip.CreateSession(id, tokenHash, cfg.sessionHours, env.now);
      if sessionId < 0 {
        return Rejected("INTERNAL_ERROR");
      }
      var a := attrs.GetOr(Attrs("user", 0, ""));
      return Accepted(env.token, id, row.username, row.fullName, a.role, a.clearance, a.department);
    }

    /** The user of a live session, with its attributes. */
    method VerifyToken(token: string, now: int) returns (r: Option<int>)
      requires Integrity(pip.Tables())
      ensures r == Caller(cfg, pip.Tables(), now, token)
    {
      hide UsersIntact, AttrsIntact, ResourcesIntact, PoliciesIntact, AuditIntact, SessionsIntact, HashToken;
      var session := pip.FindSessionByTokenHash(HashToken(cfg.crypto, token), now);
      if session.None? {
        return None;
      }
      var user := pip.FindUserById(session.value.row.userId);
      if user.None? || !user.value.row.isActive {
        return None;
      }
      var attrs := pip.GetSubjectAttrs(user.value.id);
      return if attrs.None? then None else Some(user.value.id);
    }

    method Logout(token: string, now: int)
      requires Integrity(pip.Tables())
      modifies pip
      ensures var s := LiveSession(old(pip.Tables()), now, HashToken(cfg.crypto, token));
              pip.Tables() == if s.Some? then Apply(old(pip.Tables()), now, Revoke(s.value)) else old(pip.Tables())
    {
      hide UsersIntact, AttrsIntact, ResourcesIntact, PoliciesIntact, AuditIntact, SessionsIntact, HashToken;
      var session := pip.FindSessionByTokenHash(HashToken(cfg.crypto, token), now);
      if session.Some? {
        pip.RevokeSession(session.value.id, now);
      }
    }
  }

  function LoginData(r: AuthResult): Object
    requires r.Accepted?
  {
    map["token" := Str(r.token),
        "user" := Obj(map["id" := Number(r.userId), "username" := Str(r.username), "full_name" := Str(r.fullName),
                          "role" := Str(r.role), "clearance_level" := Number(r.clearance),
                          "department" := Str(r.department)])]
  }

  /** The result code of an error text; one that is no code reads as a denial. */
  function CodeFor(errorCode: string): ResultCode {
    CodeFromString(errorCode).GetOr(AUTH_DENIED)
  }
}
