/** What later requests observe of earlier ones: created accounts log in with their password for life, a login's token
    answers for its user, resources read back as written, and what is deleted never returns. */
module Readback {
  import opened Prelude
  import opened Json
  import opened Protocol
  import opened Schema
  import opened Passwords
  import opened Decisions
  import opened Server
  import opened Runs
  import opened Tokens

  // ---------------------------------------------------------------- ids are never handed out twice

  predicate Advanced(a: Db, b: Db) {
    a.nextUser <= b.nextUser && a.nextResource <= b.nextResource && a.nextPolicy <= b.nextPolicy
  }

  /** No user, resource or policy with an id already handed out comes into being between a and b. */
  ghost predicate NothingReturns(a: Db, b: Db) {
    && (forall u | u in b.users && u < a.nextUser :: u in a.users)
    && (forall r | r in b.resources && r < a.nextResource :: r in a.resources)
    && (forall p | p in b.policies && p < a.nextPolicy :: p in a.policies)
  }

  lemma EffectsOnIds(db: Db, now: int, e: Effect)
    requires Applicable(db, e) && (e.SetPolicy? ==> e.pid in db.policies) && (e.SetResource? ==> e.rid in db.resources)
    ensures Advanced(db, Apply(db, now, e)) && NothingReturns(db, Apply(db, now, e))
  {
  }

  lemma AuditKeepsIds(db: Db, now: int, note: Option<AuditNote>)
    ensures var d := WriteAudit(db, now, note);
            && d.users == db.users && d.resources == db.resources && d.policies == db.policies
            && d.nextUser == db.nextUser && d.nextResource == db.nextResource && d.nextPolicy == db.nextPolicy
  {
  }

  /** A user, resource or policy that is gone stays gone in every run: its id is never given to another. */
  lemma {:induction false} GoneForGood(run: Run, i: nat, n: nat)
    requires i <= n <= |run.events|
    ensures Advanced(run.State(i), run.State(n)) && NothingReturns(run.State(i), run.State(n))
  {
    hide Step, Decide, Apply, WriteAudit;
    if i < n {
      GoneForGood(run, i, n - 1);
      Advance(run, n - 1);
      var db, now, o := run.State(n - 1), run.events[n - 1].env.now, run.Outcome(n - 1);
      EffectsOnIds(db, now, o.effect);
      AuditKeepsIds(Apply(db, now, o.effect), now, o.note);
    }
  }

  /** A token once logged out never again validates to its user, at no moment of any run, whatever the generator draws:
      either the revoked row still stands, or the user is gone for good. */
  lemma LoggedOutForGood(run: Run, i: nat, n: nat, now: int, token: string, u: int)
    requires run.Valid() && i < n <= |run.events| && LoggedOut(run, i, HashToken(run.cfg.crypto, token))
    requires Caller(run.cfg, run.State(i), run.events[i].env.now, run.events[i].req.token) == Some(u)
    ensures Caller(run.cfg, run.State(n), now, token) != Some(u)
  {
    hide Step, Integrity, HashToken, LoggedOut, LiveSession, Deleted;
    if j: nat :| i < j < n && Deleted(run, j, u) {
      StatesIntact(run, i);
      AccountId(run.State(i), u);
      GoneForGood(run, i, j + 1);
      DeletedIsAbsent(run, j, u);
      GoneForGood(run, j + 1, n);
    } else {
      LogoutIsFinal(run, i, n, now, token, u);
    }
  }

  lemma AccountId(db: Db, u: int)
    requires Integrity(db) && u in db.users
    ensures u < db.nextUser
  {
    assert UsersIntact(db.users, db.nextUser);
    hide Integrity;
  }

  lemma DeletedIsAbsent(run: Run, j: nat, u: int)
    requires j < |run.events| && Deleted(run, j, u)
    ensures u !in run.State(j + 1).users
  {
    hide Decide, WriteAudit, Step, Caller, Id;
    Advance(run, j);
    var (db, now, o) := (run.State(j), run.events[j].env.now, run.Outcome(j));
    DropUserMeansDelete(run.cfg, db, run.events[j].env, run.events[j].req);
    AuditKeepsIds(Apply(db, now, o.effect), now, o.note);
  }

  // ---------------------------------------------------------------- credentials

  predicate SameCredentials(a: User, b: User) {
    a.username == b.username && a.passwordHash == b.passwordHash && a.salt == b.salt
  }

  lemma EffectsOnCredentials(db: Db, now: int, e: Effect, u: int)
    requires Applicable(db, e) && u in db.users && u < db.nextUser && u in Apply(db, now, e).users
    ensures SameCredentials(Apply(db, now, e).users[u], db.users[u])
  {
  }

  /** No operation changes a user name or a stored password. */
  lemma {:induction false} CredentialsForLife(run: Run, i: nat, n: nat, u: int)
    requires run.Valid() && i <= n <= |run.events| && 0 < u < run.State(i).nextUser && u in run.State(n).users
    ensures u in run.State(i).users && SameCredentials(run.State(n).users[u], run.State(i).users[u])
  {
    hide Step, Decide, Apply, WriteAudit, Integrity;
    if i < n {
      GoneForGood(run, i, n - 1);
      GoneForGood(run, n - 1, n);
      CredentialsForLife(run, i, n - 1, u);
      Advance(run, n - 1);
      var db, now, o := run.State(n - 1), run.events[n - 1].env.now, run.Outcome(n - 1);
      AuditKeepsIds(Apply(db, now, o.effect), now, o.note);
      EffectsOnCredentials(db, now, o.effect, u);
    }
  }

  /** Request i was accepted and created account u. */
  ghost predicate Created(run: Run, i: nat, u: int)
    requires i < |run.events|
  {
    run.events[i].req.op == USER_CREATE && run.Answer(i).status == Ok && run.Answer(i).data == map["id" := Number(u)]
  }

  lemma CreationEffect(run: Run, i: nat, u: int)
    requires i < |run.events| && Created(run, i, u)
    ensures var req := run.events[i].req;
            && run.Outcome(i).effect == AddUser(NewUser(run.cfg, run.events[i].env, req.data), NewAttrs(req.data))
            && u == run.State(i).nextUser && Text(req.data, "username") != ""
  {
    hide Step, Decide, Apply, NewUser, NewAttrs, Admissible, AttrsOk, Caller, Text, WriteAudit, SessionEffect;
    Advance(run, i);
    var db, env, req := run.State(i), run.events[i].env, run.events[i].req;
    AcceptedCreation(run.cfg, db, env, req);
    DecidedBy(run.cfg, db, env, req);
    assert Number(u) == map["id" := Number(u)]["id"] == map["id" := Number(db.nextUser)]["id"];
  }

  lemma AcceptedCreation(cfg: Config, db: Db, env: Env, req: Request)
    requires req.op == USER_CREATE && Decide(cfg, db, env, req).status == Ok
    ensures ByAdmin(cfg, db, env, req)
  {
    hide DecideAuth, DecideOpen, DecideAdmin, Caller;
  }

  lemma CreatedAccount(run: Run, i: nat, u: int)
    requires run.Valid() && i < |run.events| && Created(run, i, u)
    ensures u in run.State(i + 1).users && 0 < u < run.State(i + 1).nextUser
    ensures run.State(i + 1).users[u] == NewUser(run.cfg, run.events[i].env, run.events[i].req.data)
  {
    StatesIntact(run, i);
    assert run.State(i).nextUser > 0;
    hide Step, Decide, NewUser, NewAttrs, Integrity, Created, WriteAudit;
    CreationEffect(run, i, u);
    Advance(run, i);
    var db, now, o := run.State(i), run.events[i].env.now, run.Outcome(i);
    AuditKeepsIds(Apply(db, now, o.effect), now, o.note);
  }

  lemma NewUserCredentials(cfg: Config, env: Env, data: Object, u: User, attempt: string, random: Bytes)
    requires SameCredentials(u, NewUser(cfg, env, data)) && |env.salt| == HASH_BYTES
    ensures u.username == Text(data, "username")
    ensures PasswordMatches(cfg.crypto, u.passwordHash, u.salt, attempt, random) <==>
            T1(cfg.crypto, attempt, env.salt, ITERATIONS) ==
            T1(cfg.crypto, Text(data, "password"), env.salt, ITERATIONS)
  {
    hide HashedPassword, Split, T1, Text, PasswordMatches;
    StoredPasswordMatches(cfg.crypto, Text(data, "password"), env.salt, attempt, random);
  }

  /** The account made by an accepted USER_CREATE takes its password for as long as it exists, whatever happens in
      between: a login under its name is accepted exactly when the account is active and not locked, the password
      derives the same key from the random salt as the original one (so the original itself always does), and the
      fresh token's hash is not taken. */
  lemma PasswordForLife(run: Run, i: nat, n: nat, u: int)
    requires run.Valid() && i < n < |run.events| && Created(run, i, u) && |run.events[i].env.salt| == HASH_BYTES
    requires u in run.State(n).users && run.events[n].req.op == AUTH
    requires Text(run.events[n].req.data, "username") == Text(run.events[i].req.data, "username")
    ensures var (db, env, salt) := (run.State(n), run.events[n].env, run.events[i].env.salt);
            var original := Text(run.events[i].req.data, "password");
            var attempt := Text(run.events[n].req.data, "password");
            run.Answer(n).status == Ok <==>
              && attempt != "" && db.users[u].isActive && !Locked(db.users[u], env.now)
              && T1(run.cfg.crypto, attempt, salt, ITERATIONS) == T1(run.cfg.crypto, original, salt, ITERATIONS)
              && HashFree(db.sessions, HashToken(run.cfg.crypto, env.token))
  {
    hide Step, Decide, NewUser, Created, PasswordMatches, T1, HashToken, Text, HashFree, Locked, Integrity;
    CreatedAccount(run, i, u);
    CreationEffect(run, i, u);
    CredentialsForLife(run, i + 1, n, u);
    StatesIntact(run, n);
    Advance(run, n);
    var req, env := run.events[n].req, run.events[n].env;
    NewUserCredentials(run.cfg, run.events[i].env, run.events[i].req.data, run.State(n).users[u],
                       Text(req.data, "password"), env.salt);
    LoginOutcome(run.cfg, run.State(n), env, req, u);
  }

  lemma LoginOutcome(cfg: Config, db: Db, env: Env, req: Request, u: int)
    requires Integrity(db) && req.op == AUTH && u in db.users
    requires Text(req.data, "username") == db.users[u].username != ""
    ensures var attempt := Text(req.data, "password");
            Decide(cfg, db, env, req).status == Ok <==>
              && attempt != "" && db.users[u].isActive && !Locked(db.users[u], env.now)
              && PasswordMatches(cfg.crypto, db.users[u].passwordHash, db.users[u].salt, attempt, env.salt)
              && HashFree(db.sessions, HashToken(cfg.crypto, env.token))
  {
    NamedIs(db, u);
    hide Integrity, Caller, DecideOpen, DecideAdmin, PasswordMatches, HashToken, HashFree, Locked, Text, UserNamed;
  }

  lemma NamedIs(db: Db, u: int)
    requires Integrity(db) && u in db.users
    ensures UserNamed(db, db.users[u].username) == Some(u)
  {
    assert UsersIntact(db.users, db.nextUser);
    hide Integrity;
  }

  // ---------------------------------------------------------------- a login and its token

  lemma LoginEffectOf(cfg: Config, db: Db, env: Env, req: Request, u: int)
    requires req.op == AUTH && Decide(cfg, db, env, req).status == Ok
    requires UserNamed(db, Text(req.data, "username")) == Some(u)
    ensures var o := Decide(cfg, db, env, req);
            && o.effect == Login(u, NewSession(cfg, env, u)) && Admissible(db, o.effect)
            && u in db.users && db.users[u].isActive
            && o.data == map["token" := Str(env.token), "user" := Obj(UserFields(u, db.users[u], AttrsOf(db, u)))]
  {
    hide Caller, DecideOpen, DecideAdmin, HashToken, HashFree, Locked, Text, UserNamed, UserFields, RightPassword;
  }

  lemma FreshSession(cfg: Config, db: Db, env: Env, u: int, d: Db, now: int)
    requires SessionsIntact(db.sessions, db.nextSession, db.users.Keys)
    requires HashFree(db.sessions, HashToken(cfg.crypto, env.token))
    requires d.sessions == db.sessions[db.nextSession := NewSession(cfg, env, u)]
    ensures LiveSession(d, now, HashToken(cfg.crypto, env.token)) ==
            if now < env.now + HOUR * cfg.sessionHours then Some(db.nextSession) else None
  {
    assert forall s | s in db.sessions :: d.sessions[s] == db.sessions[s];
    hide SessionsIntact, HashToken;
    var h := HashToken(cfg.crypto, env.token);
    assert forall s | s in d.sessions && s != db.nextSession :: !SessionLive(d.sessions[s], now, h);
    assert SessionLive(d.sessions[db.nextSession], now, h) <==> now < env.now + HOUR * cfg.sessionHours;
  }

  lemma MeOutcome(cfg: Config, db: Db, env: Env, req: Request)
    requires req.op == ME
    ensures var c := Caller(cfg, db, env.now, req.token);
            Decide(cfg, db, env, req) == if c.None? then Refuse(Error, TOKEN_INVALID, "Invalid or expired token")
                                         else Reply(AccountFields(c.value, db.users[c.value], db.attrs[c.value]))
  {
    hide DecideAuth, DecideAdmin, DecideList, Caller, AccountFields;
  }

  lemma MeShowsUser(u: int, before: User, after: User, a: Attrs)
    requires before.username == after.username && before.fullName == after.fullName
    ensures forall k | k in UserFields(u, before, a) ::
              k in AccountFields(u, after, a) && AccountFields(u, after, a)[k] == UserFields(u, before, a)[k]
  {
    assert UserFields(u, before, a) == UserFields(u, after, a);
    hide UserFields;
  }

  /** The token an accepted login returns is the caller's at once: until it expires ME answers with it exactly when the
      account has attributes, and repeats every field of the user the login described. */
  lemma LoginThenMe(cfg: Config, db: Db, env: Env, req: Request, u: int, env': Env, me: Request)
    requires Integrity(db) && req.op == AUTH && Step(cfg, db, env, req).1.status == Ok
    requires UserNamed(db, Text(req.data, "username")) == Some(u)
    requires me.op == ME && Field(Step(cfg, db, env, req).1.data, "token") == Str(me.token)
    ensures var (login, answer) := (Step(cfg, db, env, req).1, Step(cfg, Step(cfg, db, env, req).0, env', me).1);
            var user := ToObject(Field(login.data, "user"));
            && (answer.status == Ok <==> u in db.attrs && env'.now < env.now + HOUR * cfg.sessionHours)
            && (answer.status == Ok ==> forall k | k in user :: k in answer.data && answer.data[k] == user[k])
            && (answer.status != Ok ==> answer.code == TOKEN_INVALID)
  {
    hide Decide, Integrity, UserFields, AccountFields, HashToken, LiveSession, Text, UserNamed, HashFree;
    LoginEffectOf(cfg, db, env, req, u);
    var o := Decide(cfg, db, env, req);
    var d := Step(cfg, db, env, req).0;
    var applied := Apply(db, env.now, o.effect);
    AuditKeepsSessions(applied, env.now, o.note);
    assert SessionsIntact(db.sessions, db.nextSession, db.users.Keys) by { SessionsOf(db); }
    FreshSession(cfg, db, env, u, d, env'.now);
    MeOutcome(cfg, d, env', me);
    MeShowsUser(u, db.users[u], d.users[u], AttrsOf(db, u));
  }

  lemma SessionsOf(db: Db)
    requires Integrity(db)
    ensures SessionsIntact(db.sessions, db.nextSession, db.users.Keys)
  {
    hide SessionsIntact, UsersIntact, AttrsIntact, ResourcesIntact, PoliciesIntact, AuditIntact;
  }

  lemma AuditKeepsSessions(db: Db, now: int, note: Option<AuditNote>)
    ensures var d := WriteAudit(db, now, note); d.users == db.users && d.attrs == db.attrs && d.sessions == db.sessions
  {
  }
}
