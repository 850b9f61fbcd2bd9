/** Who can change what: non-administrators, the survival of an administrator, and refused requests. */
module Authority {
  import opened Prelude
  import opened Json
  import opened Protocol
  import opened Schema
  import opened Passwords
  import opened Decisions
  import opened Server
  import opened Runs

  // ---------------------------------------------------------------- non-interference

  /** What a user is, apart from login counters, lock and last login. */
  function Identity(u: User): User {
    u.(failedAttempts := 0, lockedUntil := None, lastLogin := None)
  }

  predicate SameAccounts(a: map<int, User>, b: map<int, User>) {
    a.Keys == b.Keys && forall id | id in a :: Identity(a[id]) == Identity(b[id])
  }

  lemma SameAccountsReflexive(db: Db)
    ensures SameAccounts(db.users, db.users)
  {
  }

  /** Everything decisions rest on: policies, resources, attributes and the identity of every account. */
  predicate SameAuthority(a: Db, b: Db) {
    a.policies == b.policies && a.resources == b.resources && a.attrs == b.attrs && SameAccounts(a.users, b.users)
  }

  lemma SessionEffectsKeepAuthority(db: Db, now: int, e: Effect)
    requires Applicable(db, e) && SessionEffect(e)
    ensures SameAuthority(Apply(db, now, e), db)
  {
  }

  lemma AuditKeepsAuthority(db: Db, now: int, note: Option<AuditNote>)
    ensures SameAuthority(WriteAudit(db, now, note), db) && WriteAudit(db, now, note).nextUser == db.nextUser
  {
  }

  lemma SameAuthorityIsEquivalence(a: Db, b: Db, c: Db)
    ensures SameAuthority(a, a)
    ensures SameAuthority(a, b) && SameAuthority(b, c) ==> SameAuthority(a, c)
  {
  }

  /** A change that an administrator asked for and was granted. */
  ghost predicate AcceptedChange(run: Run, i: nat)
    requires i < |run.events|
  {
    && ByAdmin(run.cfg, run.State(i), run.events[i].env, run.events[i].req)
    && AdminChange(run.events[i].req.op) && run.Answer(i).status == Ok
  }

  /** What a refusal or a session leaves of the tables that decide access: everything, and at most new accounts without
      attributes beside. */
  predicate KeptAuthority(later: Db, before: Db) {
    && later.policies == before.policies && later.resources == before.resources && later.attrs == before.attrs
    && (forall id | id in before.users :: id in later.users && Identity(later.users[id]) == Identity(before.users[id]))
    && (forall id | id in later.users && id !in before.users :: id !in later.attrs)
  }

  lemma KeptTransitive(c: Db, b: Db, a: Db)
    requires KeptAuthority(c, b) && KeptAuthority(b, a)
    ensures KeptAuthority(c, a)
  {
  }

  lemma RefusalsKeepAuthority(db: Db, now: int, e: Effect)
    requires Integrity(db) && Applicable(db, e) && (SessionEffect(e) || FailureEffect(e))
    ensures KeptAuthority(Apply(db, now, e), db)
  {
    assert db.nextUser !in db.attrs && db.nextUser !in db.users;
  }

  /** Without an accepted change by an administrator a request does no more than a session or a refusal may. */
  lemma NotAcceptedEffect(cfg: Config, db: Db, env: Env, req: Request)
    requires !(ByAdmin(cfg, db, env, req) && AdminChange(req.op) && Decide(cfg, db, env, req).status == Ok)
    ensures var e := Decide(cfg, db, env, req).effect; SessionEffect(e) || FailureEffect(e)
  {
    hide DecideAuth, DecideOpen, DecideAdmin, Caller;
  }

  lemma StepKeepsAuthority(run: Run, n: nat)
    requires run.Valid() && n < |run.events| && !AcceptedChange(run, n)
    ensures KeptAuthority(run.State(n + 1), run.State(n))
  {
    hide Decide, Apply, Step, ByAdmin, KeptAuthority, SameAuthority, Integrity;
    var ev, o := run.events[n], run.Outcome(n);
    StatesIntact(run, n);
    Advance(run, n);
    NotAcceptedEffect(run.cfg, run.State(n), ev.env, ev.req);
    RefusalsKeepAuthority(run.State(n), ev.env.now, o.effect);
    var d := Apply(run.State(n), ev.env.now, o.effect);
    AuditKeepsAuthority(d, ev.env.now, o.note);
    SameIsKept(run.State(n + 1), d);
    KeptTransitive(run.State(n + 1), d, run.State(n));
  }

  lemma SameIsKept(a: Db, b: Db)
    requires SameAuthority(a, b)
    ensures KeptAuthority(a, b)
  {
  }

  /** Only an administrator's accepted change moves authority. Over any run without one, whoever asks for whatever, an
      administrator included: policies, resources and attributes stay as they were, every account stays who it was, and
      an account that is new has no attributes. */
  lemma {:induction false} NonInterference(run: Run, n: nat)
    requires run.Valid() && n <= |run.events|
    requires forall i: nat | i < n :: !AcceptedChange(run, i)
    ensures KeptAuthority(run.State(n), run.init)
  {
    hide Step, AcceptedChange, KeptAuthority, SameAuthority, Integrity;
    if n == 0 {
      SameAuthorityIsEquivalence(run.init, run.init, run.init);
      SameIsKept(run.init, run.init);
    } else {
      NonInterference(run, n - 1);
      StepKeepsAuthority(run, n - 1);
      KeptTransitive(run.State(n), run.State(n - 1), run.init);
    }
  }

  predicate IsAdmin(db: Db, u: int) {
    u in db.users && u in db.attrs && db.attrs[u].role == "admin"
  }

  /** Then the administrators are the same, the active ones too, and so is the access relation but for locks. */
  lemma KeptAuthorityKeepsAccess(later: Db, before: Db, now: int, uid: int, rid: int, action: string, rtype: string)
    requires Integrity(before) && KeptAuthority(later, before)
    requires uid in before.users ==> Locked(later.users[uid], now) == Locked(before.users[uid], now)
    ensures IsAdmin(later, uid) == IsAdmin(before, uid) && ActiveAdmin(later, uid) == ActiveAdmin(before, uid)
    ensures Allowed(later, now, uid, rid, action, rtype) == Allowed(before, now, uid, rid, action, rtype)
  {
    if uid in before.users {
      assert Identity(later.users[uid]).isActive == Identity(before.users[uid]).isActive;
    }
    assert Eligible(later, now, uid) == Eligible(before, now, uid);
  }

  /** Where not even a request with an administrator's token occurs, no account is added either. */
  lemma {:induction false} NoAdminNoChange(run: Run, n: nat)
    requires n <= |run.events|
    requires forall i | 0 <= i < n :: !ByAdmin(run.cfg, run.State(i), run.events[i].env, run.events[i].req)
    ensures SameAuthority(run.State(n), run.init)
  {
    hide Decide, Apply, Step, ByAdmin, SameAuthority, Integrity;
    SameAuthorityIsEquivalence(run.init, run.init, run.init);
    if n > 0 {
      NoAdminNoChange(run, n - 1);
      var ev := run.events[n - 1];
      OnlyAdminsChange(run.cfg, run.State(n - 1), ev.env, ev.req);
      Advance(run, n - 1);
      var d := Apply(run.State(n - 1), ev.env.now, run.Outcome(n - 1).effect);
      SessionEffectsKeepAuthority(run.State(n - 1), ev.env.now, run.Outcome(n - 1).effect);
      AuditKeepsAuthority(d, ev.env.now, run.Outcome(n - 1).note);
      SameAuthorityIsEquivalence(run.State(n), d, run.State(n - 1));
      SameAuthorityIsEquivalence(run.State(n), run.State(n - 1), run.init);
    }
  }

  /** Consequently the access relation can only change by locks: with the same locks it is the same relation. */
  lemma SameAuthoritySameAccess(a: Db, b: Db, now: int, uid: int, rid: int, action: string, rtype: string)
    requires SameAuthority(a, b)
    requires uid in a.users ==> Locked(a.users[uid], now) == Locked(b.users[uid], now)
    ensures Allowed(a, now, uid, rid, action, rtype) == Allowed(b, now, uid, rid, action, rtype)
  {
    if uid in a.users {
      assert Identity(a.users[uid]).isActive == Identity(b.users[uid]).isActive;
    }
  }

  // ---------------------------------------------------------------- an administrator remains

  predicate ActiveAdmin(db: Db, u: int) {
    u in db.users && db.users[u].isActive && u in db.attrs && db.attrs[u].role == "admin"
  }

  ghost predicate HasAdmin(db: Db) {
    exists u :: ActiveAdmin(db, u)
  }

  /** The last active administrator deactivates or demotes itself by USER_UPDATE. */
  ghost predicate LastAdminResigns(cfg: Config, db: Db, env: Env, req: Request) {
    && req.op == USER_UPDATE
    && var c := Caller(cfg, db, env.now, req.token);
       && c.Some? && db.attrs[c.value].role == "admin" && Id(req.data, "user_id") == c.value
       && (forall u :: ActiveAdmin(db, u) ==> u == c.value)
       && |ToStr(Field(req.data, "full_name"), db.users[c.value].fullName)| <= 200
       && (|| !ToBool(Field(req.data, "is_active"), true)
           || (var a := AttrsChange(db.attrs, c.value, req.data); a.Some? && a.value.role != "admin"))
  }

  lemma KindNeedsAdmin(cfg: Config, db: Db, env: Env, req: Request)
    requires !SessionEffect(Decide(cfg, db, env, req).effect)
    ensures ByAdmin(cfg, db, env, req) && AdminChange(req.op) && KindFits(req.op, Decide(cfg, db, env, req).effect)
  {
    hide DecideAuth, DecideOpen, DecideAdmin;
  }

  lemma AdminKept(db: Db, now: int, e: Effect, c: int)
    requires Integrity(db) && Admissible(db, e) && ActiveAdmin(db, c)
    requires !(e.SetUser? && e.uid == c) && !(e.DropUser? && e.uid == c)
    ensures ActiveAdmin(Apply(db, now, e), c)
  {
  }

  lemma OthersUnmoved(db: Db, now: int, e: Effect, v: int)
    requires Applicable(db, e) && e.SetUser? && v != e.uid
    ensures ActiveAdmin(Apply(db, now, e), v) == ActiveAdmin(db, v)
  {
  }

  lemma SelfUpdate(db: Db, now: int, c: int, data: Object)
    requires ActiveAdmin(db, c) && Id(data, "user_id") == c && c > 0
    ensures var e := DecideUserUpdate(db, c, data).effect;
            && (e.SetUser? <==> |ToStr(Field(data, "full_name"), db.users[c].fullName)| <= 200)
            && (e.SetUser? ==> e.uid == c)
            && (e.SetUser? ==>
               (ActiveAdmin(Apply(db, now, e), c) <==>
                  && ToBool(Field(data, "is_active"), true)
                  && (var a := AttrsChange(db.attrs, c, data); a.Some? ==> a.value.role == "admin")))
  {
  }

  lemma UpdateTarget(cfg: Config, db: Db, env: Env, req: Request)
    requires Decide(cfg, db, env, req).effect.SetUser?
    ensures ByAdmin(cfg, db, env, req) && req.op == USER_UPDATE
    ensures Decide(cfg, db, env, req).effect.uid == Id(req.data, "user_id")
  {
    hide Decide, Caller, AttrsChange, DecideResourceCreate, DecideResourceUpdate, DecidePolicyCreate;
    hide DecidePolicyUpdate;
    hide DecideUserCreate, DecideGrant;
    KindNeedsAdmin(cfg, db, env, req);
    DecidedBy(cfg, db, env, req);
  }

  /** The caller's own USER_UPDATE, when it is an administrator. */
  ghost predicate SelfDirected(cfg: Config, db: Db, env: Env, req: Request) {
    ByAdmin(cfg, db, env, req) && req.op == USER_UPDATE
    && Caller(cfg, db, env.now, req.token) == Some(Id(req.data, "user_id"))
  }

  lemma AdminKeptUnlessSelfDirected(cfg: Config, db: Db, env: Env, req: Request)
    requires Integrity(db) && HasAdmin(db) && !SelfDirected(cfg, db, env, req)
    ensures HasAdmin(Apply(db, env.now, Decide(cfg, db, env, req).effect))
  {
    hide Decide, Apply, Integrity;
    var e := Decide(cfg, db, env, req).effect;
    if SessionEffect(e) {
      var u :| ActiveAdmin(db, u);
      AdminKept(db, env.now, e, u);
    } else {
      KindNeedsAdmin(cfg, db, env, req);
      DropUserMeansDelete(cfg, db, env, req);
      if e.SetUser? {
        UpdateTarget(cfg, db, env, req);
      }
      AdminKept(db, env.now, e, Caller(cfg, db, env.now, req.token).value);
    }
  }

  lemma SelfDirectedOutcome(cfg: Config, db: Db, env: Env, req: Request)
    requires Integrity(db) && SelfDirected(cfg, db, env, req)
    ensures !HasAdmin(Apply(db, env.now, Decide(cfg, db, env, req).effect)) <==> LastAdminResigns(cfg, db, env, req)
  {
    hide Decide, Apply, DecideUserUpdate, AttrsChange, Id, ToBool, ToStr;
    var c := Caller(cfg, db, env.now, req.token).value;
    var e := Decide(cfg, db, env, req).effect;
    var d := Apply(db, env.now, e);
    assert ActiveAdmin(db, c) && c > 0;
    DecidedBy(cfg, db, env, req);
    SelfUpdate(db, env.now, c, req.data);
    if e.SetUser? {
      forall v | v != c ensures ActiveAdmin(d, v) == ActiveAdmin(db, v) {
        OthersUnmoved(db, env.now, e, v);
      }
    } else {
      AdminKept(db, env.now, e, c);
    }
  }

  /** The one way to lose the last active administrator is its own update; deletion cannot do it, because a caller
      cannot delete itself. */
  lemma AdminLost(cfg: Config, db: Db, env: Env, req: Request)
    requires Integrity(db) && HasAdmin(db)
    ensures !HasAdmin(Step(cfg, db, env, req).0) <==> LastAdminResigns(cfg, db, env, req)
  {
    hide Decide, Apply, Integrity, HasAdmin;
    var o := Decide(cfg, db, env, req);
    AuditKeepsAdmins(Apply(db, env.now, o.effect), env.now, o.note);
    if SelfDirected(cfg, db, env, req) {
      SelfDirectedOutcome(cfg, db, env, req);
    } else {
      AdminKeptUnlessSelfDirected(cfg, db, env, req);
    }
  }

  lemma AuditKeepsAdmins(db: Db, now: int, note: Option<AuditNote>)
    ensures HasAdmin(WriteAudit(db, now, note)) == HasAdmin(db)
  {
    var d := WriteAudit(db, now, note);
    assert forall u :: ActiveAdmin(d, u) == ActiveAdmin(db, u);
  }

  ghost predicate ResignsAt(run: Run, i: nat)
    requires i < |run.events|
  {
    LastAdminResigns(run.cfg, run.State(i), run.events[i].env, run.events[i].req)
  }

  /** Starting with an active administrator there is always one, unless the last one resigned. */
  lemma {:induction false} AdminSurvives(run: Run, n: nat)
    requires run.Valid() && n <= |run.events| && HasAdmin(run.init)
    requires forall i | 0 <= i < n :: !ResignsAt(run, i)
    ensures HasAdmin(run.State(n))
  {
    hide Step, HasAdmin, LastAdminResigns, Integrity;
    if n > 0 {
      AdminSurvives(run, n - 1);
      StatesIntact(run, n - 1);
      assert !ResignsAt(run, n - 1);
      AdminLost(run.cfg, run.State(n - 1), run.events[n - 1].env, run.events[n - 1].req);
    }
  }

  // ---------------------------------------------------------------- refused requests

  predicate SameTables(a: Db, b: Db) {
    && a.users == b.users && a.attrs == b.attrs && a.sessions == b.sessions && a.resources == b.resources
    && a.policies == b.policies && a.audit == b.audit
  }

  /** An accepted administrator asks for an account that is fine with attributes that are not. */
  ghost predicate AttributesRefused(cfg: Config, db: Db, env: Env, req: Request) {
    && ByAdmin(cfg, db, env, req) && req.op == USER_CREATE
    && Text(req.data, "username") != "" && Text(req.data, "password") != "" && Text(req.data, "full_name") != ""
    && Admissible(db, AddOrphan(NewUser(cfg, env, req.data))) && !AttrsOk(NewAttrs(req.data))
  }

  lemma OrphanMeansRefusedAttributes(cfg: Config, db: Db, env: Env, req: Request)
    ensures var e := Decide(cfg, db, env, req).effect;
            && (e.AddOrphan? <==> AttributesRefused(cfg, db, env, req))
            && (e.AddOrphan? ==> e.user == NewUser(cfg, env, req.data))
  {
    hide Decide, NewUser, Caller, AttrsOk, Admissible;
    if !SessionEffect(Decide(cfg, db, env, req).effect) {
      KindNeedsAdmin(cfg, db, env, req);
    }
    if ByAdmin(cfg, db, env, req) && req.op == USER_CREATE {
      DecidedBy(cfg, db, env, req);
    }
  }

  lemma RefusedEffects(cfg: Config, db: Db, env: Env, req: Request)
    requires Decide(cfg, db, env, req).status != Ok
    ensures var o := Decide(cfg, db, env, req);
            && o.note.None?
            && (FailureEffect(o.effect) || o.effect.CountFailure? || o.effect.LoginBurn?)
            && (req.op == AUTH ==> o.effect.Nothing? || LoginEffect(o.effect))
            && (req.op != AUTH ==> FailureEffect(o.effect))
  {
    hide DecideAuth, DecideOpen, DecideAdmin;
  }

  lemma FailureTables(db: Db, now: int, e: Effect)
    requires Applicable(db, e) && (FailureEffect(e) || LoginEffect(e))
    ensures var d := Apply(db, now, e);
            && (FailureEffect(e) && !e.AddOrphan? ==> SameTables(d, db))
            && (e.AddOrphan? ==> SameTables(d.(users := db.users), db) && d.users == db.users[db.nextUser := e.user])
            && (LoginEffect(e) && !e.Login? ==>
                  && SameTables(d.(users := db.users), db)
                  && SameAccounts(d.users, db.users)
                  && (forall u | u in db.users && u != e.uid :: d.users[u] == db.users[u]))
  {
  }

  /** A refused request changes no table, with two exceptions: a refused login may move the named account's counters,
      lock and last login; and an account whose attributes are refused stays behind without any. */
  lemma RefusalIsAtomic(cfg: Config, db: Db, env: Env, req: Request)
    requires Integrity(db) && Step(cfg, db, env, req).1.status != Ok
    ensures var d := Step(cfg, db, env, req).0;
            if req.op == AUTH then
              && SameTables(d.(users := db.users), db)
              && SameAccounts(d.users, db.users)
              && (forall u | u in db.users && UserNamed(db, Text(req.data, "username")) != Some(u) ::
                    d.users[u] == db.users[u])
            else if AttributesRefused(cfg, db, env, req) then
              && SameTables(d.(users := db.users), db)
              && d.users == db.users[db.nextUser := NewUser(cfg, env, req.data)] && db.nextUser !in db.attrs
            else SameTables(d, db)
  {
    hide Decide, Apply, Caller, NewUser, AttributesRefused, SameAccounts, UserNamed;
    var o := Decide(cfg, db, env, req);
    assert db.nextUser !in db.attrs;
    hide Integrity, UsersIntact, AttrsIntact;
    SameAccountsReflexive(db);
    RefusedEffects(cfg, db, env, req);
    FailureTables(db, env.now, o.effect);
    LoginMeansAuth(cfg, db, env, req);
    OrphanMeansRefusedAttributes(cfg, db, env, req);
  }

  // ---------------------------------------------------------------- orphan accounts

  predicate Orphan(db: Db, u: int) {
    u in db.users && u !in db.attrs
  }

  lemma OrphanStep(db: Db, now: int, e: Effect, u: int)
    requires Integrity(db) && Admissible(db, e) && 0 < u < db.nextUser && u !in db.attrs
    ensures var d := Apply(db, now, e); 0 < u < d.nextUser && u !in d.attrs
  {
  }

  /** An account left without attributes never gets any. */
  lemma {:induction false} OrphanStaysOrphan(run: Run, i: nat, n: nat, u: int)
    requires run.Valid() && i <= n <= |run.events| && Orphan(run.State(i), u)
    ensures u !in run.State(n).attrs && 0 < u < run.State(n).nextUser
  {
    hide Step, Decide, Apply, WriteAudit;
    if n == i {
      StatesIntact(run, i);
    } else {
      OrphanStaysOrphan(run, i, n - 1, u);
      StatesIntact(run, n - 1);
      Advance(run, n - 1);
      var now := run.events[n - 1].env.now;
      OrphanStep(run.State(n - 1), now, run.Outcome(n - 1).effect, u);
      AuditKeepsAuthority(Apply(run.State(n - 1), now, run.Outcome(n - 1).effect), now, run.Outcome(n - 1).note);
    }
  }

  /** Request n comes with the token of a live session of u. */
  ghost predicate CarriesSessionOf(run: Run, n: nat, u: int)
    requires n < |run.events|
  {
    var s := LiveSession(run.State(n), run.events[n].env.now, HashToken(run.cfg.crypto, run.events[n].req.token));
    s.Some? && run.State(n).sessions[s.value].userId == u
  }

  /** So its tokens are useless: whatever it asks with one of its sessions, now or later, the token is invalid. */
  lemma OrphanTokensAreInvalid(run: Run, i: nat, n: nat, u: int)
    requires run.Valid() && i <= n < |run.events| && Orphan(run.State(i), u)
    requires run.events[n].req.op != AUTH && CarriesSessionOf(run, n, u)
    ensures run.Answer(n).code == TOKEN_INVALID && SameTables(run.State(n + 1), run.State(n))
  {
    hide DecideAuth, DecideOpen, DecideAdmin, Integrity, LiveSession;
    OrphanStaysOrphan(run, i, n, u);
  }

  /** Although it can log in: attributes play no part in a login. */
  lemma OrphansCanLogIn(cfg: Config, db: Db, env: Env, req: Request, u: int)
    requires Integrity(db) && Orphan(db, u) && req.op == AUTH
    requires Text(req.data, "username") == db.users[u].username && Text(req.data, "password") != ""
    requires Compares(db, env.now, u) && RightPassword(cfg, db.users[u], env, Text(req.data, "password"))
    requires HashFree(db.sessions, HashToken(cfg.crypto, env.token))
    ensures Step(cfg, db, env, req).1.status == Ok
  {
    hide DecideOpen, DecideAdmin, RightPassword, Apply, WriteAudit;
    assert |db.users[u].username| >= 3;
    assert UserNamed(db, db.users[u].username) == Some(u);
  }
}
