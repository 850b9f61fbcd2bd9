/** Whole runs of the server: any requests, any interleaving of clients, a clock that never goes back. */
module Runs {
  import opened Prelude
  import opened Protocol
  import opened Schema
  import opened Passwords
  import opened Server

  datatype Event = Event(env: Env, req: Request)

  datatype Run = Run(cfg: Config, init: Db, events: seq<Event>) {
    /** The tables after the first n requests. */
    ghost function State(n: nat): Db
      requires n <= |events|
    {
      if n == 0 then init else Step(cfg, State(n - 1), events[n - 1].env, events[n - 1].req).0
    }

    ghost function Outcome(i: nat): Outcome
      requires i < |events|
    {
      Decide(cfg, State(i), events[i].env, events[i].req)
    }

    /** The answer to request i. */
    ghost function Answer(i: nat): Response
      requires i < |events|
    {
      Step(cfg, State(i), events[i].env, events[i].req).1
    }

    ghost predicate Valid() {
      && Integrity(init)
      && (forall i, j | 0 <= i <= j < |events| :: events[i].env.now <= events[j].env.now)
    }
  }

  /** A step of a run in terms of its outcome. */
  lemma Advance(run: Run, n: nat)
    requires n < |run.events|
    ensures var (now, req, o) := (run.events[n].env.now, run.events[n].req, run.Outcome(n));
            && run.State(n + 1) == WriteAudit(Apply(run.State(n), now, o.effect), now, o.note)
            && run.Answer(n) == Respond(req, o)
  {
    hide Decide, Apply, WriteAudit;
  }

  /** What has happened up to a moment depends on the requests up to it alone. */
  lemma {:induction false} SamePast(a: Run, b: Run, n: nat)
    requires a.cfg == b.cfg && a.init == b.init && n <= |a.events| && n <= |b.events| && a.events[..n] == b.events[..n]
    ensures a.State(n) == b.State(n)
  {
    hide Step;
    if n > 0 {
      assert a.events[..n - 1] == a.events[..n][..n - 1] == b.events[..n - 1];
      SamePast(a, b, n - 1);
      assert a.events[n - 1] == a.events[..n][n - 1] == b.events[n - 1];
    }
  }

  /** Every reachable state satisfies the schema. */
  lemma {:induction false} StatesIntact(run: Run, n: nat)
    requires run.Valid() && n <= |run.events|
    ensures Integrity(run.State(n))
  {
    hide Step, Integrity;
    if n > 0 {
      StatesIntact(run, n - 1);
      StepKeepsIntegrity(run.cfg, run.State(n - 1), run.events[n - 1].env, run.events[n - 1].req);
    }
  }

  // ---------------------------------------------------------------- what an effect says about its request

  /** The request carries a token that validates to an administrator. */
  ghost predicate ByAdmin(cfg: Config, db: Db, env: Env, req: Request) {
    var c := Caller(cfg, db, env.now, req.token);
    req.op != AUTH && c.Some? && db.attrs[c.value].role == "admin"
  }

  /** A change requested by an administrator is decided by the handler of its operation. */
  lemma DecidedBy(cfg: Config, db: Db, env: Env, req: Request)
    requires ByAdmin(cfg, db, env, req) && AdminChange(req.op)
    ensures var uid := Caller(cfg, db, env.now, req.token).value;
            Decide(cfg, db, env, req) ==
            match req.op
            case RESOURCE_CREATE => DecideResourceCreate(db, uid, req.data)
            case RESOURCE_UPDATE => DecideResourceUpdate(db, uid, req.data)
            case RESOURCE_DELETE => DecideResourceDelete(db, uid, req.data)
            case POLICY_CREATE => DecidePolicyCreate(db, uid, req.data)
            case POLICY_UPDATE => DecidePolicyUpdate(db, uid, req.data)
            case USER_CREATE => DecideUserCreate(cfg, db, env, uid, req.data)
            case USER_UPDATE => DecideUserUpdate(db, uid, req.data)
            case USER_DELETE => DecideUserDelete(db, uid, req.data)
            case GRANT_ACCESS => DecideGrant(db, uid, req.data)
            case POLICY_DELETE => DecidePolicyDelete(db, uid, req.data)
            case REVOKE_ACCESS => DecidePolicyDelete(db, uid, req.data)
  {
    hide DecideAuth, DecideOpen, DecideResourceCreate, DecideResourceUpdate, DecideResourceDelete, DecidePolicyCreate;
    hide DecidePolicyUpdate, DecidePolicyDelete, DecideUserCreate, DecideUserUpdate, DecideUserDelete, DecideGrant;
    hide Caller;
  }

  /** Without an administrator's token a request changes sessions and login counters at most. */
  lemma OnlyAdminsChange(cfg: Config, db: Db, env: Env, req: Request)
    requires !ByAdmin(cfg, db, env, req)
    ensures SessionEffect(Decide(cfg, db, env, req).effect)
  {
    hide DecideAuth, DecideOpen, DecideAdmin;
  }

  lemma LoginMeansAuth(cfg: Config, db: Db, env: Env, req: Request)
    ensures var o := Decide(cfg, db, env, req);
            && (o.effect.Login? <==> req.op == AUTH && o.status == Ok)
            && (LoginEffect(o.effect) ==>
                  req.op == AUTH && UserNamed(db, Text(req.data, "username")) == Some(o.effect.uid))
            && (o.effect.Login? ==> o.effect.session == NewSession(cfg, env, o.effect.uid))
  {
    hide DecideAuth, DecideOpen, DecideAdmin;
  }

  lemma RevokeMeansLogout(cfg: Config, db: Db, env: Env, req: Request)
    ensures var o := Decide(cfg, db, env, req);
            && (o.effect.Revoke? <==> req.op == LOGOUT && o.status == Ok)
            && (o.effect.Revoke? ==> LiveSession(db, env.now, HashToken(cfg.crypto, req.token)) == Some(o.effect.sid))
  {
    hide DecideAuth, DecideOpen, DecideAdmin;
  }

  lemma DropUserMeansDelete(cfg: Config, db: Db, env: Env, req: Request)
    ensures var o := Decide(cfg, db, env, req);
            && (o.effect.DropUser? <==> req.op == USER_DELETE && o.status == Ok)
            && (o.effect.DropUser? ==> o.effect.uid == Id(req.data, "user_id")
                                       && Caller(cfg, db, env.now, req.token) != Some(o.effect.uid))
  {
    hide DecideAuth, DecideOpen, DecideAdmin;
  }

  lemma OpenVersion(cfg: Config, db: Db, env: Env, uid: int, req: Request, v: int32)
    requires uid in db.users && uid in db.attrs
    ensures DecideOpen(cfg, db, env, uid, req.(version := v)) == DecideOpen(cfg, db, env, uid, req)
  {
    hide DecideList, DecideResourceGet, DecideAccessCheck, LiveSession, HashToken, AccountFields;
  }

  lemma AdminVersion(cfg: Config, db: Db, env: Env, uid: int, req: Request, v: int32)
    requires uid in db.attrs && AdminChange(req.op)
    ensures DecideAdmin(cfg, db, env, uid, req.(version := v)) == DecideAdmin(cfg, db, env, uid, req)
  {
    hide DecideResourceCreate, DecideResourceUpdate, DecideResourceDelete, DecidePolicyCreate, DecidePolicyUpdate;
    hide DecidePolicyDelete, DecideUserCreate, DecideUserUpdate, DecideUserDelete, DecideGrant, Admissible;
  }

  /** The protocol version of a request makes no difference. */
  lemma VersionIgnored(cfg: Config, db: Db, env: Env, req: Request, v: int32)
    ensures Step(cfg, db, env, req.(version := v)) == Step(cfg, db, env, req)
  {
    hide DecideAuth, DecideOpen, DecideAdmin, Caller, Apply, WriteAudit;
    var c := Caller(cfg, db, env.now, req.token);
    if c.Some? {
      OpenVersion(cfg, db, env, c.value, req, v);
      if AdminChange(req.op) {
        AdminVersion(cfg, db, env, c.value, req, v);
      }
    }
  }

  predicate Audited(op: Op) {
    op == AUTH || AdminChange(op)
  }

  /** Exactly the accepted logins and administrative changes are noted, and their actor outlives the change. */
  lemma NotesAreComplete(cfg: Config, db: Db, env: Env, req: Request)
    requires Integrity(db)
    ensures var o := Decide(cfg, db, env, req);
            && (o.note.Some? <==> Audited(req.op) && o.status == Ok)
            && (o.note.Some? ==> o.note.value.actorId in db.users
                                 && (o.effect.DropUser? ==> o.effect.uid != o.note.value.actorId))
  {
    hide DecideAuth, DecideOpen, DecideAdmin;
  }
}
