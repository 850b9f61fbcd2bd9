/** Who may do what, spelled out in columns and literal roles: the role gate, the access decision, and what a lock
    takes away. */
module Access {
  import opened Prelude
  import opened Json
  import opened Protocol
  import opened Schema
  import opened Decisions
  import opened Listing
  import opened Server
  import opened Paging

  // ---------------------------------------------------------------- the gate

  /** Operations whose answer carries no data. */
  predicate Bare(op: Op) {
    op in {LOGOUT, RESOURCE_UPDATE, RESOURCE_DELETE, POLICY_UPDATE, POLICY_DELETE, USER_UPDATE, USER_DELETE,
           ACCESS_CHECK, REVOKE_ACCESS}
  }

  /** Status and code go together, an acceptance has no message, and a refusal has one but no data. */
  predicate Shaped(op: Op, o: Outcome) {
    && (o.status == Ok <==> o.code == OK)
    && (o.status == Denied <==> o.code == ACCESS_DENIED || o.code == RESOURCE_NOT_FOUND)
    && (o.status == Ok <==> o.message == "")
    && (o.status != Ok || Bare(op) ==> o.data == map[])
  }

  predicate ChangeAnswer(op: Op, o: Outcome) {
    Shaped(op, o) && o.code != ACCESS_DENIED && o.code != TOKEN_INVALID
  }

  /** The forms answers come in. */
  lemma AnswerForms(op: Op)
    ensures forall m: string | m != "" :: ChangeAnswer(op, Invalid(m)) && ChangeAnswer(op, NotFound(m))
    ensures forall e, m: string | m != "" :: ChangeAnswer(op, Fail(e, m))
    ensures forall e, n, d: Object | Bare(op) ==> d == map[] :: ChangeAnswer(op, Done(e, n, d))
  {
  }

  lemma ResourceCreateCodes(db: Db, uid: int, data: Object)
    requires uid in db.attrs
    ensures ChangeAnswer(RESOURCE_CREATE, DecideResourceCreate(db, uid, data))
  {
    hide ChangeAnswer, Id, Text, Admissible, AdminOutcome;
    AnswerForms(RESOURCE_CREATE);
  }

  lemma ResourceUpdateCodes(db: Db, uid: int, data: Object)
    requires uid in db.attrs
    ensures ChangeAnswer(RESOURCE_UPDATE, DecideResourceUpdate(db, uid, data))
  {
    hide ChangeAnswer, Id, Text, Admissible, AdminOutcome, MergedResource, ResourceOk;
    AnswerForms(RESOURCE_UPDATE);
  }

  lemma ResourceDeleteCodes(db: Db, uid: int, data: Object)
    requires uid in db.attrs
    ensures ChangeAnswer(RESOURCE_DELETE, DecideResourceDelete(db, uid, data))
  {
    hide ChangeAnswer, Id, Text, Admissible, AdminOutcome;
    AnswerForms(RESOURCE_DELETE);
  }

  lemma PolicyCreateCodes(db: Db, uid: int, data: Object)
    requires uid in db.attrs
    ensures ChangeAnswer(POLICY_CREATE, DecidePolicyCreate(db, uid, data))
  {
    hide ChangeAnswer, Id, Text, Admissible, AdminOutcome, ToRow, RecordOf;
    AnswerForms(POLICY_CREATE);
  }

  lemma PolicyUpdateCodes(db: Db, uid: int, data: Object)
    requires uid in db.attrs
    ensures ChangeAnswer(POLICY_UPDATE, DecidePolicyUpdate(db, uid, data))
  {
    hide ChangeAnswer, Id, Text, Admissible, AdminOutcome, MergedPolicy, Ordered, Page, PolicyRank, FromRow;
    AnswerForms(POLICY_UPDATE);
  }

  lemma PolicyDeleteCodes(db: Db, uid: int, data: Object)
    requires uid in db.attrs
    ensures ChangeAnswer(POLICY_DELETE, DecidePolicyDelete(db, uid, data))
    ensures ChangeAnswer(REVOKE_ACCESS, DecidePolicyDelete(db, uid, data))
  {
    hide ChangeAnswer, Id, Text, Admissible, AdminOutcome;
    AnswerForms(POLICY_DELETE);
    AnswerForms(REVOKE_ACCESS);
  }

  lemma GrantCodes(db: Db, uid: int, data: Object)
    requires uid in db.attrs
    ensures ChangeAnswer(GRANT_ACCESS, DecideGrant(db, uid, data))
  {
    hide ChangeAnswer, Id, Text, Admissible, AdminOutcome, ToRow, GrantRecord;
    AnswerForms(GRANT_ACCESS);
  }

  lemma UserCreateCodes(cfg: Config, db: Db, env: Env, uid: int, data: Object)
    requires uid in db.attrs
    ensures ChangeAnswer(USER_CREATE, DecideUserCreate(cfg, db, env, uid, data))
  {
    hide ChangeAnswer, Id, Text, Admissible, AdminOutcome, NewUser, NewAttrs;
    AnswerForms(USER_CREATE);
  }

  lemma UserUpdateCodes(db: Db, uid: int, data: Object)
    requires uid in db.attrs
    ensures ChangeAnswer(USER_UPDATE, DecideUserUpdate(db, uid, data))
  {
    hide ChangeAnswer, Id, Text, Admissible, AdminOutcome, AttrsChange;
    AnswerForms(USER_UPDATE);
  }

  lemma UserDeleteCodes(db: Db, uid: int, data: Object)
    requires uid in db.attrs
    ensures ChangeAnswer(USER_DELETE, DecideUserDelete(db, uid, data))
  {
    hide ChangeAnswer, Id, Text, Admissible, AdminOutcome;
    AnswerForms(USER_DELETE);
  }

  lemma ChangeCodes(cfg: Config, db: Db, env: Env, uid: int, req: Request)
    requires uid in db.attrs && AdminChange(req.op)
    ensures ChangeAnswer(req.op, DecideAdmin(cfg, db, env, uid, req))
  {
    hide DecideResourceCreate, DecideResourceUpdate, DecideResourceDelete, DecidePolicyCreate, DecidePolicyUpdate;
    hide DecidePolicyDelete, DecideUserCreate, DecideUserUpdate, DecideUserDelete, DecideGrant, Admissible;
    hide ChangeAnswer, AdminOutcome;
    match req.op
    case RESOURCE_CREATE => ResourceCreateCodes(db, uid, req.data);
    case RESOURCE_UPDATE => ResourceUpdateCodes(db, uid, req.data);
    case RESOURCE_DELETE => ResourceDeleteCodes(db, uid, req.data);
    case POLICY_CREATE => PolicyCreateCodes(db, uid, req.data);
    case POLICY_UPDATE => PolicyUpdateCodes(db, uid, req.data);
    case USER_CREATE => UserCreateCodes(cfg, db, env, uid, req.data);
    case USER_UPDATE => UserUpdateCodes(db, uid, req.data);
    case USER_DELETE => UserDeleteCodes(db, uid, req.data);
    case GRANT_ACCESS => GrantCodes(db, uid, req.data);
    case _ => PolicyDeleteCodes(db, uid, req.data);
  }

  lemma OpenCodes(cfg: Config, db: Db, env: Env, uid: int, req: Request)
    requires uid in db.users && uid in db.attrs && !AdminChange(req.op)
    ensures var o := DecideOpen(cfg, db, env, uid, req);
            && o.code != TOKEN_INVALID && Shaped(req.op, o)
            && (o.code == ACCESS_DENIED ==> req.op == ACCESS_CHECK && o.effect.Nothing?)
  {
    hide Id, Text, DecideList, Allowed, ResourceFields, AccountFields, LiveSession, Admissible;
    ListCodes(cfg, db, env, uid, req.op, req.data);
  }

  lemma ListCodes(cfg: Config, db: Db, env: Env, uid: int, op: Op, data: Object)
    requires uid in db.attrs
    ensures var o := DecideList(cfg, db, env, uid, op, data); o.status == Ok && o.code == OK && o.message == ""
  {
    hide Id, Text, Ordered, Page, PolicyRank, ResourceItems, PolicyItems, UserItems, AuditHits, AuditItems;
    hide FilterReadable, AuditFilterOf;
  }

  /** Operations for administrators alone. */
  predicate ForAdmins(op: Op) {
    op in {RESOURCE_CREATE, RESOURCE_UPDATE, RESOURCE_DELETE, POLICY_CREATE, POLICY_UPDATE, POLICY_DELETE, USER_LIST,
           USER_CREATE, USER_UPDATE, USER_DELETE, GRANT_ACCESS, REVOKE_ACCESS}
  }

  predicate ForAuditors(op: Op) {
    op in {POLICY_LIST, AUDIT_QUERY}
  }

  lemma SameGate(op: Op, role: string)
    ensures !RoleMay(op, role) <==>
            (ForAdmins(op) && role != "admin") || (ForAuditors(op) && role != "admin" && role != "auditor")
  {
  }

  lemma GateOutcome(cfg: Config, db: Db, env: Env, req: Request)
    requires req.op != AUTH
    ensures var (o, c) := (Decide(cfg, db, env, req), Caller(cfg, db, env.now, req.token));
            && (o.code == TOKEN_INVALID <==> c.None?)
            && (c.None? ==> o.effect.Nothing? && o.note.None? && o.status == Error)
            && (c.Some? && req.op != ACCESS_CHECK ==>
                  (o.code == ACCESS_DENIED <==> !RoleMay(req.op, db.attrs[c.value].role)))
            && (o.code == ACCESS_DENIED ==> o.effect.Nothing? && o.note.None? && o.status == Denied)
  {
    hide DecideAdmin, DecideOpen, Caller, RoleMay, Admissible, AdminOutcome;
    var c := Caller(cfg, db, env.now, req.token);
    if c.Some? {
      if AdminChange(req.op) {
        ChangeCodes(cfg, db, env, c.value, req);
      } else {
        OpenCodes(cfg, db, env, c.value, req);
      }
    }
  }

  /** Who gets past the gate: nobody without a valid token, only administrators to the changes and the list of users,
      only administrators and auditors to the list of policies and the audit log, everybody else to the rest. Whoever is
      turned away changes nothing. */
  lemma RoleGate(cfg: Config, db: Db, env: Env, req: Request)
    requires req.op != AUTH
    ensures var ((d, resp), c) := (Step(cfg, db, env, req), Caller(cfg, db, env.now, req.token));
            && (resp.code == TOKEN_INVALID <==> c.None?)
            && (c.None? ==> d == db && resp.status == Error)
            && (c.Some? && req.op != ACCESS_CHECK ==>
                  var role := db.attrs[c.value].role;
                  (resp.code == ACCESS_DENIED <==>
                     || (ForAdmins(req.op) && role != "admin")
                     || (ForAuditors(req.op) && role != "admin" && role != "auditor")))
            && (resp.code == ACCESS_DENIED ==> d == db && resp.status == Denied)
  {
    hide Decide, Caller, WriteAudit, RoleMay, ForAdmins, ForAuditors;
    GateOutcome(cfg, db, env, req);
    NothingWritten(db, env.now);
    var c := Caller(cfg, db, env.now, req.token);
    if c.Some? {
      SameGate(req.op, db.attrs[c.value].role);
    }
  }

  lemma LoginShape(cfg: Config, db: Db, env: Env, data: Object)
    ensures Shaped(AUTH, DecideAuth(cfg, db, env, data))
  {
    hide RightPassword, HashFree, Locked, Text, UserNamed, UserFields, AttrsOf, NewSession, LockAfter;
  }

  lemma OutcomeShape(cfg: Config, db: Db, env: Env, req: Request)
    ensures Shaped(req.op, Decide(cfg, db, env, req))
  {
    hide DecideAuth, DecideAdmin, DecideOpen, Caller, RoleMay, Admissible, AdminOutcome;
    LoginShape(cfg, db, env, req.data);
    var c := Caller(cfg, db, env.now, req.token);
    if c.Some? {
      if AdminChange(req.op) {
        ChangeCodes(cfg, db, env, c.value, req);
      } else {
        OpenCodes(cfg, db, env, c.value, req);
      }
    }
  }

  /** What every answer of every operation has in common: it names the operation and the id of its request; its status
      and code go together; exactly a refusal has a message; and a refusal, a logout, an update, a deletion, a
      revocation and a check carry no data. */
  lemma AnswerShape(cfg: Config, db: Db, env: Env, req: Request)
    ensures var resp := Step(cfg, db, env, req).1;
            && resp.op == req.op && resp.reqId == req.reqId && resp.version == 1
            && (resp.status == Ok <==> resp.code == OK)
            && (resp.status == Denied <==> resp.code == ACCESS_DENIED || resp.code == RESOURCE_NOT_FOUND)
            && (resp.status == Ok <==> resp.message == "")
            && (resp.status != Ok || Bare(req.op) ==> resp.data == map[])
  {
    hide Decide, Apply, WriteAudit, Bare;
    OutcomeShape(cfg, db, env, req);
  }

  // ---------------------------------------------------------------- decisions

  /** A condition on a text asks nothing where it is NULL or empty. */
  predicate Fits(condition: Option<string>, value: string) {
    condition.None? || condition.value == "" || condition.value == value
  }

  /** A binding to a user or resource asks nothing where it is NULL or not positive. */
  predicate Binds(key: Option<int>, id: int) {
    key.None? || key.value <= 0 || key.value == id
  }

  /** An enabled policy for the action, or for all, whose every condition the subject and the resource meet. */
  predicate Permits(p: Policy, a: Attrs, uid: int, rid: int, action: string, rtype: string) {
    && p.enabled && (p.action == action || p.action == "*")
    && Fits(p.roleRequired, a.role) && Fits(p.departmentRequired, a.department) && Fits(p.resourceType, rtype)
    && (p.minClearance.Some? && p.minClearance.value >= 0 ==> a.clearance >= p.minClearance.value)
    && Binds(p.subjectId, uid) && Binds(p.resourceId, rid)
  }

  lemma GrantsMeans(p: Policy, a: Attrs, uid: int, rid: int, action: string, rtype: string)
    ensures Grants(p, a, uid, rid, action, rtype) <==> Permits(p, a, uid, rid, action, rtype)
  {
  }

  /** The access relation in columns: an account that is active, has attributes and no lock still running, and a policy
      that permits. */
  lemma AllowedMeans(db: Db, now: int, uid: int, rid: int, action: string, rtype: string)
    ensures Allowed(db, now, uid, rid, action, rtype) <==>
            && uid in db.users && uid in db.attrs && db.users[uid].isActive
            && (db.users[uid].lockedUntil.Some? ==> db.users[uid].lockedUntil.value <= now)
            && exists pid | pid in db.policies :: Permits(db.policies[pid], db.attrs[uid], uid, rid, action, rtype)
  {
    hide Grants, Permits;
    if uid in db.attrs {
      forall p ensures Grants(p, db.attrs[uid], uid, rid, action, rtype)
                   == Permits(p, db.attrs[uid], uid, rid, action, rtype)
      {
        GrantsMeans(p, db.attrs[uid], uid, rid, action, rtype);
      }
    }
  }

  lemma CheckOutcome(cfg: Config, db: Db, env: Env, check: Request, uid: int)
    requires check.op == ACCESS_CHECK && Caller(cfg, db, env.now, check.token) == Some(uid)
    ensures var o := DecideAccessCheck(db, env.now, uid, check.data);
            && Decide(cfg, db, env, check) == o && o.effect.Nothing? && o.note.None? && o.data == map[]
  {
    hide DecideAuth, DecideAdmin, DecideList, Caller, Id, Text, Allowed, DenialReason;
  }

  lemma CheckRefuses(db: Db, now: int, uid: int, data: Object)
    requires Id(data, "resource_id") !in db.resources
    ensures var o := DecideAccessCheck(db, now, uid, data);
            (o.status, o.code, o.message) ==
            if Id(data, "resource_id") <= 0 || Text(data, "action") == ""
            then (Error, VALIDATION_ERROR, "Missing resource_id or action")
            else (Denied, RESOURCE_NOT_FOUND, "Resource not found")
  {
    hide Id, Text, Allowed, DenialReason;
  }

  lemma CheckDecides(db: Db, now: int, uid: int, data: Object)
    requires uid in db.users && db.users[uid].isActive && uid in db.attrs && Id(data, "resource_id") in db.resources
    ensures var (rid, action, lock) := (Id(data, "resource_id"), Text(data, "action"), db.users[uid].lockedUntil);
            var o := DecideAccessCheck(db, now, uid, data);
            (o.status, o.code, o.message) ==
            if rid <= 0 || action == "" then (Error, VALIDATION_ERROR, "Missing resource_id or action")
            else if lock.Some? && lock.value > now then (Denied, ACCESS_DENIED, "account_locked")
            else if exists pid | pid in db.policies ::
                Permits(db.policies[pid], db.attrs[uid], uid, rid, action, db.resources[rid].resourceType)
              then (Ok, OK, "")
            else (Denied, ACCESS_DENIED, "no_matching_policy")
  {
    hide Id, Text, Allowed, Permits;
    var (rid, action) := (Id(data, "resource_id"), Text(data, "action"));
    AllowedMeans(db, now, uid, rid, action, db.resources[rid].resourceType);
  }

  /** Everything an ACCESS_CHECK answers, case by case. */
  lemma CheckAnswer(cfg: Config, db: Db, env: Env, check: Request, uid: int)
    requires check.op == ACCESS_CHECK && Caller(cfg, db, env.now, check.token) == Some(uid)
    ensures var (rid, action) := (Id(check.data, "resource_id"), Text(check.data, "action"));
            var ((d, resp), lock) := (Step(cfg, db, env, check), db.users[uid].lockedUntil);
            && d == db && resp.data == map[]
            && (resp.status, resp.code, resp.message) ==
               if rid <= 0 || action == "" then (Error, VALIDATION_ERROR, "Missing resource_id or action")
               else if rid !in db.resources then (Denied, RESOURCE_NOT_FOUND, "Resource not found")
               else if lock.Some? && lock.value > env.now then (Denied, ACCESS_DENIED, "account_locked")
               else if exists pid | pid in db.policies ::
                   Permits(db.policies[pid], db.attrs[uid], uid, rid, action, db.resources[rid].resourceType)
                 then (Ok, OK, "")
               else (Denied, ACCESS_DENIED, "no_matching_policy")
  {
    hide Decide, Caller, Id, Text, Permits, DecideAccessCheck, DenialReason, WriteAudit;
    CheckOutcome(cfg, db, env, check, uid);
    NothingWritten(db, env.now);
    var (rid, action) := (Id(check.data, "resource_id"), Text(check.data, "action"));
    if rid in db.resources {
      CheckDecides(db, env.now, uid, check.data);
    } else {
      CheckRefuses(db, env.now, uid, check.data);
    }
  }

  // ---------------------------------------------------------------- locks

  /** A lock that is still running stops every decision: no action on any resource is allowed. */
  lemma LockStopsDecisions(cfg: Config, db: Db, env: Env, check: Request, uid: int)
    requires check.op == ACCESS_CHECK && Caller(cfg, db, env.now, check.token) == Some(uid)
    requires db.users[uid].lockedUntil.Some? && db.users[uid].lockedUntil.value > env.now
    requires Id(check.data, "resource_id") > 0 && Id(check.data, "resource_id") in db.resources
    requires Text(check.data, "action") != ""
    ensures var resp := Step(cfg, db, env, check).1;
            (resp.status, resp.code, resp.message) == (Denied, ACCESS_DENIED, "account_locked")
  {
    hide Step, Caller, Id, Text, Permits;
    CheckAnswer(cfg, db, env, check, uid);
  }

  lemma {:induction false} NothingVisible(db: Db, now: int, uid: int, ids: seq<int>)
    requires uid in db.users && uid in db.attrs && db.attrs[uid].role == "user"
    requires db.users[uid].lockedUntil.Some? && db.users[uid].lockedUntil.value > now
    requires forall k | k in ids :: k in db.resources
    ensures ResourceItems(db, now, uid, ids) == []
  {
    if ids != [] {
      NothingVisible(db, now, uid, ids[..|ids| - 1]);
    }
  }

  /** And a plain user's list of resources is empty, page by page, while its total still counts. */
  lemma LockEmptiesList(cfg: Config, db: Db, env: Env, req: Request, uid: int, k: int)
    requires req.op == RESOURCE_LIST && ListRequest(cfg, db, env, req, uid) && 1 <= k <= INT32_MAX
    requires db.attrs[uid].role == "user"
    requires db.users[uid].lockedUntil.Some? && db.users[uid].lockedUntil.value > env.now
    ensures ItemsOf(Step(cfg, db, env, AtPage(req, k)).1) == []
    ensures Field(Step(cfg, db, env, AtPage(req, k)).1.data, "total") == Number(|WholeList(db, req)|)
  {
    hide Step, Caller, WholeList, Page, AtPage, ResourceItems, PageSize;
    PageItems(cfg, db, env, req, uid, k);
    NothingVisible(db, env.now, uid, Page(WholeList(db, req), k, PageSize(req)));
    ListTotal(cfg, db, env, req, uid, k);
  }
}
