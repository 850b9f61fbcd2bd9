/** Creating and updating resources and users, seen from outside: what is read afterwards. */
module Updates {
  import opened Prelude
  import opened Json
  import opened Protocol
  import opened Schema
  import opened Passwords
  import opened Decisions
  import opened Server
  import opened Runs
  import opened Readback
  import opened Paging

  // ---------------------------------------------------------------- resources

  /** A RESOURCE_GET with an accepted token for resource rid. */
  ghost predicate GetRequest(cfg: Config, db: Db, env: Env, get: Request, rid: int) {
    get.op == RESOURCE_GET && Caller(cfg, db, env.now, get.token).Some? && Id(get.data, "resource_id") == rid
  }

  lemma GetAnswer(cfg: Config, db: Db, env: Env, get: Request, rid: int)
    requires GetRequest(cfg, db, env, get, rid) && rid > 0
    ensures Step(cfg, db, env, get).1 ==
            Respond(get, if rid in db.resources then Reply(ResourceFields(rid, db.resources[rid]))
                         else NotFound("Resource not found"))
  {
    hide DecideAuth, DecideAdmin, DecideList, Caller, Id, ResourceFields;
  }

  lemma CreateOutcome(cfg: Config, db: Db, env: Env, req: Request)
    requires ByAdmin(cfg, db, env, req) && req.op == RESOURCE_CREATE && Step(cfg, db, env, req).1.status == Ok
    ensures var row := Resource(Text(req.data, "name"), Text(req.data, "description"), Text(req.data, "resource_type"),
                                Text(req.data, "address"), PositiveId(Caller(cfg, db, env.now, req.token).value), true);
            && Step(cfg, db, env, req).0.resources == db.resources[db.nextResource := row]
            && Step(cfg, db, env, req).1.data == map["id" := Number(db.nextResource)]
  {
    hide Decide, Caller, Text, Admissible, ResourceOk;
    DecidedBy(cfg, db, env, req);
  }

  /** A created resource reads back, for anybody with a token, as it was sent, active and owned by its creator. */
  lemma CreatedResourceReads(cfg: Config, db: Db, env: Env, req: Request, rid: int, env': Env, get: Request)
    requires Integrity(db) && ByAdmin(cfg, db, env, req) && req.op == RESOURCE_CREATE
    requires Step(cfg, db, env, req).1.status == Ok && Step(cfg, db, env, req).1.data == map["id" := Number(rid)]
    requires GetRequest(cfg, Step(cfg, db, env, req).0, env', get, rid)
    ensures var answer := Step(cfg, Step(cfg, db, env, req).0, env', get).1;
            && answer.status == Ok
            && answer.data == map["id" := Number(rid), "name" := Str(Text(req.data, "name")),
                                  "description" := Str(Text(req.data, "description")),
                                  "resource_type" := Str(Text(req.data, "resource_type")),
                                  "address" := Str(Text(req.data, "address")),
                                  "owner_id" := Number(Caller(cfg, db, env.now, req.token).value),
                                  "is_active" := Bool(true)]
  {
    assert Caller(cfg, db, env.now, req.token).value > 0 && db.nextResource > 0;
    hide Step, Integrity, Caller, Text, Id, GetRequest;
    CreateOutcome(cfg, db, env, req);
    assert Number(rid) == map["id" := Number(rid)]["id"] == map["id" := Number(db.nextResource)]["id"];
    GetAnswer(cfg, Step(cfg, db, env, req).0, env', get, rid);
  }

  lemma UpdateOutcome(cfg: Config, db: Db, env: Env, req: Request)
    requires ByAdmin(cfg, db, env, req) && req.op == RESOURCE_UPDATE && Step(cfg, db, env, req).1.status == Ok
    ensures var rid := Id(req.data, "resource_id");
            && rid in db.resources && rid > 0
            && Step(cfg, db, env, req).0.resources == db.resources[rid := MergedResource(db.resources[rid], req.data)]
  {
    hide Decide, Caller, Id, Admissible, ResourceOk, MergedResource;
    DecidedBy(cfg, db, env, req);
  }

  /** What is read of a field after an update: the value sent if it has the field's type, else what was read before. */
  function SentOr(data: Object, key: string, before: Json): Json {
    var sent := Field(data, key);
    if || (sent.Str? && before.Str?) || (sent.Bool? && before.Bool?)
       || (sent.Number? && before.Number? && INT32_MIN <= sent.n <= INT32_MAX)
    then sent else before
  }

  lemma SentFields(r: Resource, data: Object)
    ensures var m := MergedResource(r, data);
            && m.ownerId == r.ownerId
            && Str(m.name) == SentOr(data, "name", Str(r.name))
            && Str(m.description) == SentOr(data, "description", Str(r.description))
            && Str(m.resourceType) == SentOr(data, "resource_type", Str(r.resourceType))
            && Str(m.address) == SentOr(data, "address", Str(r.address))
            && Bool(m.isActive) == SentOr(data, "is_active", Bool(r.isActive))
  {
  }

  lemma MergedFields(rid: int, r: Resource, data: Object)
    ensures var (a, b) := (ResourceFields(rid, MergedResource(r, data)), ResourceFields(rid, r));
            && a.Keys == b.Keys
            && forall k | k in b :: a[k] == if k == "id" || k == "owner_id" then b[k] else SentOr(data, k, b[k])
  {
    hide MergedResource, SentOr;
    SentFields(r, data);
  }

  /** An accepted update changes, of what reads return, exactly the fields it sends: one read before and one after
      differ in nothing else, and reads of other resources not at all. */
  lemma UpdatedResourceReads(cfg: Config, db: Db, env: Env, req: Request, rid: int, env': Env, get: Request)
    requires ByAdmin(cfg, db, env, req) && req.op == RESOURCE_UPDATE && Step(cfg, db, env, req).1.status == Ok
    requires GetRequest(cfg, db, env, get, rid) && GetRequest(cfg, Step(cfg, db, env, req).0, env', get, rid) && rid > 0
    ensures var (before, after) := (Step(cfg, db, env, get).1, Step(cfg, Step(cfg, db, env, req).0, env', get).1);
            && after.status == before.status
            && (rid != Id(req.data, "resource_id") ==> after == before)
            && (rid == Id(req.data, "resource_id") ==>
                  && before.status == Ok && after.data.Keys == before.data.Keys
                  && forall k | k in before.data :: after.data[k] ==
                       if k == "id" || k == "owner_id" then before.data[k] else SentOr(req.data, k, before.data[k]))
  {
    hide Step, Caller, Id, GetRequest, MergedResource, SentOr, ByAdmin;
    UpdateOutcome(cfg, db, env, req);
    GetAnswer(cfg, db, env, get, rid);
    GetAnswer(cfg, Step(cfg, db, env, req).0, env', get, rid);
    if rid == Id(req.data, "resource_id") {
      MergedFields(rid, db.resources[rid], req.data);
    }
  }

  // ---------------------------------------------------------------- users

  /** Whatever an administrator's USER_UPDATE does, it does to its target alone: everybody else's account and
      attributes stay, and so do the target's name, password, counters, lock and last login. It is refused exactly for
      an unknown target or a full name over 200 characters. Its attributes change together or, when the merged ones
      are not admissible, not at all, although the answer is the same. */
  lemma UserUpdateIsMerge(cfg: Config, db: Db, env: Env, req: Request, t: int)
    requires Integrity(db) && ByAdmin(cfg, db, env, req) && req.op == USER_UPDATE
    requires t == Id(req.data, "user_id") && t > 0
    ensures var (d, resp) := Step(cfg, db, env, req);
            && (resp.status == Ok <==>
                  t in db.users && |ToStr(Field(req.data, "full_name"), db.users[t].fullName)| <= 200)
            && (resp.status != Ok ==> d == db)
            && (resp.status == Ok ==> AccountUpdated(d, db, t, req.data))
  {
    hide Decide, Apply, Caller, Id, ToStr, WriteAudit, AccountUpdated, Integrity;
    DecidedBy(cfg, db, env, req);
    UserUpdateEffect(db, env.now, Caller(cfg, db, env.now, req.token).value, req.data);
    var o := Decide(cfg, db, env, req);
    LoggedUpdate(Apply(db, env.now, o.effect), db, t, req.data, env.now, o.note);
    NothingWritten(db, env.now);
  }

  /** The tables after an update of account t: its row and its attributes merged with what was sent, all else equal. */
  predicate AccountUpdated(d: Db, db: Db, t: int, data: Object) {
    && d.users.Keys == db.users.Keys && d.attrs.Keys == db.attrs.Keys && t in db.users
    && (forall u | u in db.users && u != t :: d.users[u] == db.users[u])
    && (forall u | u in db.attrs && u != t :: d.attrs[u] == db.attrs[u])
    && d.sessions == db.sessions && d.resources == db.resources && d.policies == db.policies
    && UserMerged(d.users[t], db.users[t], data)
    && (t in db.attrs ==> AttrsMerged(d.attrs[t], db.attrs[t], data))
  }

  lemma LoggedUpdate(applied: Db, db: Db, t: int, data: Object, now: int, note: Option<AuditNote>)
    ensures AccountUpdated(WriteAudit(applied, now, note), db, t, data) == AccountUpdated(applied, db, t, data)
  {
    hide WriteAudit, UserMerged, AttrsMerged;
    WriteAuditOnlyLogs(applied, now, note);
  }

  predicate UserMerged(after: User, before: User, data: Object) {
    && SameCredentials(after, before) && after.failedAttempts == before.failedAttempts
    && after.lockedUntil == before.lockedUntil && after.lastLogin == before.lastLogin
    && after.fullName == ToStr(Field(data, "full_name"), before.fullName)
    && after.position == ToStr(Field(data, "position"), before.position)
    && after.isActive == ToBool(Field(data, "is_active"), before.isActive)
  }

  /** Role, clearance and department sent, or the stored ones: together if they meet the CHECKs, else none of them. */
  predicate AttrsMerged(after: Attrs, before: Attrs, data: Object) {
    var role := ToStr(Field(data, "role"), before.role);
    var clearance := ToInt(Field(data, "clearance_level"), before.clearance);
    var department := ToStr(Field(data, "department"), before.department);
    after == if role in {"admin", "user", "auditor"} && 0 <= clearance <= 5 then Attrs(role, clearance, department)
             else before
  }

  lemma UserUpdateEffect(db: Db, now: int, c: int, data: Object)
    requires c in db.attrs && Id(data, "user_id") > 0
    ensures var (t, o) := (Id(data, "user_id"), DecideUserUpdate(db, c, data));
            var d := Apply(db, now, o.effect);
            && (o.status == Ok <==> t in db.users && |ToStr(Field(data, "full_name"), db.users[t].fullName)| <= 200)
            && (o.status != Ok ==> d == db && o.note == None)
            && (o.status == Ok ==> AccountUpdated(d, db, t, data))
  {
    hide Id, AccountUpdated, AttrsChange, Admissible, ToStr, ToBool;
    var t := Id(data, "user_id");
    if t in db.users {
      SetUserTables(db, now, t, data);
    }
  }

  lemma SetUserTables(db: Db, now: int, t: int, data: Object)
    requires t in db.users
    ensures var u := db.users[t];
            var e := SetUser(t, ToStr(Field(data, "full_name"), u.fullName), ToStr(Field(data, "position"), u.position),
                             ToBool(Field(data, "is_active"), u.isActive), AttrsChange(db.attrs, t, data));
            AccountUpdated(Apply(db, now, e), db, t, data)
  {
    hide AttrsMerged, UserMerged, AttrsChange, ToStr, ToBool;
    UserColumns(db.users[t], data);
    if t in db.attrs {
      AttrsColumns(db.attrs, t, data);
    } else {
      NoAttrsChange(db.attrs, t, data);
    }
  }

  lemma UserColumns(u: User, data: Object)
    ensures UserMerged(u.(fullName := ToStr(Field(data, "full_name"), u.fullName),
                          position := ToStr(Field(data, "position"), u.position),
                          isActive := ToBool(Field(data, "is_active"), u.isActive)), u, data)
  {
    hide ToStr, ToBool;
  }

  lemma AttrsColumns(attrs: map<int, Attrs>, t: int, data: Object)
    requires t in attrs
    ensures AttrsMerged(AttrsChange(attrs, t, data).GetOr(attrs[t]), attrs[t], data)
  {
  }

  lemma NoAttrsChange(attrs: map<int, Attrs>, t: int, data: Object)
    requires t !in attrs
    ensures AttrsChange(attrs, t, data).None?
  {
  }

  // ---------------------------------------------------------------- deletion

  lemma DeleteOutcome(cfg: Config, db: Db, env: Env, req: Request)
    requires ByAdmin(cfg, db, env, req) && req.op == RESOURCE_DELETE && Step(cfg, db, env, req).1.status == Ok
    ensures Step(cfg, db, env, req).0.resources == db.resources - {Id(req.data, "resource_id")}
    ensures Step(cfg, db, env, req).0.nextResource == db.nextResource
  {
    hide Decide, Caller, Id;
    DecidedBy(cfg, db, env, req);
  }

  /** After an accepted RESOURCE_DELETE the resource is not found at any later moment of the run, if its id had been
      handed out at all; right after it, reads of every other resource answer as before. */
  lemma DeletedResourceIsGone(run: Run, i: nat, n: nat, env': Env, get: Request, rid: int)
    requires i < n <= |run.events| && rid > 0
    requires ByAdmin(run.cfg, run.State(i), run.events[i].env, run.events[i].req)
    requires run.events[i].req.op == RESOURCE_DELETE && run.Answer(i).status == Ok
    requires GetRequest(run.cfg, run.State(n), env', get, rid)
    ensures var answer := Step(run.cfg, run.State(n), env', get).1;
            && (rid == Id(run.events[i].req.data, "resource_id") && rid < run.State(i).nextResource ==>
                  answer.code == RESOURCE_NOT_FOUND)
            && (rid != Id(run.events[i].req.data, "resource_id") && n == i + 1
                && GetRequest(run.cfg, run.State(i), env', get, rid) ==>
                  answer == Step(run.cfg, run.State(i), env', get).1)
  {
    hide Step, Decide, Id, GetRequest, ByAdmin;
    DeleteOutcome(run.cfg, run.State(i), run.events[i].env, run.events[i].req);
    GoneForGood(run, i + 1, n);
    GetAnswer(run.cfg, run.State(n), env', get, rid);
    if GetRequest(run.cfg, run.State(i), env', get, rid) {
      GetAnswer(run.cfg, run.State(i), env', get, rid);
    }
  }

  // ---------------------------------------------------------------- policies and users as created

  lemma CreatePolicyOutcome(cfg: Config, db: Db, env: Env, req: Request)
    requires ByAdmin(cfg, db, env, req) && req.op == POLICY_CREATE && Step(cfg, db, env, req).1.status == Ok
    ensures var row := ToRow(RecordOf(req.data, Caller(cfg, db, env.now, req.token).value));
            && Step(cfg, db, env, req).0.policies == db.policies[db.nextPolicy := row]
            && Step(cfg, db, env, req).1.data == map["id" := Number(db.nextPolicy)]
  {
    hide Decide, Caller, Admissible, ToRow, RecordOf;
    DecidedBy(cfg, db, env, req);
  }

  /** A record as it comes back from the table. */
  lemma RecordReturns(pid: int, r: PolicyRecord)
    ensures var back := FromRow(pid, ToRow(r));
            && back.id == pid && back.name == r.name && back.enabled == r.enabled && back.action == r.action
            && back.roleRequired == r.roleRequired && back.departmentRequired == r.departmentRequired
            && back.resourceType == r.resourceType && back.priority == r.priority
            && back.minClearance == Max(r.minClearance, -1)
            && back.subjectId == Max(r.subjectId, 0) && back.resourceId == Max(r.resourceId, 0)
  {
  }

  function NumberUnless(hidden: bool, n: int): Json {
    if hidden then Null else Number(n)
  }

  /** The item of a policy made from this data: the values sent; conditions not sent, or sent negative or not positive,
      are shown as no condition. */
  function PolicyAsSent(pid: int, data: Object): Object {
    var clearance := ToInt(Field(data, "min_clearance"), -1);
    var (s, r) := (Id(data, "subject_id"), Id(data, "resource_id"));
    map["id" := Number(pid), "name" := Str(Text(data, "name")),
        "enabled" := Bool(ToBool(Field(data, "enabled"), true)), "action" := Str(Text(data, "action")),
        "role_required" := Str(Text(data, "role_required")),
        "department_required" := Str(Text(data, "department_required")),
        "min_clearance" := NumberUnless(clearance < 0, clearance),
        "resource_type" := Str(Text(data, "resource_type")),
        "subject_id" := NumberUnless(s <= 0, s), "resource_id" := NumberUnless(r <= 0, r),
        "priority" := Number(ToInt(Field(data, "priority"), 0))]
  }

  lemma CreatedPolicyRow(cfg: Config, db: Db, env: Env, req: Request, pid: int)
    requires ByAdmin(cfg, db, env, req) && req.op == POLICY_CREATE && Step(cfg, db, env, req).1.status == Ok
    requires Step(cfg, db, env, req).1.data == map["id" := Number(pid)]
    ensures var d := Step(cfg, db, env, req).0;
            pid in d.policies && PolicyFields(FromRow(pid, d.policies[pid])) == PolicyAsSent(pid, req.data)
  {
    hide Step, Caller, Text, Id, ToBool, ToInt, FromRow, ToRow;
    CreatePolicyOutcome(cfg, db, env, req);
    assert Number(pid) == map["id" := Number(pid)]["id"] == map["id" := Number(db.nextPolicy)]["id"];
    RecordReturns(pid, RecordOf(req.data, Caller(cfg, db, env.now, req.token).value));
  }

  /** A created policy is among the items of POLICY_LIST, whoever may read the list, with the values sent. */
  lemma CreatedPolicyListed(cfg: Config, db: Db, env: Env, req: Request, pid: int,
                            env': Env, list: Request, reader: int, n: nat)
    requires ByAdmin(cfg, db, env, req) && req.op == POLICY_CREATE && Step(cfg, db, env, req).1.status == Ok
    requires Step(cfg, db, env, req).1.data == map["id" := Number(pid)]
    requires ReadsAll(cfg, Step(cfg, db, env, req).0, env', list, reader, n) && list.op == POLICY_LIST
    ensures Obj(PolicyAsSent(pid, req.data)) in ReadPages(cfg, Step(cfg, db, env, req).0, env', list, n)
  {
    hide Step, ReadsAll, ReadPages, PolicyAsSent, PolicyFields, FromRow, ByAdmin;
    CreatedPolicyRow(cfg, db, env, req, pid);
    PolicyIsListed(cfg, Step(cfg, db, env, req).0, env', list, reader, n, pid);
  }

  /** The item of an account made from this data: the values sent, the role being "user" and the clearance 0 where none
      was sent; it is active. */
  function AccountAsSent(u: int, data: Object): Object {
    map["id" := Number(u), "username" := Str(Text(data, "username")),
        "full_name" := Str(Text(data, "full_name")), "role" := Str(ToStr(Field(data, "role"), "user")),
        "clearance_level" := Number(ToInt(Field(data, "clearance_level"), 0)),
        "department" := Str(Text(data, "department")), "position" := Str(Text(data, "position")),
        "is_active" := Bool(true)]
  }

  lemma NewAccountShown(cfg: Config, env: Env, data: Object, u: int)
    ensures AccountFields(u, NewUser(cfg, env, data), NewAttrs(data)) == AccountAsSent(u, data)
  {
    hide Text, ToStr, ToInt, HashedPassword, Split;
  }

  lemma CreatedUserRow(run: Run, i: nat, u: int)
    requires run.Valid() && i < |run.events| && Created(run, i, u)
    ensures var (d, data) := (run.State(i + 1), run.events[i].req.data);
            u in d.users && u in d.attrs && AccountFields(u, d.users[u], d.attrs[u]) == AccountAsSent(u, data)
  {
    hide Step, Decide, Created, Text, ToStr, ToInt, NewUser, NewAttrs, AccountFields, AccountAsSent, Integrity;
    NewAccountShown(run.cfg, run.events[i].env, run.events[i].req.data, u);
    CreatedAccount(run, i, u);
    CreationEffect(run, i, u);
    Advance(run, i);
    var db, now, o := run.State(i), run.events[i].env.now, run.Outcome(i);
    AuditKeepsSessions(Apply(db, now, o.effect), now, o.note);
  }

  /** A created account is among the items of USER_LIST with the values sent. */
  lemma CreatedUserListed(run: Run, i: nat, u: int, env': Env, list: Request, reader: int, n: nat)
    requires run.Valid() && i < |run.events| && Created(run, i, u)
    requires ReadsAll(run.cfg, run.State(i + 1), env', list, reader, n) && list.op == USER_LIST
    ensures Obj(AccountAsSent(u, run.events[i].req.data)) in ReadPages(run.cfg, run.State(i + 1), env', list, n)
  {
    hide Step, Created, ReadsAll, ReadPages, AccountAsSent, AccountFields;
    CreatedUserRow(run, i, u);
    UserIsListed(run.cfg, run.State(i + 1), env', list, reader, n, u);
  }
}
