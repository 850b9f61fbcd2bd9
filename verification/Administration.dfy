/** Administrative changes in full: for each operation of an administrator which answer it gets, in the order the cases
    are considered, and what it does to the tables, column by column. */
module Administration {
  import opened Prelude
  import opened Json
  import opened Protocol
  import opened Schema
  import opened Passwords
  import opened Decisions
  import opened Listing
  import opened Server
  import opened Runs
  import opened Policies
  import opened Updates

  predicate KnownType(rtype: string) {
    rtype in {"file_share", "database", "printer", "web_service", "server", "vpn"}
  }

  predicate KnownRole(role: string) {
    role in {"admin", "user", "auditor"}
  }

  predicate KnownAction(action: string) {
    action in {"read", "write", "manage", "connect", "select", "modify", "print", "access", "admin", "*"}
  }

  /** An administrator's request for this operation; `uid` is the administrator. */
  ghost predicate Asks(cfg: Config, db: Db, env: Env, req: Request, op: Op, uid: int) {
    req.op == op && Caller(cfg, db, env.now, req.token) == Some(uid) && db.attrs[uid].role == "admin"
  }

  lemma AskerExists(cfg: Config, db: Db, env: Env, req: Request, op: Op, uid: int)
    requires Integrity(db) && Asks(cfg, db, env, req, op, uid) && op != AUTH
    ensures uid in db.users && uid in db.attrs && uid > 0 && ByAdmin(cfg, db, env, req)
  {
    assert UsersIntact(db.users, db.nextUser);
    hide Integrity;
  }

  /** The tables after a request are those its effect leaves, but for the log, which grows at its end. */
  lemma StepTables(cfg: Config, db: Db, env: Env, req: Request)
    ensures var (d, o) := (Step(cfg, db, env, req).0, Decide(cfg, db, env, req));
            var x := Apply(db, env.now, o.effect);
            && d.(audit := x.audit, nextAudit := x.nextAudit) == x && x.audit <= d.audit
            && Step(cfg, db, env, req).1 == Respond(req, o)
  {
    hide Decide, Apply, WriteAudit;
    var o := Decide(cfg, db, env, req);
    WriteAuditOnlyLogs(Apply(db, env.now, o.effect), env.now, o.note);
  }

  // ---------------------------------------------------------------- resources

  function ResourceAsked(data: Object, uid: int): Resource {
    Resource(Text(data, "name"), Text(data, "description"), Text(data, "resource_type"), Text(data, "address"),
             Some(uid), true)
  }

  lemma ResourceCreation(db: Db, uid: int, data: Object)
    requires uid in db.users && uid in db.attrs && uid > 0
    ensures var (o, row) := (DecideResourceCreate(db, uid, data), ResourceAsked(data, uid));
            && o.code == (if row.name == "" || row.resourceType == "" then VALIDATION_ERROR
                          else if |row.name| <= 200 && KnownType(row.resourceType) then OK else INTERNAL_ERROR)
            && (o.code == OK ==> o.effect == AddResource(row) && o.data == map["id" := Number(db.nextResource)])
            && (o.code != OK ==> o.effect.Nothing? || o.effect.BurnResource?)
            && (o.status == Ok <==> o.code == OK)
  {
    hide Text, AdminOutcome;
  }

  /** RESOURCE_CREATE is accepted exactly with a name of 1 to 200 characters and a known type. */
  lemma ResourceCreated(cfg: Config, db: Db, env: Env, req: Request, uid: int)
    requires Integrity(db) && Asks(cfg, db, env, req, RESOURCE_CREATE, uid)
    ensures var ((d, resp), row) := (Step(cfg, db, env, req), ResourceAsked(req.data, uid));
            && resp.code == (if row.name == "" || row.resourceType == "" then VALIDATION_ERROR
                             else if |row.name| <= 200 && KnownType(row.resourceType) then OK else INTERNAL_ERROR)
            && (resp.status == Ok <==> resp.code == OK)
            && d.resources == (if resp.code == OK then db.resources[db.nextResource := row] else db.resources)
            && (resp.code == OK ==> resp.data == map["id" := Number(db.nextResource)])
            && d.users == db.users && d.attrs == db.attrs && d.sessions == db.sessions && d.policies == db.policies
  {
    hide Decide, Step, Integrity, DecideResourceCreate, ResourceAsked, KnownType, Asks;
    AskerExists(cfg, db, env, req, RESOURCE_CREATE, uid);
    AskedOf(cfg, db, env, req, RESOURCE_CREATE, uid);
    DecidedBy(cfg, db, env, req);
    ResourceCreation(db, uid, req.data);
    StepTables(cfg, db, env, req);
  }

  lemma AskedOf(cfg: Config, db: Db, env: Env, req: Request, op: Op, uid: int)
    requires Asks(cfg, db, env, req, op, uid)
    ensures req.op == op && Caller(cfg, db, env.now, req.token) == Some(uid)
  {
    hide Caller;
  }

  /** The row with the fields sent that have the column's type; the owner stays. */
  function ResourceMerged(r: Resource, data: Object): Resource {
    r.(name := ToStr(Field(data, "name"), r.name), description := ToStr(Field(data, "description"), r.description),
       resourceType := ToStr(Field(data, "resource_type"), r.resourceType),
       address := ToStr(Field(data, "address"), r.address), isActive := ToBool(Field(data, "is_active"), r.isActive))
  }

  lemma ResourceChange(db: Db, uid: int, data: Object)
    requires uid in db.attrs
    ensures var (o, rid) := (DecideResourceUpdate(db, uid, data), Id(data, "resource_id"));
            var accepted := rid in db.resources && var row := ResourceMerged(db.resources[rid], data);
                                                   1 <= |row.name| <= 200 && KnownType(row.resourceType);
            && o.code == (if rid <= 0 then VALIDATION_ERROR else if rid !in db.resources then RESOURCE_NOT_FOUND
                          else if accepted then OK else INTERNAL_ERROR)
            && o.effect == (if o.code == OK then SetResource(rid, ResourceMerged(db.resources[rid], data)) else Nothing)
            && (o.status == Ok <==> o.code == OK)
  {
    hide Id, ToStr, ToBool, AdminOutcome;
  }

  /** RESOURCE_UPDATE is accepted exactly for a known resource that keeps a name of 1 to 200 characters and a known
      type; then that row is merged with what was sent. */
  lemma ResourceUpdated(cfg: Config, db: Db, env: Env, req: Request, uid: int)
    requires Integrity(db) && Asks(cfg, db, env, req, RESOURCE_UPDATE, uid)
    ensures var ((d, resp), rid) := (Step(cfg, db, env, req), Id(req.data, "resource_id"));
            var accepted := rid in db.resources && var row := ResourceMerged(db.resources[rid], req.data);
                                                   1 <= |row.name| <= 200 && KnownType(row.resourceType);
            && resp.code == (if rid <= 0 then VALIDATION_ERROR else if rid !in db.resources then RESOURCE_NOT_FOUND
                             else if accepted then OK else INTERNAL_ERROR)
            && (resp.status == Ok <==> resp.code == OK)
            && d.resources == (if resp.code == OK then db.resources[rid := ResourceMerged(db.resources[rid], req.data)]
                               else db.resources)
            && d.users == db.users && d.attrs == db.attrs && d.sessions == db.sessions && d.policies == db.policies
  {
    hide Decide, Step, Integrity, DecideResourceUpdate, ResourceMerged, KnownType, Asks, Id;
    AskerExists(cfg, db, env, req, RESOURCE_UPDATE, uid);
    AskedOf(cfg, db, env, req, RESOURCE_UPDATE, uid);
    DecidedBy(cfg, db, env, req);
    ResourceChange(db, uid, req.data);
    StepTables(cfg, db, env, req);
  }

  /** What a removal comes to: the id asked for, and a refusal for one that is not positive or is the caller's own. */
  function RemovalCode(op: Op, id: int, uid: int): ResultCode {
    if id <= 0 || (op == USER_DELETE && id == uid) then VALIDATION_ERROR else OK
  }

  predicate IsRemoval(op: Op) {
    op in {RESOURCE_DELETE, POLICY_DELETE, REVOKE_ACCESS, USER_DELETE}
  }

  function RemovedId(req: Request): int {
    if req.op == RESOURCE_DELETE then Id(req.data, "resource_id")
    else if req.op == USER_DELETE then Id(req.data, "user_id")
    else Id(req.data, "policy_id")
  }

  function Removal(op: Op, id: int): Effect {
    if op == RESOURCE_DELETE then DropResource(id) else if op == USER_DELETE then DropUser(id) else DropPolicy(id)
  }

  lemma RemovalOutcome(cfg: Config, db: Db, env: Env, req: Request, uid: int)
    requires Integrity(db) && IsRemoval(req.op) && Asks(cfg, db, env, req, req.op, uid)
    ensures var (o, id) := (Decide(cfg, db, env, req), RemovedId(req));
            && o.code == RemovalCode(req.op, id, uid) && (o.status == Ok <==> o.code == OK)
            && o.effect == (if o.code == OK then Removal(req.op, id) else Nothing) && (o.code != OK ==> o.note == None)
  {
    hide Decide, Integrity, Id, AdminOutcome, Asks, Admissible, DecideResourceCreate, DecideResourceUpdate, DecideGrant;
    hide DecidePolicyCreate, DecidePolicyUpdate, DecideUserCreate, DecideUserUpdate;
    AskerExists(cfg, db, env, req, req.op, uid);
    AskedOf(cfg, db, env, req, req.op, uid);
    DecidedBy(cfg, db, env, req);
  }

  /** What a removal answers, and the tables it leaves but for the log. */
  lemma RemovalStep(cfg: Config, db: Db, env: Env, req: Request, uid: int)
    requires Integrity(db) && IsRemoval(req.op) && Asks(cfg, db, env, req, req.op, uid)
    ensures var ((d, resp), id) := (Step(cfg, db, env, req), RemovedId(req));
            && resp.code == RemovalCode(req.op, id, uid) && (resp.status == Ok <==> resp.code == OK)
            && (resp.code != OK ==> d == db)
            && (resp.code == OK ==>
                  var x := Apply(db, env.now, Removal(req.op, id));
                  d.(audit := x.audit, nextAudit := x.nextAudit) == x && x.audit <= d.audit)
  {
    hide Decide, Step, Apply, Integrity, Asks, RemovedId, RemovalCode, IsRemoval;
    RemovalOutcome(cfg, db, env, req, uid);
    StepTables(cfg, db, env, req);
    RefusedLeaves(cfg, db, env, req);
  }

  lemma RefusedLeaves(cfg: Config, db: Db, env: Env, req: Request)
    ensures var o := Decide(cfg, db, env, req);
            o.effect.Nothing? && o.note.None? ==> Step(cfg, db, env, req).0 == db
  {
    hide Decide;
  }

  /** RESOURCE_DELETE is accepted for every positive id, known or not. The resource goes; each policy keeps all columns,
      its binding cleared exactly when it was to that resource. */
  lemma ResourceDeleted(cfg: Config, db: Db, env: Env, req: Request, uid: int)
    requires Integrity(db) && Asks(cfg, db, env, req, RESOURCE_DELETE, uid)
    ensures var ((d, resp), rid) := (Step(cfg, db, env, req), Id(req.data, "resource_id"));
            && resp.code == (if rid <= 0 then VALIDATION_ERROR else OK) && (resp.status == Ok <==> resp.code == OK)
            && (resp.code != OK ==> d == db)
            && (resp.code == OK ==> ResourceGone(d, db, rid))
  {
    hide Step, Integrity, Id, ResourceGone, Apply;
    AskedOf(cfg, db, env, req, RESOURCE_DELETE, uid);
    RemovalStep(cfg, db, env, req, uid);
    ResourceColumns(Step(cfg, db, env, req).0, db, env.now, Id(req.data, "resource_id"));
  }

  /** The tables without resource rid. */
  predicate ResourceGone(d: Db, db: Db, rid: int) {
    && d.resources == db.resources - {rid} && d.policies.Keys == db.policies.Keys
    && (forall p | p in db.policies ::
          d.policies[p] == db.policies[p].(resourceId := Without(db.policies[p].resourceId, rid)))
    && d.users == db.users && d.attrs == db.attrs && d.sessions == db.sessions && db.audit <= d.audit
  }

  lemma ResourceColumns(d: Db, db: Db, now: int, rid: int)
    ensures var x := Apply(db, now, DropResource(rid));
            d.(audit := x.audit, nextAudit := x.nextAudit) == x && x.audit <= d.audit ==> ResourceGone(d, db, rid)
  {
  }

  /** A nullable reference when what it refers to is gone. */
  function Without(key: Option<int>, id: int): Option<int> {
    if key == Some(id) then None else key
  }

  // ---------------------------------------------------------------- policies

  /** The condition a text asks for. */
  function TextAsked(s: string): Option<string> {
    if s == "" then None else Some(s)
  }

  function NumberAsked(n: int, from: int): Option<int> {
    if n < from then None else Some(n)
  }

  function PolicyAsked(data: Object, uid: int): Policy {
    Policy(Text(data, "name"), ToBool(Field(data, "enabled"), true), Text(data, "action"),
           TextAsked(Text(data, "role_required")), TextAsked(Text(data, "department_required")),
           NumberAsked(ToInt(Field(data, "min_clearance"), -1), 0), TextAsked(Text(data, "resource_type")),
           NumberAsked(Id(data, "subject_id"), 1), NumberAsked(Id(data, "resource_id"), 1),
           ToInt(Field(data, "priority"), 0), Some(uid))
  }

  /** A row the table of policies admits beside the others: known action, role and type, a clearance up to 5, a name of
      at most 200 characters that no other policy has, and references that exist. */
  predicate Admits(db: Db, p: Policy, except: int) {
    && |p.name| <= 200 && KnownAction(p.action)
    && (p.roleRequired.Some? ==> KnownRole(p.roleRequired.value))
    && (p.minClearance.Some? ==> 0 <= p.minClearance.value <= 5)
    && (p.resourceType.Some? ==> KnownType(p.resourceType.value))
    && (p.subjectId.Some? ==> p.subjectId.value in db.users)
    && (p.resourceId.Some? ==> p.resourceId.value in db.resources)
    && (forall q | q in db.policies && q != except :: db.policies[q].name != p.name)
  }

  lemma AdmitsMeans(db: Db, p: Policy, uid: int)
    requires uid in db.users && p.createdBy == Some(uid)
    ensures Admissible(db, AddPolicy(p)) <==> Admits(db, p, 0)
  {
  }

  lemma PolicyInsertion(db: Db, uid: int, data: Object)
    requires uid in db.users && uid in db.attrs && uid > 0
    ensures var (o, row) := (DecidePolicyCreate(db, uid, data), PolicyAsked(data, uid));
            && o.code == (if row.name == "" || row.action == "" then VALIDATION_ERROR
                          else if Admits(db, row, 0) then OK else INTERNAL_ERROR)
            && (o.code == OK ==> o.effect == AddPolicy(row) && o.data == map["id" := Number(db.nextPolicy)])
            && (o.code != OK ==> o.effect.Nothing? || o.effect.BurnPolicy?)
            && (o.status == Ok <==> o.code == OK)
  {
    hide Text, Id, ToInt, ToBool, AdminOutcome, Admissible, Admits;
    assert ToRow(RecordOf(data, uid)) == PolicyAsked(data, uid);
    AdmitsMeans(db, PolicyAsked(data, uid), uid);
  }

  /** POLICY_CREATE is accepted exactly with a name and an action that the table admits; then the row is the one asked
      for, made by the caller. */
  lemma PolicyCreated(cfg: Config, db: Db, env: Env, req: Request, uid: int)
    requires Integrity(db) && Asks(cfg, db, env, req, POLICY_CREATE, uid)
    ensures var ((d, resp), row) := (Step(cfg, db, env, req), PolicyAsked(req.data, uid));
            && resp.code == (if row.name == "" || row.action == "" then VALIDATION_ERROR
                             else if Admits(db, row, 0) then OK else INTERNAL_ERROR)
            && (resp.status == Ok <==> resp.code == OK)
            && d.policies == (if resp.code == OK then db.policies[db.nextPolicy := row] else db.policies)
            && (resp.code == OK ==> resp.data == map["id" := Number(db.nextPolicy)])
            && d.users == db.users && d.attrs == db.attrs && d.sessions == db.sessions && d.resources == db.resources
  {
    hide Decide, Step, Integrity, DecidePolicyCreate, PolicyAsked, Admits, Asks;
    AskerExists(cfg, db, env, req, POLICY_CREATE, uid);
    AskedOf(cfg, db, env, req, POLICY_CREATE, uid);
    DecidedBy(cfg, db, env, req);
    PolicyInsertion(db, uid, req.data);
    StepTables(cfg, db, env, req);
  }

  /** POLICY_DELETE and REVOKE_ACCESS are accepted for every positive id, known or not, and remove that policy. */
  lemma PolicyDeleted(cfg: Config, db: Db, env: Env, req: Request, uid: int)
    requires Integrity(db) && (req.op == POLICY_DELETE || req.op == REVOKE_ACCESS)
    requires Asks(cfg, db, env, req, req.op, uid)
    ensures var ((d, resp), pid) := (Step(cfg, db, env, req), Id(req.data, "policy_id"));
            && resp.code == (if pid <= 0 then VALIDATION_ERROR else OK) && (resp.status == Ok <==> resp.code == OK)
            && (resp.code != OK ==> d == db)
            && d == db.(policies := if resp.code == OK then db.policies - {pid} else db.policies,
                        audit := d.audit, nextAudit := d.nextAudit) && db.audit <= d.audit
  {
    hide Step, Integrity, Id, Asks;
    RemovalStep(cfg, db, env, req, uid);
  }

  // ---------------------------------------------------------------- users

  /** USER_DELETE is accepted for every positive id, known or not, but the caller's own. The account goes with its
      attributes and sessions; everything else keeps all columns, references to the account being cleared. */
  lemma UserDeleted(cfg: Config, db: Db, env: Env, req: Request, uid: int)
    requires Integrity(db) && Asks(cfg, db, env, req, USER_DELETE, uid)
    ensures var ((d, resp), u) := (Step(cfg, db, env, req), Id(req.data, "user_id"));
            && resp.code == (if u <= 0 || u == uid then VALIDATION_ERROR else OK)
            && (resp.status == Ok <==> resp.code == OK)
            && (resp.code != OK ==> d == db)
            && (resp.code == OK ==> AccountGone(d, db, u))
  {
    hide Step, Integrity, Id, AccountGone, Apply;
    AskedOf(cfg, db, env, req, USER_DELETE, uid);
    RemovalStep(cfg, db, env, req, uid);
    AccountColumns(Step(cfg, db, env, req).0, db, env.now, Id(req.data, "user_id"));
  }

  /** The tables without account u. */
  predicate AccountGone(d: Db, db: Db, u: int) {
    && d.users == db.users - {u} && d.attrs == db.attrs - {u}
    && d.sessions.Keys == (set s | s in db.sessions && db.sessions[s].userId != u)
    && (forall s | s in d.sessions :: d.sessions[s] == db.sessions[s])
    && d.resources.Keys == db.resources.Keys && d.policies.Keys == db.policies.Keys
    && (forall r | r in db.resources ::
          d.resources[r] == db.resources[r].(ownerId := Without(db.resources[r].ownerId, u)))
    && (forall p | p in db.policies ::
          d.policies[p] == db.policies[p].(subjectId := Without(db.policies[p].subjectId, u),
                                           createdBy := Without(db.policies[p].createdBy, u)))
    && |d.audit| >= |db.audit|
    && (forall i | 0 <= i < |db.audit| ::
          d.audit[i] == db.audit[i].(actorId := Without(db.audit[i].actorId, u)))
  }

  lemma AccountColumns(d: Db, db: Db, now: int, u: int)
    ensures var x := Apply(db, now, DropUser(u));
            d.(audit := x.audit, nextAudit := x.nextAudit) == x && x.audit <= d.audit ==> AccountGone(d, db, u)
  {
  }

  /** The account asked for, apart from its password: active, with clear counters, never logged in. */
  function AccountAsked(data: Object): User {
    User(Text(data, "username"), "", "", Text(data, "full_name"), Text(data, "position"), true, 0, None, None)
  }

  function AttrsAsked(data: Object): Attrs {
    Attrs(ToStr(Field(data, "role"), "user"), ToInt(Field(data, "clearance_level"), 0), Text(data, "department"))
  }

  /** A name of 3 to 64 characters that nobody has, and a full name of at most 200. */
  predicate AdmitsAccount(db: Db, u: User) {
    3 <= |u.username| <= 64 && |u.fullName| <= 200 && forall v | v in db.users :: db.users[v].username != u.username
  }

  predicate AdmitsAttrs(a: Attrs) {
    KnownRole(a.role) && 0 <= a.clearance <= 5
  }

  lemma AccountInsertion(cfg: Config, db: Db, env: Env, uid: int, data: Object)
    requires uid in db.attrs
    ensures var o := DecideUserCreate(cfg, db, env, uid, data);
            var (u, a) := (NewUser(cfg, env, data), AttrsAsked(data));
            && u.(passwordHash := "", salt := "") == AccountAsked(data)
            && o.code == (if u.username == "" || Text(data, "password") == "" || u.fullName == "" then VALIDATION_ERROR
                          else if AdmitsAccount(db, u) && AdmitsAttrs(a) then OK else INTERNAL_ERROR)
            && (o.code == OK ==> o.effect == AddUser(u, a) && o.data == map["id" := Number(db.nextUser)])
            && (o.code == INTERNAL_ERROR ==> o.effect == if AdmitsAccount(db, u) then AddOrphan(u) else BurnUser)
            && (o.code == VALIDATION_ERROR ==> o.effect == Nothing)
            && (o.status == Ok <==> o.code == OK)
  {
    hide Text, AdminOutcome, Split, HashedPassword, ToStr, ToInt;
  }

  /** USER_CREATE is accepted exactly with a password, a full name, an account and attributes that the tables admit; an
      account that is admitted stays even where its attributes are not. */
  lemma AccountCreated(cfg: Config, db: Db, env: Env, req: Request, uid: int)
    requires Integrity(db) && Asks(cfg, db, env, req, USER_CREATE, uid)
    ensures var ((d, resp), data) := (Step(cfg, db, env, req), req.data);
            var (u, a) := (AccountAsked(data), AttrsAsked(data));
            var complete := u.username != "" && Text(data, "password") != "" && u.fullName != "";
            && resp.code == (if !complete then VALIDATION_ERROR
                             else if AdmitsAccount(db, u) && AdmitsAttrs(a) then OK else INTERNAL_ERROR)
            && (resp.status == Ok <==> resp.code == OK)
            && d.attrs == (if resp.code == OK then db.attrs[db.nextUser := a] else db.attrs)
            && (if complete && AdmitsAccount(db, u)
                then exists hash, salt :: d.users == db.users[db.nextUser := u.(passwordHash := hash, salt := salt)]
                else d.users == db.users)
            && (resp.code == OK ==> resp.data == map["id" := Number(db.nextUser)])
            && d.sessions == db.sessions && d.resources == db.resources && d.policies == db.policies
  {
    hide Decide, Step, Integrity, DecideUserCreate, AttrsAsked, NewUser, AdmitsAttrs, Asks, Text;
    AskerExists(cfg, db, env, req, USER_CREATE, uid);
    AskedOf(cfg, db, env, req, USER_CREATE, uid);
    DecidedBy(cfg, db, env, req);
    AccountInsertion(cfg, db, env, uid, req.data);
    StepTables(cfg, db, env, req);
    var u := NewUser(cfg, env, req.data);
    assert AccountAsked(req.data).(passwordHash := u.passwordHash, salt := u.salt) == u;
  }

  /** USER_UPDATE is accepted exactly for a known account that keeps a full name of at most 200 characters; then its row
      is merged with what was sent, and so are its attributes if they are admitted together. */
  lemma AccountChanged(cfg: Config, db: Db, env: Env, req: Request, uid: int)
    requires Integrity(db) && Asks(cfg, db, env, req, USER_UPDATE, uid)
    ensures var ((d, resp), t) := (Step(cfg, db, env, req), Id(req.data, "user_id"));
            && resp.code == (if t <= 0 then VALIDATION_ERROR else if t !in db.users then RESOURCE_NOT_FOUND
                             else if |ToStr(Field(req.data, "full_name"), db.users[t].fullName)| <= 200 then OK
                             else INTERNAL_ERROR)
            && (resp.status == Ok <==> resp.code == OK)
            && (resp.code != OK ==> d == db)
            && (resp.code == OK ==> AccountUpdated(d, db, t, req.data))
  {
    hide Decide, Step, Integrity, DecideUserUpdate, AccountUpdated, Asks, Id, ToStr;
    AskerExists(cfg, db, env, req, USER_UPDATE, uid);
    AskedOf(cfg, db, env, req, USER_UPDATE, uid);
    DecidedBy(cfg, db, env, req);
    AccountChangeCode(db, uid, req.data);
    StepTables(cfg, db, env, req);
    RefusedLeaves(cfg, db, env, req);
    if Id(req.data, "user_id") > 0 {
      UserUpdateIsMerge(cfg, db, env, req, Id(req.data, "user_id"));
    }
  }

  lemma AccountChangeCode(db: Db, uid: int, data: Object)
    requires uid in db.attrs
    ensures var (o, t) := (DecideUserUpdate(db, uid, data), Id(data, "user_id"));
            && o.code == (if t <= 0 then VALIDATION_ERROR else if t !in db.users then RESOURCE_NOT_FOUND
                          else if |ToStr(Field(data, "full_name"), db.users[t].fullName)| <= 200 then OK
                          else INTERNAL_ERROR)
            && (o.status == Ok <==> o.code == OK)
            && (o.code != OK ==> o.effect == Nothing && o.note == None)
  {
    hide Id, ToStr, ToBool, AdminOutcome, AttrsChange;
  }

  // ---------------------------------------------------------------- grants and policy updates

  /** The row a grant asks for: enabled, bound to one user and one resource, of priority 10, named after all three. */
  function GrantAsked(s: int, r: int, a: string, uid: int): Policy
    requires s > 0 && r > 0
  {
    Policy("grant-" + Dec(s) + "-" + Dec(r) + "-" + a, true, a, None, None, None, None, Some(s), Some(r), 10, Some(uid))
  }

  lemma GrantRowIs(s: int, r: int, a: string, uid: int)
    requires s > 0 && r > 0 && uid > 0
    ensures ToRow(GrantRecord(s, r, a, uid)) == GrantAsked(s, r, a, uid)
  {
    hide Dec;
  }

  lemma GrantInsertion(db: Db, uid: int, data: Object)
    requires uid in db.users && uid in db.attrs && uid > 0
    ensures var (s, r, a) := (Id(data, "subject_id"), Id(data, "resource_id"), Text(data, "action"));
            var o := DecideGrant(db, uid, data);
            && o.code == (if s <= 0 || r <= 0 || a == "" then VALIDATION_ERROR
                          else if s !in db.users || r !in db.resources then RESOURCE_NOT_FOUND
                          else if Admits(db, GrantAsked(s, r, a, uid), 0) then OK else INTERNAL_ERROR)
            && (o.code == OK ==>
                  && o.effect == AddPolicy(GrantAsked(s, r, a, uid))
                  && o.data == map["policy_id" := Number(db.nextPolicy)])
            && (o.code != OK ==> o.effect.Nothing? || o.effect.BurnPolicy?)
            && (o.status == Ok <==> o.code == OK)
  {
    hide Text, Id, AdminOutcome, Admissible, Admits, GrantName, GrantRecord, ToRow;
    var (s, r, a) := (Id(data, "subject_id"), Id(data, "resource_id"), Text(data, "action"));
    if s > 0 && r > 0 {
      GrantRowIs(s, r, a, uid);
      AdmitsMeans(db, GrantAsked(s, r, a, uid), uid);
    }
  }

  /** GRANT_ACCESS: which of the four answers, and the one row of an accepted grant. */
  lemma Granted(cfg: Config, db: Db, env: Env, req: Request, uid: int)
    requires Integrity(db) && Asks(cfg, db, env, req, GRANT_ACCESS, uid)
    ensures var (s, r, a) := (Id(req.data, "subject_id"), Id(req.data, "resource_id"), Text(req.data, "action"));
            var (d, resp) := Step(cfg, db, env, req);
            && resp.code == (if s <= 0 || r <= 0 || a == "" then VALIDATION_ERROR
                             else if s !in db.users || r !in db.resources then RESOURCE_NOT_FOUND
                             else if Admits(db, GrantAsked(s, r, a, uid), 0) then OK else INTERNAL_ERROR)
            && (resp.status == Ok <==> resp.code == OK)
            && d.policies == (if resp.code == OK then db.policies[db.nextPolicy := GrantAsked(s, r, a, uid)]
                              else db.policies)
            && (resp.code == OK ==> resp.data == map["policy_id" := Number(db.nextPolicy)])
            && d.users == db.users && d.attrs == db.attrs && d.sessions == db.sessions && d.resources == db.resources
  {
    hide Decide, Step, Integrity, DecideGrant, GrantAsked, Admits, Asks, Id, Text;
    AskerExists(cfg, db, env, req, GRANT_ACCESS, uid);
    AskedOf(cfg, db, env, req, GRANT_ACCESS, uid);
    DecidedBy(cfg, db, env, req);
    GrantInsertion(db, uid, req.data);
    StepTables(cfg, db, env, req);
  }

  /** A policy that the listing order puts among the first 999999. */
  ghost predicate Reached(db: Db, pid: int) {
    var all := Ordered(PolicyRank(db));
    pid in all[..Min(999999, |all|)]
  }

  lemma PolicyChangeCode(db: Db, uid: int, data: Object)
    requires uid in db.attrs
    ensures var (o, pid) := (DecidePolicyUpdate(db, uid, data), Id(data, "policy_id"));
            && (pid <= 0 ==> o.code == VALIDATION_ERROR)
            && (pid > 0 && !Reached(db, pid) ==> o.code == RESOURCE_NOT_FOUND)
            && (pid > 0 && Reached(db, pid) ==> o.code == if o.status == Ok then OK else INTERNAL_ERROR)
            && (o.status == Ok <==> o.code == OK)
            && (o.code != OK ==> o.effect == Nothing && o.note == None)
  {
    hide Id, AdminOutcome, Admissible, MergedPolicy, FromRow, UpdatedRow, NameIsNull, Ordered, PolicyRank, Page;
    PolicyFound(db, Id(data, "policy_id"));
  }

  /** POLICY_UPDATE is accepted exactly for a policy the search reaches whose merged row the table admits and whose name
      was not sent as something else than text; then that row is the merged one. */
  lemma PolicyChanged(cfg: Config, db: Db, env: Env, req: Request, uid: int)
    requires Integrity(db) && Asks(cfg, db, env, req, POLICY_UPDATE, uid)
    ensures var ((d, resp), pid) := (Step(cfg, db, env, req), Id(req.data, "policy_id"));
            && (pid <= 0 ==> resp.code == VALIDATION_ERROR)
            && (pid > 0 && !Reached(db, pid) ==> resp.code == RESOURCE_NOT_FOUND)
            && (pid > 0 && Reached(db, pid) ==>
                  && pid in db.policies
                  && var row := MergedRow(db.policies[pid], req.data);
                     && resp.code == (if !("name" in req.data && !req.data["name"].Str?) && Admits(db, row, pid) then OK
                                      else INTERNAL_ERROR)
                     && (resp.code == OK ==> d.policies == db.policies[pid := row]))
            && (resp.status == Ok <==> resp.code == OK)
            && (resp.code != OK ==> d == db)
            && d.users == db.users && d.attrs == db.attrs && d.sessions == db.sessions && d.resources == db.resources
  {
    hide Decide, Step, Integrity, DecidePolicyUpdate, MergedRow, Admits, Asks, Id, Ordered, PolicyRank, Page, ByAdmin;
    hide PolicyOk, PolicyNameFree, Refers, Reached;
    AskerExists(cfg, db, env, req, POLICY_UPDATE, uid);
    AskedOf(cfg, db, env, req, POLICY_UPDATE, uid);
    DecidedBy(cfg, db, env, req);
    PolicyChangeCode(db, uid, req.data);
    StepTables(cfg, db, env, req);
    RefusedLeaves(cfg, db, env, req);
    var pid := Id(req.data, "policy_id");
    if pid > 0 && Reached(db, pid) {
      ReachedIsFound(db, pid);
      UpdateIsMerge(cfg, db, env, req, pid);
      SameAdmission(db, MergedRow(db.policies[pid], req.data), pid);
    }
  }

  lemma ReachedIsFound(db: Db, pid: int)
    requires Reached(db, pid)
    ensures Found(db, pid)
  {
    hide Ordered, PolicyRank, Page;
    PolicyListing(db);
    PolicyFound(db, pid);
  }

  lemma SameAdmission(db: Db, p: Policy, pid: int)
    ensures Admits(db, p, pid) <==>
            && PolicyOk(p) && PolicyNameFree(db.policies, p.name, pid)
            && Refers(p.subjectId, db.users.Keys) && Refers(p.resourceId, db.resources.Keys)
  {
  }
}
