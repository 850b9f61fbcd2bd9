/** The server as one state machine: what a request does to the tables and what it is answered.
    Gates come first (token, role), then arguments, then existence, then the change itself. */
module Server {
  import opened Prelude
  import opened Json
  import opened Protocol
  import opened Schema
  import opened Passwords
  import opened Decisions
  import opened Listing

  datatype Config = Config(sessionHours: int32, maxFailed: int32, lockoutMinutes: int32, crypto: Crypto,
                           parseTime: string -> Option<int>)

  /** What the surroundings contribute to one request: the clock in seconds, the bytes the random generator would
      give for a token and for a salt, and the order in which the database lists equally old audit rows. */
  datatype Env = Env(now: int, token: string, salt: Bytes, auditOrder: seq<AuditRow>)

  const MINUTE := 60
  const HOUR := 3600

  // ---------------------------------------------------------------- lookups

  predicate SessionLive(s: Session, now: int, tokenHash: string) {
    s.tokenHash == tokenHash && s.expiresAt > now && s.revokedAt.None?
  }

  ghost function LiveSession(db: Db, now: int, tokenHash: string): (r: Option<int>)
    ensures r.Some? ==> r.value in db.sessions && SessionLive(db.sessions[r.value], now, tokenHash)
    ensures r.None? ==> forall s | s in db.sessions :: !SessionLive(db.sessions[s], now, tokenHash)
  {
    if exists s :: s in db.sessions && SessionLive(db.sessions[s], now, tokenHash)
    then var s :| s in db.sessions && SessionLive(db.sessions[s], now, tokenHash); Some(s)
    else None
  }

  ghost function UserNamed(db: Db, username: string): (r: Option<int>)
    ensures r.Some? ==> r.value in db.users && db.users[r.value].username == username
    ensures r.None? ==> NameFree(db.users, username)
  {
    if exists u :: u in db.users && db.users[u].username == username
    then var u :| u in db.users && db.users[u].username == username; Some(u)
    else None
  }

  /** validateToken: the user of a live session, if active and provided with attributes. */
  ghost function Caller(cfg: Config, db: Db, now: int, token: string): (r: Option<int>)
    ensures r.Some? ==> r.value in db.users && db.users[r.value].isActive && r.value in db.attrs
  {
    match LiveSession(db, now, HashToken(cfg.crypto, token))
    case None => None
    case Some(s) =>
      var uid := db.sessions[s].userId;
      if uid in db.users && db.users[uid].isActive && uid in db.attrs then Some(uid) else None
  }

  // ---------------------------------------------------------------- outcomes

  datatype Outcome = Outcome(effect: Effect, note: Option<AuditNote>, status: Status, code: ResultCode,
                             message: string, data: Object)

  function Refuse(status: Status, code: ResultCode, message: string): Outcome {
    Outcome(Nothing, None, status, code, message, map[])
  }

  function Fail(effect: Effect, message: string): Outcome {
    Outcome(effect, None, Error, INTERNAL_ERROR, message, map[])
  }

  function Invalid(message: string): Outcome {
    Refuse(Error, VALIDATION_ERROR, message)
  }

  function NotFound(message: string): Outcome {
    Refuse(Denied, RESOURCE_NOT_FOUND, message)
  }

  function Reply(data: Object): Outcome {
    Outcome(Nothing, None, Ok, OK, "", data)
  }

  function Done(effect: Effect, note: AuditNote, data: Object): Outcome {
    Outcome(effect, Some(note), Ok, OK, "", data)
  }

  function Respond(req: Request, o: Outcome): Response {
    Response(K_VERSION, req.op, req.reqId, o.status, o.code, o.message, o.data)
  }

  /** An audit note of an administrator's action; the actor's name column holds the role. */
  function Note(uid: int, db: Db, action: string, targetType: string, targetId: int): AuditNote
    requires uid in db.attrs
  {
    AuditNote(uid, db.attrs[uid].role, action, targetType, targetId, map[])
  }

  function Text(o: Object, key: string): string {
    ToStr(Field(o, key), "")
  }

  function Id(o: Object, key: string): (r: int)
    ensures -INT64_MAX - 1 <= r <= INT64_MAX
  {
    ToLongLong(Field(o, key))
  }

  /** How handlers read a field: a text as sent and anything else as the empty text; an id from a number of 64 bits, and
      what is missing or has no number in it as 0. */
  lemma FieldsRead(o: Object, key: string)
    ensures key in o && o[key].Str? ==> Text(o, key) == o[key].s
    ensures key !in o || !o[key].Str? ==> Text(o, key) == ""
    ensures key in o && o[key].Number? && -INT64_MAX - 1 <= o[key].n <= INT64_MAX ==> Id(o, key) == o[key].n
    ensures key in o && o[key].Bool? ==> Id(o, key) == (if o[key].b then 1 else 0)
    ensures key !in o || o[key].Null? || o[key].Arr? || o[key].Obj? ==> Id(o, key) == 0
  {
  }

  // ---------------------------------------------------------------- AUTH

  function AttrsOf(db: Db, uid: int): Attrs {
    if uid in db.attrs then db.attrs[uid] else Attrs("user", 0, "")
  }

  function UserFields(uid: int, u: User, a: Attrs): Object {
    map["id" := Number(uid), "username" := Str(u.username), "full_name" := Str(u.fullName), "role" := Str(a.role),
        "clearance_level" := Number(a.clearance), "department" := Str(a.department)]
  }

  /** The password of this account is compared at all: it exists, is active and is not locked. */
  predicate Compares(db: Db, now: int, uid: int) {
    uid in db.users && db.users[uid].isActive && !Locked(db.users[uid], now)
  }

  predicate RightPassword(cfg: Config, u: User, env: Env, password: string) {
    PasswordMatches(cfg.crypto, u.passwordHash, u.salt, password, env.salt)
  }

  function LockAfter(cfg: Config, u: User, now: int): Option<int> {
    if CountedUp(u.failedAttempts) >= cfg.maxFailed then Some(now + MINUTE * cfg.lockoutMinutes) else None
  }

  function NewSession(cfg: Config, env: Env, uid: int): Session {
    Session(uid, HashToken(cfg.crypto, env.token), env.now, env.now + HOUR * cfg.sessionHours, None)
  }

  ghost function DecideAuth(cfg: Config, db: Db, env: Env, data: Object): (o: Outcome)
    ensures Admissible(db, o.effect)
    ensures o.effect.Login? <==> o.status == Ok
    ensures o.note.Some? <==> o.status == Ok
    ensures !o.effect.Nothing? ==> LoginEffect(o.effect) && UserNamed(db, Text(data, "username")) == Some(o.effect.uid)
                                   && Compares(db, env.now, o.effect.uid)
    ensures o.effect.Login? ==>
              o.effect.session == NewSession(cfg, env, o.effect.uid) && o.note.value.actorId == o.effect.uid
  {
    var username, password := Text(data, "username"), Text(data, "password");
    if username == "" || password == "" then Invalid("Missing username or password")
    else AuthOutcome(cfg, db, env, username, password)
  }

  ghost function AuthOutcome(cfg: Config, db: Db, env: Env, username: string, password: string): (o: Outcome)
    ensures Admissible(db, o.effect)
    ensures o.effect.Login? <==> o.status == Ok
    ensures o.note.Some? <==> o.status == Ok
    ensures !o.effect.Nothing? ==> LoginEffect(o.effect) && UserNamed(db, username) == Some(o.effect.uid)
                                   && Compares(db, env.now, o.effect.uid)
    ensures o.effect.Login? ==>
              o.effect.session == NewSession(cfg, env, o.effect.uid) && o.note.value.actorId == o.effect.uid
  {
    match UserNamed(db, username)
    case None => Refuse(Error, AUTH_DENIED, "AUTH_DENIED")
    case Some(uid) => Authenticate(cfg, db, env, uid, password)
  }

  predicate LoginEffect(e: Effect) {
    e.CountFailure? || e.Login? || e.LoginBurn?
  }

  function Authenticate(cfg: Config, db: Db, env: Env, uid: int, password: string): (o: Outcome)
    requires uid in db.users
    ensures Admissible(db, o.effect)
    ensures o.effect.Login? <==> o.status == Ok
    ensures o.note.Some? <==> o.status == Ok
    ensures !o.effect.Nothing? <==> Compares(db, env.now, uid)
    ensures !o.effect.Nothing? ==> LoginEffect(o.effect) && o.effect.uid == uid
    ensures o.effect.Login? ==> o.effect.session == NewSession(cfg, env, uid) && o.note.value.actorId == uid
  {
    var u := db.users[uid];
    if !u.isActive then Refuse(Error, ACCOUNT_INACTIVE, "ACCOUNT_INACTIVE")
    else if Locked(u, env.now) then Refuse(Error, ACCOUNT_LOCKED, "ACCOUNT_LOCKED")
    else if !RightPassword(cfg, u, env, password) then
      Outcome(CountFailure(uid, LockAfter(cfg, u, env.now)), None, Error, AUTH_DENIED, "AUTH_DENIED", map[])
    else if !HashFree(db.sessions, HashToken(cfg.crypto, env.token)) then Fail(LoginBurn(uid), "INTERNAL_ERROR")
    else Done(Login(uid, NewSession(cfg, env, uid)),
              AuditNote(uid, u.username, "AUTH_SUCCESS", "user", uid, map[]),
              map["token" := Str(env.token), "user" := Obj(UserFields(uid, u, AttrsOf(db, uid)))])
  }

  // ---------------------------------------------------------------- roles

  predicate AdminOnly(op: Op) {
    op in {RESOURCE_CREATE, RESOURCE_UPDATE, RESOURCE_DELETE, POLICY_CREATE, POLICY_UPDATE, POLICY_DELETE,
           USER_LIST, USER_CREATE, USER_UPDATE, USER_DELETE, GRANT_ACCESS, REVOKE_ACCESS}
  }

  predicate AdminChange(op: Op) {
    AdminOnly(op) && op != USER_LIST
  }

  predicate Privileged(op: Op) {
    op == POLICY_LIST || op == AUDIT_QUERY
  }

  predicate RoleMay(op: Op, role: string) {
    (AdminOnly(op) ==> role == "admin") && (Privileged(op) ==> role == "admin" || role == "auditor")
  }

  // ---------------------------------------------------------------- lists

  function UserRank(db: Db): map<int, int> {
    map id | id in db.users :: 0
  }

  function ResourceRank(db: Db, rtype: string): map<int, int> {
    map id | id in db.resources && (rtype == "" || db.resources[id].resourceType == rtype) :: 0
  }

  function PolicyRank(db: Db): map<int, int> {
    map id | id in db.policies :: db.policies[id].priority
  }

  function ResourceFields(id: int, r: Resource): Object {
    map["id" := Number(id), "name" := Str(r.name), "description" := Str(r.description),
        "resource_type" := Str(r.resourceType), "address" := Str(r.address),
        "owner_id" := Number(r.ownerId.GetOr(0)), "is_active" := Bool(r.isActive)]
  }

  /** A plain user is shown the resources it may read; the other roles see all. */
  predicate Visible(db: Db, now: int, uid: int, rid: int)
    requires uid in db.attrs && rid in db.resources
  {
    db.attrs[uid].role == "user" ==> Allowed(db, now, uid, rid, "read", db.resources[rid].resourceType)
  }

  function ResourceItems(db: Db, now: int, uid: int, ids: seq<int>): seq<Json>
    requires uid in db.attrs && forall k | k in ids :: k in db.resources
  {
    if ids == [] then []
    else
      var k := ids[|ids| - 1];
      ResourceItems(db, now, uid, ids[..|ids| - 1])
      + (if Visible(db, now, uid, k) then [Obj(ResourceFields(k, db.resources[k]))] else [])
  }

  function IdOrNull(id: int): Json {
    if id <= 0 then Null else Number(id)
  }

  function PolicyFields(r: PolicyRecord): Object {
    map["id" := Number(r.id), "name" := Str(r.name), "enabled" := Bool(r.enabled), "action" := Str(r.action),
        "role_required" := Str(r.roleRequired), "department_required" := Str(r.departmentRequired),
        "min_clearance" := (if r.minClearance < 0 then Null else Number(r.minClearance)),
        "resource_type" := Str(r.resourceType), "subject_id" := IdOrNull(r.subjectId),
        "resource_id" := IdOrNull(r.resourceId), "priority" := Number(r.priority)]
  }

  function PolicyItems(db: Db, ids: seq<int>): seq<Json>
    requires forall k | k in ids :: k in db.policies
  {
    seq(|ids|, i requires 0 <= i < |ids| => Obj(PolicyFields(FromRow(ids[i], db.policies[ids[i]]))))
  }

  function AccountFields(uid: int, u: User, a: Attrs): Object {
    UserFields(uid, u, a)["position" := Str(u.position)]["is_active" := Bool(u.isActive)]
  }

  function UserItems(db: Db, ids: seq<int>): seq<Json>
    requires forall k | k in ids :: k in db.users
  {
    seq(|ids|, i requires 0 <= i < |ids| => Obj(AccountFields(ids[i], db.users[ids[i]], AttrsOf(db, ids[i]))))
  }

  function ListData(items: seq<Json>, total: int): Object {
    map["items" := Arr(items), "total" := Number(total)]
  }

  datatype AuditFilter = AuditFilter(from: string, to: string, actorId: int, action: string, page: int, size: int)

  /** The text of a time bound the database cannot read makes the whole query fail. */
  predicate FilterReadable(cfg: Config, f: AuditFilter) {
    (f.from != "" ==> cfg.parseTime(f.from).Some?) && (f.to != "" ==> cfg.parseTime(f.to).Some?)
  }

  predicate AuditHit(cfg: Config, f: AuditFilter, r: AuditRow)
    requires FilterReadable(cfg, f)
  {
    && (f.from != "" ==> r.ts >= cfg.parseTime(f.from).value)
    && (f.to != "" ==> r.ts <= cfg.parseTime(f.to).value)
    && (f.actorId > 0 ==> r.actorId == Some(f.actorId))
    && (f.action != "" ==> r.action == f.action)
  }

  function AuditHits(cfg: Config, f: AuditFilter, rows: seq<AuditRow>): seq<AuditRow>
    requires FilterReadable(cfg, f)
  {
    if rows == [] then []
    else (if AuditHit(cfg, f, rows[0]) then [rows[0]] else []) + AuditHits(cfg, f, rows[1..])
  }

  /** ORDER BY ts DESC leaves rows of one instant in any order: some listing of all rows, newest first. */
  predicate AuditOrderOk(audit: seq<AuditRow>, rows: seq<AuditRow>) {
    multiset(rows) == multiset(audit) && NewestFirst(rows)
  }

  predicate NewestFirst(rows: seq<AuditRow>) {
    forall i, j | 0 <= i < j < |rows| :: rows[i].ts >= rows[j].ts
  }

  function AuditFields(r: AuditRow): Object {
    map["id" := Number(r.id), "ts" := Number(r.ts), "actor_id" := Number(r.actorId.GetOr(0)),
        "actor_name" := Str(r.actorName), "action" := Str(r.action), "target_type" := Str(r.targetType),
        "target_id" := Number(r.targetId.GetOr(0)), "result" := Str(r.result)]
    + (if r.details.Some? then map["details" := Obj(ToObject(r.details.value))] else map[])
  }

  function AuditItems(rows: seq<AuditRow>): seq<Json> {
    seq(|rows|, i requires 0 <= i < |rows| => Obj(AuditFields(rows[i])))
  }

  function AuditFilterOf(data: Object): AuditFilter {
    AuditFilter(Text(data, "from"), Text(data, "to"), Id(data, "actor_id"), Text(data, "action"),
                ToInt(Field(data, "page"), 1), ToInt(Field(data, "page_size"), 100))
  }

  function DecideAuditQuery(cfg: Config, db: Db, env: Env, f: AuditFilter): Outcome {
    if !FilterReadable(cfg, f) then Reply(ListData([], 0))
    else
      var hits := AuditHits(cfg, f, env.auditOrder);
      Reply(ListData(AuditItems(Page(hits, f.page, f.size)), |AuditHits(cfg, f, db.audit)|))
  }

  ghost function DecideList(cfg: Config, db: Db, env: Env, uid: int, op: Op, data: Object): (o: Outcome)
    requires uid in db.attrs
    ensures o.effect.Nothing? && o.note.None? && o.status == Ok
  {
    var page, size := ToInt(Field(data, "page"), 1), ToInt(Field(data, "page_size"), 50);
    match op
    case RESOURCE_LIST =>
      var all := Ordered(ResourceRank(db, Text(data, "resource_type")));
      Reply(ListData(ResourceItems(db, env.now, uid, Page(all, page, size)), |all|))
    case POLICY_LIST =>
      Reply(ListData(PolicyItems(db, Page(Ordered(PolicyRank(db)), page, size)), |db.policies|))
    case USER_LIST =>
      Reply(ListData(UserItems(db, Page(Ordered(UserRank(db)), page, size)), |db.users|))
    case _ => DecideAuditQuery(cfg, db, env, AuditFilterOf(data))
  }

  predicate FailureEffect(e: Effect) {
    e.Nothing? || e.BurnUser? || e.AddOrphan? || e.BurnResource? || e.BurnPolicy?
  }

  predicate SessionEffect(e: Effect) {
    e.Nothing? || e.Revoke? || LoginEffect(e)
  }

  /** What every administrative outcome has in common: it is noted in the caller's name exactly when accepted, a
      refusal changes nothing but a sequence or an orphan account, sessions are out of reach and so is the caller's
      own account's deletion. */
  predicate AdminOutcome(o: Outcome, uid: int, op: Op) {
    && (o.note.Some? <==> o.status == Ok)
    && (o.note.Some? ==> o.note.value.actorId == uid)
    && (FailureEffect(o.effect) <==> o.status != Ok)
    && (SessionEffect(o.effect) ==> o.effect.Nothing?)
    && KindFits(op, o.effect)
    && (op == USER_DELETE && o.status == Ok ==> o.effect.DropUser?)
    && (o.effect.DropUser? ==> o.effect.uid != uid)
  }

  /** Which operation brings which change of the tables. */
  predicate KindFits(op: Op, e: Effect) {
    match e
    case AddUser(_, _) => op == USER_CREATE
    case AddOrphan(_) => op == USER_CREATE
    case BurnUser => op == USER_CREATE
    case SetUser(_, _, _, _, _) => op == USER_UPDATE
    case DropUser(_) => op == USER_DELETE
    case AddResource(_) => op == RESOURCE_CREATE
    case BurnResource => op == RESOURCE_CREATE
    case SetResource(_, _) => op == RESOURCE_UPDATE
    case DropResource(_) => op == RESOURCE_DELETE
    case AddPolicy(_) => op == POLICY_CREATE || op == GRANT_ACCESS
    case BurnPolicy => op == POLICY_CREATE || op == GRANT_ACCESS
    case SetPolicy(_, _) => op == POLICY_UPDATE
    case DropPolicy(_) => op == POLICY_DELETE || op == REVOKE_ACCESS
    case _ => true
  }

  // ---------------------------------------------------------------- resources

  function DecideResourceGet(db: Db, data: Object): Outcome {
    var rid := Id(data, "resource_id");
    if rid <= 0 then Invalid("Missing resource_id")
    else if rid !in db.resources then NotFound("Resource not found")
    else Reply(ResourceFields(rid, db.resources[rid]))
  }

  function DecideResourceCreate(db: Db, uid: int, data: Object): (o: Outcome)
    requires uid in db.attrs
    ensures Admissible(db, o.effect) && AdminOutcome(o, uid, RESOURCE_CREATE)
  {
    var row := Resource(Text(data, "name"), Text(data, "description"), Text(data, "resource_type"),
                        Text(data, "address"), PositiveId(uid), true);
    if row.name == "" || row.resourceType == "" then Invalid("Missing name or resource_type")
    else if !Admissible(db, AddResource(row)) then Fail(BurnResource, "Failed to create resource")
    else Done(AddResource(row), Note(uid, db, "RESOURCE_CREATE", "resource", db.nextResource),
              map["id" := Number(db.nextResource)])
  }

  function MergedResource(r: Resource, data: Object): Resource {
    Resource(ToStr(Field(data, "name"), r.name), ToStr(Field(data, "description"), r.description),
             ToStr(Field(data, "resource_type"), r.resourceType), ToStr(Field(data, "address"), r.address),
             r.ownerId, ToBool(Field(data, "is_active"), r.isActive))
  }

  function DecideResourceUpdate(db: Db, uid: int, data: Object): (o: Outcome)
    requires uid in db.attrs
    ensures Admissible(db, o.effect) && AdminOutcome(o, uid, RESOURCE_UPDATE)
  {
    var rid := Id(data, "resource_id");
    if rid <= 0 then Invalid("Missing resource_id")
    else if rid !in db.resources then NotFound("Resource not found")
    else
      var row := MergedResource(db.resources[rid], data);
      if !ResourceOk(row) then Fail(Nothing, "Failed to update resource")
      else Done(SetResource(rid, row), Note(uid, db, "RESOURCE_UPDATE", "resource", rid), map[])
  }

  function DecideResourceDelete(db: Db, uid: int, data: Object): (o: Outcome)
    requires uid in db.attrs
    ensures Admissible(db, o.effect) && AdminOutcome(o, uid, RESOURCE_DELETE)
  {
    var rid := Id(data, "resource_id");
    if rid <= 0 then Invalid("Missing resource_id")
    else Done(DropResource(rid), Note(uid, db, "RESOURCE_DELETE", "resource", rid), map[])
  }

  // ---------------------------------------------------------------- policies

  function RecordOf(data: Object, uid: int): PolicyRecord {
    PolicyRecord(0, Text(data, "name"), ToBool(Field(data, "enabled"), true), Text(data, "action"),
                 Text(data, "role_required"), Text(data, "department_required"),
                 ToInt(Field(data, "min_clearance"), -1), Text(data, "resource_type"), Id(data, "subject_id"),
                 Id(data, "resource_id"), ToInt(Field(data, "priority"), 0), uid)
  }

  function InsertPolicy(db: Db, uid: int, r: PolicyRecord, details: Object, idKey: string,
                        message: string): (o: Outcome)
    requires uid in db.attrs
    ensures Admissible(db, o.effect) && AdminOutcome(o, uid, POLICY_CREATE) && AdminOutcome(o, uid, GRANT_ACCESS)
  {
    var row := ToRow(r);
    if !Admissible(db, AddPolicy(row)) then Fail(BurnPolicy, message)
    else Done(AddPolicy(row), Note(uid, db, "POLICY_CREATE", "policy", db.nextPolicy).(details := details),
              map[idKey := Number(db.nextPolicy)])
  }

  function DecidePolicyCreate(db: Db, uid: int, data: Object): (o: Outcome)
    requires uid in db.attrs
    ensures Admissible(db, o.effect) && AdminOutcome(o, uid, POLICY_CREATE)
  {
    var r := RecordOf(data, uid);
    if r.name == "" || r.action == "" then Invalid("Missing name or action")
    else InsertPolicy(db, uid, r, map[], "id", "Failed to create policy")
  }

  const ALL_POLICIES: int32 := 999999

  /** The record with the fields the request carries; the rest stays. */
  function MergedPolicy(r: PolicyRecord, data: Object): PolicyRecord {
    MergedConditions(MergedHead(r, data), data)
  }

  function MergedHead(r: PolicyRecord, data: Object): PolicyRecord {
    r.(name := if "name" in data then Text(data, "name") else r.name,
       action := if "action" in data then Text(data, "action") else r.action,
       enabled := if "enabled" in data then ToBool(data["enabled"], false) else r.enabled,
       priority := if "priority" in data then ToInt(data["priority"], 0) else r.priority)
  }

  function MergedConditions(r: PolicyRecord, data: Object): PolicyRecord {
    r.(roleRequired := if "role_required" in data then Text(data, "role_required") else r.roleRequired,
       departmentRequired :=
         if "department_required" in data then Text(data, "department_required") else r.departmentRequired,
       minClearance := if "min_clearance" in data then ToInt(data["min_clearance"], -1) else r.minClearance,
       resourceType := if "resource_type" in data then Text(data, "resource_type") else r.resourceType,
       subjectId := if "subject_id" in data then Id(data, "subject_id") else r.subjectId,
       resourceId := if "resource_id" in data then Id(data, "resource_id") else r.resourceId)
  }

  /** A name that is present but not text becomes the null string, which the NOT NULL column refuses. */
  predicate NameIsNull(data: Object) {
    "name" in data && !data["name"].Str?
  }

  function UpdatedRow(before: Policy, r: PolicyRecord): Policy {
    ToRow(r).(createdBy := before.createdBy)
  }

  function ReplacePolicy(db: Db, uid: int, pid: int, r: PolicyRecord, nameIsNull: bool): (o: Outcome)
    requires uid in db.attrs && pid in db.policies
    ensures Admissible(db, o.effect) && AdminOutcome(o, uid, POLICY_UPDATE)
  {
    var row := UpdatedRow(db.policies[pid], r);
    if nameIsNull || !Admissible(db, SetPolicy(pid, row)) then Fail(Nothing, "Failed to update policy")
    else Done(SetPolicy(pid, row), Note(uid, db, "POLICY_UPDATE", "policy", pid), map[])
  }

  ghost function DecidePolicyUpdate(db: Db, uid: int, data: Object): (o: Outcome)
    requires uid in db.attrs
    ensures Admissible(db, o.effect) && AdminOutcome(o, uid, POLICY_UPDATE)
  {
    var pid := Id(data, "policy_id");
    if pid <= 0 then Invalid("Missing policy_id")
    else if pid !in Page(Ordered(PolicyRank(db)), 1, ALL_POLICIES) then NotFound("Policy not found")
    else ReplacePolicy(db, uid, pid, MergedPolicy(FromRow(pid, db.policies[pid]), data), NameIsNull(data))
  }

  function DecidePolicyDelete(db: Db, uid: int, data: Object): (o: Outcome)
    requires uid in db.attrs
    ensures Admissible(db, o.effect) && AdminOutcome(o, uid, POLICY_DELETE) && AdminOutcome(o, uid, REVOKE_ACCESS)
  {
    var pid := Id(data, "policy_id");
    if pid <= 0 then Invalid("Missing policy_id")
    else Done(DropPolicy(pid), Note(uid, db, "POLICY_DELETE", "policy", pid), map[])
  }

  // ---------------------------------------------------------------- grants

  function GrantName(subject: int, resource: int, action: string): string
    requires subject > 0 && resource > 0
  {
    "grant-" + Dec(subject) + "-" + Dec(resource) + "-" + action
  }

  const GRANT_PRIORITY := 10

  function GrantRecord(subject: int, resource: int, action: string, uid: int): PolicyRecord
    requires subject > 0 && resource > 0
  {
    PolicyRecord(0, GrantName(subject, resource, action), true, action, "", "", -1, "", subject, resource,
                 GRANT_PRIORITY, uid)
  }

  function GrantDetails(subject: int, resource: int): Object {
    map["grant" := Bool(true), "subject" := Number(subject), "resource" := Number(resource)]
  }

  function DecideGrant(db: Db, uid: int, data: Object): (o: Outcome)
    requires uid in db.attrs
    ensures Admissible(db, o.effect) && AdminOutcome(o, uid, GRANT_ACCESS)
  {
    var subject, resource, action := Id(data, "subject_id"), Id(data, "resource_id"), Text(data, "action");
    if subject <= 0 || resource <= 0 || action == "" then Invalid("Missing subject_id, resource_id, or action")
    else if subject !in db.users then NotFound("Subject user not found")
    else if resource !in db.resources then NotFound("Resource not found")
    else InsertPolicy(db, uid, GrantRecord(subject, resource, action, uid), GrantDetails(subject, resource),
                      "policy_id", "Failed to create grant policy")
  }

  function DecideAccessCheck(db: Db, now: int, uid: int, data: Object): Outcome {
    var rid, action := Id(data, "resource_id"), Text(data, "action");
    if rid <= 0 || action == "" then Invalid("Missing resource_id or action")
    else if rid !in db.resources then NotFound("Resource not found")
    else if Allowed(db, now, uid, rid, action, db.resources[rid].resourceType) then Reply(map[])
    else Refuse(Denied, ACCESS_DENIED, DenialReason(db, now, uid))
  }

  // ---------------------------------------------------------------- users

  function NewUser(cfg: Config, env: Env, data: Object): User {
    var parts := Split(HashedPassword(cfg.crypto, Text(data, "password"), "", env.salt), ':');
    InsertedUser(Text(data, "username"), PartOr(parts, 0), PartOr(parts, 1), Text(data, "full_name"),
                 Text(data, "position"))
  }

  function NewAttrs(data: Object): Attrs {
    Attrs(ToStr(Field(data, "role"), "user"), ToInt(Field(data, "clearance_level"), 0), Text(data, "department"))
  }

  /** Two INSERTs without a transaction: the account stays when its attributes are refused. */
  function InsertUser(db: Db, uid: int, user: User, attrs: Attrs): (o: Outcome)
    requires uid in db.attrs
    ensures Admissible(db, o.effect) && AdminOutcome(o, uid, USER_CREATE)
  {
    if !Admissible(db, AddOrphan(user)) then Fail(BurnUser, "Failed to create user")
    else if !AttrsOk(attrs) then Fail(AddOrphan(user), "Failed to create user")
    else Done(AddUser(user, attrs), Note(uid, db, "USER_CREATE", "user", db.nextUser),
              map["id" := Number(db.nextUser)])
  }

  function DecideUserCreate(cfg: Config, db: Db, env: Env, uid: int, data: Object): (o: Outcome)
    requires uid in db.attrs
    ensures Admissible(db, o.effect) && AdminOutcome(o, uid, USER_CREATE)
  {
    if Text(data, "username") == "" || Text(data, "password") == "" || Text(data, "full_name") == "" then
      Invalid("Missing username, password, or full_name")
    else InsertUser(db, uid, NewUser(cfg, env, data), NewAttrs(data))
  }

  predicate TouchesAttrs(data: Object) {
    "role" in data || "clearance_level" in data || "department" in data
  }

  function MergedAttrs(a: Attrs, data: Object): Attrs {
    Attrs(ToStr(Field(data, "role"), a.role), ToInt(Field(data, "clearance_level"), a.clearance),
          ToStr(Field(data, "department"), a.department))
  }

  /** The attribute change that takes hold; a refused one is silently dropped. */
  function AttrsChange(attrs: map<int, Attrs>, target: int, data: Object): Option<Attrs> {
    if TouchesAttrs(data) && target in attrs && AttrsOk(MergedAttrs(attrs[target], data))
    then Some(MergedAttrs(attrs[target], data)) else None
  }

  function DecideUserUpdate(db: Db, uid: int, data: Object): (o: Outcome)
    requires uid in db.attrs
    ensures Admissible(db, o.effect) && AdminOutcome(o, uid, USER_UPDATE)
  {
    var target := Id(data, "user_id");
    if target <= 0 then Invalid("Missing user_id")
    else if target !in db.users then NotFound("User not found")
    else
      var u := db.users[target];
      var fullName := ToStr(Field(data, "full_name"), u.fullName);
      if |fullName| > 200 then Fail(Nothing, "Failed to update user")
      else Done(SetUser(target, fullName, ToStr(Field(data, "position"), u.position),
                        ToBool(Field(data, "is_active"), u.isActive), AttrsChange(db.attrs, target, data)),
                Note(uid, db, "USER_UPDATE", "user", target), map[])
  }

  function DecideUserDelete(db: Db, uid: int, data: Object): (o: Outcome)
    requires uid in db.attrs
    ensures Admissible(db, o.effect) && AdminOutcome(o, uid, USER_DELETE)
    ensures o.effect.DropUser? ==> o.effect.uid == Id(data, "user_id")
  {
    var target := Id(data, "user_id");
    if target <= 0 then Invalid("Missing user_id")
    else if target == uid then Invalid("Cannot delete yourself")
    else Done(DropUser(target), Note(uid, db, "USER_DELETE", "user", target), map[])
  }

  // ---------------------------------------------------------------- dispatch

  /** Operations that any accepted role may perform: they read, or end the caller's own session. */
  ghost function DecideOpen(cfg: Config, db: Db, env: Env, uid: int, req: Request): (o: Outcome)
    requires uid in db.users && uid in db.attrs
    ensures Admissible(db, o.effect)
    ensures o.note.None?
    ensures o.effect.Nothing? || (req.op == LOGOUT && o.effect.Revoke? && o.status == Ok
              && LiveSession(db, env.now, HashToken(cfg.crypto, req.token)) == Some(o.effect.sid))
    ensures req.op == LOGOUT && LiveSession(db, env.now, HashToken(cfg.crypto, req.token)).Some? ==> o.effect.Revoke?
  {
    match req.op
    case LOGOUT =>
      var s := LiveSession(db, env.now, HashToken(cfg.crypto, req.token));
      if s.Some? then Reply(map[]).(effect := Revoke(s.value)) else Reply(map[])
    case ME => Reply(AccountFields(uid, db.users[uid], db.attrs[uid]))
    case RESOURCE_GET => DecideResourceGet(db, req.data)
    case ACCESS_CHECK => DecideAccessCheck(db, env.now, uid, req.data)
    case _ => DecideList(cfg, db, env, uid, req.op, req.data)
  }

  ghost function DecideAdmin(cfg: Config, db: Db, env: Env, uid: int, req: Request): (o: Outcome)
    requires uid in db.attrs && AdminChange(req.op)
    ensures Admissible(db, o.effect) && AdminOutcome(o, uid, req.op)
    ensures o.effect.DropUser? ==> o.effect.uid == Id(req.data, "user_id")
  {
    hide DecideResourceCreate, DecideResourceUpdate, DecideResourceDelete, DecidePolicyCreate, DecidePolicyUpdate;
    hide DecidePolicyDelete, DecideUserCreate, DecideUserUpdate, DecideUserDelete, DecideGrant, Admissible, Id;
    match req.op
    case RESOURCE_CREATE => DecideResourceCreate(db, uid, req.data)
    case RESOURCE_UPDATE => DecideResourceUpdate(db, uid, req.data)
    case RESOURCE_DELETE => DecideResourceDelete(db, uid, req.data)
    case POLICY_CREATE => DecidePolicyCreate(db, uid, req.data)
    case POLICY_UPDATE => DecidePolicyUpdate(db, uid, req.data)
    case USER_CREATE => DecideUserCreate(cfg, db, env, uid, req.data)
    case USER_UPDATE => DecideUserUpdate(db, uid, req.data)
    case USER_DELETE => DecideUserDelete(db, uid, req.data)
    case GRANT_ACCESS => DecideGrant(db, uid, req.data)
    case POLICY_DELETE => DecidePolicyDelete(db, uid, req.data)
    case REVOKE_ACCESS => DecidePolicyDelete(db, uid, req.data)
  }

  ghost function Decide(cfg: Config, db: Db, env: Env, req: Request): (o: Outcome)
    ensures Admissible(db, o.effect)
  {
    if req.op == AUTH then DecideAuth(cfg, db, env, req.data)
    else match Caller(cfg, db, env.now, req.token)
      case None => Refuse(Error, TOKEN_INVALID, "Invalid or expired token")
      case Some(uid) =>
        if !RoleMay(req.op, db.attrs[uid].role) then
          Refuse(Denied, ACCESS_DENIED,
                 if Privileged(req.op) then "Admin or auditor role required" else "Admin role required")
        else if AdminChange(req.op) then DecideAdmin(cfg, db, env, uid, req)
        else DecideOpen(cfg, db, env, uid, req)
  }

  /** One request, atomically: PEP::handle on the single event loop. */
  ghost function Step(cfg: Config, db: Db, env: Env, req: Request): (Db, Response) {
    var o := Decide(cfg, db, env, req);
    (WriteAudit(Apply(db, env.now, o.effect), env.now, o.note), Respond(req, o))
  }

  /** Each of the twenty operations, accepted or refused, leaves the schema's constraints holding. */
  lemma StepKeepsIntegrity(cfg: Config, db: Db, env: Env, req: Request)
    requires Integrity(db)
    ensures Integrity(Step(cfg, db, env, req).0)
  {
    var o := Decide(cfg, db, env, req);
    ApplyKeepsIntegrity(db, env.now, o.effect);
    WriteAuditKeepsIntegrity(Apply(db, env.now, o.effect), env.now, o.note);
  }
}
