/** The six tables, their constraints, and what each SQL statement does to them.
    Nullable text columns whose NULL reads back as "" hold "". The columns created_at and updated_at,
    which nothing reads, are dropped, except a session's created_at. */
module Schema {
  import opened Prelude
  import opened Json

  datatype User = User(username: string, passwordHash: string, salt: string, fullName: string, position: string,
                       isActive: bool, failedAttempts: int, lockedUntil: Option<int>, lastLogin: Option<int>)
  datatype Attrs = Attrs(role: string, clearance: int, department: string)
  datatype Session = Session(userId: int, tokenHash: string, createdAt: int, expiresAt: int, revokedAt: Option<int>)
  datatype Resource = Resource(name: string, description: string, resourceType: string, address: string,
                               ownerId: Option<int>, isActive: bool)
  datatype Policy = Policy(name: string, enabled: bool, action: string, roleRequired: Option<string>,
                           departmentRequired: Option<string>, minClearance: Option<int>,
                           resourceType: Option<string>, subjectId: Option<int>, resourceId: Option<int>,
                           priority: int, createdBy: Option<int>)
  datatype AuditRow = AuditRow(id: int, ts: int, actorId: Option<int>, actorName: string, action: string,
                               targetType: string, targetId: Option<int>, result: string, details: Option<Json>)

  /** One database state; `nextX` is the value the BIGSERIAL sequence of a table hands out next. */
  datatype Db = Db(users: map<int, User>, attrs: map<int, Attrs>, sessions: map<int, Session>,
                   resources: map<int, Resource>, policies: map<int, Policy>, audit: seq<AuditRow>,
                   nextUser: int, nextSession: int, nextResource: int, nextPolicy: int, nextAudit: int)

  // ---------------------------------------------------------------- column constraints

  const ROLES: set<string> := {"admin", "user", "auditor"}
  const ACTIONS: set<string> :=
    {"read", "write", "manage", "connect", "select", "modify", "print", "access", "admin", "*"}
  const RESOURCE_TYPES: set<string> := {"file_share", "database", "printer", "web_service", "server", "vpn"}

  predicate UserOk(u: User) {
    3 <= |u.username| <= 64 && |u.fullName| <= 200
  }

  predicate AttrsOk(a: Attrs) {
    a.role in ROLES && 0 <= a.clearance <= 5
  }

  predicate ResourceOk(r: Resource) {
    1 <= |r.name| <= 200 && r.resourceType in RESOURCE_TYPES
  }

  predicate PolicyOk(p: Policy) {
    && |p.name| <= 200
    && p.action in ACTIONS
    && (p.roleRequired.Some? ==> p.roleRequired.value in ROLES)
    && (p.minClearance.Some? ==> 0 <= p.minClearance.value <= 5)
    && (p.resourceType.Some? ==> p.resourceType.value in RESOURCE_TYPES)
  }

  /** A nullable foreign key: NULL or the id of a row of the referenced table. */
  predicate Refers(key: Option<int>, ids: set<int>) {
    key.Some? ==> key.value in ids
  }

  predicate PolicyRefsOk(p: Policy, users: set<int>, resources: set<int>) {
    Refers(p.subjectId, users) && Refers(p.resourceId, resources) && Refers(p.createdBy, users)
  }

  // ---------------------------------------------------------------- integrity of a whole state

  predicate NameFree(users: map<int, User>, username: string) {
    forall id | id in users :: users[id].username != username
  }

  predicate HashFree(sessions: map<int, Session>, tokenHash: string) {
    forall id | id in sessions :: sessions[id].tokenHash != tokenHash
  }

  predicate PolicyNameFree(policies: map<int, Policy>, name: string, except: int) {
    forall id | id in policies && id != except :: policies[id].name != name
  }

  ghost predicate UsersIntact(users: map<int, User>, next: int) {
    && next > 0
    && (forall id | id in users :: 0 < id < next && UserOk(users[id]))
    && (forall a, b | a in users && b in users && a != b :: users[a].username != users[b].username)
  }

  ghost predicate AttrsIntact(attrs: map<int, Attrs>, userIds: set<int>) {
    forall id | id in attrs :: id in userIds && AttrsOk(attrs[id])
  }

  ghost predicate SessionsIntact(sessions: map<int, Session>, next: int, userIds: set<int>) {
    && next > 0
    && (forall id | id in sessions :: 0 < id < next && sessions[id].userId in userIds)
    && (forall a, b | a in sessions && b in sessions && a != b :: sessions[a].tokenHash != sessions[b].tokenHash)
  }

  ghost predicate ResourcesIntact(resources: map<int, Resource>, next: int, userIds: set<int>) {
    && next > 0
    && (forall id | id in resources ::
          0 < id < next && ResourceOk(resources[id]) && Refers(resources[id].ownerId, userIds))
  }

  ghost predicate PoliciesIntact(policies: map<int, Policy>, next: int, userIds: set<int>, resourceIds: set<int>) {
    && next > 0
    && (forall id | id in policies ::
          0 < id < next && PolicyOk(policies[id]) && PolicyRefsOk(policies[id], userIds, resourceIds))
    && (forall a, b | a in policies && b in policies && a != b :: policies[a].name != policies[b].name)
  }

  ghost predicate AuditIntact(audit: seq<AuditRow>, next: int, userIds: set<int>) {
    && next > 0
    && (forall i | 0 <= i < |audit| :: 0 < audit[i].id < next && Refers(audit[i].actorId, userIds))
    && (forall i, j | 0 <= i < j < |audit| :: audit[i].id < audit[j].id)
  }

  /** Every CHECK, UNIQUE, PRIMARY KEY and REFERENCES clause of the schema holds. */
  ghost predicate Integrity(db: Db) {
    && UsersIntact(db.users, db.nextUser)
    && AttrsIntact(db.attrs, db.users.Keys)
    && SessionsIntact(db.sessions, db.nextSession, db.users.Keys)
    && ResourcesIntact(db.resources, db.nextResource, db.users.Keys)
    && PoliciesIntact(db.policies, db.nextPolicy, db.users.Keys, db.resources.Keys)
    && AuditIntact(db.audit, db.nextAudit, db.users.Keys)
  }

  // ---------------------------------------------------------------- ON DELETE SET NULL

  function Cleared(key: Option<int>, id: int): Option<int> {
    if key == Some(id) then None else key
  }

  function WithoutUser(p: Policy, id: int): Policy {
    p.(subjectId := Cleared(p.subjectId, id), createdBy := Cleared(p.createdBy, id))
  }

  function WithoutResource(p: Policy, id: int): Policy {
    p.(resourceId := Cleared(p.resourceId, id))
  }

  function WithoutOwner(r: Resource, id: int): Resource {
    r.(ownerId := Cleared(r.ownerId, id))
  }

  function WithoutActor(a: AuditRow, id: int): AuditRow {
    a.(actorId := Cleared(a.actorId, id))
  }

  /** DELETE FROM users: the row goes, its attributes and sessions go with it, and references to it become NULL. */
  function DeleteUser(db: Db, id: int): Db {
    db.(users := db.users - {id},
        attrs := db.attrs - {id},
        sessions := map s | s in db.sessions && db.sessions[s].userId != id :: db.sessions[s],
        resources := map r | r in db.resources :: WithoutOwner(db.resources[r], id),
        policies := map p | p in db.policies :: WithoutUser(db.policies[p], id),
        audit := seq(|db.audit|, i requires 0 <= i < |db.audit| => WithoutActor(db.audit[i], id)))
  }

  /** DELETE FROM resources: policies bound to the resource lose the binding. */
  function DeleteResource(db: Db, id: int): Db {
    db.(resources := db.resources - {id},
        policies := map p | p in db.policies :: WithoutResource(db.policies[p], id))
  }

  // ---------------------------------------------------------------- one request's change of the tables

  /** What a request does to the tables, apart from its audit row. A `Burn` is an INSERT that a constraint
      refused: no row, but the sequence has moved on. */
  datatype Effect =
    | Nothing
    | CountFailure(uid: int, lock: Option<int>)
    | Login(uid: int, session: Session)
    | LoginBurn(uid: int)
    | Revoke(sid: int)
    | AddUser(user: User, attrs: Attrs)
    | AddOrphan(user: User)
    | BurnUser
    | SetUser(uid: int, fullName: string, position: string, isActive: bool, newAttrs: Option<Attrs>)
    | DropUser(uid: int)
    | AddResource(resource: Resource)
    | BurnResource
    | SetResource(rid: int, resource: Resource)
    | DropResource(rid: int)
    | AddPolicy(policy: Policy)
    | BurnPolicy
    | SetPolicy(pid: int, policy: Policy)
    | DropPolicy(pid: int)

  /** failed_attempts is a 32-bit INT: the UPDATE that would overflow it is refused. */
  function CountedUp(n: int): int {
    if n < INT32_MAX then n + 1 else n
  }

  function LoggedIn(u: User, now: int): User {
    u.(failedAttempts := 0, lockedUntil := None, lastLogin := Some(now))
  }

  function Revoked(s: Session, now: int): Session {
    s.(revokedAt := if s.revokedAt.None? then Some(now) else s.revokedAt)
  }

  function Apply(db: Db, now: int, e: Effect): Db
    requires Applicable(db, e)
  {
    match e
    case Nothing => db
    case CountFailure(uid, lock) =>
      var u := db.users[uid];
      db.(users := db.users[uid := u.(failedAttempts := CountedUp(u.failedAttempts),
                                      lockedUntil := if lock.Some? then lock else u.lockedUntil)])
    case Login(uid, session) =>
      db.(users := db.users[uid := LoggedIn(db.users[uid], now)],
          sessions := db.sessions[db.nextSession := session], nextSession := db.nextSession + 1)
    case LoginBurn(uid) =>
      db.(users := db.users[uid := LoggedIn(db.users[uid], now)], nextSession := db.nextSession + 1)
    case Revoke(sid) => db.(sessions := db.sessions[sid := Revoked(db.sessions[sid], now)])
    case AddUser(user, attrs) =>
      db.(users := db.users[db.nextUser := user], attrs := db.attrs[db.nextUser := attrs], nextUser := db.nextUser + 1)
    case AddOrphan(user) => db.(users := db.users[db.nextUser := user], nextUser := db.nextUser + 1)
    case BurnUser => db.(nextUser := db.nextUser + 1)
    case SetUser(uid, fullName, position, isActive, newAttrs) =>
      db.(users := db.users[uid := db.users[uid].(fullName := fullName, position := position, isActive := isActive)],
          attrs := if newAttrs.Some? then db.attrs[uid := newAttrs.value] else db.attrs)
    case DropUser(uid) => DeleteUser(db, uid)
    case AddResource(resource) =>
      db.(resources := db.resources[db.nextResource := resource], nextResource := db.nextResource + 1)
    case BurnResource => db.(nextResource := db.nextResource + 1)
    case SetResource(rid, resource) => db.(resources := db.resources[rid := resource])
    case DropResource(rid) => DeleteResource(db, rid)
    case AddPolicy(policy) => db.(policies := db.policies[db.nextPolicy := policy], nextPolicy := db.nextPolicy + 1)
    case BurnPolicy => db.(nextPolicy := db.nextPolicy + 1)
    case SetPolicy(pid, policy) => db.(policies := db.policies[pid := policy])
    case DropPolicy(pid) => db.(policies := db.policies - {pid})
  }

  /** The rows an effect names exist. */
  predicate Applicable(db: Db, e: Effect) {
    match e
    case CountFailure(uid, _) => uid in db.users
    case Login(uid, _) => uid in db.users
    case LoginBurn(uid) => uid in db.users
    case Revoke(sid) => sid in db.sessions
    case SetUser(uid, _, _, _, _) => uid in db.users
    case _ => true
  }

  /** Columns the INSERT does not name. */
  predicate Defaults(u: User) {
    u.isActive && u.failedAttempts == 0 && u.lockedUntil.None? && u.lastLogin.None?
  }

  function InsertedUser(username: string, passwordHash: string, salt: string, fullName: string,
                        position: string): (u: User)
    ensures Defaults(u)
  {
    User(username, passwordHash, salt, fullName, position, true, 0, None, None)
  }

  /** The constraint checks an effect has passed. */
  predicate Admissible(db: Db, e: Effect) {
    && Applicable(db, e)
    && match e
       case Login(uid, session) => session.userId == uid && HashFree(db.sessions, session.tokenHash)
       case AddUser(user, attrs) =>
         Defaults(user) && UserOk(user) && NameFree(db.users, user.username) && AttrsOk(attrs)
       case AddOrphan(user) => Defaults(user) && UserOk(user) && NameFree(db.users, user.username)
       case SetUser(uid, fullName, _, _, newAttrs) =>
         |fullName| <= 200 && (newAttrs.Some? ==> uid in db.attrs && AttrsOk(newAttrs.value))
       case AddResource(resource) => ResourceOk(resource) && Refers(resource.ownerId, db.users.Keys)
       case SetResource(rid, resource) =>
         rid in db.resources && ResourceOk(resource) && resource.ownerId == db.resources[rid].ownerId
       case AddPolicy(policy) =>
         && PolicyOk(policy)
         && PolicyNameFree(db.policies, policy.name, 0)
         && PolicyRefsOk(policy, db.users.Keys, db.resources.Keys)
       case SetPolicy(pid, policy) =>
         && pid in db.policies
         && PolicyOk(policy)
         && PolicyNameFree(db.policies, policy.name, pid)
         && Refers(policy.subjectId, db.users.Keys) && Refers(policy.resourceId, db.resources.Keys)
         && policy.createdBy == db.policies[pid].createdBy
       case _ => true
  }

  /** Who did what, as a handler reports it to the audit log. */
  datatype AuditNote = AuditNote(actorId: int, actorName: string, action: string, targetType: string,
                                 targetId: int, details: Object)

  function PositiveId(id: int): Option<int> {
    if id > 0 then Some(id) else None
  }

  function AuditEntry(id: int, now: int, n: AuditNote): AuditRow {
    AuditRow(id, now, PositiveId(n.actorId), n.actorName, n.action, n.targetType, PositiveId(n.targetId), "ok",
             Some(Obj(n.details)))
  }

  /** INSERT INTO audit_log; a dangling actor is refused by the foreign key and only moves the sequence. */
  function WriteAudit(db: Db, now: int, note: Option<AuditNote>): Db {
    if note.None? then db
    else
      var row := AuditEntry(db.nextAudit, now, note.value);
      if Refers(row.actorId, db.users.Keys)
      then db.(audit := db.audit + [row], nextAudit := db.nextAudit + 1)
      else db.(nextAudit := db.nextAudit + 1)
  }

  /** Writing the log changes nothing but the log, and that only at its end. */
  lemma WriteAuditOnlyLogs(db: Db, now: int, note: Option<AuditNote>)
    ensures db.audit <= WriteAudit(db, now, note).audit
    ensures WriteAudit(db, now, note).(audit := db.audit, nextAudit := db.nextAudit) == db
  {
    hide AuditEntry, Refers;
  }

  lemma NothingWritten(db: Db, now: int)
    ensures WriteAudit(db, now, None) == db
  {
  }

  // ---------------------------------------------------------------- integrity is kept

  /** More users leave every reference to a user valid. */
  lemma MoreUsers(db: Db, userIds: set<int>)
    requires Integrity(db) && db.users.Keys <= userIds
    ensures AttrsIntact(db.attrs, userIds)
    ensures SessionsIntact(db.sessions, db.nextSession, userIds)
    ensures ResourcesIntact(db.resources, db.nextResource, userIds)
    ensures PoliciesIntact(db.policies, db.nextPolicy, userIds, db.resources.Keys)
    ensures AuditIntact(db.audit, db.nextAudit, userIds)
  {
  }

  lemma MoreResources(db: Db, resourceIds: set<int>)
    requires Integrity(db) && db.resources.Keys <= resourceIds
    ensures PoliciesIntact(db.policies, db.nextPolicy, db.users.Keys, resourceIds)
  {
  }

  lemma LoginKeepsIntegrity(db: Db, now: int, e: Effect)
    requires Integrity(db) && Admissible(db, e) && e.Login?
    ensures Integrity(Apply(db, now, e))
  {
    hide ResourcesIntact, PoliciesIntact, AuditIntact, AttrsIntact;
    assert Apply(db, now, e).users.Keys == db.users.Keys;
  }

  lemma SessionEffectKeepsIntegrity(db: Db, now: int, e: Effect)
    requires Integrity(db) && Admissible(db, e)
    requires e.Nothing? || e.CountFailure? || e.LoginBurn? || e.Revoke?
    ensures Integrity(Apply(db, now, e))
  {
    hide ResourcesIntact, PoliciesIntact, AuditIntact, AttrsIntact;
    assert Apply(db, now, e).users.Keys == db.users.Keys;
  }

  lemma UserEffectKeepsIntegrity(db: Db, now: int, e: Effect)
    requires Integrity(db) && Admissible(db, e)
    requires e.AddUser? || e.AddOrphan? || e.BurnUser?
    ensures Integrity(Apply(db, now, e))
  {
    var d := Apply(db, now, e);
    MoreUsers(db, d.users.Keys);
  }

  lemma SetUserKeepsIntegrity(db: Db, now: int, e: Effect)
    requires Integrity(db) && Admissible(db, e) && e.SetUser?
    ensures Integrity(Apply(db, now, e))
  {
    hide SessionsIntact, ResourcesIntact, PoliciesIntact, AuditIntact;
    assert Apply(db, now, e).users.Keys == db.users.Keys;
  }

  lemma ResourceEffectKeepsIntegrity(db: Db, now: int, e: Effect)
    requires Integrity(db) && Admissible(db, e)
    requires e.AddResource? || e.BurnResource? || e.SetResource?
    ensures Integrity(Apply(db, now, e))
  {
    MoreResources(db, Apply(db, now, e).resources.Keys);
  }

  lemma PolicyEffectKeepsIntegrity(db: Db, now: int, e: Effect)
    requires Integrity(db) && Admissible(db, e)
    requires e.AddPolicy? || e.BurnPolicy? || e.SetPolicy? || e.DropPolicy?
    ensures Integrity(Apply(db, now, e))
  {
    assert 0 !in db.policies;
  }

  /** Whatever passed its constraint checks keeps every constraint, deletions with their cascades included. */
  lemma ApplyKeepsIntegrity(db: Db, now: int, e: Effect)
    requires Integrity(db) && Admissible(db, e)
    ensures Integrity(Apply(db, now, e))
  {
    match e
    case DropUser(uid) => DeleteUserKeepsIntegrity(db, uid);
    case DropResource(rid) => DeleteResourceKeepsIntegrity(db, rid);
    case AddUser(_, _) => UserEffectKeepsIntegrity(db, now, e);
    case AddOrphan(_) => UserEffectKeepsIntegrity(db, now, e);
    case BurnUser => UserEffectKeepsIntegrity(db, now, e);
    case SetUser(_, _, _, _, _) => SetUserKeepsIntegrity(db, now, e);
    case AddResource(_) => ResourceEffectKeepsIntegrity(db, now, e);
    case BurnResource => ResourceEffectKeepsIntegrity(db, now, e);
    case SetResource(_, _) => ResourceEffectKeepsIntegrity(db, now, e);
    case AddPolicy(_) => PolicyEffectKeepsIntegrity(db, now, e);
    case BurnPolicy => PolicyEffectKeepsIntegrity(db, now, e);
    case SetPolicy(_, _) => PolicyEffectKeepsIntegrity(db, now, e);
    case DropPolicy(_) => PolicyEffectKeepsIntegrity(db, now, e);
    case Login(_, _) => LoginKeepsIntegrity(db, now, e);
    case _ => SessionEffectKeepsIntegrity(db, now, e);
  }

  lemma DeleteUserKeepsIntegrity(db: Db, uid: int)
    requires Integrity(db)
    ensures Integrity(DeleteUser(db, uid))
  {
    var d := DeleteUser(db, uid);
    forall id | id in d.policies
      ensures PolicyOk(d.policies[id]) && PolicyRefsOk(d.policies[id], d.users.Keys, d.resources.Keys)
    {
      assert PolicyOk(db.policies[id]) && PolicyRefsOk(db.policies[id], db.users.Keys, db.resources.Keys);
    }
    assert d.resources.Keys == db.resources.Keys;
  }

  lemma DeleteResourceKeepsIntegrity(db: Db, rid: int)
    requires Integrity(db)
    ensures Integrity(DeleteResource(db, rid))
  {
    var d := DeleteResource(db, rid);
    forall id | id in d.policies
      ensures PolicyOk(d.policies[id]) && PolicyRefsOk(d.policies[id], d.users.Keys, d.resources.Keys)
    {
      assert PolicyOk(db.policies[id]) && PolicyRefsOk(db.policies[id], db.users.Keys, db.resources.Keys);
    }
  }

  lemma AppendKeepsAudit(audit: seq<AuditRow>, next: int, userIds: set<int>, row: AuditRow)
    requires AuditIntact(audit, next, userIds) && row.id == next && Refers(row.actorId, userIds)
    ensures AuditIntact(audit + [row], next + 1, userIds)
  {
  }

  lemma WriteAuditKeepsIntegrity(db: Db, now: int, note: Option<AuditNote>)
    requires Integrity(db)
    ensures Integrity(WriteAudit(db, now, note))
  {
    if note.Some? && Refers(PositiveId(note.value.actorId), db.users.Keys) {
      AppendKeepsAudit(db.audit, db.nextAudit, db.users.Keys, AuditEntry(db.nextAudit, now, note.value));
    }
  }
}
