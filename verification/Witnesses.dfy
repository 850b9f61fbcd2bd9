/** Concrete states and requests at which the server does what its documents or a careful reader would not expect. */
module Witnesses {
  import opened Prelude
  import opened Json
  import opened Protocol
  import opened Schema
  import opened Passwords
  import opened Decisions
  import opened Framing
  import opened Listing
  import opened Server
  import opened Runs
  import opened Authority
  import opened Paging
  import opened Policies
  import opened Updates

  // ---------------------------------------------------------------- one administrator, logged in

  const ADMIN := User("admin", "", "", "Administrator", "", true, 0, None, None)

  function Account(name: string): User {
    User(name, "", "", "", "", true, 0, None, None)
  }

  /** The administrator's token is "token", good until second 100. */
  function OneAdmin(cfg: Config): Db {
    Db(map[1 := ADMIN], map[1 := Attrs("admin", 5, "")],
       map[1 := Session(1, HashToken(cfg.crypto, "token"), 0, 100, None)],
       map[], map[], [], 2, 2, 1, 1, 1)
  }

  function Asked(op: Op, data: Object): Request {
    Request(K_VERSION, op, 1, "token", data)
  }

  lemma OneAdminStands(cfg: Config)
    ensures Integrity(OneAdmin(cfg)) && ActiveAdmin(OneAdmin(cfg), 1)
    ensures Caller(cfg, OneAdmin(cfg), 0, "token") == Some(1)
  {
    hide HashToken;
    var db := OneAdmin(cfg);
    assert SessionLive(db.sessions[1], 0, HashToken(cfg.crypto, "token"));
  }

  // ---------------------------------------------------------------- administrators

  const RESIGN := Asked(USER_UPDATE, map["user_id" := Number(1), "is_active" := Bool(false)])

  /** The only administrator deactivates itself, is answered ok, and none is left. */
  lemma LastAdminCanResign(cfg: Config, env: Env)
    requires env.now == 0
    ensures var (db, req) := (OneAdmin(cfg), RESIGN);
            && Integrity(db) && HasAdmin(db) && LastAdminResigns(cfg, db, env, req)
            && Step(cfg, db, env, req).1.status == Ok && !HasAdmin(Step(cfg, db, env, req).0)
  {
    hide Step, Caller, HashToken, Integrity;
    var (db, req) := (OneAdmin(cfg), RESIGN);
    OneAdminStands(cfg);
    assert HasAdmin(db);
    AdminLost(cfg, db, env, req);
    UserUpdateIsMerge(cfg, db, env, req, 1);
  }

  /** An administrator gives itself a role that does not exist: the answer is ok, and its attributes are unchanged. */
  lemma RefusedAttributesAnswerOk(cfg: Config, env: Env)
    requires env.now == 0
    ensures var (db, req) := (OneAdmin(cfg), Asked(USER_UPDATE, map["user_id" := Number(1), "role" := Str("root")]));
            Integrity(db) && Step(cfg, db, env, req).1.status == Ok && Step(cfg, db, env, req).0.attrs == db.attrs
  {
    hide Step, Caller, HashToken, Integrity;
    var (db, req) := (OneAdmin(cfg), Asked(USER_UPDATE, map["user_id" := Number(1), "role" := Str("root")]));
    OneAdminStands(cfg);
    UserUpdateIsMerge(cfg, db, env, req, 1);
    var d := Step(cfg, db, env, req).0;
    assert d.attrs.Keys == {1} && d.attrs[1] == db.attrs[1];
  }

  const MALLORY: Object := map["username" := Str("mallory"), "password" := Str("p"), "full_name" := Str("M"),
                               "role" := Str("root")]

  lemma MalloryIsRefused(cfg: Config, env: Env)
    requires env.now == 0
    ensures AttributesRefused(cfg, OneAdmin(cfg), env, Asked(USER_CREATE, MALLORY))
  {
    hide Caller, HashToken, HashedPassword, Split, Integrity;
    OneAdminStands(cfg);
  }

  /** A USER_CREATE with an unknown role is refused, and leaves an account without attributes. */
  lemma RefusedCreationLeavesAccount(cfg: Config, env: Env)
    requires env.now == 0
    ensures var (db, req) := (OneAdmin(cfg), Asked(USER_CREATE, MALLORY));
            && Integrity(db) && AttributesRefused(cfg, db, env, req)
            && Step(cfg, db, env, req).1.status == Error && Orphan(Step(cfg, db, env, req).0, 2)
  {
    hide Step, Decide, HashToken, NewUser, AttributesRefused, Integrity;
    var (db, req) := (OneAdmin(cfg), Asked(USER_CREATE, MALLORY));
    OneAdminStands(cfg);
    MalloryIsRefused(cfg, env);
    OrphanAnswer(cfg, db, env, req);
    RefusalIsAtomic(cfg, db, env, req);
  }

  lemma OrphanAnswer(cfg: Config, db: Db, env: Env, req: Request)
    requires AttributesRefused(cfg, db, env, req)
    ensures Step(cfg, db, env, req).1.status == Error
  {
    hide Decide, Caller, NewUser, NewAttrs, AttrsOk, Admissible, Text;
    DecidedBy(cfg, db, env, req);
  }

  // ---------------------------------------------------------------- deletion

  /** The administrator and two users, of whom user 3 has logged in before; one policy lets user 3 read resource 1. */
  function Granted(cfg: Config): Db {
    Db(map[1 := ADMIN, 2 := Account("second"), 3 := Account("third")],
       map[1 := Attrs("admin", 5, ""), 2 := Attrs("user", 0, ""), 3 := Attrs("user", 0, "")],
       OneAdmin(cfg).sessions,
       map[1 := Resource("r", "", "server", "", None, true), 2 := Resource("s", "", "server", "", None, true)],
       map[1 := Policy("grant", true, "read", None, None, None, None, Some(3), Some(1), 10, Some(1))],
       [THIRD_LOGIN], 4, 2, 3, 2, 2)
  }

  const THIRD_LOGIN := AuditRow(1, 0, Some(3), "third", "AUTH_SUCCESS", "user", Some(3), "ok", Some(Obj(map[])))

  const DELETE_THIRD := Asked(USER_DELETE, map["user_id" := Number(3)])
  const DELETE_FIRST := Asked(RESOURCE_DELETE, map["resource_id" := Number(1)])

  lemma GrantedIntact(cfg: Config)
    ensures Integrity(Granted(cfg))
  {
    hide HashToken;
    var db := Granted(cfg);
    assert PolicyOk(db.policies[1]) && UserOk(db.users[1]) && UserOk(db.users[2]) && UserOk(db.users[3]);
  }

  lemma GrantedStands(cfg: Config, env: Env)
    requires env.now == 0
    ensures Integrity(Granted(cfg))
    ensures ByAdmin(cfg, Granted(cfg), env, DELETE_THIRD) && ByAdmin(cfg, Granted(cfg), env, DELETE_FIRST)
    ensures Caller(cfg, Granted(cfg), 0, "token") == Some(1)
  {
    hide HashToken, Integrity;
    GrantedIntact(cfg);
    var db := Granted(cfg);
    assert SessionLive(db.sessions[1], 0, HashToken(cfg.crypto, "token"));
  }

  lemma DeletionsAccepted(cfg: Config, env: Env)
    requires env.now == 0
    ensures AcceptedDeletion(cfg, Granted(cfg), env, DELETE_THIRD, USER_DELETE)
    ensures AcceptedDeletion(cfg, Granted(cfg), env, DELETE_FIRST, RESOURCE_DELETE)
  {
    hide Decide, Caller, Granted, Integrity, ByAdmin;
    GrantedStands(cfg, env);
    DecidedBy(cfg, Granted(cfg), env, DELETE_THIRD);
    DecidedBy(cfg, Granted(cfg), env, DELETE_FIRST);
  }

  /** User 2 may not read resource 1; the administrator deletes user 3, is answered ok, and user 2 may. */
  lemma DeletionGivesAccess(cfg: Config, env: Env)
    requires env.now == 0
    ensures var (db, (d, resp)) := (Granted(cfg), Step(cfg, Granted(cfg), env, DELETE_THIRD));
            && Integrity(db) && resp.status == Ok
            && !Allowed(db, 0, 2, 1, "read", "server") && Allowed(d, 0, 2, 1, "read", "server")
  {
    GrantedDenies(cfg);
    hide Step, Granted, Integrity, Allowed, AcceptedDeletion;
    GrantedStands(cfg, env);
    DeletionsAccepted(cfg, env);
    StatusOf(cfg, Granted(cfg), env, DELETE_THIRD, USER_DELETE);
    UserDeletionWidens(cfg, Granted(cfg), env, DELETE_THIRD, 0, 2, 1, "read", "server");
  }

  lemma StatusOf(cfg: Config, db: Db, env: Env, req: Request, op: Op)
    requires AcceptedDeletion(cfg, db, env, req, op)
    ensures Step(cfg, db, env, req).1.status == Ok
  {
    hide Step, ByAdmin;
  }

  /** Both requests are denied at first, and what the policy grants once unbound is what they ask. */
  lemma GrantedDenies(cfg: Config)
    ensures var (db, p) := (Granted(cfg), Granted(cfg).policies[1]);
            && !Allowed(db, 0, 2, 1, "read", "server") && !Allowed(db, 0, 3, 2, "read", "server")
            && Eligible(db, 0, 2) && Eligible(db, 0, 3)
            && p.subjectId == Some(3) && Grants(p.(subjectId := None), db.attrs[2], 2, 1, "read", "server")
            && p.resourceId == Some(1) && Grants(p.(resourceId := None), db.attrs[3], 3, 2, "read", "server")
            && 1 in db.policies
  {
    hide HashToken;
  }

  /** User 3 may not read resource 2; the administrator deletes resource 1, is answered ok, and user 3 may. */
  lemma ResourceDeletionGivesAccess(cfg: Config, env: Env)
    requires env.now == 0
    ensures var (db, (d, resp)) := (Granted(cfg), Step(cfg, Granted(cfg), env, DELETE_FIRST));
            && Integrity(db) && resp.status == Ok
            && !Allowed(db, 0, 3, 2, "read", "server") && Allowed(d, 0, 3, 2, "read", "server")
  {
    GrantedDenies(cfg);
    hide Step, Granted, Integrity, Allowed, AcceptedDeletion;
    GrantedStands(cfg, env);
    DeletionsAccepted(cfg, env);
    StatusOf(cfg, Granted(cfg), env, DELETE_FIRST, RESOURCE_DELETE);
    ResourceDeletionWidens(cfg, Granted(cfg), env, DELETE_FIRST, 0, 3, 2, "read", "server");
  }

  /** The row that user 3's login wrote names user 3; the administrator deletes user 3, is answered ok, and the row has
      no actor. */
  lemma DeletionRewritesAudit(cfg: Config, env: Env)
    requires env.now == 0
    ensures var (db, (d, resp)) := (Granted(cfg), Step(cfg, Granted(cfg), env, DELETE_THIRD));
            && Integrity(db) && resp.status == Ok
            && db.audit == [THIRD_LOGIN] && |d.audit| >= 1 && d.audit[0] == THIRD_LOGIN.(actorId := None)
  {
    hide Step, HashToken, Integrity, AcceptedDeletion;
    GrantedStands(cfg, env);
    DeletionsAccepted(cfg, env);
    StatusOf(cfg, Granted(cfg), env, DELETE_THIRD, USER_DELETE);
    UserDeletion(cfg, Granted(cfg), env, DELETE_THIRD);
    assert DeleteUser(Granted(cfg), 3).audit[0] == THIRD_LOGIN.(actorId := None);
  }

  // ---------------------------------------------------------------- frames

  /** Behind this header of four bytes, one more than the limit, nothing is ever read. */
  lemma OversizeHeader(more: Bytes)
    ensures Take([1, 0, 0, 1] + more) == Wait
  {
    var header: Bytes := [1, 0, 0, 1];
    assert header[..4] == header;
    OversizeBlocks(header, more);
  }

  // ---------------------------------------------------------------- locks and lists

  /** A locked account: no login, no access, but its token is as good as before. */
  lemma LockedTokenIsValid(cfg: Config, env: Env, req: Request)
    requires env.now == 0 && req.op == ME && req.token == "token"
    ensures var db := OneAdmin(cfg).(users := map[1 := ADMIN.(failedAttempts := 5, lockedUntil := Some(50))]);
            Integrity(db) && Locked(db.users[1], 0) && Step(cfg, db, env, req).1.status == Ok
  {
    hide HashToken, DecideAuth, DecideAdmin, DecideList, AccountFields;
    var db := OneAdmin(cfg).(users := map[1 := ADMIN.(failedAttempts := 5, lockedUntil := Some(50))]);
    assert SessionLive(db.sessions[1], 0, HashToken(cfg.crypto, "token"));
    assert Caller(cfg, db, 0, "token") == Some(1);
  }

  /** A plain user and one resource no policy opens. */
  function OneHidden(cfg: Config): Db {
    OneAdmin(cfg).(attrs := map[1 := Attrs("user", 0, "")],
                   resources := map[1 := Resource("r", "", "server", "", None, true)], nextResource := 2)
  }

  /** The list shows nothing, and its total is 1. */
  lemma HiddenRowsAreCounted(cfg: Config, env: Env)
    requires env.now == 0
    ensures var resp := Step(cfg, OneHidden(cfg), env, AtPage(Asked(RESOURCE_LIST, map[]), 1)).1;
            Integrity(OneHidden(cfg)) && ItemsOf(resp) == [] && Field(resp.data, "total") == Number(1)
  {
    HiddenStands(cfg);
    hide Step, Integrity, HashToken, ReadPages, ResourceItems, Page;
    var db, req := OneHidden(cfg), Asked(RESOURCE_LIST, map[]);
    assert SessionLive(db.sessions[1], 0, HashToken(cfg.crypto, "token"));
    assert ListRequest(cfg, db, env, req, 1);
    ListTotal(cfg, db, env, req, 1, 1);
    PageItems(cfg, db, env, req, 1, 1);
    NoneShown(db, Page(WholeList(db, req), 1, PageSize(req)));
    assert |ResourceRank(db, "")| == |ResourceRank(db, "").Keys| == |{1}|;
  }

  lemma HiddenStands(cfg: Config)
    ensures Integrity(OneHidden(cfg))
  {
    hide HashToken;
  }

  lemma {:induction false} NoneShown(db: Db, ids: seq<int>)
    requires 1 in db.attrs && db.attrs[1].role == "user" && db.policies == map[]
    requires forall k | k in ids :: k in db.resources
    ensures ResourceItems(db, 0, 1, ids) == []
  {
    hide ResourceFields;
    if ids != [] {
      NoneShown(db, ids[..|ids| - 1]);
    }
  }
}
