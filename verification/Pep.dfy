/** The policy enforcement point: the dispatcher and its twenty handlers, working on the data layer step by step. */
module Pep {
  import opened Prelude
  import opened Json
  import opened Protocol
  import opened Schema
  import opened Passwords
  import opened Decisions
  import opened Listing
  import opened Server
  import opened Pip
  import opened Pdp
  import opened Authenticator

  /** The outcome has taken hold: its change, then its audit row, and its answer. */
  ghost predicate Carried(db: Db, env: Env, req: Request, o: Outcome, db': Db, resp: Response)
    requires Applicable(db, o.effect)
  {
    db' == WriteAudit(Apply(db, env.now, o.effect), env.now, o.note) && resp == Respond(req, o)
  }

  /** The surroundings e are env, up to the order in which the database lists audit rows, which is known only when a
      request asks for them: it is some listing of the table, newest first. */
  predicate Chosen(db: Db, env: Env, handled: Option<Request>, e: Env) {
    && e == env.(auditOrder := e.auditOrder)
    && (handled.Some? && handled.value.op == AUDIT_QUERY ==> AuditOrderOk(db.audit, e.auditOrder))
  }

  lemma RefusedByToken(cfg: Config, db: Db, env: Env, req: Request)
    requires req.op != AUTH && Caller(cfg, db, env.now, req.token).None?
    ensures Step(cfg, db, env, req) == (db, Respond(req, Refuse(Error, TOKEN_INVALID, "Invalid or expired token")))
  {
    hide DecideAuth, DecideOpen, DecideAdmin, Caller;
  }

  lemma RefusedByRole(cfg: Config, db: Db, env: Env, req: Request)
    requires req.op != AUTH && Caller(cfg, db, env.now, req.token).Some?
    requires !RoleMay(req.op, db.attrs[Caller(cfg, db, env.now, req.token).value].role)
    ensures Step(cfg, db, env, req) == (db, Respond(req, Refuse(Denied, ACCESS_DENIED,
              if Privileged(req.op) then "Admin or auditor role required" else "Admin role required")))
  {
    hide DecideAuth, DecideOpen, DecideAdmin, Caller;
  }

  lemma ChosenSame(db: Db, env: Env, req: Request, e: Env)
    requires Chosen(db, env, Some(req), e)
    ensures e.now == env.now && e.token == env.token && e.salt == env.salt
  {
  }

  /** Some choice is always possible, and only an audit query notices it. */
  lemma SomeChoice(db: Db, env: Env, req: Request) returns (e: Env)
    ensures Chosen(db, env, Some(req), e) && (req.op != AUDIT_QUERY ==> e == env)
  {
    e := env;
    if req.op == AUDIT_QUERY {
      SomeListing(db.audit);
      var rows :| AuditOrderOk(db.audit, rows);
      e := env.(auditOrder := rows);
    }
  }

  lemma RefusalSame(cfg: Config, db: Db, env: Env, req: Request, e: Env)
    requires req.op != AUTH && e.now == env.now && Caller(cfg, db, env.now, req.token).Some?
    requires !RoleMay(req.op, db.attrs[Caller(cfg, db, env.now, req.token).value].role)
    ensures Step(cfg, db, e, req) == Step(cfg, db, env, req)
  {
    hide Step, Caller, RoleMay;
    RefusedByRole(cfg, db, env, req);
    RefusedByRole(cfg, db, e, req);
  }

  lemma GatesDiffer(op: Op)
    ensures !(AdminOnly(op) && Privileged(op))
  {
  }

  // ---------------------------------------------------------------- what each branch of the dispatcher amounts to

  lemma AuthCarried(cfg: Config, db: Db, env: Env, req: Request, db': Db, resp: Response)
    requires req.op == AUTH && Carried(db, env, req, DecideAuth(cfg, db, env, req.data), db', resp)
    ensures (db', resp) == Step(cfg, db, env, req)
  {
    hide DecideAuth, DecideOpen, DecideAdmin, Caller, Apply, WriteAudit;
  }

  lemma LogoutCarried(cfg: Config, db: Db, env: Env, req: Request, db': Db, resp: Response)
    requires req.op == LOGOUT && Caller(cfg, db, env.now, req.token).Some?
    requires var s := LiveSession(db, env.now, HashToken(cfg.crypto, req.token));
             var o := if s.Some? then Reply(map[]).(effect := Revoke(s.value)) else Reply(map[]);
             Carried(db, env, req, o, db', resp)
    ensures (db', resp) == Step(cfg, db, env, req)
  {
    hide DecideAuth, DecideAdmin, Caller, Apply, WriteAudit, LiveSession, HashToken;
  }

  lemma AdminCarried(cfg: Config, db: Db, env: Env, req: Request, db': Db, resp: Response)
    requires AdminChange(req.op) && Caller(cfg, db, env.now, req.token).Some?
    requires var uid := Caller(cfg, db, env.now, req.token).value;
             && RoleMay(req.op, db.attrs[uid].role)
             && Carried(db, env, req, DecideAdmin(cfg, db, env, uid, req), db', resp)
    ensures (db', resp) == Step(cfg, db, env, req)
  {
    hide DecideAuth, DecideOpen, DecideAdmin, Caller, Apply, WriteAudit;
  }

  lemma OpenCarried(cfg: Config, db: Db, env: Env, req: Request, resp: Response)
    requires req.op != AUTH && req.op != LOGOUT && !AdminChange(req.op) && Caller(cfg, db, env.now, req.token).Some?
    requires var uid := Caller(cfg, db, env.now, req.token).value;
             RoleMay(req.op, db.attrs[uid].role) && resp == Respond(req, DecideOpen(cfg, db, env, uid, req))
    ensures (db, resp) == Step(cfg, db, env, req)
  {
    hide DecideAuth, DecideOpen, DecideAdmin, Caller;
  }

  lemma AuditQueryListed(cfg: Config, db: Db, env: Env, uid: int, data: Object)
    requires uid in db.attrs
    ensures DecideList(cfg, db, env, uid, AUDIT_QUERY, data) == DecideAuditQuery(cfg, db, env, AuditFilterOf(data))
  {
    hide DecideAuditQuery, AuditFilterOf;
  }

  class PEP {
    const pip: PIP
    const auth: Auth
    const pdp: PDP
    const cfg: Config

    ghost predicate Valid()
      reads pip
    {
      auth.pip == pip && pdp.pip == pip && auth.cfg == cfg && Integrity(pip.Tables())
    }

    constructor (pip: PIP, auth: Auth, pdp: PDP, cfg: Config)
      requires auth.pip == pip && pdp.pip == pip && auth.cfg == cfg && Integrity(pip.Tables())
      ensures Valid() && this.pip == pip && this.cfg == cfg
    {
      this.pip, this.auth, this.pdp, this.cfg := pip, auth, pdp, cfg;
    }

    // -------------------------------------------------------------- gates

    method ValidateToken(token: string, now: int) returns (r: Option<int>)
      requires Valid()
      ensures r == Caller(cfg, pip.Tables(), now, token)
    {
      r := auth.VerifyToken(token, now);
    }

    /** The check that opens every handler but login and logout: the token once more, then the role. */
    method Gate(req: Request, env: Env) returns (refusal: Option<Response>, uid: int, role: string)
      requires Valid() && req.op != AUTH
      ensures var db := pip.Tables();
              match Caller(cfg, db, env.now, req.token)
              case None => refusal == Some(Respond(req, Refuse(Error, TOKEN_INVALID, "Invalid token")))
              case Some(c) =>
                && uid == c && role == db.attrs[c].role
                && (refusal.None? <==> RoleMay(req.op, role))
                && (refusal.Some? ==> (db, refusal.value) == Step(cfg, db, env, req))
    {
      hide Step, Decide, Caller, Integrity, AdminOnly, Privileged, Respond;
      GatesDiffer(req.op);
      refusal, uid, role := None, 0, "";
      var userId := ValidateToken(req.token, env.now);
      if userId.None? {
        return Some(Respond(req, Refuse(Error, TOKEN_INVALID, "Invalid token"))), uid, role;
      }
      uid := userId.value;
      var attrs := pip.GetSubjectAttrs(uid);
      role := attrs.value.role;
      if AdminOnly(req.op) && role != "admin" {
        refusal := Some(Respond(req, Refuse(Denied, ACCESS_DENIED, "Admin role required")));
      } else if Privileged(req.op) && role != "admin" && role != "auditor" {
        refusal := Some(Respond(req, Refuse(Denied, ACCESS_DENIED, "Admin or auditor role required")));
      }
      if refusal.Some? {
        RefusedByRole(cfg, pip.Tables(), env, req);
      }
    }

    // -------------------------------------------------------------- AUTH, LOGOUT, ME

    method HandleAuth(req: Request, env: Env) returns (resp: Response)
      requires Valid()
      modifies pip
      ensures var o := DecideAuth(cfg, old(pip.Tables()), env, req.data);
              Carried(old(pip.Tables()), env, req, o, pip.Tables(), resp)
    {
      assert Apply(pip.Tables(), env.now, Nothing) == pip.Tables();
      hide Integrity, Apply, AuthOutcome;
      var username, password := Text(req.data, "username"), Text(req.data, "password");
      if username == "" || password == "" {
        return Respond(req, Invalid("Missing username or password"));
      }
      var result := auth.Authenticate(username, password, env);
      if result.Rejected? {
        return Respond(req, Refuse(Error, CodeFor(result.errorCode), result.errorCode));
      }
      var note := AuditNote(result.userId, result.username, "AUTH_SUCCESS", "user", result.userId, map[]);
      pip.WriteAuditLog(note, env.now);
      return Respond(req, Reply(LoginData(result)));
    }

    method HandleLogout(req: Request, env: Env) returns (resp: Response)
      requires Valid()
      modifies pip
      ensures var s := LiveSession(old(pip.Tables()), env.now, HashToken(cfg.crypto, req.token));
              Carried(old(pip.Tables()), env, req, if s.Some? then Reply(map[]).(effect := Revoke(s.value))
                                                      else Reply(map[]), pip.Tables(), resp)
    {
      auth.Logout(req.token, env.now);
      return Respond(req, Reply(map[]));
    }

    method HandleMe(req: Request, uid: int) returns (resp: Response)
      requires uid in pip.users && uid in pip.attrs
      ensures resp == Respond(req, Reply(AccountFields(uid, pip.users[uid], pip.attrs[uid])))
    {
      var user := pip.FindUserById(uid);
      if user.None? {
        return Respond(req, Fail(Nothing, "User not found"));
      }
      var attrs := pip.GetSubjectAttrs(uid);
      return Respond(req, Reply(AccountFields(user.value.id, user.value.row, attrs.GetOr(Attrs("user", 0, "")))));
    }

    // -------------------------------------------------------------- reading

    method HandleResourceList(req: Request, env: Env, uid: int, role: string) returns (resp: Response)
      requires Valid() && req.op == RESOURCE_LIST && uid in pip.attrs && pip.attrs[uid].role == role
      ensures resp == Respond(req, DecideList(cfg, pip.Tables(), env, uid, RESOURCE_LIST, req.data))
    {
      var typeFilter := Text(req.data, "resource_type");
      var page, pageSize := ToInt(Field(req.data, "page"), 1), ToInt(Field(req.data, "page_size"), 50);
      var resources := pip.ListResources(typeFilter, page, pageSize);
      var total := pip.CountResources(typeFilter);
      var items := CollectResources(resources, uid, role, env.now);
      ghost var ids := Page(Ordered(ResourceRank(pip.Tables(), typeFilter)), page, pageSize);
      assert ids == seq(|resources|, i requires 0 <= i < |resources| => resources[i].id);
      return Respond(req, Reply(ListData(items, total)));
    }

    /** A plain user's list skips what it may not read; every other role's list shows each resource of the page. */
    method CollectResources(resources: seq<ResourceRecord>, uid: int, role: string, now: int) returns (items: seq<Json>)
      requires Valid() && uid in pip.attrs && pip.attrs[uid].role == role
      requires forall r | r in resources :: r.id in pip.resources && pip.resources[r.id] == r.row
      ensures items == ResourceItems(pip.Tables(), now, uid,
                                     seq(|resources|, i requires 0 <= i < |resources| => resources[i].id))
      ensures role != "user" ==> |items| == |resources| && forall i | 0 <= i < |resources| ::
                                   items[i] == Obj(ResourceFields(resources[i].id, resources[i].row))
    {
      hide Allowed, Integrity, ResourceFields;
      ghost var ids := seq(|resources|, i requires 0 <= i < |resources| => resources[i].id);
      items := [];
      for i := 0 to |resources|
        invariant items == ResourceItems(pip.Tables(), now, uid, ids[..i])
        invariant role != "user" ==> |items| == i && forall j | 0 <= j < i ::
                                       items[j] == Obj(ResourceFields(resources[j].id, resources[j].row))
      {
        var r := resources[i];
        assert ids[..i + 1][..i] == ids[..i] && ids[..i + 1][i] == r.id;
        if role == "user" {
          var decision := pdp.Evaluate(uid, r.id, "read", r.row.resourceType, now);
          if !decision.allowed {
            continue;
          }
        }
        items := items + [Obj(ResourceFields(r.id, r.row))];
      }
      assert ids[..|resources|] == ids;
    }

    method HandleResourceGet(req: Request) returns (resp: Response)
      ensures resp == Respond(req, DecideResourceGet(pip.Tables(), req.data))
    {
      var resourceId := Id(req.data, "resource_id");
      if resourceId <= 0 {
        return Respond(req, Invalid("Missing resource_id"));
      }
      var resource := pip.GetResource(resourceId);
      if resource.None? {
        return Respond(req, NotFound("Resource not found"));
      }
      return Respond(req, Reply(ResourceFields(resource.value.id, resource.value.row)));
    }

    method HandlePolicyList(req: Request, env: Env, uid: int) returns (resp: Response)
      requires req.op == POLICY_LIST && uid in pip.attrs
      ensures resp == Respond(req, DecideList(cfg, pip.Tables(), env, uid, POLICY_LIST, req.data))
    {
      hide PolicyFields, FromRow, PolicyRank, Page;
      var page, pageSize := ToInt(Field(req.data, "page"), 1), ToInt(Field(req.data, "page_size"), 50);
      var policies := pip.ListPolicies(page, pageSize);
      var total := pip.CountPolicies();
      var items := [];
      for i := 0 to |policies|
        invariant |items| == i && forall j | 0 <= j < i :: items[j] == Obj(PolicyFields(policies[j]))
      {
        items := items + [Obj(PolicyFields(policies[i]))];
      }
      assert items == PolicyItems(pip.Tables(), Page(Ordered(PolicyRank(pip.Tables())), page, pageSize));
      return Respond(req, Reply(ListData(items, total)));
    }

    method HandleUserList(req: Request, env: Env, uid: int) returns (resp: Response)
      requires req.op == USER_LIST && uid in pip.attrs
      ensures resp == Respond(req, DecideList(cfg, pip.Tables(), env, uid, USER_LIST, req.data))
    {
      hide AccountFields, UserRank, Page;
      var page, pageSize := ToInt(Field(req.data, "page"), 1), ToInt(Field(req.data, "page_size"), 50);
      var users := pip.ListUsers(page, pageSize);
      var total := pip.CountUsers();
      var items := [];
      for i := 0 to |users|
        invariant |items| == i
        invariant forall j | 0 <= j < i ::
                    items[j] == Obj(AccountFields(users[j].id, users[j].row, AttrsOf(pip.Tables(), users[j].id)))
      {
        var sa := pip.GetSubjectAttrs(users[i].id);
        items := items + [Obj(AccountFields(users[i].id, users[i].row, sa.GetOr(Attrs("user", 0, ""))))];
      }
      assert items == UserItems(pip.Tables(), Page(Ordered(UserRank(pip.Tables())), page, pageSize));
      return Respond(req, Reply(ListData(items, total)));
    }

    method HandleAuditQuery(req: Request, env: Env) returns (resp: Response)
      requires req.op == AUDIT_QUERY
      ensures exists e :: Chosen(pip.Tables(), env, Some(req), e)
                          && resp == Respond(req, DecideAuditQuery(cfg, pip.Tables(), e, AuditFilterOf(req.data)))
    {
      hide AuditFields, FilterReadable, AuditHits, AuditOrderOk, Page, AuditFilterOf;
      var filter := AuditFilterOf(req.data);
      var records := pip.QueryAuditLog(cfg, filter);
      var total := pip.CountAuditLog(cfg, filter);
      var items := [];
      for i := 0 to |records|
        invariant |items| == i && forall j | 0 <= j < i :: items[j] == Obj(AuditFields(records[j]))
      {
        items := items + [Obj(AuditFields(records[i]))];
      }
      assert items == AuditItems(records);
      resp := Respond(req, Reply(ListData(items, total)));
      ghost var rows :| AuditOrderOk(pip.audit, rows) && records == PageOfHits(cfg, filter, rows);
      assert Chosen(pip.Tables(), env, Some(req), env.(auditOrder := rows));
      assert AuditItems([]) == [];
    }

    method HandleAccessCheck(req: Request, env: Env, uid: int) returns (resp: Response)
      requires Valid()
      ensures resp == Respond(req, DecideAccessCheck(pip.Tables(), env.now, uid, req.data))
    {
      hide Integrity, Allowed, DenialReason, Id;
      var resourceId, action := Id(req.data, "resource_id"), Text(req.data, "action");
      if resourceId <= 0 || action == "" {
        return Respond(req, Invalid("Missing resource_id or action"));
      }
      var resource := pip.GetResource(resourceId);
      if resource.None? {
        return Respond(req, NotFound("Resource not found"));
      }
      var decision := pdp.Evaluate(uid, resourceId, action, resource.value.row.resourceType, env.now);
      if decision.allowed {
        return Respond(req, Reply(map[]));
      }
      return Respond(req, Refuse(Denied, ACCESS_DENIED, decision.reason));
    }

    // -------------------------------------------------------------- resources

    method HandleResourceCreate(req: Request, env: Env, uid: int, role: string) returns (resp: Response)
      requires Valid() && uid in pip.attrs && pip.attrs[uid].role == role
      modifies pip
      ensures var o := DecideResourceCreate(old(pip.Tables()), uid, req.data);
              Carried(old(pip.Tables()), env, req, o, pip.Tables(), resp)
    {
      assert pip.nextResource > 0;
      hide Integrity, Text, Admissible;
      var name, description := Text(req.data, "name"), Text(req.data, "description");
      var resourceType, address := Text(req.data, "resource_type"), Text(req.data, "address");
      if name == "" || resourceType == "" {
        return Respond(req, Invalid("Missing name or resource_type"));
      }
      var id := pip.CreateResource(name, description, resourceType, address, uid);
      if id < 0 {
        return Respond(req, Fail(BurnResource, "Failed to create resource"));
      }
      pip.WriteAuditLog(AuditNote(uid, role, "RESOURCE_CREATE", "resource", id, map[]), env.now);
      return Respond(req, Reply(map["id" := Number(id)]));
    }

    method HandleResourceUpdate(req: Request, env: Env, uid: int, role: string) returns (resp: Response)
      requires Valid() && uid in pip.attrs && pip.attrs[uid].role == role
      modifies pip
      ensures var o := DecideResourceUpdate(old(pip.Tables()), uid, req.data);
              Carried(old(pip.Tables()), env, req, o, pip.Tables(), resp)
    {
      hide Integrity, Id, ResourceOk;
      var resourceId := Id(req.data, "resource_id");
      if resourceId <= 0 {
        return Respond(req, Invalid("Missing resource_id"));
      }
      var resource := pip.GetResource(resourceId);
      if resource.None? {
        return Respond(req, NotFound("Resource not found"));
      }
      var row := resource.value.row;
      var name, description := ToStr(Field(req.data, "name"), row.name),
        ToStr(Field(req.data, "description"), row.description);
      var resourceType := ToStr(Field(req.data, "resource_type"), row.resourceType);
      var address, isActive := ToStr(Field(req.data, "address"), row.address),
        ToBool(Field(req.data, "is_active"), row.isActive);
      var ok := pip.UpdateResource(resourceId, name, description, resourceType, address, isActive);
      if !ok {
        return Respond(req, Fail(Nothing, "Failed to update resource"));
      }
      pip.WriteAuditLog(AuditNote(uid, role, "RESOURCE_UPDATE", "resource", resourceId, map[]), env.now);
      return Respond(req, Reply(map[]));
    }

    method HandleResourceDelete(req: Request, env: Env, uid: int, role: string) returns (resp: Response)
      requires Valid() && uid in pip.attrs && pip.attrs[uid].role == role
      modifies pip
      ensures var o := DecideResourceDelete(old(pip.Tables()), uid, req.data);
              Carried(old(pip.Tables()), env, req, o, pip.Tables(), resp)
    {
      hide Integrity, Id, Admissible, DeleteResource;
      var resourceId := Id(req.data, "resource_id");
      if resourceId <= 0 {
        return Respond(req, Invalid("Missing resource_id"));
      }
      pip.DeleteResourceRow(resourceId);
      pip.WriteAuditLog(AuditNote(uid, role, "RESOURCE_DELETE", "resource", resourceId, map[]), env.now);
      return Respond(req, Reply(map[]));
    }

    // -------------------------------------------------------------- policies

    method HandlePolicyCreate(req: Request, env: Env, uid: int, role: string) returns (resp: Response)
      requires Valid() && uid in pip.attrs && pip.attrs[uid].role == role
      modifies pip
      ensures var o := DecidePolicyCreate(old(pip.Tables()), uid, req.data);
              Carried(old(pip.Tables()), env, req, o, pip.Tables(), resp)
    {
      hide Integrity, Id, Text, InsertPolicy;
      var name, action := Text(req.data, "name"), Text(req.data, "action");
      if name == "" || action == "" {
        return Respond(req, Invalid("Missing name or action"));
      }
      var p := PolicyRecord(0, name, ToBool(Field(req.data, "enabled"), true), action, Text(req.data, "role_required"),
                            Text(req.data, "department_required"), ToInt(Field(req.data, "min_clearance"), -1),
                            Text(req.data, "resource_type"), Id(req.data, "subject_id"), Id(req.data, "resource_id"),
                            ToInt(Field(req.data, "priority"), 0), uid);
      resp := StorePolicy(req, env, uid, role, p, map[], "id", "Failed to create policy");
    }

    /** How POLICY_CREATE and GRANT_ACCESS end. */
    method StorePolicy(req: Request, env: Env, uid: int, role: string, p: PolicyRecord, details: Object,
                       idKey: string, failure: string) returns (resp: Response)
      requires Valid() && uid in pip.attrs && pip.attrs[uid].role == role
      modifies pip
      ensures Carried(old(pip.Tables()), env, req, InsertPolicy(old(pip.Tables()), uid, p, details, idKey, failure),
                      pip.Tables(), resp)
    {
      assert pip.nextPolicy > 0 && 0 !in pip.policies;
      hide Integrity, Admissible, ToRow;
      ghost var db := pip.Tables();
      var id := pip.CreatePolicy(p);
      assert pip.Tables() == Apply(db, env.now, if id < 0 then BurnPolicy else AddPolicy(ToRow(p)));
      hide Apply;
      if id < 0 {
        return Respond(req, Fail(BurnPolicy, failure));
      }
      pip.WriteAuditLog(AuditNote(uid, role, "POLICY_CREATE", "policy", id, details), env.now);
      return Respond(req, Reply(map[idKey := Number(id)]));
    }

    method HandlePolicyUpdate(req: Request, env: Env, uid: int, role: string) returns (resp: Response)
      requires Valid() && uid in pip.attrs && pip.attrs[uid].role == role
      modifies pip
      ensures var o := DecidePolicyUpdate(old(pip.Tables()), uid, req.data);
              Carried(old(pip.Tables()), env, req, o, pip.Tables(), resp)
    {
      hide Integrity, Id, MergedHead, MergedConditions, FromRow, ReplacePolicy, NameIsNull, PolicyRank, Page;
      var policyId := Id(req.data, "policy_id");
      if policyId <= 0 {
        return Respond(req, Invalid("Missing policy_id"));
      }
      var existing := pip.ListPolicies(1, ALL_POLICIES);
      ghost var ids := Page(Ordered(PolicyRank(pip.Tables())), 1, ALL_POLICIES);
      var found := FindPolicy(existing, policyId, ids, pip.policies);
      if found == -1 {
        return Respond(req, NotFound("Policy not found"));
      }
      var p := MergeHead(existing[found], req.data);
      p := MergeConditions(p, req.data);
      resp := StoreUpdate(req, env, uid, role, policyId, p);
    }

    /** How POLICY_UPDATE ends. */
    method StoreUpdate(req: Request, env: Env, uid: int, role: string, policyId: int, p: PolicyRecord)
      returns (resp: Response)
      requires Valid() && uid in pip.attrs && pip.attrs[uid].role == role && policyId in pip.policies
      modifies pip
      ensures var o := ReplacePolicy(old(pip.Tables()), uid, policyId, p, NameIsNull(req.data));
              Carried(old(pip.Tables()), env, req, o, pip.Tables(), resp)
    {
      hide Integrity, Admissible, NameIsNull;
      ghost var db := pip.Tables();
      var ok := pip.UpdatePolicy(policyId, p, NameIsNull(req.data));
      if !ok {
        return Respond(req, Fail(Nothing, "Failed to update policy"));
      }
      assert pip.Tables() == Apply(db, env.now, SetPolicy(policyId, UpdatedRow(db.policies[policyId], p)));
      hide Apply, UpdatedRow;
      pip.WriteAuditLog(AuditNote(uid, role, "POLICY_UPDATE", "policy", policyId, map[]), env.now);
      return Respond(req, Reply(map[]));
    }

    /** The linear search; -1 is the null pointer. */
    static method FindPolicy(existing: seq<PolicyRecord>, policyId: int, ghost ids: seq<int>,
                             ghost table: map<int, Policy>) returns (found: int)
      requires |existing| == |ids|
      requires forall i | 0 <= i < |ids| :: ids[i] in table && existing[i] == FromRow(ids[i], table[ids[i]])
      ensures -1 <= found < |existing|
      ensures found == -1 <==> policyId !in ids
      ensures found >= 0 ==> policyId in table && existing[found] == FromRow(policyId, table[policyId])
    {
      for i := 0 to |existing|
        invariant policyId !in ids[..i]
      {
        if existing[i].id == policyId {
          return i;
        }
      }
      return -1;
    }

    /** A copy of the record, overwritten field by field with what the request carries. */
    static method MergeHead(found: PolicyRecord, data: Object) returns (p: PolicyRecord)
      ensures p == MergedHead(found, data)
    {
      hide Text, ToBool, ToInt;
      p := found;
      if "name" in data { p := p.(name := Text(data, "name")); }
      if "action" in data { p := p.(action := Text(data, "action")); }
      if "enabled" in data { p := p.(enabled := ToBool(data["enabled"], false)); }
      if "priority" in data { p := p.(priority := ToInt(data["priority"], 0)); }
    }

    static method MergeConditions(found: PolicyRecord, data: Object) returns (p: PolicyRecord)
      ensures p == MergedConditions(found, data)
    {
      hide Text, ToInt, Id;
      p := found;
      if "role_required" in data { p := p.(roleRequired := Text(data, "role_required")); }
      if "department_required" in data { p := p.(departmentRequired := Text(data, "department_required")); }
      if "min_clearance" in data { p := p.(minClearance := ToInt(data["min_clearance"], -1)); }
      if "resource_type" in data { p := p.(resourceType := Text(data, "resource_type")); }
      if "subject_id" in data { p := p.(subjectId := Id(data, "subject_id")); }
      if "resource_id" in data { p := p.(resourceId := Id(data, "resource_id")); }
    }

    /** POLICY_DELETE and REVOKE_ACCESS. */
    method HandlePolicyDelete(req: Request, env: Env, uid: int, role: string) returns (resp: Response)
      requires Valid() && uid in pip.attrs && pip.attrs[uid].role == role
      modifies pip
      ensures var o := DecidePolicyDelete(old(pip.Tables()), uid, req.data);
              Carried(old(pip.Tables()), env, req, o, pip.Tables(), resp)
    {
      hide Integrity, Id, Admissible;
      var policyId := Id(req.data, "policy_id");
      if policyId <= 0 {
        return Respond(req, Invalid("Missing policy_id"));
      }
      ghost var db := pip.Tables();
      pip.DeletePolicy(policyId);
      assert pip.Tables() == Apply(db, env.now, DropPolicy(policyId));
      hide Apply;
      pip.WriteAuditLog(AuditNote(uid, role, "POLICY_DELETE", "policy", policyId, map[]), env.now);
      return Respond(req, Reply(map[]));
    }

    method HandleGrantAccess(req: Request, env: Env, uid: int, role: string) returns (resp: Response)
      requires Valid() && uid in pip.attrs && pip.attrs[uid].role == role
      modifies pip
      ensures var o := DecideGrant(old(pip.Tables()), uid, req.data);
              Carried(old(pip.Tables()), env, req, o, pip.Tables(), resp)
    {
      hide Integrity, Id, Text, GrantName, InsertPolicy;
      var subjectId, resourceId := Id(req.data, "subject_id"), Id(req.data, "resource_id");
      var action := Text(req.data, "action");
      if subjectId <= 0 || resourceId <= 0 || action == "" {
        return Respond(req, Invalid("Missing subject_id, resource_id, or action"));
      }
      var subject := pip.FindUserById(subjectId);
      if subject.None? {
        return Respond(req, NotFound("Subject user not found"));
      }
      var resource := pip.GetResource(resourceId);
      if resource.None? {
        return Respond(req, NotFound("Resource not found"));
      }
      var p := PolicyRecord(0, GrantName(subjectId, resourceId, action), true, action, "", "", -1, "",
                            subjectId, resourceId, GRANT_PRIORITY, uid);
      resp := StorePolicy(req, env, uid, role, p, GrantDetails(subjectId, resourceId), "policy_id",
                          "Failed to create grant policy");
    }

    // -------------------------------------------------------------- users

    method HandleUserCreate(req: Request, env: Env, uid: int, role: string) returns (resp: Response)
      requires Valid() && uid in pip.attrs && pip.attrs[uid].role == role
      modifies pip
      ensures var o := DecideUserCreate(cfg, old(pip.Tables()), env, uid, req.data);
              Carried(old(pip.Tables()), env, req, o, pip.Tables(), resp)
    {
      hide Integrity, Text, HashedPassword, Split, InsertUser;
      var username, password := Text(req.data, "username"), Text(req.data, "password");
      var fullName := Text(req.data, "full_name");
      if username == "" || password == "" || fullName == "" {
        return Respond(req, Invalid("Missing username, password, or full_name"));
      }
      var hashResult := HashPassword(cfg.crypto, password, "", env.salt);
      var parts := Split(hashResult, ':');
      var newRole, clearance := ToStr(Field(req.data, "role"), "user"), ToInt(Field(req.data, "clearance_level"), 0);
      var department, position := Text(req.data, "department"), Text(req.data, "position");
      var user := InsertedUser(username, PartOr(parts, 0), PartOr(parts, 1), fullName, position);
      resp := StoreUser(req, env, uid, role, user, Attrs(newRole, clearance, department));
    }

    /** How USER_CREATE ends. */
    method StoreUser(req: Request, env: Env, uid: int, role: string, user: User, a: Attrs) returns (resp: Response)
      requires Valid() && uid in pip.attrs && pip.attrs[uid].role == role && Defaults(user)
      modifies pip
      ensures Carried(old(pip.Tables()), env, req, InsertUser(old(pip.Tables()), uid, user, a), pip.Tables(), resp)
    {
      assert pip.nextUser > 0 && uid < pip.nextUser;
      hide Integrity, Admissible, AttrsOk;
      var id := pip.CreateUser(user.username, user.passwordHash, user.salt, user.fullName, user.position,
                               a.role, a.clearance, a.department);
      if id < 0 {
        return Respond(req, Fail(Nothing, "Failed to create user"));
      }
      pip.WriteAuditLog(AuditNote(uid, role, "USER_CREATE", "user", id, map[]), env.now);
      return Respond(req, Reply(map["id" := Number(id)]));
    }

    method HandleUserUpdate(req: Request, env: Env, uid: int, role: string) returns (resp: Response)
      requires Valid() && uid in pip.attrs && pip.attrs[uid].role == role
      modifies pip
      ensures var o := DecideUserUpdate(old(pip.Tables()), uid, req.data);
              Carried(old(pip.Tables()), env, req, o, pip.Tables(), resp)
    {
      hide Integrity, Id, AttrsChange, Admissible;
      var targetId := Id(req.data, "user_id");
      if targetId <= 0 {
        return Respond(req, Invalid("Missing user_id"));
      }
      var target := pip.FindUserById(targetId);
      if target.None? {
        return Respond(req, NotFound("User not found"));
      }
      var row := target.value.row;
      var fullName := ToStr(Field(req.data, "full_name"), row.fullName);
      var position := ToStr(Field(req.data, "position"), row.position);
      var isActive := ToBool(Field(req.data, "is_active"), row.isActive);
      ghost var db := pip.Tables();
      var ok := pip.UpdateUser(targetId, fullName, position, isActive);
      if !ok {
        return Respond(req, Fail(Nothing, "Failed to update user"));
      }
      UpdateAttrsIfGiven(targetId, req.data);
      assert pip.Tables() == Apply(db, env.now, SetUser(targetId, fullName, position, isActive,
                                                        AttrsChange(db.attrs, targetId, req.data)));
      hide Apply;
      pip.WriteAuditLog(AuditNote(uid, role, "USER_UPDATE", "user", targetId, map[]), env.now);
      return Respond(req, Reply(map[]));
    }

    /** The result of the second UPDATE is ignored. */
    method UpdateAttrsIfGiven(targetId: int, data: Object)
      modifies pip`attrs
      ensures var change := AttrsChange(old(pip.attrs), targetId, data);
              pip.attrs == if change.Some? then old(pip.attrs)[targetId := change.value] else old(pip.attrs)
    {
      if "role" in data || "clearance_level" in data || "department" in data {
        var sa := pip.GetSubjectAttrs(targetId);
        if sa.Some? {
          var newRole := ToStr(Field(data, "role"), sa.value.role);
          var newClearance := ToInt(Field(data, "clearance_level"), sa.value.clearance);
          var newDept := ToStr(Field(data, "department"), sa.value.department);
          var _ := pip.UpdateSubjectAttrs(targetId, newRole, newClearance, newDept);
        }
      }
    }

    method HandleUserDelete(req: Request, env: Env, uid: int, role: string) returns (resp: Response)
      requires Valid() && uid in pip.attrs && pip.attrs[uid].role == role
      modifies pip
      ensures var o := DecideUserDelete(old(pip.Tables()), uid, req.data);
              Carried(old(pip.Tables()), env, req, o, pip.Tables(), resp)
    {
      hide Integrity, Id, Admissible, DeleteUser;
      var targetId := Id(req.data, "user_id");
      if targetId <= 0 {
        return Respond(req, Invalid("Missing user_id"));
      }
      if targetId == uid {
        return Respond(req, Invalid("Cannot delete yourself"));
      }
      pip.DeleteUserRow(targetId);
      pip.WriteAuditLog(AuditNote(uid, role, "USER_DELETE", "user", targetId, map[]), env.now);
      return Respond(req, Reply(map[]));
    }

    // -------------------------------------------------------------- dispatch

    method Inspect(req: Request, env: Env, uid: int, role: string) returns (resp: Response)
      requires Valid() && uid in pip.users && uid in pip.attrs && pip.attrs[uid].role == role
      requires req.op != AUTH && req.op != LOGOUT && !AdminChange(req.op)
      ensures exists e :: Chosen(pip.Tables(), env, Some(req), e)
                          && resp == Respond(req, DecideOpen(cfg, pip.Tables(), e, uid, req))
    {
      hide Integrity, DecideList, DecideAuditQuery, DecideResourceGet, DecideAccessCheck, AccountFields, Respond;
      if req.op == AUDIT_QUERY {
        resp := HandleAuditQuery(req, env);
        ghost var e :| Chosen(pip.Tables(), env, Some(req), e)
                       && resp == Respond(req, DecideAuditQuery(cfg, pip.Tables(), e, AuditFilterOf(req.data)));
        AuditQueryListed(cfg, pip.Tables(), e, uid, req.data);
        return;
      }
      match req.op {
        case ME => resp := HandleMe(req, uid);
        case RESOURCE_LIST => resp := HandleResourceList(req, env, uid, role);
        case RESOURCE_GET => resp := HandleResourceGet(req);
        case POLICY_LIST => resp := HandlePolicyList(req, env, uid);
        case USER_LIST => resp := HandleUserList(req, env, uid);
        case ACCESS_CHECK => resp := HandleAccessCheck(req, env, uid);
      }
      assert Chosen(pip.Tables(), env, Some(req), env);
    }

    method Administer(req: Request, env: Env, uid: int, role: string) returns (resp: Response)
      requires Valid() && uid in pip.attrs && pip.attrs[uid].role == role && AdminChange(req.op)
      modifies pip
      ensures var o := DecideAdmin(cfg, old(pip.Tables()), env, uid, req);
              Carried(old(pip.Tables()), env, req, o, pip.Tables(), resp)
    {
      hide Integrity, Carried, DecideResourceCreate, DecideResourceUpdate, DecideResourceDelete, DecidePolicyCreate;
      hide DecidePolicyUpdate, DecidePolicyDelete, DecideUserCreate, DecideUserUpdate, DecideUserDelete, DecideGrant;
      match req.op
      case RESOURCE_CREATE => resp := HandleResourceCreate(req, env, uid, role);
      case RESOURCE_UPDATE => resp := HandleResourceUpdate(req, env, uid, role);
      case RESOURCE_DELETE => resp := HandleResourceDelete(req, env, uid, role);
      case POLICY_CREATE => resp := HandlePolicyCreate(req, env, uid, role);
      case POLICY_UPDATE => resp := HandlePolicyUpdate(req, env, uid, role);
      case POLICY_DELETE => resp := HandlePolicyDelete(req, env, uid, role);
      case USER_CREATE => resp := HandleUserCreate(req, env, uid, role);
      case USER_UPDATE => resp := HandleUserUpdate(req, env, uid, role);
      case USER_DELETE => resp := HandleUserDelete(req, env, uid, role);
      case GRANT_ACCESS => resp := HandleGrantAccess(req, env, uid, role);
      case REVOKE_ACCESS => resp := HandlePolicyDelete(req, env, uid, role);
    }

    /** An operation other than login and logout, its token accepted once. */
    method HandleGated(req: Request, env: Env) returns (resp: Response)
      requires Valid() && req.op != AUTH && req.op != LOGOUT && Caller(cfg, pip.Tables(), env.now, req.token).Some?
      modifies pip
      ensures exists e :: Chosen(old(pip.Tables()), env, Some(req), e)
                          && (pip.Tables(), resp) == Step(cfg, old(pip.Tables()), e, req)
    {
      hide Step, Decide, Carried, Caller, Integrity, DecideOpen, DecideAdmin, Chosen, RoleMay;
      ghost var db := pip.Tables();
      var refusal, uid, role := Gate(req, env);
      if refusal.Some? {
        resp := refusal.value;
        ghost var any := SomeChoice(db, env, req);
        ChosenSame(db, env, req, any);
        RefusalSame(cfg, db, env, req, any);
      } else if AdminChange(req.op) {
        resp := Administer(req, env, uid, role);
        ghost var any := SomeChoice(db, env, req);
        AdminCarried(cfg, db, env, req, pip.Tables(), resp);
      } else {
        resp := Inspect(req, env, uid, role);
        ghost var e :| Chosen(db, env, Some(req), e) && resp == Respond(req, DecideOpen(cfg, db, e, uid, req));
        ChosenSame(db, env, req, e);
        OpenCarried(cfg, db, e, req, resp);
      }
    }

    /** The running server does what the state machine says, for every request and every state of the tables. */
    method Handle(req: Request, env: Env) returns (resp: Response)
      requires Valid()
      modifies pip
      ensures Valid()
      ensures exists e :: Chosen(old(pip.Tables()), env, Some(req), e)
                          && (pip.Tables(), resp) == Step(cfg, old(pip.Tables()), e, req)
    {
      hide Step, Decide, Carried, Caller, Integrity, DecideAuth, LiveSession, HashToken, Chosen;
      ghost var db := pip.Tables();
      ghost var e := SomeChoice(db, env, req);
      ChosenSame(db, env, req, e);
      if req.op == AUTH {
        resp := HandleAuth(req, env);
        AuthCarried(cfg, db, env, req, pip.Tables(), resp);
      } else {
        var userId := ValidateToken(req.token, env.now);
        if userId.None? {
          RefusedByToken(cfg, db, e, req);
          resp := Respond(req, Refuse(Error, TOKEN_INVALID, "Invalid or expired token"));
        } else if req.op == LOGOUT {
          resp := HandleLogout(req, env);
          LogoutCarried(cfg, db, env, req, pip.Tables(), resp);
        } else {
          resp := HandleGated(req, env);
          e :| Chosen(db, env, Some(req), e) && (pip.Tables(), resp) == Step(cfg, db, e, req);
        }
      }
      StepKeepsIntegrity(cfg, db, e, req);
    }
  }
}
