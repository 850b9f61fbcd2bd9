/** Granting, revoking and updating policies, and what that does to the access relation. */
module Policies {
  import opened Prelude
  import opened Json
  import opened Protocol
  import opened Schema
  import opened Decisions
  import opened Listing
  import opened Server
  import opened Runs
  import opened Authority

  // ---------------------------------------------------------------- names of grants

  function DashIndex(s: string): (i: nat)
    ensures i <= |s|
  {
    if s == "" || s[0] == '-' then 0 else 1 + DashIndex(s[1..])
  }

  lemma {:induction false} DashAfter(a: string, x: string)
    requires '-' !in a
    ensures DashIndex(a + "-" + x) == |a|
  {
    if a != "" {
      assert (a + "-" + x)[1..] == a[1..] + "-" + x;
      DashAfter(a[1..], x);
    }
  }

  lemma FirstDash(a: string, b: string, x: string, y: string)
    requires '-' !in a && '-' !in b && a + "-" + x == b + "-" + y
    ensures a == b && x == y
  {
    hide DashIndex;
    DashAfter(a, x);
    DashAfter(b, y);
    var s, t := a + "-" + x, b + "-" + y;
    assert s[..|a|] == a && t[..|b|] == b;
    assert s[|a| + 1..] == x && t[|b| + 1..] == y;
  }

  /** Different grants have different names, whatever the action texts. */
  lemma GrantNameInjective(s: int, r: int, a: string, s': int, r': int, a': string)
    requires s > 0 && r > 0 && s' > 0 && r' > 0
    requires GrantName(s, r, a) == GrantName(s', r', a')
    ensures s == s' && r == r' && a == a'
  {
    hide Dec;
    var x, y := Dec(r) + "-" + a, Dec(r') + "-" + a';
    var n, n' := GrantName(s, r, a), GrantName(s', r', a');
    assert n == "grant-" + (Dec(s) + "-" + x) && n' == "grant-" + (Dec(s') + "-" + y);
    assert n[6..] == Dec(s) + "-" + x && n'[6..] == Dec(s') + "-" + y;
    FirstDash(Dec(s), Dec(s'), x, y);
    FirstDash(Dec(r), Dec(r'), a, a');
    DecInjective(s, s');
    DecInjective(r, r');
  }

  lemma SixtyFourBitDigits(n: int)
    requires 0 < n <= INT64_MAX
    ensures |Dec(n)| <= 19
  {
    assert Pow10(2) == 100;
    assert Pow10(4) == 1_0000;
    assert Pow10(6) == 100_0000;
    assert Pow10(8) == 1_0000_0000;
    assert Pow10(10) == 100_0000_0000;
    assert Pow10(12) == 1_0000_0000_0000;
    assert Pow10(14) == 100_0000_0000_0000;
    assert Pow10(16) == 1_0000_0000_0000_0000;
    assert Pow10(18) == 100_0000_0000_0000_0000;
    assert Pow10(19) == 1000_0000_0000_0000_0000;
    DecLength(n, 19);
  }

  lemma GrantNameFits(s: int, r: int, a: string)
    requires 0 < s <= INT64_MAX && 0 < r <= INT64_MAX && a in ACTIONS
    ensures |GrantName(s, r, a)| <= 200
  {
    SixtyFourBitDigits(s);
    SixtyFourBitDigits(r);
    assert |a| <= 7;
  }

  // ---------------------------------------------------------------- GRANT_ACCESS

  /** An administrator's grant that names a subject, a resource and an action. */
  ghost predicate GrantRequest(cfg: Config, db: Db, env: Env, req: Request, s: int, r: int, a: string) {
    && ByAdmin(cfg, db, env, req) && req.op == GRANT_ACCESS
    && s == Id(req.data, "subject_id") && r == Id(req.data, "resource_id") && a == Text(req.data, "action")
    && s > 0 && r > 0 && a != ""
  }

  /** The policy row a grant inserts. */
  function GrantRow(s: int, r: int, a: string, grantor: int): Policy
    requires s > 0 && r > 0
  {
    Policy(GrantName(s, r, a), true, a, None, None, None, None, Some(s), Some(r), GRANT_PRIORITY, PositiveId(grantor))
  }

  lemma GrantRowAdmissible(db: Db, s: int, r: int, a: string, uid: int)
    requires uid in db.users && uid > 0 && 0 < s <= INT64_MAX && 0 < r <= INT64_MAX
    ensures Admissible(db, AddPolicy(GrantRow(s, r, a, uid))) <==>
            s in db.users && r in db.resources && a in ACTIONS && PolicyNameFree(db.policies, GrantName(s, r, a), 0)
  {
    hide GrantName;
    if a in ACTIONS {
      GrantNameFits(s, r, a);
    }
  }

  lemma GrantOutcome(db: Db, uid: int, data: Object)
    requires Integrity(db) && uid in db.attrs
    ensures var (s, r, a) := (Id(data, "subject_id"), Id(data, "resource_id"), Text(data, "action"));
            s > 0 && r > 0 && a != "" ==>
              var o := DecideGrant(db, uid, data);
              && (o.status == Ok <==> s in db.users && r in db.resources && a in ACTIONS
                                      && PolicyNameFree(db.policies, GrantName(s, r, a), 0))
              && (o.status == Ok ==> o.effect == AddPolicy(GrantRow(s, r, a, uid))
                                     && o.data == map["policy_id" := Number(db.nextPolicy)])
  {
    assert uid in db.users && uid > 0;
    hide GrantName, Id, Text, Admissible, Integrity;
    var (s, r, a) := (Id(data, "subject_id"), Id(data, "resource_id"), Text(data, "action"));
    if s > 0 && r > 0 && a != "" {
      assert ToRow(GrantRecord(s, r, a, uid)) == GrantRow(s, r, a, uid);
      GrantRowAdmissible(db, s, r, a, uid);
    }
  }

  /** A grant is accepted exactly when its subject and resource exist, its action is a known one and no policy bears
      its name; then one row is added, whose id is returned. */
  lemma GrantAccepted(cfg: Config, db: Db, env: Env, req: Request, s: int, r: int, a: string)
    requires Integrity(db) && GrantRequest(cfg, db, env, req, s, r, a)
    ensures var (d, resp) := Step(cfg, db, env, req);
            var grantor := Caller(cfg, db, env.now, req.token).value;
            && (resp.status == Ok <==> s in db.users && r in db.resources && a in ACTIONS
                                       && PolicyNameFree(db.policies, GrantName(s, r, a), 0))
            && (resp.status == Ok ==>
                  && d.policies == db.policies[db.nextPolicy := GrantRow(s, r, a, grantor)]
                  && d.users == db.users && d.attrs == db.attrs && d.resources == db.resources
                  && resp.data == map["policy_id" := Number(db.nextPolicy)])
  {
    hide Decide, DecideGrant, GrantName, Caller, Id, Text, PolicyNameFree;
    DecidedBy(cfg, db, env, req);
    GrantOutcome(db, Caller(cfg, db, env.now, req.token).value, req.data);
  }

  /** An accepted grant gives its subject, on its resource, the granted action (every action for "*"), and nothing else
      to anybody. */
  lemma GrantAddsExactly(cfg: Config, db: Db, env: Env, req: Request, s: int, r: int, a: string,
                         now: int, uid: int, rid: int, action: string, rtype: string)
    requires Integrity(db) && GrantRequest(cfg, db, env, req, s, r, a) && Step(cfg, db, env, req).1.status == Ok
    ensures Allowed(Step(cfg, db, env, req).0, now, uid, rid, action, rtype) <==>
            || Allowed(db, now, uid, rid, action, rtype)
            || (uid == s && rid == r && (a == action || a == "*") && Eligible(db, now, uid))
  {
    hide Step, GrantRequest, GrantName;
    GrantAccepted(cfg, db, env, req, s, r, a);
    var d := Step(cfg, db, env, req).0;
    assert db.nextPolicy !in db.policies;
    hide Integrity, PoliciesIntact;
    if Eligible(db, now, uid) {
      var x := db.attrs[uid];
      assert Grants(d.policies[db.nextPolicy], x, uid, rid, action, rtype) <==>
             uid == s && rid == r && (a == action || a == "*");
      if pid :| pid in db.policies && Grants(db.policies[pid], x, uid, rid, action, rtype) {
        assert pid in d.policies && d.policies[pid] == db.policies[pid];
      }
      if pid :| pid in d.policies && Grants(d.policies[pid], x, uid, rid, action, rtype) {
        assert pid == db.nextPolicy || (pid in db.policies && d.policies[pid] == db.policies[pid]);
      }
    }
  }

  /** Repeating a grant whose policy still bears its name is refused and changes nothing. */
  lemma RepeatedGrantRefused(cfg: Config, db: Db, env: Env, req: Request, s: int, r: int, a: string, pid: int)
    requires Integrity(db) && GrantRequest(cfg, db, env, req, s, r, a)
    requires pid in db.policies && db.policies[pid].name == GrantName(s, r, a)
    ensures Step(cfg, db, env, req).1.status != Ok && SameTables(Step(cfg, db, env, req).0, db)
  {
    hide Step, GrantName, AttributesRefused;
    GrantAccepted(cfg, db, env, req, s, r, a);
    assert pid != 0;
    RefusalIsAtomic(cfg, db, env, req);
    NotACreation(cfg, db, env, req);
  }

  lemma NotACreation(cfg: Config, db: Db, env: Env, req: Request)
    ensures AttributesRefused(cfg, db, env, req) ==> req.op == USER_CREATE
  {
  }

  // ---------------------------------------------------------------- REVOKE_ACCESS

  /** Revoking removes the named policy and no other: what remains allowed is what the others allow. */
  lemma RevokeRemovesExactly(cfg: Config, db: Db, env: Env, req: Request, now: int, uid: int, rid: int,
                             action: string, rtype: string)
    requires Integrity(db) && ByAdmin(cfg, db, env, req) && req.op == REVOKE_ACCESS && Id(req.data, "policy_id") > 0
    ensures var (d, resp) := Step(cfg, db, env, req);
            && resp.status == Ok
            && d.policies == db.policies - {Id(req.data, "policy_id")}
            && d.users == db.users && d.attrs == db.attrs && d.resources == db.resources
            && (Allowed(d, now, uid, rid, action, rtype) <==>
                  Eligible(db, now, uid) && exists pid | pid in db.policies && pid != Id(req.data, "policy_id") ::
                    Grants(db.policies[pid], db.attrs[uid], uid, rid, action, rtype))
  {
    hide Decide, Caller, Id, Grants;
    DecidedBy(cfg, db, env, req);
    var d, gone := Step(cfg, db, env, req).0, Id(req.data, "policy_id");
    assert forall pid :: pid in d.policies <==> pid in db.policies && pid != gone;
    assert forall pid | pid in d.policies :: d.policies[pid] == db.policies[pid];
  }

  /** Revoking the id a grant returned leaves the tables of authority as they were before the grant, so the access
      relation of all users, resources and actions is the previous one. */
  lemma RevokeUndoesGrant(cfg: Config, db: Db, env: Env, req: Request, s: int, r: int, a: string,
                          env': Env, req': Request, now: int, uid: int, rid: int, action: string, rtype: string)
    requires Integrity(db) && GrantRequest(cfg, db, env, req, s, r, a) && Step(cfg, db, env, req).1.status == Ok
    requires ByAdmin(cfg, Step(cfg, db, env, req).0, env', req') && req'.op == REVOKE_ACCESS
    requires Step(cfg, db, env, req).1.data == map["policy_id" := Number(Id(req'.data, "policy_id"))]
    ensures var d := Step(cfg, Step(cfg, db, env, req).0, env', req').0;
            && d.policies == db.policies && d.users == db.users && d.attrs == db.attrs && d.resources == db.resources
            && (Allowed(d, now, uid, rid, action, rtype) <==> Allowed(db, now, uid, rid, action, rtype))
  {
    hide Step, GrantRequest, ByAdmin, GrantRow, Id, Grants;
    GrantAccepted(cfg, db, env, req, s, r, a);
    var g := Step(cfg, db, env, req).0;
    StepKeepsIntegrity(cfg, db, env, req);
    var pid := Id(req'.data, "policy_id");
    assert Number(pid) == Number(db.nextPolicy) by {
      assert map["policy_id" := Number(pid)]["policy_id"] == map["policy_id" := Number(db.nextPolicy)]["policy_id"];
    }
    assert pid > 0 && pid !in db.policies;
    RevokeRemovesExactly(cfg, g, env', req', now, uid, rid, action, rtype);
    assert g.policies - {pid} == db.policies;
  }

  // ---------------------------------------------------------------- USER_DELETE and RESOURCE_DELETE

  /** An administrator's deletion that is answered ok. */
  ghost predicate AcceptedDeletion(cfg: Config, db: Db, env: Env, req: Request, op: Op) {
    ByAdmin(cfg, db, env, req) && req.op == op && Step(cfg, db, env, req).1.status == Ok
  }

  /** An accepted USER_DELETE, of anybody but the caller, runs the DELETE with its cascades and appends to the log. */
  lemma UserDeletion(cfg: Config, db: Db, env: Env, req: Request)
    requires AcceptedDeletion(cfg, db, env, req, USER_DELETE)
    ensures var (d, x) := (Step(cfg, db, env, req).0, DeleteUser(db, Id(req.data, "user_id")));
            d.(audit := x.audit, nextAudit := x.nextAudit) == x && x.audit <= d.audit
    ensures Caller(cfg, db, env.now, req.token) != Some(Id(req.data, "user_id"))
  {
    hide Decide, Caller, Id, DeleteUser, WriteAudit;
    DecidedBy(cfg, db, env, req);
    WriteAuditOnlyLogs(DeleteUser(db, Id(req.data, "user_id")), env.now, Decide(cfg, db, env, req).note);
  }

  lemma ResourceDeletion(cfg: Config, db: Db, env: Env, req: Request)
    requires AcceptedDeletion(cfg, db, env, req, RESOURCE_DELETE)
    ensures var (d, x) := (Step(cfg, db, env, req).0, DeleteResource(db, Id(req.data, "resource_id")));
            d.(audit := x.audit, nextAudit := x.nextAudit) == x && x.audit <= d.audit
  {
    hide Decide, Caller, Id, DeleteResource, WriteAudit;
    DecidedBy(cfg, db, env, req);
    WriteAuditOnlyLogs(DeleteResource(db, Id(req.data, "resource_id")), env.now, Decide(cfg, db, env, req).note);
  }

  /** After an accepted USER_DELETE everybody else is allowed what was allowed before, and exactly this besides: what
      the policies bound to the deleted user grant once the binding is gone. */
  lemma UserDeletionWidens(cfg: Config, db: Db, env: Env, req: Request, now: int, uid: int, rid: int,
                           action: string, rtype: string)
    requires AcceptedDeletion(cfg, db, env, req, USER_DELETE) && uid != Id(req.data, "user_id")
    ensures Allowed(Step(cfg, db, env, req).0, now, uid, rid, action, rtype) <==>
            || Allowed(db, now, uid, rid, action, rtype)
            || (Eligible(db, now, uid) && exists pid | pid in db.policies ::
                  db.policies[pid].subjectId == Some(Id(req.data, "user_id"))
                  && Grants(db.policies[pid].(subjectId := None), db.attrs[uid], uid, rid, action, rtype))
  {
    hide Step, Id, DeleteUser, Grants, AcceptedDeletion;
    UserDeletion(cfg, db, env, req);
    DeletingUserWidens(db, Id(req.data, "user_id"), now, uid, rid, action, rtype);
    var d := DeleteUser(db, Id(req.data, "user_id"));
    SameTablesSameAccess(Step(cfg, db, env, req).0, d, now, uid, rid, action, rtype);
  }

  /** The same for an accepted RESOURCE_DELETE and any other resource. */
  lemma ResourceDeletionWidens(cfg: Config, db: Db, env: Env, req: Request, now: int, uid: int, rid: int,
                               action: string, rtype: string)
    requires AcceptedDeletion(cfg, db, env, req, RESOURCE_DELETE) && rid != Id(req.data, "resource_id")
    ensures Allowed(Step(cfg, db, env, req).0, now, uid, rid, action, rtype) <==>
            || Allowed(db, now, uid, rid, action, rtype)
            || (Eligible(db, now, uid) && exists pid | pid in db.policies ::
                  db.policies[pid].resourceId == Some(Id(req.data, "resource_id"))
                  && Grants(db.policies[pid].(resourceId := None), db.attrs[uid], uid, rid, action, rtype))
  {
    hide Step, Id, DeleteResource, Grants, AcceptedDeletion;
    ResourceDeletion(cfg, db, env, req);
    DeletingResourceWidens(db, Id(req.data, "resource_id"), now, uid, rid, action, rtype);
    var d := DeleteResource(db, Id(req.data, "resource_id"));
    SameTablesSameAccess(Step(cfg, db, env, req).0, d, now, uid, rid, action, rtype);
  }

  lemma SameTablesSameAccess(a: Db, b: Db, now: int, uid: int, rid: int, action: string, rtype: string)
    requires a.users == b.users && a.attrs == b.attrs && a.policies == b.policies
    ensures Allowed(a, now, uid, rid, action, rtype) == Allowed(b, now, uid, rid, action, rtype)
  {
    hide Grants;
  }

  // ---------------------------------------------------------------- POLICY_UPDATE

  lemma PolicyListing(db: Db)
    ensures |Ordered(PolicyRank(db))| == |db.policies|
    ensures forall pid :: pid in Ordered(PolicyRank(db)) <==> pid in db.policies
  {
    assert PolicyRank(db).Keys == db.policies.Keys;
    assert |PolicyRank(db)| == |PolicyRank(db).Keys| == |db.policies.Keys| == |db.policies|;
    hide PolicyRank, Ordered;
  }

  /** The linear search over the first page of 999999 policies finds a policy exactly when it is among the first
      999999 in the listing order; with no more policies than that, exactly when it exists. */
  lemma PolicyFound(db: Db, pid: int)
    ensures pid in Page(Ordered(PolicyRank(db)), 1, ALL_POLICIES) <==>
            pid in Ordered(PolicyRank(db))[..Min(ALL_POLICIES, |Ordered(PolicyRank(db))|)]
    ensures |db.policies| <= ALL_POLICIES ==>
            (pid in Page(Ordered(PolicyRank(db)), 1, ALL_POLICIES) <==> pid in db.policies)
  {
    hide PolicyRank, Ordered;
    PolicyListing(db);
    var all := Ordered(PolicyRank(db));
    if |all| <= ALL_POLICIES {
      assert all[..Min(ALL_POLICIES, |all|)] == all;
    }
  }

  /** A row with a stored empty department read as no condition. */
  function Normalised(p: Policy): (q: Policy)
    ensures q == p <==> p.departmentRequired != Some("")
  {
    p.(departmentRequired := if p.departmentRequired == Some("") then None else p.departmentRequired)
  }

  predicate TouchesPolicy(data: Object) {
    exists k | k in {"name", "action", "enabled", "priority", "role_required", "department_required", "min_clearance",
                     "resource_type", "subject_id", "resource_id"} :: k in data
  }

  /** The search of POLICY_UPDATE reaches this policy. */
  ghost predicate Found(db: Db, pid: int) {
    pid in db.policies && pid in Page(Ordered(PolicyRank(db)), 1, ALL_POLICIES)
  }

  /** An administrator's update of a policy that the search reaches. */
  ghost predicate UpdateRequest(cfg: Config, db: Db, env: Env, req: Request, pid: int) {
    && ByAdmin(cfg, db, env, req) && req.op == POLICY_UPDATE
    && pid == Id(req.data, "policy_id") && pid > 0 && Found(db, pid)
  }

  lemma UpdateOutcome(cfg: Config, db: Db, env: Env, req: Request, pid: int)
    requires UpdateRequest(cfg, db, env, req, pid)
    ensures var o := Decide(cfg, db, env, req);
            var row := UpdatedRow(db.policies[pid], MergedPolicy(FromRow(pid, db.policies[pid]), req.data));
            && (o.status == Ok <==> !NameIsNull(req.data) && Admissible(db, SetPolicy(pid, row)))
            && o.effect == (if o.status == Ok then SetPolicy(pid, row) else Nothing)
  {
    hide Decide, Caller, Id, PolicyRank, MergedPolicy, UpdatedRow, Admissible;
    DecidedBy(cfg, db, env, req);
  }

  lemma StoredRowIntact(db: Db, pid: int)
    requires Integrity(db) && pid in db.policies
    ensures var p := db.policies[pid];
            && PolicyOk(p) && PolicyRefsOk(p, db.users.Keys, db.resources.Keys)
            && PolicyNameFree(db.policies, p.name, pid)
            && (p.subjectId.Some? ==> p.subjectId.value > 0) && (p.resourceId.Some? ==> p.resourceId.value > 0)
  {
  }

  lemma MergedColumns(pid: int, p: Policy, data: Object)
    requires PolicyOk(p)
    requires (p.subjectId.Some? ==> p.subjectId.value > 0) && (p.resourceId.Some? ==> p.resourceId.value > 0)
    ensures UpdatedRow(p, MergedPolicy(FromRow(pid, p), data)) == MergedRow(p, data)
    ensures MergedRow(p, data).createdBy == p.createdBy
  {
    hide Text, Id, ToBool, ToInt;
  }

  /** What POLICY_UPDATE asks of a row, column by column: the value sent, else the stored one; a condition sent as "", a
      negative clearance or an id that is not positive is removed, and so is a stored empty department. */
  function MergedRow(p: Policy, data: Object): Policy {
    Policy(if "name" in data then Text(data, "name") else p.name,
           if "enabled" in data then ToBool(data["enabled"], false) else p.enabled,
           if "action" in data then Text(data, "action") else p.action,
           if "role_required" in data then NonEmpty(Text(data, "role_required")) else p.roleRequired,
           if "department_required" in data then NonEmpty(Text(data, "department_required"))
           else Normalised(p).departmentRequired,
           if "min_clearance" in data then NotNegative(ToInt(data["min_clearance"], -1)) else p.minClearance,
           if "resource_type" in data then NonEmpty(Text(data, "resource_type")) else p.resourceType,
           if "subject_id" in data then PositiveId(Id(data, "subject_id")) else p.subjectId,
           if "resource_id" in data then PositiveId(Id(data, "resource_id")) else p.resourceId,
           if "priority" in data then ToInt(data["priority"], 0) else p.priority,
           p.createdBy)
  }

  function NotNegative(n: int): Option<int> {
    if n < 0 then None else Some(n)
  }

  /** An update is a merge. It is accepted exactly when the merged row meets the schema (its name free of the other
      policies and not null, its references live); then the policy becomes that row, and no other row of any table but
      the audit log moves. */
  lemma UpdateIsMerge(cfg: Config, db: Db, env: Env, req: Request, pid: int)
    requires Integrity(db) && UpdateRequest(cfg, db, env, req, pid)
    ensures var (d, resp) := Step(cfg, db, env, req);
            var row := MergedRow(db.policies[pid], req.data);
            && (resp.status == Ok <==>
                  && !NameIsNull(req.data) && PolicyOk(row) && PolicyNameFree(db.policies, row.name, pid)
                  && Refers(row.subjectId, db.users.Keys) && Refers(row.resourceId, db.resources.Keys))
            && d.policies == (if resp.status == Ok then db.policies[pid := row] else db.policies)
            && d.users == db.users && d.attrs == db.attrs && d.sessions == db.sessions && d.resources == db.resources
  {
    hide Decide, UpdateRequest, Integrity, MergedRow, MergedPolicy, UpdatedRow, FromRow, NameIsNull, PolicyOk;
    hide PolicyNameFree, Apply, WriteAudit, Admissible, Refers, PolicyRefsOk;
    UpdateFinds(cfg, db, env, req, pid);
    StoredRowIntact(db, pid);
    UpdateOutcome(cfg, db, env, req, pid);
    MergedColumns(pid, db.policies[pid], req.data);
    var o := Decide(cfg, db, env, req);
    UpdateAdmissible(db, pid, MergedRow(db.policies[pid], req.data));
    UpdateTables(db, env.now, o.effect, o.note);
  }

  lemma UpdateAdmissible(db: Db, pid: int, row: Policy)
    requires pid in db.policies && row.createdBy == db.policies[pid].createdBy
    ensures Admissible(db, SetPolicy(pid, row)) <==>
            && PolicyOk(row) && PolicyNameFree(db.policies, row.name, pid)
            && Refers(row.subjectId, db.users.Keys) && Refers(row.resourceId, db.resources.Keys)
  {
    hide PolicyOk, PolicyNameFree, Refers;
  }

  lemma UpdateTables(db: Db, now: int, e: Effect, note: Option<AuditNote>)
    requires e.Nothing? || e.SetPolicy?
    ensures var d := WriteAudit(Apply(db, now, e), now, note);
            && d.policies == (if e.SetPolicy? then db.policies[e.pid := e.policy] else db.policies)
            && d.users == db.users && d.attrs == db.attrs && d.sessions == db.sessions && d.resources == db.resources
  {
    hide WriteAudit;
    WriteAuditOnlyLogs(Apply(db, now, e), now, note);
  }

  lemma UpdateFinds(cfg: Config, db: Db, env: Env, req: Request, pid: int)
    requires UpdateRequest(cfg, db, env, req, pid)
    ensures pid in db.policies
  {
    hide ByAdmin, Page, Ordered;
  }

  lemma EmptyUpdateOutcome(cfg: Config, db: Db, env: Env, req: Request, pid: int)
    requires Integrity(db) && UpdateRequest(cfg, db, env, req, pid) && !TouchesPolicy(req.data)
    ensures var p := db.policies[pid];
            var o := Decide(cfg, db, env, req);
            o.status == Ok && o.effect == SetPolicy(pid, Normalised(p))
  {
    hide Decide, Caller, Id, MergedPolicy, UpdatedRow, NameIsNull, TouchesPolicy, ByAdmin, Integrity, Page;
    hide PolicyNameFree;
    StoredRowIntact(db, pid);
    UpdateOutcome(cfg, db, env, req, pid);
    UntouchedRow(pid, db.policies[pid], req.data);
  }

  lemma PolicySet(cfg: Config, db: Db, env: Env, req: Request, pid: int, row: Policy)
    requires Decide(cfg, db, env, req).effect == SetPolicy(pid, row)
    ensures Step(cfg, db, env, req).0.policies == db.policies[pid := row]
    ensures Step(cfg, db, env, req).1.status == Decide(cfg, db, env, req).status
  {
    hide Decide, Refers;
  }

  /** An update that carries no field is accepted for every policy found, and is the identity on the policies but for
      a stored empty department, which becomes no condition. */
  lemma EmptyUpdate(cfg: Config, db: Db, env: Env, req: Request, pid: int)
    requires Integrity(db) && UpdateRequest(cfg, db, env, req, pid) && !TouchesPolicy(req.data)
    ensures var (d, resp) := Step(cfg, db, env, req);
            && resp.status == Ok
            && d.policies == db.policies[pid := Normalised(db.policies[pid])]
            && (db.policies[pid].departmentRequired != Some("") ==> d.policies == db.policies)
  {
    hide Decide, Step, Integrity, TouchesPolicy, ByAdmin, Page, Normalised;
    EmptyUpdateOutcome(cfg, db, env, req, pid);
    PolicySet(cfg, db, env, req, pid, Normalised(db.policies[pid]));
    assert db.policies[pid := db.policies[pid]] == db.policies;
  }

  lemma UntouchedRow(pid: int, p: Policy, data: Object)
    requires PolicyOk(p) && !TouchesPolicy(data)
    requires (p.subjectId.Some? ==> p.subjectId.value > 0) && (p.resourceId.Some? ==> p.resourceId.value > 0)
    ensures !NameIsNull(data)
    ensures UpdatedRow(p, MergedPolicy(FromRow(pid, p), data)) == Normalised(p)
  {
    assert "name" !in data && "action" !in data && "enabled" !in data && "priority" !in data && "role_required" !in data
        && "department_required" !in data && "min_clearance" !in data && "resource_type" !in data
        && "subject_id" !in data && "resource_id" !in data;
  }
}
