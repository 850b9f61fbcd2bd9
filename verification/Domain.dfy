/** The reference decision over typed policies with optional conditions, and the production decision over
    sentinel-coded rows that SQL has filtered and sorted: one refines the other. */
module Domain {
  import opened Prelude
  import opened Schema
  import opened Decisions

  datatype Action = Read | Write | Manage | Connect | Select | Modify | Print | Access | Admin | Any
  datatype Role = UserRole | AuditorRole | AdminRole
  datatype ResourceType = FileShare | Database | Printer | WebService | ServerHost | Vpn

  datatype Subject = Subject(id: int, department: string, role: Role, clearance: int, isActive: bool)
  datatype Target = Target(id: int, kind: ResourceType)
  datatype Rule = Rule(id: int, name: string, action: Action, priority: int, enabled: bool,
                       roleRequired: Option<Role>, departmentRequired: Option<string>, minClearance: Option<int>,
                       resourceType: Option<ResourceType>, subjectId: Option<int>, resourceId: Option<int>)
  datatype Decision = Decision(allowed: bool, reason: string)

  function ActionToString(a: Action): string {
    match a
    case Read => "read" case Write => "write" case Manage => "manage" case Connect => "connect"
    case Select => "select" case Modify => "modify" case Print => "print" case Access => "access"
    case Admin => "admin" case Any => "*"
  }

  function RoleToString(r: Role): string {
    match r case UserRole => "user" case AuditorRole => "auditor" case AdminRole => "admin"
  }

  function ResourceTypeToString(t: ResourceType): string {
    match t
    case FileShare => "file_share" case Database => "database" case Printer => "printer"
    case WebService => "web_service" case ServerHost => "server" case Vpn => "vpn"
  }

  // ---------------------------------------------------------------- the reference decision

  predicate PolicyMatches(s: Subject, t: Target, p: Rule) {
    && (p.roleRequired.Some? ==> p.roleRequired.value == s.role)
    && (p.departmentRequired.Some? ==> p.departmentRequired.value == s.department)
    && (p.minClearance.Some? ==> s.clearance >= p.minClearance.value)
    && (p.resourceType.Some? ==> p.resourceType.value == t.kind)
    && (p.subjectId.Some? ==> p.subjectId.value == s.id)
    && (p.resourceId.Some? ==> p.resourceId.value == t.id)
  }

  predicate Selected(s: Subject, t: Target, a: Action, p: Rule) {
    p.enabled && (p.action == Any || p.action == a) && PolicyMatches(s, t, p)
  }

  /** One policy as the best-match loops see it. */
  datatype Candidate = Candidate(matches: bool, priority: int, name: string)

  /** The first matching candidate of maximal priority. */
  predicate IsBest(cs: seq<Candidate>, i: int) {
    && 0 <= i < |cs| && cs[i].matches
    && (forall j | 0 <= j < |cs| && cs[j].matches :: cs[j].priority <= cs[i].priority)
    && (forall j | 0 <= j < i && cs[j].matches :: cs[j].priority < cs[i].priority)
  }

  /** The loops' result: -1 stands for the null pointer. */
  predicate BestOf(cs: seq<Candidate>, best: int) {
    if best < 0 then best == -1 && forall j | 0 <= j < |cs| :: !cs[j].matches else IsBest(cs, best)
  }

  function Verdict(cs: seq<Candidate>, best: int): Decision
    requires best < |cs|
  {
    if best < 0 then Decision(false, "no_matching_policy") else Decision(true, "policy:" + cs[best].name)
  }

  function RuleCandidates(s: Subject, t: Target, a: Action, rules: seq<Rule>): (cs: seq<Candidate>)
    ensures |cs| == |rules|
  {
    seq(|rules|, i requires 0 <= i < |rules| =>
      Candidate(Selected(s, t, a, rules[i]), rules[i].priority, rules[i].name))
  }

  method EvaluatePolicy(s: Subject, t: Target, a: Action, rules: seq<Rule>) returns (d: Decision)
    ensures !s.isActive ==> d == Decision(false, "account_inactive")
    ensures s.isActive ==> exists best | BestOf(RuleCandidates(s, t, a, rules), best) ::
                             d == Verdict(RuleCandidates(s, t, a, rules), best)
  {
    if !s.isActive {
      return Decision(false, "account_inactive");
    }
    ghost var cs := RuleCandidates(s, t, a, rules);
    var best := -1;
    for i := 0 to |rules|
      invariant -1 <= best < i
      invariant BestOf(cs[..i], best)
    {
      var rule := rules[i];
      assert cs[..i + 1] == cs[..i] + [cs[i]];
      if !rule.enabled || (rule.action != Any && rule.action != a) || !PolicyMatches(s, t, rule) {
        continue;
      }
      if best == -1 || rule.priority > rules[best].priority {
        best := i;
      }
    }
    assert cs[..|rules|] == cs;
    d := if best == -1 then Decision(false, "no_matching_policy") else Decision(true, "policy:" + rules[best].name);
    assert d == Verdict(cs, best);
  }

  lemma BestUnique(cs: seq<Candidate>, a: int, b: int)
    requires BestOf(cs, a) && BestOf(cs, b)
    ensures a == b
  {
  }

  // ---------------------------------------------------------------- abstraction of the rows

  function ActionOf(code: string): Action {
    if code == "read" then Read else if code == "write" then Write else if code == "manage" then Manage
    else if code == "connect" then Connect else if code == "select" then Select else if code == "modify" then Modify
    else if code == "print" then Print else if code == "access" then Access else if code == "admin" then Admin else Any
  }

  function RoleOf(code: string): Role {
    if code == "user" then UserRole else if code == "auditor" then AuditorRole else AdminRole
  }

  function ResourceTypeOf(code: string): ResourceType {
    if code == "file_share" then FileShare else if code == "database" then Database
    else if code == "printer" then Printer else if code == "web_service" then WebService
    else if code == "server" then ServerHost else Vpn
  }

  /** The codes the database admits are exactly the codes of the enumerations, one for each value. */
  lemma ActionCodes(code: string)
    ensures code in ACTIONS <==> ActionToString(ActionOf(code)) == code
    ensures forall a :: ActionOf(ActionToString(a)) == a
  {
  }

  lemma RoleCodes(code: string)
    ensures code in ROLES <==> RoleToString(RoleOf(code)) == code
    ensures forall r :: RoleOf(RoleToString(r)) == r
  {
  }

  lemma ResourceTypeCodes(code: string)
    ensures code in RESOURCE_TYPES <==> ResourceTypeToString(ResourceTypeOf(code)) == code
    ensures forall t :: ResourceTypeOf(ResourceTypeToString(t)) == t
  {
  }

  function Abstract(r: PolicyRecord): Rule {
    Rule(r.id, r.name, ActionOf(r.action), r.priority, r.enabled,
         if r.roleRequired == "" then None else Some(RoleOf(r.roleRequired)),
         if r.departmentRequired == "" then None else Some(r.departmentRequired),
         if r.minClearance < 0 then None else Some(r.minClearance),
         if r.resourceType == "" then None else Some(ResourceTypeOf(r.resourceType)),
         if r.subjectId <= 0 then None else Some(r.subjectId),
         if r.resourceId <= 0 then None else Some(r.resourceId))
  }

  function SubjectOf(uid: int, u: User, a: Attrs): Subject {
    Subject(uid, a.department, RoleOf(a.role), a.clearance, u.isActive)
  }

  predicate CodedRecord(r: PolicyRecord) {
    && r.action in ACTIONS && (r.roleRequired != "" ==> r.roleRequired in ROLES)
    && (r.resourceType != "" ==> r.resourceType in RESOURCE_TYPES)
  }

  /** The two condition checks agree on every record with admissible codes. */
  lemma MatchAgrees(r: PolicyRecord, uid: int, u: User, a: Attrs, rid: int, rtype: string, action: string)
    requires CodedRecord(r) && a.role in ROLES && rtype in RESOURCE_TYPES && action in ACTIONS
    ensures PolicyMatches(SubjectOf(uid, u, a), Target(rid, ResourceTypeOf(rtype)), Abstract(r)) <==>
            RecordMatches(r, a, uid, rid, rtype)
    ensures (Abstract(r).action == Any || Abstract(r).action == ActionOf(action)) <==>
            r.action == action || r.action == "*"
  {
    ActionCodes(r.action);
    ActionCodes(action);
    ActionCodes("*");
    RoleCodes(a.role);
    ResourceTypeCodes(rtype);
    if r.roleRequired != "" { RoleCodes(r.roleRequired); }
    if r.resourceType != "" { ResourceTypeCodes(r.resourceType); }
  }

  // ---------------------------------------------------------------- the production decision

  function RecordCandidates(ps: seq<PolicyRecord>, a: Attrs, uid: int, rid: int, rtype: string): (cs: seq<Candidate>)
    ensures |cs| == |ps|
  {
    seq(|ps|, i requires 0 <= i < |ps| =>
      Candidate(RecordMatches(ps[i], a, uid, rid, rtype), ps[i].priority, ps[i].name))
  }

  /** A result of SELECT ... WHERE enabled AND (action = :action OR action = '*') ORDER BY priority DESC: every row
      considered, once, higher priorities first, ties in any order. */
  ghost predicate QueryResult(db: Db, action: string, ids: seq<int>) {
    && (forall id :: id in ids <==> id in db.policies && Considered(db.policies[id], action))
    && (forall i, j | 0 <= i < j < |ids| :: ids[i] != ids[j])
    && (forall i, j | 0 <= i < j < |ids| ::
          && ids[i] in db.policies && ids[j] in db.policies
          && db.policies[ids[i]].priority >= db.policies[ids[j]].priority)
  }

  function Records(db: Db, ids: seq<int>): (ps: seq<PolicyRecord>)
    requires forall id | id in ids :: id in db.policies
    ensures |ps| == |ids|
  {
    seq(|ids|, i requires 0 <= i < |ids| => FromRow(ids[i], db.policies[ids[i]]))
  }

  /** Some listing of the whole policy table, each row once. */
  ghost predicate EachRowOnce(db: Db, ids: seq<int>) {
    && (forall id :: id in ids <==> id in db.policies)
    && (forall i, j | 0 <= i < j < |ids| :: ids[i] != ids[j])
  }

  function Rules(db: Db, ids: seq<int>): (rules: seq<Rule>)
    requires forall id | id in ids :: id in db.policies
    ensures |rules| == |ids|
  {
    seq(|ids|, i requires 0 <= i < |ids| => Abstract(FromRow(ids[i], db.policies[ids[i]])))
  }

  // ---------------------------------------------------------------- the refinement

  /** The conditions of a stored row and of its abstraction select the same requests. */
  lemma RowAgrees(db: Db, pid: int, uid: int, rid: int, rtype: string, action: string)
    requires Integrity(db) && pid in db.policies && uid in db.users && uid in db.attrs
    requires rtype in RESOURCE_TYPES && action in ACTIONS
    ensures var p := db.policies[pid];
            Selected(SubjectOf(uid, db.users[uid], db.attrs[uid]), Target(rid, ResourceTypeOf(rtype)), ActionOf(action),
                     Abstract(FromRow(pid, p)))
            <==> Considered(p, action) && RecordMatches(FromRow(pid, p), db.attrs[uid], uid, rid, rtype)
  {
    assert PolicyOk(db.policies[pid]) && AttrsOk(db.attrs[uid]);
    hide Integrity;
    MatchAgrees(FromRow(pid, db.policies[pid]), uid, db.users[uid], db.attrs[uid], rid, rtype, action);
  }

  /** The relation granted by a row, as the best-match loop over the query result sees it. */
  lemma QueryDecides(db: Db, now: int, uid: int, rid: int, rtype: string, action: string, ids: seq<int>, best: int)
    requires QueryResult(db, action, ids) && Eligible(db, now, uid)
    requires BestOf(RecordCandidates(Records(db, ids), db.attrs[uid], uid, rid, rtype), best)
    ensures best >= 0 <==> Allowed(db, now, uid, rid, action, rtype)
    ensures best >= 0 ==> best < |ids| && ids[best] in db.policies
    ensures best >= 0 ==>
              forall pid | pid in db.policies && Grants(db.policies[pid], db.attrs[uid], uid, rid, action, rtype) ::
                db.policies[pid].priority <= db.policies[ids[best]].priority
    ensures best >= 0 ==> Grants(db.policies[ids[best]], db.attrs[uid], uid, rid, action, rtype)
  {
    hide RecordMatches;
    var a := db.attrs[uid];
    var cs := RecordCandidates(Records(db, ids), a, uid, rid, rtype);
    forall i | 0 <= i < |ids| ensures cs[i].matches <==> Grants(db.policies[ids[i]], a, uid, rid, action, rtype) {
      assert ids[i] in ids;
      SameConditions(ids[i], db.policies[ids[i]], a, uid, rid, rtype);
    }
    forall pid | pid in db.policies && Grants(db.policies[pid], a, uid, rid, action, rtype)
      ensures best >= 0 && db.policies[pid].priority <= db.policies[ids[best]].priority
    {
      assert pid in ids;
      var i :| 0 <= i < |ids| && ids[i] == pid;
      assert cs[i].matches;
    }
  }

  lemma SameConditions(id: int, p: Policy, a: Attrs, uid: int, rid: int, rtype: string)
    ensures RecordMatches(FromRow(id, p), a, uid, rid, rtype) == RecordMatches(FromRow(0, p), a, uid, rid, rtype)
  {
  }

  lemma ListingDecides(db: Db, now: int, uid: int, rid: int, rtype: string, action: string, ids: seq<int>, best: int)
    requires Integrity(db) && EachRowOnce(db, ids) && Eligible(db, now, uid)
    requires rtype in RESOURCE_TYPES && action in ACTIONS
    requires BestOf(RuleCandidates(SubjectOf(uid, db.users[uid], db.attrs[uid]), Target(rid, ResourceTypeOf(rtype)),
                                   ActionOf(action), Rules(db, ids)), best)
    ensures best >= 0 <==> Allowed(db, now, uid, rid, action, rtype)
    ensures best >= 0 ==> best < |ids| && ids[best] in db.policies
    ensures best >= 0 ==>
              forall pid | pid in db.policies && Grants(db.policies[pid], db.attrs[uid], uid, rid, action, rtype) ::
                db.policies[pid].priority <= db.policies[ids[best]].priority
    ensures best >= 0 ==> Grants(db.policies[ids[best]], db.attrs[uid], uid, rid, action, rtype)
  {
    hide RecordMatches, Selected, Integrity, Considered;
    var a := db.attrs[uid];
    var cs := RuleCandidates(SubjectOf(uid, db.users[uid], a), Target(rid, ResourceTypeOf(rtype)), ActionOf(action),
                             Rules(db, ids));
    forall i | 0 <= i < |ids| ensures cs[i].matches <==> Grants(db.policies[ids[i]], a, uid, rid, action, rtype) {
      assert ids[i] in ids;
      SameConditions(ids[i], db.policies[ids[i]], a, uid, rid, rtype);
      RowAgrees(db, ids[i], uid, rid, rtype, action);
    }
    forall pid | pid in db.policies && Grants(db.policies[pid], a, uid, rid, action, rtype)
      ensures best >= 0 && db.policies[pid].priority <= db.policies[ids[best]].priority
    {
      assert pid in ids;
      var i :| 0 <= i < |ids| && ids[i] == pid;
      assert cs[i].matches;
    }
  }

  /** The production decision refines the reference: for an eligible subject, any order the query gives to ties and any
      listing of the table, both allow or both deny, and both are the access relation. The reason of an allowance names
      a matching policy of maximal priority, so where that policy is unique the two reasons coincide as well. */
  lemma PdpRefinesDomain(db: Db, now: int, uid: int, rid: int, rtype: string, action: string,
                         sorted: seq<int>, best: int, listed: seq<int>, reference: int)
    requires Integrity(db) && Eligible(db, now, uid) && rtype in RESOURCE_TYPES && action in ACTIONS
    requires QueryResult(db, action, sorted)
    requires BestOf(RecordCandidates(Records(db, sorted), db.attrs[uid], uid, rid, rtype), best)
    requires EachRowOnce(db, listed)
    requires BestOf(RuleCandidates(SubjectOf(uid, db.users[uid], db.attrs[uid]), Target(rid, ResourceTypeOf(rtype)),
                                   ActionOf(action), Rules(db, listed)), reference)
    ensures var d := Verdict(RecordCandidates(Records(db, sorted), db.attrs[uid], uid, rid, rtype), best);
            var e := Verdict(RuleCandidates(SubjectOf(uid, db.users[uid], db.attrs[uid]),
                                            Target(rid, ResourceTypeOf(rtype)), ActionOf(action), Rules(db, listed)),
                             reference);
            && d.allowed == e.allowed == Allowed(db, now, uid, rid, action, rtype)
            && (!d.allowed ==> d == e)
            && (d.allowed ==> db.policies[sorted[best]].priority == db.policies[listed[reference]].priority)
            && (d.allowed && (forall p, q | p in db.policies && q in db.policies
                                && Grants(db.policies[p], db.attrs[uid], uid, rid, action, rtype)
                                && Grants(db.policies[q], db.attrs[uid], uid, rid, action, rtype)
                                && db.policies[p].priority == db.policies[q].priority
                                && db.policies[p].priority == db.policies[sorted[best]].priority :: p == q)
                ==> d == e)
  {
    hide Integrity, Grants, Allowed, Selected, RecordMatches, IsBest;
    QueryDecides(db, now, uid, rid, rtype, action, sorted, best);
    ListingDecides(db, now, uid, rid, rtype, action, listed, reference);
  }
}
