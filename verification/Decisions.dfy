/** Access decisions over the tables: which rows are considered, when one matches, and the resulting relation. */
module Decisions {
  import opened Prelude
  import opened Schema

  /** A policy as the server holds it in memory: "", a negative clearance and an id <= 0 mean "no condition". */
  datatype PolicyRecord = PolicyRecord(id: int, name: string, enabled: bool, action: string, roleRequired: string,
                                       departmentRequired: string, minClearance: int, resourceType: string,
                                       subjectId: int, resourceId: int, priority: int, createdBy: int)

  function FromRow(id: int, p: Policy): PolicyRecord {
    PolicyRecord(id, p.name, p.enabled, p.action, p.roleRequired.GetOr(""), p.departmentRequired.GetOr(""),
                 p.minClearance.GetOr(-1), p.resourceType.GetOr(""), p.subjectId.GetOr(0), p.resourceId.GetOr(0),
                 p.priority, p.createdBy.GetOr(0))
  }

  function NonEmpty(s: string): Option<string> {
    if s == "" then None else Some(s)
  }

  /** The values bound when a record is written: sentinels become NULL. */
  function ToRow(r: PolicyRecord): Policy {
    Policy(r.name, r.enabled, r.action, NonEmpty(r.roleRequired), NonEmpty(r.departmentRequired),
           if r.minClearance < 0 then None else Some(r.minClearance), NonEmpty(r.resourceType),
           PositiveId(r.subjectId), PositiveId(r.resourceId), r.priority, PositiveId(r.createdBy))
  }

  predicate Locked(u: User, now: int) {
    u.lockedUntil.Some? && u.lockedUntil.value > now
  }

  /** The subject gets as far as the policies. */
  predicate Eligible(db: Db, now: int, uid: int) {
    uid in db.users && db.users[uid].isActive && !Locked(db.users[uid], now) && uid in db.attrs
  }

  function DenialReason(db: Db, now: int, uid: int): string {
    if uid !in db.users || !db.users[uid].isActive then "account_inactive"
    else if Locked(db.users[uid], now) then "account_locked"
    else if uid !in db.attrs then "no_subject_attrs"
    else "no_matching_policy"
  }

  /** The WHERE clause of the policy query. */
  predicate Considered(p: Policy, action: string) {
    p.enabled && (p.action == action || p.action == "*")
  }

  predicate RecordMatches(r: PolicyRecord, a: Attrs, uid: int, rid: int, rtype: string) {
    && (r.roleRequired != "" ==> r.roleRequired == a.role)
    && (r.departmentRequired != "" ==> r.departmentRequired == a.department)
    && (r.minClearance >= 0 ==> a.clearance >= r.minClearance)
    && (r.resourceType != "" ==> r.resourceType == rtype)
    && (r.subjectId > 0 ==> r.subjectId == uid)
    && (r.resourceId > 0 ==> r.resourceId == rid)
  }

  predicate Grants(p: Policy, a: Attrs, uid: int, rid: int, action: string, rtype: string) {
    Considered(p, action) && RecordMatches(FromRow(0, p), a, uid, rid, rtype)
  }

  /** The access relation: some enabled policy matches. Priorities do not enter. */
  predicate Allowed(db: Db, now: int, uid: int, rid: int, action: string, rtype: string) {
    && Eligible(db, now, uid)
    && exists pid | pid in db.policies :: Grants(db.policies[pid], db.attrs[uid], uid, rid, action, rtype)
  }

  // ---------------------------------------------------------------- the encoding of optional conditions

  /** Writing a record and reading it back is idempotent, and no decision ever tells the difference. */
  lemma NormalisationIsHarmless(r: PolicyRecord, a: Attrs, uid: int, rid: int, rtype: string)
    ensures var once := FromRow(r.id, ToRow(r));
            && FromRow(r.id, ToRow(once)) == once
            && (RecordMatches(once, a, uid, rid, rtype) <==> RecordMatches(r, a, uid, rid, rtype))
  {
  }

  /** A row survives read-then-write unless it stores a condition as an empty text, a negative number or an id that
      is not positive; integrity leaves the empty department as the only such row. */
  lemma RowRoundTrip(id: int, p: Policy)
    ensures ToRow(FromRow(id, p)) == p <==>
            && p.roleRequired != Some("") && p.departmentRequired != Some("") && p.resourceType != Some("")
            && (p.minClearance.Some? ==> p.minClearance.value >= 0)
            && (p.subjectId.Some? ==> p.subjectId.value > 0)
            && (p.resourceId.Some? ==> p.resourceId.value > 0)
            && (p.createdBy.Some? ==> p.createdBy.value > 0)
  {
  }

  // ---------------------------------------------------------------- policies only ever permit

  /** More policies, in whatever order and with whatever priorities, never take access away. */
  lemma MorePoliciesMoreAccess(db: Db, more: Db, now: int, uid: int, rid: int, action: string, rtype: string)
    requires more.users == db.users && more.attrs == db.attrs
    requires forall pid | pid in db.policies :: exists q | q in more.policies ::
               more.policies[q].(priority := 0) == db.policies[pid].(priority := 0)
    requires Allowed(db, now, uid, rid, action, rtype)
    ensures Allowed(more, now, uid, rid, action, rtype)
  {
    var pid :| pid in db.policies && Grants(db.policies[pid], db.attrs[uid], uid, rid, action, rtype);
    var q :| q in more.policies && more.policies[q].(priority := 0) == db.policies[pid].(priority := 0);
    SamePolicyUpToPriority(more.policies[q], db.policies[pid], db.attrs[uid], uid, rid, action, rtype);
  }

  lemma SamePolicyUpToPriority(p: Policy, q: Policy, a: Attrs, uid: int, rid: int, action: string, rtype: string)
    requires p.(priority := 0) == q.(priority := 0)
    ensures Grants(p, a, uid, rid, action, rtype) == Grants(q, a, uid, rid, action, rtype)
  {
    var p0, q0 := p.(priority := 0), q.(priority := 0);
    assert p0.name == p.name && p0.enabled == p.enabled && p0.action == p.action && p0.roleRequired == p.roleRequired
        && p0.departmentRequired == p.departmentRequired && p0.minClearance == p.minClearance
        && p0.resourceType == p.resourceType && p0.subjectId == p.subjectId && p0.resourceId == p.resourceId;
  }

  /** Deleting a user keeps every access of everybody else and adds exactly what the deleted user's own bindings
      granted once the binding is gone: a grant to one user becomes a grant to all who meet its other conditions. */
  lemma DeletingUserWidens(db: Db, gone: int, now: int, uid: int, rid: int, action: string, rtype: string)
    requires uid != gone
    ensures Allowed(DeleteUser(db, gone), now, uid, rid, action, rtype) <==>
            || Allowed(db, now, uid, rid, action, rtype)
            || (Eligible(db, now, uid) && exists pid | pid in db.policies ::
                  db.policies[pid].subjectId == Some(gone)
                  && Grants(db.policies[pid].(subjectId := None), db.attrs[uid], uid, rid, action, rtype))
  {
    var d := DeleteUser(db, gone);
    assert Eligible(d, now, uid) == Eligible(db, now, uid);
    if Eligible(db, now, uid) {
      var a := db.attrs[uid];
      forall pid | pid in db.policies
        ensures Grants(d.policies[pid], a, uid, rid, action, rtype) <==>
                || Grants(db.policies[pid], a, uid, rid, action, rtype)
                || (db.policies[pid].subjectId == Some(gone)
                    && Grants(db.policies[pid].(subjectId := None), a, uid, rid, action, rtype))
      {
      }
    }
  }

  /** The same for a deleted resource and a request on any other resource. */
  lemma DeletingResourceWidens(db: Db, gone: int, now: int, uid: int, rid: int, action: string, rtype: string)
    requires rid != gone
    ensures Allowed(DeleteResource(db, gone), now, uid, rid, action, rtype) <==>
            || Allowed(db, now, uid, rid, action, rtype)
            || (Eligible(db, now, uid) && exists pid | pid in db.policies ::
                  db.policies[pid].resourceId == Some(gone)
                  && Grants(db.policies[pid].(resourceId := None), db.attrs[uid], uid, rid, action, rtype))
  {
    var d := DeleteResource(db, gone);
    if Eligible(db, now, uid) {
      var a := db.attrs[uid];
      forall pid | pid in db.policies
        ensures Grants(d.policies[pid], a, uid, rid, action, rtype) <==>
                || Grants(db.policies[pid], a, uid, rid, action, rtype)
                || (db.policies[pid].resourceId == Some(gone)
                    && Grants(db.policies[pid].(resourceId := None), a, uid, rid, action, rtype))
      {
      }
    }
  }
}
