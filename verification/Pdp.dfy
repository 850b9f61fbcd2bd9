/** The policy decision point: the production decision over the database's rows. */
module Pdp {
  import opened Schema
  import opened Decisions
  import opened Domain
  import opened Pip

  class PDP {
    const pip: PIP

    constructor (pip: PIP)
      ensures this.pip == pip
    {
      this.pip := pip;
    }

    /** Allows exactly what the access relation allows, so nothing to an account whose lock is still running. An
        allowance names a matching policy of maximal priority, a denial its reason. */
    method Evaluate(uid: int, rid: int, action: string, rtype: string, now: int) returns (d: Decision)
      ensures d.allowed <==> Allowed(pip.Tables(), now, uid, rid, action, rtype)
      ensures (&& uid in pip.users && pip.users[uid].isActive
               && pip.users[uid].lockedUntil.Some? && pip.users[uid].lockedUntil.value > now)
              ==> d == Decision(false, "account_locked")
      ensures !d.allowed ==> d.reason == DenialReason(pip.Tables(), now, uid)
      ensures d.allowed ==> exists pid | pid in pip.policies ::
                && d.reason == "policy:" + pip.policies[pid].name
                && Grants(pip.policies[pid], pip.attrs[uid], uid, rid, action, rtype)
                && forall q | q in pip.policies && Grants(pip.policies[q], pip.attrs[uid], uid, rid, action, rtype) ::
                     pip.policies[q].priority <= pip.policies[pid].priority
    {
      hide Grants, Considered, FromRow;
      var user := pip.FindUserById(uid);
      if user.None? || !user.value.row.isActive {
        return Decision(false, "account_inactive");
      }
      if user.value.row.lockedUntil.Some? && user.value.row.lockedUntil.value > now {
        return Decision(false, "account_locked");
      }
      var attrs := pip.GetSubjectAttrs(uid);
      if attrs.None? {
        return Decision(false, "no_subject_attrs");
      }
      var policies := pip.FindEnabledPolicies(action);
      ghost var ids :| QueryResult(pip.Tables(), action, ids) && policies == Records(pip.Tables(), ids);
      var best := BestMatch(policies, attrs.value, uid, rid, rtype);
      QueryDecides(pip.Tables(), now, uid, rid, rtype, action, ids, best);
      if best == -1 {
        return Decision(false, "no_matching_policy");
      }
      assert policies[best].name == pip.policies[ids[best]].name by {
        NameOfRecord(ids[best], pip.policies[ids[best]]);
      }
      return Decision(true, "policy:" + policies[best].name);
    }

    static lemma NameOfRecord(id: int, p: Policy)
      ensures FromRow(id, p).name == p.name
    {
    }

    /** The loop keeping the best matching policy so far; -1 is the null pointer. */
    static method BestMatch(policies: seq<PolicyRecord>, a: Attrs, uid: int, rid: int, rtype: string)
      returns (best: int)
      ensures -1 <= best < |policies|
      ensures BestOf(RecordCandidates(policies, a, uid, rid, rtype), best)
    {
      ghost var cs := RecordCandidates(policies, a, uid, rid, rtype);
      best := -1;
      for i := 0 to |policies|
        invariant -1 <= best < i
        invariant BestOf(cs[..i], best)
      {
        var pol := policies[i];
        assert cs[..i + 1] == cs[..i] + [cs[i]];
        if pol.roleRequired != "" && pol.roleRequired != a.role {
          continue;
        }
        if pol.departmentRequired != "" && pol.departmentRequired != a.department {
          continue;
        }
        if pol.minClearance >= 0 && a.clearance < pol.minClearance {
          continue;
        }
        if pol.resourceType != "" && pol.resourceType != rtype {
          continue;
        }
        if pol.subjectId > 0 && pol.subjectId != uid {
          continue;
        }
        if pol.resourceId > 0 && pol.resourceId != rid {
          continue;
        }
        if best == -1 || pol.priority > policies[best].priority {
          best := i;
        }
      }
      assert cs[..|policies|] == cs;
    }
  }
}
