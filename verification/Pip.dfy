/** The data layer: each method is one SQL statement (CreateUser: two) run against the tables in place. */
module Pip {
  import opened Prelude
  import opened Schema
  import opened Decisions
  import opened Listing
  import opened Server
  import opened Domain

  datatype UserRecord = UserRecord(id: int, row: User)
  datatype SessionRecord = SessionRecord(id: int, row: Session)
  datatype ResourceRecord = ResourceRecord(id: int, row: Resource)

  class PIP {
    var users: map<int, User>
    var attrs: map<int, Attrs>
    var sessions: map<int, Session>
    var resources: map<int, Resource>
    var policies: map<int, Policy>
    var audit: seq<AuditRow>
    var nextUser: int
    var nextSession: int
    var nextResource: int
    var nextPolicy: int
    var nextAudit: int

    function Tables(): Db
      reads this
    {
      Db(users, attrs, sessions, resources, policies, audit, nextUser, nextSession, nextResource, nextPolicy, nextAudit)
    }

    constructor (db: Db)
      ensures Tables() == db
    {
      users, attrs, sessions, resources, policies := db.users, db.attrs, db.sessions, db.resources, db.policies;
      audit, nextUser, nextSession := db.audit, db.nextUser, db.nextSession;
      nextResource, nextPolicy, nextAudit := db.nextResource, db.nextPolicy, db.nextAudit;
    }

    // -------------------------------------------------------------- users

    method FindUserByUsername(username: string) returns (r: Option<UserRecord>)
      requires UsersIntact(users, nextUser)
      ensures var id := UserNamed(Tables(), username);
              r == if id.None? then None else Some(UserRecord(id.value, users[id.value]))
    {
      if id :| id in users && users[id].username == username {
        return Some(UserRecord(id, users[id]));
      }
      return None;
    }

    method FindUserById(id: int) returns (r: Option<UserRecord>)
      ensures r == if id in users then Some(UserRecord(id, users[id])) else None
    {
      return if id in users then Some(UserRecord(id, users[id])) else None;
    }

    /** The two INSERTs are separate transactions: a refused second one leaves the row of the first. */
    method CreateUser(username: string, passwordHash: string, salt: string, fullName: string, position: string,
                      role: string, clearance: int, department: string) returns (id: int)
      modifies this
      ensures var db := old(Tables());
              var user := InsertedUser(username, passwordHash, salt, fullName, position);
              var newAttrs := Attrs(role, clearance, department);
              if !Admissible(db, AddOrphan(user)) then id == -1 && Tables() == Apply(db, 0, BurnUser)
              else if !AttrsOk(newAttrs) then id == -1 && Tables() == Apply(db, 0, AddOrphan(user))
              else id == db.nextUser && Tables() == Apply(db, 0, AddUser(user, newAttrs))
    {
      var user := InsertedUser(username, passwordHash, salt, fullName, position);
      var userId := nextUser;
      nextUser := nextUser + 1;
      if !UserOk(user) || exists other :: other in users && users[other].username == username {
        return -1;
      }
      users := users[userId := user];
      if !AttrsOk(Attrs(role, clearance, department)) {
        return -1;
      }
      attrs := attrs[userId := Attrs(role, clearance, department)];
      return userId;
    }

    method UpdateUser(id: int, fullName: string, position: string, isActive: bool) returns (ok: bool)
      modifies this`users
      ensures ok <==> id in old(users) ==> |fullName| <= 200
      ensures Tables() == if ok && id in old(users)
                          then Apply(old(Tables()), 0, SetUser(id, fullName, position, isActive, None))
                          else old(Tables())
    {
      if id !in users {
        return true;
      }
      if |fullName| > 200 {
        return false;
      }
      users := users[id := users[id].(fullName := fullName, position := position, isActive := isActive)];
      return true;
    }

    /** ON DELETE CASCADE and SET NULL run with the statement. */
    method DeleteUserRow(id: int)
      modifies this
      ensures Tables() == DeleteUser(old(Tables()), id)
    {
      var db := Tables();
      users := db.users - {id};
      attrs := db.attrs - {id};
      sessions := map s | s in db.sessions && db.sessions[s].userId != id :: db.sessions[s];
      resources := map r | r in db.resources :: WithoutOwner(db.resources[r], id);
      policies := map p | p in db.policies :: WithoutUser(db.policies[p], id);
      audit := seq(|db.audit|, i requires 0 <= i < |db.audit| => WithoutActor(db.audit[i], id));
    }

    method ListUsers(page: int, pageSize: int) returns (rs: seq<UserRecord>)
      ensures var ids := Page(Ordered(UserRank(Tables())), page, pageSize);
              |rs| == |ids| && forall i | 0 <= i < |ids| ::
                ids[i] in users && rs[i] == UserRecord(ids[i], users[ids[i]])
    {
      var all := OrderBy(UserRank(Tables()));
      var ids := Page(all, page, pageSize);
      hide Page, Ordered;
      rs := [];
      for i := 0 to |ids|
        invariant |rs| == i && forall j | 0 <= j < i :: ids[j] in users && rs[j] == UserRecord(ids[j], users[ids[j]])
      {
        rs := rs + [UserRecord(ids[i], users[ids[i]])];
      }
    }

    method CountUsers() returns (n: int)
      ensures n == |users|
    {
      return |users|;
    }

    /** An UPDATE of no row, here and below, succeeds and changes nothing. */
    method IncrementFailedAttempts(id: int)
      modifies this`users
      ensures if id in old(users)
              then var row := old(users)[id];
                   users == old(users)[id := row.(failedAttempts := CountedUp(row.failedAttempts))]
              else users == old(users)
    {
      if id in users {
        users := users[id := users[id].(failedAttempts := CountedUp(users[id].failedAttempts))];
      }
    }

    method LockUser(id: int, minutes: int, now: int)
      modifies this`users
      ensures users == if id in old(users)
                       then old(users)[id := old(users)[id].(lockedUntil := Some(now + MINUTE * minutes))]
                       else old(users)
    {
      if id in users {
        users := users[id := users[id].(lockedUntil := Some(now + MINUTE * minutes))];
      }
    }

    method ResetFailedAttempts(id: int)
      modifies this`users
      ensures users == if id in old(users)
                       then old(users)[id := old(users)[id].(failedAttempts := 0, lockedUntil := None)] else old(users)
    {
      if id in users {
        users := users[id := users[id].(failedAttempts := 0, lockedUntil := None)];
      }
    }

    method UpdateLastLogin(id: int, now: int)
      modifies this`users
      ensures users == if id in old(users) then old(users)[id := old(users)[id].(lastLogin := Some(now))]
                       else old(users)
    {
      if id in users {
        users := users[id := users[id].(lastLogin := Some(now))];
      }
    }

    // -------------------------------------------------------------- subject attributes

    method GetSubjectAttrs(id: int) returns (r: Option<Attrs>)
      ensures r == if id in attrs then Some(attrs[id]) else None
    {
      return if id in attrs then Some(attrs[id]) else None;
    }

    method UpdateSubjectAttrs(id: int, role: string, clearance: int, department: string) returns (ok: bool)
      modifies this`attrs
      ensures ok <==> id in old(attrs) ==> AttrsOk(Attrs(role, clearance, department))
      ensures attrs == if ok && id in old(attrs) then old(attrs)[id := Attrs(role, clearance, department)]
                       else old(attrs)
    {
      if id !in attrs {
        return true;
      }
      ok := AttrsOk(Attrs(role, clearance, department));
      if ok {
        attrs := attrs[id := Attrs(role, clearance, department)];
      }
    }

    // -------------------------------------------------------------- sessions

    method CreateSession(userId: int, tokenHash: string, hours: int, now: int) returns (id: int)
      modifies this`sessions, this`nextSession
      ensures nextSession == old(nextSession) + 1
      ensures if userId in users && HashFree(old(sessions), tokenHash)
              then id == old(nextSession)
                   && sessions == old(sessions)[id := Session(userId, tokenHash, now, now + HOUR * hours, None)]
              else id == -1 && sessions == old(sessions)
    {
      id := nextSession;
      nextSession := nextSession + 1;
      if userId !in users || exists s :: s in sessions && sessions[s].tokenHash == tokenHash {
        return -1;
      }
      sessions := sessions[id := Session(userId, tokenHash, now, now + HOUR * hours, None)];
    }

    method FindSessionByTokenHash(tokenHash: string, now: int) returns (r: Option<SessionRecord>)
      requires SessionsIntact(sessions, nextSession, users.Keys)
      ensures var s := LiveSession(Tables(), now, tokenHash);
              r == if s.None? then None else Some(SessionRecord(s.value, sessions[s.value]))
    {
      if s :| s in sessions && SessionLive(sessions[s], now, tokenHash) {
        return Some(SessionRecord(s, sessions[s]));
      }
      return None;
    }

    /** Revokes once: the WHERE clause asks for revoked_at to be null. */
    method RevokeSession(id: int, now: int)
      modifies this`sessions
      ensures sessions == if id in old(sessions) then old(sessions)[id := Revoked(old(sessions)[id], now)]
                          else old(sessions)
    {
      if id in sessions {
        if sessions[id].revokedAt.None? {
          sessions := sessions[id := sessions[id].(revokedAt := Some(now))];
        } else {
          assert Revoked(sessions[id], now) == sessions[id];
        }
      }
    }

    // -------------------------------------------------------------- resources

    method CreateResource(name: string, description: string, resourceType: string, address: string, ownerId: int)
      returns (id: int)
      requires nextResource > 0
      modifies this`resources, this`nextResource
      ensures var row := Resource(name, description, resourceType, address, PositiveId(ownerId), true);
              if Admissible(old(Tables()), AddResource(row))
              then id == old(nextResource) && Tables() == Apply(old(Tables()), 0, AddResource(row))
              else id == -1 && Tables() == Apply(old(Tables()), 0, BurnResource)
    {
      var row := Resource(name, description, resourceType, address, PositiveId(ownerId), true);
      id := nextResource;
      nextResource := nextResource + 1;
      if !ResourceOk(row) || !Refers(row.ownerId, users.Keys) {
        return -1;
      }
      resources := resources[id := row];
    }

    method GetResource(id: int) returns (r: Option<ResourceRecord>)
      ensures r == if id in resources then Some(ResourceRecord(id, resources[id])) else None
    {
      return if id in resources then Some(ResourceRecord(id, resources[id])) else None;
    }

    method UpdateResource(id: int, name: string, description: string, resourceType: string, address: string,
                          isActive: bool) returns (ok: bool)
      modifies this`resources
      ensures id in old(resources) ==>
                var row := Resource(name, description, resourceType, address, old(resources)[id].ownerId, isActive);
                && (ok <==> ResourceOk(row))
                && Tables() == if ok then Apply(old(Tables()), 0, SetResource(id, row)) else old(Tables())
      ensures id !in old(resources) ==> ok && Tables() == old(Tables())
    {
      if id !in resources {
        return true;
      }
      var row := Resource(name, description, resourceType, address, resources[id].ownerId, isActive);
      ok := ResourceOk(row);
      if ok {
        resources := resources[id := row];
      }
    }

    method DeleteResourceRow(id: int)
      modifies this`resources, this`policies
      ensures Tables() == DeleteResource(old(Tables()), id)
    {
      var db := Tables();
      resources := db.resources - {id};
      policies := map p | p in db.policies :: WithoutResource(db.policies[p], id);
    }

    method ListResources(rtype: string, page: int, pageSize: int) returns (rs: seq<ResourceRecord>)
      ensures var ids := Page(Ordered(ResourceRank(Tables(), rtype)), page, pageSize);
              |rs| == |ids| && forall i | 0 <= i < |ids| ::
                ids[i] in resources && rs[i] == ResourceRecord(ids[i], resources[ids[i]])
    {
      var all := OrderBy(ResourceRank(Tables(), rtype));
      var ids := Page(all, page, pageSize);
      hide Page, Ordered;
      rs := [];
      for i := 0 to |ids|
        invariant |rs| == i && forall j | 0 <= j < i ::
                    ids[j] in resources && rs[j] == ResourceRecord(ids[j], resources[ids[j]])
      {
        rs := rs + [ResourceRecord(ids[i], resources[ids[i]])];
      }
    }

    method CountResources(rtype: string) returns (n: int)
      ensures n == |Ordered(ResourceRank(Tables(), rtype))|
    {
      return |ResourceRank(Tables(), rtype)|;
    }

    // -------------------------------------------------------------- policies

    method CreatePolicy(r: PolicyRecord) returns (id: int)
      requires nextPolicy > 0 && 0 !in policies
      modifies this`policies, this`nextPolicy
      ensures if Admissible(old(Tables()), AddPolicy(ToRow(r)))
              then id == old(nextPolicy) && Tables() == Apply(old(Tables()), 0, AddPolicy(ToRow(r)))
              else id == -1 && Tables() == Apply(old(Tables()), 0, BurnPolicy)
    {
      hide PolicyOk, PolicyRefsOk;
      var row := ToRow(r);
      id := nextPolicy;
      nextPolicy := nextPolicy + 1;
      if !PolicyOk(row) || (exists p :: p in policies && policies[p].name == row.name)
         || !PolicyRefsOk(row, users.Keys, resources.Keys) {
        return -1;
      }
      policies := policies[id := row];
    }

    /** The creator column is not among those set; a null name violates NOT NULL. */
    method UpdatePolicy(id: int, r: PolicyRecord, nameIsNull: bool) returns (ok: bool)
      modifies this`policies
      ensures id in old(policies) ==>
                var row := UpdatedRow(old(policies)[id], r);
                && (ok <==> !nameIsNull && Admissible(old(Tables()), SetPolicy(id, row)))
                && Tables() == if ok then Apply(old(Tables()), 0, SetPolicy(id, row)) else old(Tables())
      ensures id !in old(policies) ==> ok && Tables() == old(Tables())
    {
      hide PolicyOk;
      if id !in policies {
        return true;
      }
      var row := UpdatedRow(policies[id], r);
      if nameIsNull || !PolicyOk(row) || (exists p :: p in policies && p != id && policies[p].name == row.name)
         || !Refers(row.subjectId, users.Keys) || !Refers(row.resourceId, resources.Keys) {
        return false;
      }
      policies := policies[id := row];
      return true;
    }

    method DeletePolicy(id: int)
      modifies this`policies
      ensures policies == old(policies) - {id}
    {
      policies := policies - {id};
    }

    method ListPolicies(page: int, pageSize: int) returns (rs: seq<PolicyRecord>)
      ensures var ids := Page(Ordered(PolicyRank(Tables())), page, pageSize);
              |rs| == |ids| && forall i | 0 <= i < |ids| ::
                ids[i] in policies && rs[i] == FromRow(ids[i], policies[ids[i]])
    {
      var all := OrderBy(PolicyRank(Tables()));
      rs := DecodePolicies(policies, Page(all, page, pageSize));
    }

    /** The loop over a query's rows. */
    static method DecodePolicies(table: map<int, Policy>, ids: seq<int>) returns (rs: seq<PolicyRecord>)
      requires forall id | id in ids :: id in table
      ensures |rs| == |ids| && forall i | 0 <= i < |ids| :: ids[i] in table && rs[i] == FromRow(ids[i], table[ids[i]])
    {
      hide FromRow;
      rs := [];
      for i := 0 to |ids|
        invariant |rs| == i && forall j | 0 <= j < i :: ids[j] in table && rs[j] == FromRow(ids[j], table[ids[j]])
      {
        rs := rs + [FromRow(ids[i], table[ids[i]])];
      }
    }

    method CountPolicies() returns (n: int)
      ensures n == |policies|
    {
      return |policies|;
    }

    /** ORDER BY priority DESC alone: which of several rows of one priority comes first is the database's choice. */
    method FindEnabledPolicies(action: string) returns (ps: seq<PolicyRecord>)
      ensures exists ids :: QueryResult(Tables(), action, ids) && ps == Records(Tables(), ids)
    {
      hide FromRow, Considered;
      var rank := map p | p in policies && Considered(policies[p], action) :: policies[p].priority;
      var found := ByPriority(rank);
      assert forall i | 0 <= i < |found| :: found[i] in rank;
      assert QueryResult(Tables(), action, found);
      ps := DecodePolicies(policies, found);
      assert ps == Records(Tables(), found);
    }

    static method ByPriority(rank: map<int, int>) returns (found: seq<int>)
      ensures forall p :: p in found <==> p in rank
      ensures forall i | 0 <= i < |found| :: found[i] in rank
      ensures forall i, j | 0 <= i < j < |found| :: found[i] != found[j] && rank[found[i]] >= rank[found[j]]
    {
      var left := rank;
      found := [];
      while left != map[]
        invariant forall p | p in left :: p in rank && left[p] == rank[p]
        invariant forall p :: p in found || p in left <==> p in rank
        invariant forall i | 0 <= i < |found| :: found[i] in rank && found[i] !in left
        invariant forall i, p | 0 <= i < |found| && p in left :: rank[found[i]] >= left[p]
        invariant forall i, j | 0 <= i < j < |found| :: found[i] != found[j] && rank[found[i]] >= rank[found[j]]
        decreases |left|
      {
        var p := TopRow(left);
        found := found + [p];
        left := left - {p};
      }
    }

    /** Some row of the highest rank left. */
    static method TopRow(left: map<int, int>) returns (p: int)
      requires left != map[]
      ensures p in left && forall q | q in left :: left[p] >= left[q]
      ensures |left - {p}| < |left|
    {
      FirstExists(left);
      p :| p in left && forall q | q in left :: left[p] >= left[q];
      assert (left - {p}).Keys == left.Keys - {p};
      assert |left - {p}| == |(left - {p}).Keys| < |left.Keys| == |left|;
    }

    // -------------------------------------------------------------- audit

    method WriteAuditLog(note: AuditNote, now: int)
      modifies this`audit, this`nextAudit
      ensures Tables() == WriteAudit(old(Tables()), now, Some(note))
    {
      var row := AuditEntry(nextAudit, now, note);
      nextAudit := nextAudit + 1;
      if Refers(row.actorId, users.Keys) {
        audit := audit + [row];
      }
    }

    /** WHERE, ORDER BY ts DESC, LIMIT and OFFSET. Which of several rows of one instant comes first is the database's
        choice. */
    method QueryAuditLog(cfg: Config, f: AuditFilter) returns (rs: seq<AuditRow>)
      ensures exists rows :: AuditOrderOk(audit, rows) && rs == PageOfHits(cfg, f, rows)
    {
      hide FilterReadable, AuditHit, AuditHits, AuditOrderOk, Page;
      if !FilterReadable(cfg, f) {
        SomeListing(audit);
        return [];
      }
      var rows := NewestListing(audit);
      var hits := [];
      assert rows[0..] == rows;
      for i := 0 to |rows|
        invariant hits + AuditHits(cfg, f, rows[i..]) == AuditHits(cfg, f, rows)
      {
        HitsFrom(cfg, f, rows, i);
        if AuditHit(cfg, f, rows[i]) {
          hits := hits + [rows[i]];
        }
      }
      HitsFrom(cfg, f, rows, |rows|);
      assert hits + [] == hits;
      rs := Page(hits, f.page, f.size);
      assert rs == PageOfHits(cfg, f, rows);
    }

    static lemma HitsFrom(cfg: Config, f: AuditFilter, rows: seq<AuditRow>, i: nat)
      requires FilterReadable(cfg, f) && i <= |rows|
      ensures i < |rows| && AuditHit(cfg, f, rows[i]) ==>
                AuditHits(cfg, f, rows[i..]) == [rows[i]] + AuditHits(cfg, f, rows[i + 1..])
      ensures i < |rows| && !AuditHit(cfg, f, rows[i]) ==>
                AuditHits(cfg, f, rows[i..]) == AuditHits(cfg, f, rows[i + 1..])
      ensures i == |rows| ==> AuditHits(cfg, f, rows[i..]) == []
    {
      hide AuditHit, FilterReadable;
      if i < |rows| {
        assert rows[i..][0] == rows[i] && rows[i..][1..] == rows[i + 1..];
      }
    }

    /** Rows put one by one into a newest-first listing, anywhere among rows of the same instant. */
    static method NewestListing(table: seq<AuditRow>) returns (rows: seq<AuditRow>)
      ensures AuditOrderOk(table, rows)
    {
      rows := [];
      for i := 0 to |table|
        invariant AuditOrderOk(table[..i], rows)
      {
        PlaceExists(rows, table[i]);
        var at: nat :| at <= |rows| && NewestFirst(Inserted(rows, at, table[i]));
        InsertedRows(table[..i], rows, at, table[i]);
        assert table[..i + 1] == table[..i] + [table[i]];
        rows := Inserted(rows, at, table[i]);
      }
      assert table[..|table|] == table;
    }

    method CountAuditLog(cfg: Config, f: AuditFilter) returns (n: int)
      ensures FilterReadable(cfg, f) ==> n == |AuditHits(cfg, f, audit)|
      ensures !FilterReadable(cfg, f) ==> n == 0
    {
      hide FilterReadable, AuditHit, AuditHits;
      n := 0;
      if FilterReadable(cfg, f) {
        assert audit[0..] == audit;
        for i := 0 to |audit|
          invariant n + |AuditHits(cfg, f, audit[i..])| == |AuditHits(cfg, f, audit)|
        {
          HitsFrom(cfg, f, audit, i);
          if AuditHit(cfg, f, audit[i]) {
            n := n + 1;
          }
        }
        HitsFrom(cfg, f, audit, |audit|);
      }
    }
  }

  // ---------------------------------------------------------------- listings of the audit log

  function PageOfHits(cfg: Config, f: AuditFilter, rows: seq<AuditRow>): seq<AuditRow> {
    if FilterReadable(cfg, f) then Page(AuditHits(cfg, f, rows), f.page, f.size) else []
  }

  function Inserted(rows: seq<AuditRow>, at: nat, r: AuditRow): seq<AuditRow>
    requires at <= |rows|
  {
    rows[..at] + [r] + rows[at..]
  }

  lemma {:induction false} PlaceExists(rows: seq<AuditRow>, r: AuditRow)
    requires NewestFirst(rows)
    ensures exists at: nat :: at <= |rows| && NewestFirst(Inserted(rows, at, r))
  {
    var at: nat := 0;
    while at < |rows| && rows[at].ts > r.ts
      invariant at <= |rows| && forall i | 0 <= i < at :: rows[i].ts > r.ts
    {
      at := at + 1;
    }
    assert NewestFirst(Inserted(rows, at, r));
  }

  lemma InsertedRows(table: seq<AuditRow>, rows: seq<AuditRow>, at: nat, r: AuditRow)
    requires AuditOrderOk(table, rows) && at <= |rows| && NewestFirst(Inserted(rows, at, r))
    ensures AuditOrderOk(table + [r], Inserted(rows, at, r))
  {
    assert rows == rows[..at] + rows[at..];
  }

  lemma {:induction false} SomeListing(table: seq<AuditRow>)
    ensures exists rows :: AuditOrderOk(table, rows)
  {
    if table == [] {
      assert AuditOrderOk(table, []);
    } else {
      var n := |table| - 1;
      SomeListing(table[..n]);
      var rows :| AuditOrderOk(table[..n], rows);
      PlaceExists(rows, table[n]);
      var at: nat :| at <= |rows| && NewestFirst(Inserted(rows, at, table[n]));
      InsertedRows(table[..n], rows, at, table[n]);
      assert table == table[..n] + [table[n]];
    }
  }
}
