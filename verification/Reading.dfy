/** What the reading operations show of the tables, key by key and in which order. */
module Reading {
  import opened Prelude
  import opened Json
  import opened Protocol
  import opened Schema
  import opened Decisions
  import opened Listing
  import opened Server
  import opened Runs
  import opened Readback
  import opened Paging
  import opened Updates
  import opened Access

  function TextOf(v: Option<string>): Json {
    Str(if v.Some? then v.value else "")
  }

  /** A binding that asks nothing reads as null. */
  function BindingOf(v: Option<int>): Json {
    if v.Some? && v.value > 0 then Number(v.value) else Null
  }

  function ResourceItem(id: int, r: Resource): Json {
    Obj(map["id" := Number(id), "name" := Str(r.name), "description" := Str(r.description),
            "resource_type" := Str(r.resourceType), "address" := Str(r.address), "owner_id" := IdOrZero(r.ownerId),
            "is_active" := Bool(r.isActive)])
  }

  function AccountOf(id: int, u: User, role: string, clearance: int, department: string): Json {
    Obj(map["id" := Number(id), "username" := Str(u.username), "full_name" := Str(u.fullName),
            "role" := Str(role), "clearance_level" := Number(clearance), "department" := Str(department),
            "position" := Str(u.position), "is_active" := Bool(u.isActive)])
  }

  /** An account without attributes reads as one of a plain user. */
  function AccountItem(db: Db, id: int): Json
    requires id in db.users
  {
    if id in db.attrs
    then AccountOf(id, db.users[id], db.attrs[id].role, db.attrs[id].clearance, db.attrs[id].department)
    else AccountOf(id, db.users[id], "user", 0, "")
  }

  function PolicyItem(id: int, p: Policy): Json {
    Obj(map["id" := Number(id), "name" := Str(p.name), "enabled" := Bool(p.enabled), "action" := Str(p.action),
            "role_required" := TextOf(p.roleRequired), "department_required" := TextOf(p.departmentRequired),
            "min_clearance" :=
              (if p.minClearance.Some? && p.minClearance.value >= 0 then Number(p.minClearance.value) else Null),
            "resource_type" := TextOf(p.resourceType), "subject_id" := BindingOf(p.subjectId),
            "resource_id" := BindingOf(p.resourceId), "priority" := Number(p.priority)])
  }

  predicate AscendingIds(items: seq<Json>) {
    forall i, j | 0 <= i < j < |items| :: NumberAt(items[i], "id") < NumberAt(items[j], "id")
  }

  lemma ResourceAgrees(id: int, r: Resource)
    ensures Obj(ResourceFields(id, r)) == ResourceItem(id, r)
  {
  }

  lemma AccountColumns(id: int, u: User, a: Attrs)
    ensures Obj(AccountFields(id, u, a)) == AccountOf(id, u, a.role, a.clearance, a.department)
  {
  }

  lemma AccountAgrees(db: Db, id: int)
    requires id in db.users
    ensures Obj(AccountFields(id, db.users[id], AttrsOf(db, id))) == AccountItem(db, id)
  {
    hide AccountFields, AccountOf;
    AccountColumns(id, db.users[id], AttrsOf(db, id));
  }

  lemma PolicyAgrees(id: int, p: Policy)
    ensures Obj(PolicyFields(FromRow(id, p))) == PolicyItem(id, p)
  {
  }

  // ---------------------------------------------------------------- one row

  /** ME shows the caller's own account; RESOURCE_GET shows the resource asked for. */
  lemma MeShows(cfg: Config, db: Db, env: Env, req: Request, uid: int)
    requires req.op == ME && Caller(cfg, db, env.now, req.token) == Some(uid)
    ensures var (d, resp) := Step(cfg, db, env, req);
            d == db && resp.status == Ok && Obj(resp.data) == AccountItem(db, uid)
  {
    hide Decide, Caller, AccountFields, AccountItem, WriteAudit;
    MeOutcome(cfg, db, env, req);
    AccountAgrees(db, uid);
    NothingWritten(db, env.now);
  }

  lemma GetShows(cfg: Config, db: Db, env: Env, get: Request, rid: int)
    requires GetRequest(cfg, db, env, get, rid) && rid > 0
    ensures var resp := Step(cfg, db, env, get).1;
            if rid in db.resources then resp.status == Ok && Obj(resp.data) == ResourceItem(rid, db.resources[rid])
            else (resp.status, resp.code, resp.data) == (Denied, RESOURCE_NOT_FOUND, map[])
  {
    hide Step, GetRequest, ResourceFields, ResourceItem;
    GetAnswer(cfg, db, env, get, rid);
    if rid in db.resources {
      ResourceAgrees(rid, db.resources[rid]);
    }
  }

  // ---------------------------------------------------------------- RESOURCE_LIST

  /** The caller's own lock is not running and some policy permits it to read the resource. */
  predicate MayRead(db: Db, now: int, uid: int, rid: int)
    requires uid in db.users && uid in db.attrs && rid in db.resources
  {
    && (db.users[uid].lockedUntil.Some? ==> db.users[uid].lockedUntil.value <= now)
    && exists pid | pid in db.policies ::
         Permits(db.policies[pid], db.attrs[uid], uid, rid, "read", db.resources[rid].resourceType)
  }

  /** Administrators and auditors see every resource, a plain user those it may read. */
  predicate Sees(db: Db, now: int, uid: int, rid: int)
    requires uid in db.users && uid in db.attrs && rid in db.resources
  {
    db.attrs[uid].role == "user" ==> MayRead(db, now, uid, rid)
  }

  lemma SeesMeans(db: Db, now: int, uid: int, rid: int)
    requires uid in db.users && uid in db.attrs && db.users[uid].isActive && rid in db.resources
    ensures Sees(db, now, uid, rid) <==>
            (db.attrs[uid].role == "user" ==> Allowed(db, now, uid, rid, "read", db.resources[rid].resourceType))
  {
    hide Allowed, Permits;
    AllowedMeans(db, now, uid, rid, "read", db.resources[rid].resourceType);
  }

  lemma ItemsOfRows(db: Db, now: int, uid: int, ids: seq<int>, item: Json)
    requires uid in db.users && uid in db.attrs && db.users[uid].isActive
    requires forall k | k in ids :: k in db.resources
    ensures item in ResourceItems(db, now, uid, ids) <==>
            exists k | k in ids :: Sees(db, now, uid, k) && item == ResourceItem(k, db.resources[k])
  {
    hide Sees, ResourceFields, ResourceItem, ResourceItems, Allowed;
    ShownResources(db, now, uid, ids, item);
    forall k | k in ids
      ensures Obj(ResourceFields(k, db.resources[k])) == ResourceItem(k, db.resources[k])
      ensures Sees(db, now, uid, k) <==>
              (db.attrs[uid].role == "user" ==> Allowed(db, now, uid, k, "read", db.resources[k].resourceType))
    {
      SeesMeans(db, now, uid, k);
      ResourceAgrees(k, db.resources[k]);
    }
  }

  predicate Ascending(ids: seq<int>) {
    forall i, j | 0 <= i < j < |ids| :: ids[i] < ids[j]
  }

  lemma {:induction false} ItemsAscend(db: Db, now: int, uid: int, ids: seq<int>)
    requires uid in db.attrs && (forall k | k in ids :: k in db.resources) && Ascending(ids)
    ensures AscendingIds(ResourceItems(db, now, uid, ids))
    ensures forall item | item in ResourceItems(db, now, uid, ids) :: NumberAt(item, "id") in ids
  {
    hide Visible;
    if ids != [] {
      ItemsAscend(db, now, uid, ids[..|ids| - 1]);
    }
  }

  lemma FlatAscends(rank: map<int, int>, ids: seq<int>)
    requires Sorted(rank, ids) && forall k | k in rank :: rank[k] == 0
    ensures Ascending(ids)
  {
  }

  lemma WholeListAscends(db: Db, req: Request)
    requires req.op == RESOURCE_LIST || req.op == USER_LIST
    ensures Ascending(WholeList(db, req))
  {
    hide Text, Sorted, Ordered, Ascending;
    var rank := RankFor(db, req.op, Text(req.data, "resource_type"));
    OrderedIsSorted(rank);
    FlatAscends(rank, WholeList(db, req));
  }

  lemma RowsOfType(db: Db, req: Request)
    requires req.op == RESOURCE_LIST
    ensures var rtype := Text(req.data, "resource_type");
            forall k :: k in WholeList(db, req) <==>
              (k in db.resources && (rtype == "" || db.resources[k].resourceType == rtype))
  {
    hide Text, WholeList;
    WholeListIsComplete(db, req);
  }

  lemma CallerOf(cfg: Config, db: Db, env: Env, req: Request, uid: int)
    requires ListRequest(cfg, db, env, req, uid)
    ensures uid in db.users && db.users[uid].isActive && uid in db.attrs && Listed(req.op)
  {
    hide RoleMay;
  }

  /** All pages of RESOURCE_LIST together: by id, each once, exactly the resources of the type asked for that the caller
      sees. */
  lemma ResourcesRead(cfg: Config, db: Db, env: Env, req: Request, uid: int, n: nat)
    requires ReadsAll(cfg, db, env, req, uid, n) && req.op == RESOURCE_LIST
    ensures uid in db.users && uid in db.attrs
    ensures var (items, rtype) := (ReadPages(cfg, db, env, req, n), Text(req.data, "resource_type"));
            && AscendingIds(items)
            && forall item :: item in items <==> exists rid | rid in db.resources ::
                 && (rtype == "" || db.resources[rid].resourceType == rtype)
                 && Sees(db, env.now, uid, rid) && item == ResourceItem(rid, db.resources[rid])
  {
    hide ReadPages, WholeList, PageSize, Caller, RoleMay, Text, ResourceItems, Sees, ResourceItem, AscendingIds;
    CallerOf(cfg, db, env, req, uid);
    AllItems(cfg, db, env, req, uid, n);
    var all := WholeList(db, req);
    WholeListAscends(db, req);
    RowsOfType(db, req);
    ItemsAscend(db, env.now, uid, all);
    forall item {
      ItemsOfRows(db, env.now, uid, all, item);
    }
  }

  /** An administrator or auditor that reads all pages is shown every resource of the type asked for. */
  lemma PrivilegedSeeAll(cfg: Config, db: Db, env: Env, req: Request, uid: int, n: nat, rid: int)
    requires ReadsAll(cfg, db, env, req, uid, n) && req.op == RESOURCE_LIST
    requires uid in db.attrs && (db.attrs[uid].role == "admin" || db.attrs[uid].role == "auditor")
    requires rid in db.resources
    requires Text(req.data, "resource_type") == "" || db.resources[rid].resourceType == Text(req.data, "resource_type")
    ensures ResourceItem(rid, db.resources[rid]) in ReadPages(cfg, db, env, req, n)
  {
    hide ReadPages, ReadsAll, Text, ResourceItem, MayRead;
    ResourcesRead(cfg, db, env, req, uid, n);
    assert Sees(db, env.now, uid, rid);
  }

  // ---------------------------------------------------------------- USER_LIST and POLICY_LIST

  /** All pages of USER_LIST together: the accounts by id, each once. */
  lemma AccountsRead(cfg: Config, db: Db, env: Env, req: Request, uid: int, n: nat)
    requires ReadsAll(cfg, db, env, req, uid, n) && req.op == USER_LIST
    ensures var items := ReadPages(cfg, db, env, req, n);
            && |items| == |db.users| && AscendingIds(items)
            && forall item :: item in items <==> exists u | u in db.users :: item == AccountItem(db, u)
  {
    hide ReadPages, ReadsAll, WholeList, AccountItem, NumberAt;
    AccountsInOrder(cfg, db, env, req, uid, n);
    var (all, items) := (WholeList(db, req), ReadPages(cfg, db, env, req, n));
    AllUsers(db, req);
    WholeListAscends(db, req);
    forall u | u in db.users ensures AccountItem(db, u) in items {
      var i :| 0 <= i < |all| && all[i] == u;
      assert items[i] == AccountItem(db, u);
    }
  }

  lemma AccountsInOrder(cfg: Config, db: Db, env: Env, req: Request, uid: int, n: nat)
    requires ReadsAll(cfg, db, env, req, uid, n) && req.op == USER_LIST
    ensures var (all, items) := (WholeList(db, req), ReadPages(cfg, db, env, req, n));
            && |items| == |all| && (forall u :: u in all <==> u in db.users)
            && forall i | 0 <= i < |all| ::
                 all[i] in db.users && items[i] == AccountItem(db, all[i]) && NumberAt(items[i], "id") == all[i]
  {
    hide ReadPages, ReadsAll, WholeList, AccountFields, AttrsOf, AccountItem, NumberAt;
    AllItems(cfg, db, env, req, uid, n);
    UsersWhole(db, req);
    var (all, items) := (WholeList(db, req), ReadPages(cfg, db, env, req, n));
    forall i | 0 <= i < |all| ensures items[i] == AccountItem(db, all[i]) && NumberAt(items[i], "id") == all[i] {
      AccountAgrees(db, all[i]);
      AccountNumber(db, all[i]);
    }
  }

  lemma AccountNumber(db: Db, u: int)
    requires u in db.users
    ensures NumberAt(AccountItem(db, u), "id") == u
  {
  }

  lemma AllUsers(db: Db, req: Request)
    requires req.op == USER_LIST
    ensures |WholeList(db, req)| == |db.users|
  {
    assert UserRank(db).Keys == db.users.Keys;
    SameSize(UserRank(db), db.users);
  }

  /** How an accepted USER_UPDATE of t changes what is shown of an account: of anybody else nothing; of t the name,
      position and activity sent, and the attributes sent, these together or not at all. */
  predicate ItemUpdated(after: Json, before: Json, t: int, known: bool, data: Object) {
    if NumberAt(before, "id") != t then after == before
    else
      var (a, b) := (ToObject(after), ToObject(before));
      var clearance := SentOr(data, "clearance_level", Field(b, "clearance_level"));
      var admitted :=
        && known && clearance.Number? && 0 <= clearance.n <= 5
        && SentOr(data, "role", Field(b, "role")) in {Str("admin"), Str("user"), Str("auditor")};
      && a.Keys == b.Keys
      && forall k | k in b ::
           a[k] == if k in {"full_name", "position", "is_active"}
                      || (k in {"role", "clearance_level", "department"} && admitted)
                   then SentOr(data, k, b[k]) else b[k]
  }

  lemma AccountItemUpdated(d: Db, db: Db, t: int, u: int, data: Object)
    requires AccountUpdated(d, db, t, data) && u in db.users
    ensures ItemUpdated(AccountItem(d, u), AccountItem(db, u), t, t in db.attrs, data)
  {
    hide AccountOf, ItemUpdated, UserMerged, AttrsMerged;
    AccountNumber(db, u);
    if u != t {
      OtherItem(AccountItem(db, u), t, t in db.attrs, data);
    } else if t in db.attrs {
      MergedItem(t, d.users[t], db.users[t], d.attrs[t], db.attrs[t], data);
    } else {
      OrphanItem(t, d.users[t], db.users[t], data);
    }
  }

  lemma OtherItem(item: Json, t: int, known: bool, data: Object)
    requires NumberAt(item, "id") != t
    ensures ItemUpdated(item, item, t, known, data)
  {
  }

  lemma UserSent(u: User, v: User, data: Object)
    requires UserMerged(u, v, data)
    ensures u.username == v.username
    ensures Str(u.fullName) == SentOr(data, "full_name", Str(v.fullName))
    ensures Str(u.position) == SentOr(data, "position", Str(v.position))
    ensures Bool(u.isActive) == SentOr(data, "is_active", Bool(v.isActive))
  {
  }

  lemma AttrsSent(a: Attrs, b: Attrs, data: Object)
    requires AttrsMerged(a, b, data)
    ensures var (role, clearance, department) := (SentOr(data, "role", Str(b.role)),
                 SentOr(data, "clearance_level", Number(b.clearance)), SentOr(data, "department", Str(b.department)));
            && clearance.Number?
            && (Str(a.role), Number(a.clearance), Str(a.department)) ==
               if role in {Str("admin"), Str("user"), Str("auditor")} && 0 <= clearance.n <= 5
               then (role, clearance, department) else (Str(b.role), Number(b.clearance), Str(b.department))
  {
  }

  lemma MergedItem(t: int, u: User, v: User, a: Attrs, b: Attrs, data: Object)
    requires UserMerged(u, v, data) && AttrsMerged(a, b, data)
    ensures ItemUpdated(AccountOf(t, u, a.role, a.clearance, a.department),
                        AccountOf(t, v, b.role, b.clearance, b.department), t, true, data)
  {
    hide UserMerged, AttrsMerged, SentOr;
    UserSent(u, v, data);
    AttrsSent(a, b, data);
  }

  lemma OrphanItem(t: int, u: User, v: User, data: Object)
    requires UserMerged(u, v, data)
    ensures ItemUpdated(AccountOf(t, u, "user", 0, ""), AccountOf(t, v, "user", 0, ""), t, false, data)
  {
    hide UserMerged, SentOr;
    UserSent(u, v, data);
  }

  lemma SameUsersListed(d: Db, db: Db, req: Request)
    requires d.users.Keys == db.users.Keys && req.op == USER_LIST
    ensures WholeList(d, req) == WholeList(db, req)
  {
    assert UserRank(d) == UserRank(db);
  }

  /** The list of users after an accepted USER_UPDATE is the list before, item by item, with what was sent. */
  lemma UpdatedUserReads(cfg: Config, db: Db, env: Env, req: Request, env': Env, list: Request, reader: int, n: nat)
    requires Integrity(db) && ByAdmin(cfg, db, env, req) && req.op == USER_UPDATE
    requires Id(req.data, "user_id") > 0 && Step(cfg, db, env, req).1.status == Ok
    requires list.op == USER_LIST && ReadsAll(cfg, db, env', list, reader, n)
    requires ReadsAll(cfg, Step(cfg, db, env, req).0, env', list, reader, n)
    ensures var t := Id(req.data, "user_id");
            var before := ReadPages(cfg, db, env', list, n);
            var after := ReadPages(cfg, Step(cfg, db, env, req).0, env', list, n);
            && |after| == |before|
            && forall i | 0 <= i < |before| :: ItemUpdated(after[i], before[i], t, t in db.attrs, req.data)
  {
    hide Step, ReadPages, ReadsAll, WholeList, AccountItem, ItemUpdated, AccountUpdated, Integrity, ByAdmin, Id;
    var (d, t) := (Step(cfg, db, env, req).0, Id(req.data, "user_id"));
    UserUpdateIsMerge(cfg, db, env, req, t);
    AccountsInOrder(cfg, db, env', list, reader, n);
    AccountsInOrder(cfg, d, env', list, reader, n);
    assert d.users.Keys == db.users.Keys by { SameAccountIds(d, db, t, req.data); }
    SameUsersListed(d, db, list);
    var all := WholeList(db, list);
    forall i | 0 <= i < |all|
      ensures ItemUpdated(AccountItem(d, all[i]), AccountItem(db, all[i]), t, t in db.attrs, req.data)
    {
      AccountItemUpdated(d, db, t, all[i], req.data);
    }
  }

  lemma SameAccountIds(d: Db, db: Db, t: int, data: Object)
    requires AccountUpdated(d, db, t, data)
    ensures d.users.Keys == db.users.Keys
  {
  }

  /** The first of two policies comes before the second: higher priority first, then lower id. */
  predicate Precedes(a: Json, b: Json) {
    || NumberAt(a, "priority") > NumberAt(b, "priority")
    || (NumberAt(a, "priority") == NumberAt(b, "priority") && NumberAt(a, "id") < NumberAt(b, "id"))
  }

  lemma PolicyNumbers(id: int, p: Policy)
    ensures NumberAt(PolicyItem(id, p), "id") == id && NumberAt(PolicyItem(id, p), "priority") == p.priority
  {
  }

  predicate ListedBefore(db: Db, p: int, q: int) {
    && p in db.policies && q in db.policies
    && (|| db.policies[p].priority > db.policies[q].priority
        || (db.policies[p].priority == db.policies[q].priority && p < q))
  }

  lemma InOrder(rank: map<int, int>, ids: seq<int>, i: nat, j: nat)
    requires Sorted(rank, ids) && i < j < |ids|
    ensures ids[i] in rank && ids[j] in rank && ids[i] != ids[j] && Before(rank, ids[i], ids[j])
  {
  }

  lemma SortedByPriority(db: Db, ids: seq<int>)
    requires Sorted(PolicyRank(db), ids)
    ensures forall i, j | 0 <= i < j < |ids| :: ListedBefore(db, ids[i], ids[j])
  {
    hide Sorted;
    forall i, j | 0 <= i < j < |ids| ensures ListedBefore(db, ids[i], ids[j]) {
      InOrder(PolicyRank(db), ids, i, j);
    }
  }

  lemma PolicyOrder(db: Db, req: Request)
    requires req.op == POLICY_LIST
    ensures var all := WholeList(db, req);
            |all| == |db.policies| && forall i, j | 0 <= i < j < |all| :: ListedBefore(db, all[i], all[j])
  {
    hide Text, Sorted, Ordered, ListedBefore;
    OrderedIsSorted(PolicyRank(db));
    SortedByPriority(db, WholeList(db, req));
    assert PolicyRank(db).Keys == db.policies.Keys;
    SameSize(PolicyRank(db), db.policies);
  }

  /** All pages of POLICY_LIST together: every policy once, by descending priority and then by id. */
  lemma PoliciesRead(cfg: Config, db: Db, env: Env, req: Request, uid: int, n: nat)
    requires ReadsAll(cfg, db, env, req, uid, n) && req.op == POLICY_LIST
    ensures var items := ReadPages(cfg, db, env, req, n);
            && |items| == |db.policies|
            && (forall i, j | 0 <= i < j < |items| :: Precedes(items[i], items[j]))
            && forall item :: item in items <==> exists p | p in db.policies :: item == PolicyItem(p, db.policies[p])
  {
    hide ReadPages, ReadsAll, WholeList, PolicyItem, PolicyItems, Text, Precedes, ListedBefore;
    AllItems(cfg, db, env, req, uid, n);
    PoliciesWhole(db, req);
    PolicyOrder(db, req);
    PolicyItemsShow(db, WholeList(db, req), ReadPages(cfg, db, env, req, n));
  }

  /** Of policies in this order, the items are those of exactly these policies, in the order of the list. */
  lemma PolicyItemsShow(db: Db, ids: seq<int>, items: seq<Json>)
    requires (forall k :: k in ids <==> k in db.policies) && items == PolicyItems(db, ids)
    requires forall i, j | 0 <= i < j < |ids| :: ListedBefore(db, ids[i], ids[j])
    ensures |items| == |ids| && forall i, j | 0 <= i < j < |items| :: Precedes(items[i], items[j])
    ensures forall item :: item in items <==> exists p | p in db.policies :: item == PolicyItem(p, db.policies[p])
  {
    hide PolicyFields, FromRow, PolicyItem, NumberAt;
    forall i | 0 <= i < |ids|
      ensures && items[i] == PolicyItem(ids[i], db.policies[ids[i]]) && NumberAt(items[i], "id") == ids[i]
              && NumberAt(items[i], "priority") == db.policies[ids[i]].priority
    {
      PolicyAgrees(ids[i], db.policies[ids[i]]);
      PolicyNumbers(ids[i], db.policies[ids[i]]);
    }
    forall p | p in db.policies ensures PolicyItem(p, db.policies[p]) in items {
      var i :| 0 <= i < |ids| && ids[i] == p;
      assert items[i] == PolicyItem(p, db.policies[p]);
    }
  }

  // ---------------------------------------------------------------- totals and defaults

  /** The total counts rows of the table, of resources those of the type asked for. */
  lemma TotalCounts(cfg: Config, db: Db, env: Env, req: Request, uid: int, k: int)
    requires ListRequest(cfg, db, env, req, uid) && 1 <= k <= INT32_MAX
    ensures var rtype := Text(req.data, "resource_type");
            Field(Step(cfg, db, env, AtPage(req, k)).1.data, "total") == Number(
              match req.op
              case RESOURCE_LIST =>
                |set r | r in db.resources && (rtype == "" || db.resources[r].resourceType == rtype)|
              case POLICY_LIST => |db.policies|
              case _ => |db.users|)
  {
    hide Step, Caller, RoleMay, WholeList, Text, AtPage;
    ListTotal(cfg, db, env, req, uid, k);
    match req.op
    case RESOURCE_LIST => RowsCounted(db, req);
    case POLICY_LIST => PolicyOrder(db, req);
    case _ => AllUsers(db, req);
  }

  lemma RowsCounted(db: Db, req: Request)
    requires req.op == RESOURCE_LIST
    ensures var rtype := Text(req.data, "resource_type");
            |WholeList(db, req)| ==
            |set r | r in db.resources && (rtype == "" || db.resources[r].resourceType == rtype)|
  {
    hide Text;
    var rtype := Text(req.data, "resource_type");
    assert ResourceRank(db, rtype).Keys ==
           set r | r in db.resources && (rtype == "" || db.resources[r].resourceType == rtype);
    assert |ResourceRank(db, rtype)| == |ResourceRank(db, rtype).Keys|;
  }

  lemma SameList(cfg: Config, db: Db, env: Env, uid: int, op: Op, a: Object, b: Object)
    requires uid in db.attrs && Listed(op)
    requires ToInt(Field(a, "page"), 1) == ToInt(Field(b, "page"), 1)
    requires ToInt(Field(a, "page_size"), 50) == ToInt(Field(b, "page_size"), 50)
    requires Text(a, "resource_type") == Text(b, "resource_type")
    ensures DecideList(cfg, db, env, uid, op, a) == DecideList(cfg, db, env, uid, op, b)
  {
    hide ResourceItems, PolicyItems, UserItems, Page, Ordered, Text, ToInt, ResourceRank, PolicyRank, UserRank;
    hide DecideAuditQuery;
  }

  /** A list request without a page number is answered the first page. */
  lemma FirstPageByDefault(cfg: Config, db: Db, env: Env, req: Request, uid: int)
    requires ListRequest(cfg, db, env, req, uid) && "page" !in req.data
    ensures Step(cfg, db, env, req) == Step(cfg, db, env, AtPage(req, 1))
  {
    hide DecideList, Caller, RoleMay, Text, Apply, WriteAudit;
    CallerOf(cfg, db, env, req, uid);
    PageAlone(req, 1);
    SameList(cfg, db, env, uid, req.op, req.data, AtPage(req, 1).data);
  }
}
