/** Reading a list page by page. */
module Paging {
  import opened Prelude
  import opened Json
  import opened Protocol
  import opened Schema
  import opened Decisions
  import opened Listing
  import opened Server

  /** The same list request, asking for page k. */
  function AtPage(req: Request, k: int): Request {
    req.(data := req.data["page" := Number(k)])
  }

  function ItemsOf(resp: Response): seq<Json> {
    var v := Field(resp.data, "items");
    if v.Arr? then v.items else []
  }

  /** The number an item holds under a key. */
  function NumberAt(item: Json, key: string): int {
    var v := Field(ToObject(item), key);
    if v.Number? then v.n else 0
  }

  /** A missing reference reads as 0. */
  function IdOrZero(v: Option<int>): Json {
    Number(if v.Some? then v.value else 0)
  }

  /** The items of pages 1 to n, read one after another from unchanged tables. */
  ghost function ReadPages(cfg: Config, db: Db, env: Env, req: Request, n: nat): seq<Json> {
    if n == 0 then []
    else ReadPages(cfg, db, env, req, n - 1) + ItemsOf(Step(cfg, db, env, AtPage(req, n)).1)
  }

  predicate Listed(op: Op) {
    op == RESOURCE_LIST || op == POLICY_LIST || op == USER_LIST
  }

  /** A request for a list by a caller whose role may see it. */
  ghost predicate ListRequest(cfg: Config, db: Db, env: Env, req: Request, uid: int) {
    Listed(req.op) && Caller(cfg, db, env.now, req.token) == Some(uid) && uid in db.attrs
    && RoleMay(req.op, db.attrs[uid].role)
  }

  function PageSize(req: Request): int {
    ToInt(Field(req.data, "page_size"), 50)
  }

  /** The page numbers and offsets used stay within 32 bits. */
  predicate InRange(req: Request, n: nat) {
    PageSize(req) >= 1 && n <= INT32_MAX && (n > 0 ==> (n - 1) * PageSize(req) <= INT32_MAX)
  }

  // ---------------------------------------------------------------- the list behind the pages

  /** Resources and users are listed by id, policies by descending priority and then by id. */
  function RankFor(db: Db, op: Op, rtype: string): map<int, int> {
    match op
    case RESOURCE_LIST => ResourceRank(db, rtype)
    case POLICY_LIST => PolicyRank(db)
    case _ => UserRank(db)
  }

  ghost function WholeList(db: Db, req: Request): seq<int> {
    Ordered(RankFor(db, req.op, Text(req.data, "resource_type")))
  }

  predicate RowsExist(db: Db, op: Op, ids: seq<int>) {
    forall k | k in ids ::
      if op == RESOURCE_LIST then k in db.resources else if op == POLICY_LIST then k in db.policies else k in db.users
  }

  function ItemsFor(db: Db, now: int, uid: int, op: Op, ids: seq<int>): seq<Json>
    requires uid in db.attrs && RowsExist(db, op, ids)
  {
    match op
    case RESOURCE_LIST => ResourceItems(db, now, uid, ids)
    case POLICY_LIST => PolicyItems(db, ids)
    case _ => UserItems(db, ids)
  }

  predicate OfType(r: Resource, rtype: string) {
    rtype == "" || r.resourceType == rtype
  }

  /** The whole list holds exactly the rows of the table, of resources those of the type asked for, each once and in the
      order asked for. */
  lemma WholeListIsComplete(db: Db, req: Request)
    requires Listed(req.op)
    ensures var all := WholeList(db, req);
            var rank := RankFor(db, req.op, Text(req.data, "resource_type"));
            && RowsExist(db, req.op, all)
            && (req.op == RESOURCE_LIST ==>
                  var rtype := Text(req.data, "resource_type");
                  forall k :: k in all <==> (k in db.resources && OfType(db.resources[k], rtype)))
            && (req.op == POLICY_LIST ==> forall k :: k in all <==> k in db.policies)
            && (req.op == USER_LIST ==> forall k :: k in all <==> k in db.users)
            && Sorted(rank, all)
  {
    hide Ordered, Sorted, Text;
    var rtype := Text(req.data, "resource_type");
    OrderedIsSorted(RankFor(db, req.op, rtype));
    RankedRows(db, req.op, rtype);
  }

  /** The ids ranked for a listing are those of its rows. */
  lemma RankedRows(db: Db, op: Op, rtype: string)
    requires Listed(op)
    ensures forall k :: k in RankFor(db, op, rtype) <==>
              match op
              case RESOURCE_LIST => k in db.resources && OfType(db.resources[k], rtype)
              case POLICY_LIST => k in db.policies
              case _ => k in db.users
  {
  }

  // ---------------------------------------------------------------- one page

  /** A list request changes nothing and answers one page and the number of all rows. */
  lemma ListAnswer(cfg: Config, db: Db, env: Env, req: Request, uid: int, k: int)
    requires ListRequest(cfg, db, env, req, uid) && 1 <= k <= INT32_MAX
    ensures var (d, resp) := Step(cfg, db, env, AtPage(req, k));
            d == db && resp.status == Ok && resp.data == DecideList(cfg, db, env, uid, req.op, AtPage(req, k).data).data
  {
    hide DecideList, Caller;
  }

  lemma PageItems(cfg: Config, db: Db, env: Env, req: Request, uid: int, k: int)
    requires ListRequest(cfg, db, env, req, uid) && 1 <= k <= INT32_MAX
    ensures RowsExist(db, req.op, Page(WholeList(db, req), k, PageSize(req)))
    ensures ItemsOf(Step(cfg, db, env, AtPage(req, k)).1) ==
            ItemsFor(db, env.now, uid, req.op, Page(WholeList(db, req), k, PageSize(req)))
  {
    hide Step, ListRequest, DecideList, RankFor, ItemsFor, Text, Page, RowsExist, AtPage;
    OfList(cfg, db, env, req, uid);
    ListAnswer(cfg, db, env, req, uid, k);
    WholeListIsComplete(db, req);
    RowsOfPage(db, req.op, WholeList(db, req), k, PageSize(req));
    PageAlone(req, k);
    ListItems(cfg, db, env, uid, req.op, AtPage(req, k).data, Page(WholeList(db, req), k, PageSize(req)));
  }

  lemma RowsOfPage(db: Db, op: Op, ids: seq<int>, k: int, size: int)
    requires RowsExist(db, op, ids)
    ensures RowsExist(db, op, Page(ids, k, size))
  {
  }

  lemma ListItems(cfg: Config, db: Db, env: Env, uid: int, op: Op, data: Object, ids: seq<int>)
    requires Listed(op) && uid in db.attrs
    requires ids == Page(Ordered(RankFor(db, op, Text(data, "resource_type"))),
                         ToInt(Field(data, "page"), 1), ToInt(Field(data, "page_size"), 50))
    requires RowsExist(db, op, ids)
    ensures Field(DecideList(cfg, db, env, uid, op, data).data, "items") == Arr(ItemsFor(db, env.now, uid, op, ids))
  {
    hide ResourceItems, PolicyItems, UserItems, Page, Ordered, Text, ToInt, ResourceRank, PolicyRank, UserRank;
    hide DecideAuditQuery, RowsExist;
  }

  /** The total is the length of the whole list whatever the page, although a plain user is shown less of it. */
  lemma ListTotal(cfg: Config, db: Db, env: Env, req: Request, uid: int, k: int)
    requires ListRequest(cfg, db, env, req, uid) && 1 <= k <= INT32_MAX
    ensures Field(Step(cfg, db, env, AtPage(req, k)).1.data, "total") == Number(|WholeList(db, req)|)
  {
    hide Step, ListRequest, DecideList, RankFor, Text;
    OfList(cfg, db, env, req, uid);
    ListAnswer(cfg, db, env, req, uid, k);
    var data := AtPage(req, k).data;
    ListSize(cfg, db, env, uid, req.op, data);
    assert Text(data, "resource_type") == Text(req.data, "resource_type") by { PageAlone(req, k); }
  }

  /** Asking for page k sets the page number and nothing else. */
  lemma PageAlone(req: Request, k: int)
    ensures 1 <= k <= INT32_MAX ==> ToInt(Field(AtPage(req, k).data, "page"), 1) == k
    ensures PageSize(AtPage(req, k)) == PageSize(req)
    ensures Text(AtPage(req, k).data, "resource_type") == Text(req.data, "resource_type")
  {
  }

  lemma ListSize(cfg: Config, db: Db, env: Env, uid: int, op: Op, data: Object)
    requires Listed(op) && uid in db.attrs
    ensures Field(DecideList(cfg, db, env, uid, op, data).data, "total") ==
            Number(|Ordered(RankFor(db, op, Text(data, "resource_type")))|)
  {
    hide ResourceItems, PolicyItems, UserItems, Page, Text, ToInt, ResourceRank, Ordered, DecideAuditQuery;
    assert PolicyRank(db).Keys == db.policies.Keys && UserRank(db).Keys == db.users.Keys;
    hide PolicyRank, UserRank;
    SameSize(PolicyRank(db), db.policies);
    SameSize(UserRank(db), db.users);
  }

  lemma OfList(cfg: Config, db: Db, env: Env, req: Request, uid: int)
    requires ListRequest(cfg, db, env, req, uid)
    ensures Listed(req.op) && uid in db.attrs
  {
    hide Caller, RoleMay;
  }

  lemma SameSize<T, U>(a: map<int, T>, b: map<int, U>)
    requires a.Keys == b.Keys
    ensures |a| == |b|
  {
    assert |a| == |a.Keys| == |b.Keys| == |b|;
  }

  // ---------------------------------------------------------------- all pages

  lemma {:induction false} ResourceItemsConcat(db: Db, now: int, uid: int, a: seq<int>, b: seq<int>)
    requires uid in db.attrs && (forall k | k in a :: k in db.resources) && (forall k | k in b :: k in db.resources)
    ensures ResourceItems(db, now, uid, a + b) == ResourceItems(db, now, uid, a) + ResourceItems(db, now, uid, b)
  {
    hide Visible, ResourceFields;
    if b == [] {
      assert a + b == a;
    } else {
      assert (a + b)[..|a + b| - 1] == a + b[..|b| - 1];
      ResourceItemsConcat(db, now, uid, a, b[..|b| - 1]);
    }
  }

  /** A resource is shown exactly when it is among the rows read and, for a plain user, readable by that user. */
  lemma {:induction false} ShownResources(db: Db, now: int, uid: int, ids: seq<int>, item: Json)
    requires uid in db.attrs && forall k | k in ids :: k in db.resources
    ensures item in ResourceItems(db, now, uid, ids) <==>
            exists k | k in ids ::
              && (db.attrs[uid].role == "user" ==> Allowed(db, now, uid, k, "read", db.resources[k].resourceType))
              && item == Obj(ResourceFields(k, db.resources[k]))
  {
    hide Allowed, ResourceFields;
    if ids != [] {
      ShownResources(db, now, uid, ids[..|ids| - 1], item);
      assert forall k :: k in ids <==> k in ids[..|ids| - 1] || k == ids[|ids| - 1];
    }
  }

  lemma ItemsConcat(db: Db, now: int, uid: int, op: Op, a: seq<int>, b: seq<int>)
    requires uid in db.attrs && RowsExist(db, op, a) && RowsExist(db, op, b)
    ensures RowsExist(db, op, a + b)
    ensures ItemsFor(db, now, uid, op, a + b) == ItemsFor(db, now, uid, op, a) + ItemsFor(db, now, uid, op, b)
  {
    hide ResourceItems, PolicyItems, UserItems;
    match op
    case RESOURCE_LIST => ResourceItemsConcat(db, now, uid, a, b);
    case POLICY_LIST => PolicyItemsConcat(db, a, b);
    case _ => UserItemsConcat(db, a, b);
  }

  lemma PolicyItemsConcat(db: Db, a: seq<int>, b: seq<int>)
    requires (forall k | k in a :: k in db.policies) && (forall k | k in b :: k in db.policies)
    ensures PolicyItems(db, a + b) == PolicyItems(db, a) + PolicyItems(db, b)
  {
    hide PolicyFields, FromRow;
  }

  lemma UserItemsConcat(db: Db, a: seq<int>, b: seq<int>)
    requires (forall k | k in a :: k in db.users) && (forall k | k in b :: k in db.users)
    ensures UserItems(db, a + b) == UserItems(db, a) + UserItems(db, b)
  {
    hide AccountFields, AttrsOf;
  }

  /** Reading pages 1 to n gives the items of the first n * size rows in order, each once; of resources a plain user
      gets those it may read. With enough pages that is the whole list. */
  lemma {:induction false} PagesPartition(cfg: Config, db: Db, env: Env, req: Request, uid: int, n: nat)
    requires ListRequest(cfg, db, env, req, uid) && InRange(req, n)
    ensures n * PageSize(req) >= 0
    ensures var all := WholeList(db, req);
            var read := all[..Min(n * PageSize(req), |all|)];
            RowsExist(db, req.op, read) && ReadPages(cfg, db, env, req, n) == ItemsFor(db, env.now, uid, req.op, read)
  {
    var all, size := WholeList(db, req), PageSize(req);
    hide Step, Caller, RoleMay, ItemsFor, WholeList, AtPage, PageSize, Page;
    PagesArePrefix(all, n, size);
    WholeListIsComplete(db, req);
    if n == 0 {
      NoItems(db, env.now, uid, req.op);
    } else {
      assert n > 1 ==> (n - 2) * size <= (n - 1) * size;
      PagesArePrefix(all, n - 1, size);
      PagesPartition(cfg, db, env, req, uid, n - 1);
      PageItems(cfg, db, env, req, uid, n);
      ItemsConcat(db, env.now, uid, req.op, Pages(all, n - 1, size), Page(all, n, size));
    }
  }

  lemma NoItems(db: Db, now: int, uid: int, op: Op)
    requires uid in db.attrs
    ensures RowsExist(db, op, []) && ItemsFor(db, now, uid, op, []) == []
  {
  }

  /** Reading all pages reads the whole list. */
  ghost predicate ReadsAll(cfg: Config, db: Db, env: Env, req: Request, uid: int, n: nat) {
    ListRequest(cfg, db, env, req, uid) && InRange(req, n) && n * PageSize(req) >= |WholeList(db, req)|
  }

  lemma AllItems(cfg: Config, db: Db, env: Env, req: Request, uid: int, n: nat)
    requires ReadsAll(cfg, db, env, req, uid, n)
    ensures uid in db.attrs && RowsExist(db, req.op, WholeList(db, req))
    ensures ReadPages(cfg, db, env, req, n) == ItemsFor(db, env.now, uid, req.op, WholeList(db, req))
  {
    hide ReadPages, WholeList, PageSize, Caller, RoleMay, ItemsFor, RowsExist;
    var all := WholeList(db, req);
    PagesPartition(cfg, db, env, req, uid, n);
    assert all[..Min(n * PageSize(req), |all|)] == all;
  }

  /** Every policy is among the items of all POLICY_LIST pages. */
  lemma PolicyIsListed(cfg: Config, db: Db, env: Env, req: Request, uid: int, n: nat, pid: int)
    requires ReadsAll(cfg, db, env, req, uid, n) && req.op == POLICY_LIST && pid in db.policies
    ensures Obj(PolicyFields(FromRow(pid, db.policies[pid]))) in ReadPages(cfg, db, env, req, n)
  {
    hide ReadPages, ReadsAll, WholeList, PolicyFields, FromRow;
    AllItems(cfg, db, env, req, uid, n);
    var all := WholeList(db, req);
    assert pid in all by { PoliciesWhole(db, req); }
    var i :| 0 <= i < |all| && all[i] == pid;
    assert PolicyItems(db, all)[i] == Obj(PolicyFields(FromRow(pid, db.policies[pid])));
  }

  lemma PoliciesWhole(db: Db, req: Request)
    requires req.op == POLICY_LIST
    ensures forall pid :: pid in WholeList(db, req) <==> pid in db.policies
  {
    WholeListIsComplete(db, req);
  }

  /** Every account is among the items of all USER_LIST pages. */
  lemma UserIsListed(cfg: Config, db: Db, env: Env, req: Request, uid: int, n: nat, u: int)
    requires ReadsAll(cfg, db, env, req, uid, n) && req.op == USER_LIST && u in db.users
    ensures Obj(AccountFields(u, db.users[u], AttrsOf(db, u))) in ReadPages(cfg, db, env, req, n)
  {
    hide ReadPages, ReadsAll, WholeList, AccountFields, AttrsOf;
    AllItems(cfg, db, env, req, uid, n);
    var all := WholeList(db, req);
    assert u in all by { UsersWhole(db, req); }
    var i :| 0 <= i < |all| && all[i] == u;
    assert UserItems(db, all)[i] == Obj(AccountFields(u, db.users[u], AttrsOf(db, u)));
  }

  lemma UsersWhole(db: Db, req: Request)
    requires req.op == USER_LIST
    ensures forall u :: u in WholeList(db, req) <==> u in db.users
  {
    WholeListIsComplete(db, req);
  }

  // ---------------------------------------------------------------- lists and access checks

  /** ACCESS_CHECK answers the access relation. Its caller has passed the token check, so it is active with attributes,
      and only a lock or the lack of a policy can be the reason of a denial. */
  lemma AccessAnswer(cfg: Config, db: Db, env: Env, check: Request, uid: int, rid: int, action: string)
    requires check.op == ACCESS_CHECK && Caller(cfg, db, env.now, check.token) == Some(uid)
    requires Id(check.data, "resource_id") == rid && Text(check.data, "action") == action
    ensures var resp := Step(cfg, db, env, check).1;
            && (resp.status == Ok <==>
                  && rid > 0 && action != "" && rid in db.resources
                  && Allowed(db, env.now, uid, rid, action, db.resources[rid].resourceType))
            && (resp.code == ACCESS_DENIED ==>
                  resp.message == if Locked(db.users[uid], env.now) then "account_locked" else "no_matching_policy")
    ensures Step(cfg, db, env, check).0 == db
  {
    hide DecideAuth, DecideAdmin, DecideList, Caller, Id, Text, Allowed, Locked;
  }

  lemma InWholeList(db: Db, req: Request, rid: int)
    requires req.op == RESOURCE_LIST && rid in db.resources
    requires OfType(db.resources[rid], Text(req.data, "resource_type"))
    ensures rid in WholeList(db, req) && RowsExist(db, RESOURCE_LIST, WholeList(db, req))
  {
    hide Text;
  }

  lemma SameItem(a: int, r: Resource, b: int, q: Resource)
    requires ResourceFields(a, r) == ResourceFields(b, q)
    ensures a == b
  {
    assert Number(a) == ResourceFields(a, r)["id"] == ResourceFields(b, q)["id"] == Number(b);
  }

  /** The list and the check agree: on reading all pages, a plain user is shown a resource (of the type asked for)
      exactly when an ACCESS_CHECK of the same token for reading it is answered ok. */
  lemma ListedIffReadable(cfg: Config, db: Db, env: Env, req: Request, uid: int, n: nat, check: Request, rid: int)
    requires ReadsAll(cfg, db, env, req, uid, n) && req.op == RESOURCE_LIST && db.attrs[uid].role == "user"
    requires rid in db.resources && rid > 0
    requires OfType(db.resources[rid], Text(req.data, "resource_type"))
    requires check.op == ACCESS_CHECK && check.token == req.token
    requires Id(check.data, "resource_id") == rid && Text(check.data, "action") == "read"
    ensures Obj(ResourceFields(rid, db.resources[rid])) in ReadPages(cfg, db, env, req, n) <==>
            Step(cfg, db, env, check).1.status == Ok
  {
    hide Step, ReadPages, WholeList, PageSize, Caller, RoleMay, Id, Text, ResourceFields, Allowed, ResourceItems;
    var all := WholeList(db, req);
    InWholeList(db, req, rid);
    AllItems(cfg, db, env, req, uid, n);
    ShownResources(db, env.now, uid, all, Obj(ResourceFields(rid, db.resources[rid])));
    AccessAnswer(cfg, db, env, check, uid, rid, "read");
    forall k | k in all && ResourceFields(k, db.resources[k]) == ResourceFields(rid, db.resources[rid])
      ensures k == rid
    {
      SameItem(k, db.resources[k], rid, db.resources[rid]);
    }
  }
}
