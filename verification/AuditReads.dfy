/** What an audit query shows, told from the request's own fields and the columns of the log. */
module AuditReads {
  import opened Prelude
  import opened Json
  import opened Protocol
  import opened Schema
  import opened Listing
  import opened Server
  import opened Paging
  import opened Audit

  /** The row is at or after "from" and at or before "to", by the actor "actor_id" and of the action "action", as far as
      the request names them; a time that cannot be read is met by no row. */
  predicate Asked(cfg: Config, data: Object, r: AuditRow) {
    var (from, to, actor, action) := (Text(data, "from"), Text(data, "to"), Id(data, "actor_id"), Text(data, "action"));
    && (from != "" ==> cfg.parseTime(from).Some? && r.ts >= cfg.parseTime(from).value)
    && (to != "" ==> cfg.parseTime(to).Some? && r.ts <= cfg.parseTime(to).value)
    && (actor > 0 ==> r.actorId == Some(actor))
    && (action != "" ==> r.action == action)
  }

  /** The item of a row, key by key; details are shown where there are any. */
  function AuditItem(r: AuditRow): Json {
    var columns: Object :=
      map["id" := Number(r.id), "ts" := Number(r.ts), "actor_id" := IdOrZero(r.actorId),
          "actor_name" := Str(r.actorName), "action" := Str(r.action), "target_type" := Str(r.targetType), "target_id" := IdOrZero(r.targetId),
          "result" := Str(r.result)];
    Obj(if r.details == None then columns else columns["details" := Obj(ToObject(r.details.value))])
  }

  lemma ItemAgrees(r: AuditRow)
    ensures Obj(AuditFields(r)) == AuditItem(r)
  {
  }

  function QuerySize(req: Request): int {
    ToInt(Field(req.data, "page_size"), 100)
  }

  ghost predicate Unreadable(cfg: Config, data: Object) {
    || (Text(data, "from") != "" && cfg.parseTime(Text(data, "from")).None?)
    || (Text(data, "to") != "" && cfg.parseTime(Text(data, "to")).None?)
  }

  lemma FilterMeans(cfg: Config, data: Object)
    ensures var f := AuditFilterOf(data);
            && f.size == ToInt(Field(data, "page_size"), 100)
            && (FilterReadable(cfg, f) <==> !Unreadable(cfg, data))
            && (FilterReadable(cfg, f) ==> forall r :: AuditHit(cfg, f, r) <==> Asked(cfg, data, r))
            && (!FilterReadable(cfg, f) ==> forall r :: !Asked(cfg, data, r))
  {
    hide Text, Id, ToInt;
  }

  /** The items of rows are those of the rows listed, each once, in their order. */
  lemma {:induction false} ItemsShow(rows: seq<AuditRow>)
    ensures |AuditItems(rows)| == |rows| && forall i | 0 <= i < |rows| :: AuditItems(rows)[i] == AuditItem(rows[i])
  {
    hide AuditFields, AuditItem;
    forall i | 0 <= i < |rows| ensures AuditItems(rows)[i] == AuditItem(rows[i]) {
      ItemAgrees(rows[i]);
    }
  }

  lemma ItemTime(r: AuditRow)
    ensures NumberAt(AuditItem(r), "ts") == r.ts
  {
  }

  /** The rows a query asks for. */
  ghost function AskedRows(cfg: Config, data: Object, audit: seq<AuditRow>): set<AuditRow> {
    set r | r in audit && Asked(cfg, data, r)
  }

  lemma AskedStep(cfg: Config, data: Object, rows: seq<AuditRow>)
    requires rows != [] && rows[0] !in rows[1..]
    ensures |AskedRows(cfg, data, rows)| ==
            |AskedRows(cfg, data, rows[1..])| + (if Asked(cfg, data, rows[0]) then 1 else 0)
  {
    hide Asked;
    var rest := AskedRows(cfg, data, rows[1..]);
    assert forall r :: r in rows <==> r == rows[0] || r in rows[1..];
    assert AskedRows(cfg, data, rows) == if Asked(cfg, data, rows[0]) then rest + {rows[0]} else rest;
  }

  /** Of rows that differ pairwise there are as many hits as different rows asked for. */
  lemma {:induction false} HitsCounted(cfg: Config, data: Object, rows: seq<AuditRow>)
    requires FilterReadable(cfg, AuditFilterOf(data))
    requires forall i, j | 0 <= i < j < |rows| :: rows[i] != rows[j]
    ensures |AuditHits(cfg, AuditFilterOf(data), rows)| == |AskedRows(cfg, data, rows)|
  {
    hide AuditHit, FilterReadable, AuditFilterOf, Asked, AskedRows;
    if rows == [] {
      NoneAsked(cfg, data);
    } else {
      FilterMeans(cfg, data);
      HitsCounted(cfg, data, rows[1..]);
      AskedStep(cfg, data, rows);
    }
  }

  lemma NoneAsked(cfg: Config, data: Object)
    ensures AskedRows(cfg, data, []) == {}
  {
  }

  lemma RowsDiffer(db: Db)
    requires Integrity(db)
    ensures forall i, j | 0 <= i < j < |db.audit| :: db.audit[i] != db.audit[j]
  {
    assert AuditIntact(db.audit, db.nextAudit, db.users.Keys);
    hide Integrity;
  }

  /** An audit query with a valid token of an administrator or auditor. */
  ghost predicate Query(cfg: Config, db: Db, env: Env, req: Request) {
    && req.op == AUDIT_QUERY
    && var c := Caller(cfg, db, env.now, req.token);
       c.Some? && (db.attrs[c.value].role == "admin" || db.attrs[c.value].role == "auditor")
  }

  lemma QueryIsRequest(cfg: Config, db: Db, env: Env, req: Request)
    requires Query(cfg, db, env, req)
    ensures AuditRequest(cfg, db, env, req)
  {
    hide Caller;
  }

  /** One page answers ok, changes nothing, and its total counts the rows asked for. */
  lemma QueryTotal(cfg: Config, db: Db, env: Env, req: Request, k: int)
    requires Integrity(db) && Query(cfg, db, env, req) && 1 <= k <= INT32_MAX
    ensures var (d, resp) := Step(cfg, db, env, AtPage(req, k));
            && d == db && resp.status == Ok
            && Field(resp.data, "total") == Number(|AskedRows(cfg, req.data, db.audit)|)
  {
    hide Step, Caller, AuditFilterOf, AuditHits, AuditItems, Page, Asked, AuditRequest, Integrity, FilterReadable;
    QueryIsRequest(cfg, db, env, req);
    AuditPage(cfg, db, env, req, k);
    FilterMeans(cfg, req.data);
    RowsDiffer(db);
    if FilterReadable(cfg, AuditFilterOf(req.data)) {
      HitsCounted(cfg, req.data, db.audit);
    } else {
      assert AskedRows(cfg, req.data, db.audit) == {};
    }
  }

  lemma {:induction false} UnreadableShowsNothing(cfg: Config, db: Db, env: Env, req: Request, n: nat)
    requires AuditRequest(cfg, db, env, req) && !FilterReadable(cfg, AuditFilterOf(req.data)) && n <= INT32_MAX
    ensures ReadPages(cfg, db, env, req, n) == []
  {
    hide Step, AuditRequest, AuditFilterOf, FilterReadable, AtPage, AuditHits, AuditItems, Page;
    if n > 0 {
      UnreadableShowsNothing(cfg, db, env, req, n - 1);
      AuditPage(cfg, db, env, req, n);
    }
  }

  /** The rows listed are those of the table, and what a filter leaves of either is the same rows. */
  lemma SameHits(cfg: Config, data: Object, audit: seq<AuditRow>, rows: seq<AuditRow>)
    requires FilterReadable(cfg, AuditFilterOf(data)) && multiset(rows) == multiset(audit)
    ensures forall r :: r in AuditHits(cfg, AuditFilterOf(data), rows) <==> r in audit && Asked(cfg, data, r)
  {
    hide AuditHits, FilterReadable, AuditFilterOf, Asked;
    FilterMeans(cfg, data);
    HitsAreHits(cfg, AuditFilterOf(data), rows);
    assert forall r :: r in rows <==> r in multiset(rows);
    assert forall r :: r in audit <==> r in multiset(audit);
  }

  /** All pages of an audit query together, the database keeping to one order of equal instants: newest first, each row
      of the log once that the request asks for, and no other. */
  lemma QueryShows(cfg: Config, db: Db, env: Env, req: Request, n: nat)
    requires Integrity(db) && Query(cfg, db, env, req)
    requires multiset(env.auditOrder) == multiset(db.audit)
    requires forall i, j | 0 <= i < j < |env.auditOrder| :: env.auditOrder[i].ts >= env.auditOrder[j].ts
    requires QuerySize(req) >= 1 && n <= INT32_MAX && (n > 0 ==> (n - 1) * QuerySize(req) <= INT32_MAX)
    requires n * QuerySize(req) >= |db.audit|
    ensures var items := ReadPages(cfg, db, env, req, n);
            && |items| == |AskedRows(cfg, req.data, db.audit)|
            && (forall i, j | 0 <= i < j < |items| :: NumberAt(items[i], "ts") >= NumberAt(items[j], "ts"))
            && forall item :: item in items <==>
                 exists r | r in db.audit :: Asked(cfg, req.data, r) && item == AuditItem(r)
  {
    hide Step, Caller, AuditFilterOf, AuditHits, AuditItems, Page, Asked, AuditRequest, Integrity, FilterReadable;
    hide ReadPages, AuditItem, NumberAt;
    QueryIsRequest(cfg, db, env, req);
    FilterMeans(cfg, req.data);
    RowsDiffer(db);
    var f := AuditFilterOf(req.data);
    if FilterReadable(cfg, f) {
      AuditPagesPartition(cfg, db, env, req, n);
      HitsCounted(cfg, req.data, db.audit);
      HitsAtMost(cfg, f, env.auditOrder);
      var hits := AuditHits(cfg, f, env.auditOrder);
      assert |env.auditOrder| == |multiset(env.auditOrder)| == |multiset(db.audit)| == |db.audit|;
      assert hits[..Min(n * f.size, |hits|)] == hits;
      SameHits(cfg, req.data, db.audit, env.auditOrder);
      ShownRows(hits, ReadPages(cfg, db, env, req, n));
    } else {
      UnreadableShowsNothing(cfg, db, env, req, n);
      assert AskedRows(cfg, req.data, db.audit) == {};
    }
  }

  lemma {:induction false} HitsAtMost(cfg: Config, f: AuditFilter, rows: seq<AuditRow>)
    requires FilterReadable(cfg, f)
    ensures |AuditHits(cfg, f, rows)| <= |rows|
  {
    if rows != [] {
      HitsAtMost(cfg, f, rows[1..]);
    }
  }

  lemma ShownRows(rows: seq<AuditRow>, items: seq<Json>)
    requires items == AuditItems(rows) && NewestFirst(rows)
    ensures |items| == |rows|
    ensures forall i, j | 0 <= i < j < |items| :: NumberAt(items[i], "ts") >= NumberAt(items[j], "ts")
    ensures forall item :: item in items <==> exists r | r in rows :: item == AuditItem(r)
  {
    hide AuditItems, AuditItem, NumberAt;
    ItemsShow(rows);
    forall i | 0 <= i < |rows| ensures NumberAt(items[i], "ts") == rows[i].ts {
      ItemTime(rows[i]);
    }
    forall r | r in rows ensures AuditItem(r) in items {
      var i :| 0 <= i < |rows| && rows[i] == r;
      assert items[i] == AuditItem(r);
    }
  }

  /** Without a page number a query is answered its first page. */
  lemma FirstPageOfQuery(cfg: Config, db: Db, env: Env, req: Request)
    requires Query(cfg, db, env, req) && "page" !in req.data
    ensures Step(cfg, db, env, req) == Step(cfg, db, env, AtPage(req, 1))
  {
    hide Caller, AuditFilterOf, DecideAuditQuery, Step;
    QueryIsRequest(cfg, db, env, req);
    QueryIsRequest(cfg, db, env, AtPage(req, 1));
    QueryAnswer(cfg, db, env, req);
    QueryAnswer(cfg, db, env, AtPage(req, 1));
    FilterAtPage(req, 1);
    PageOfFilter(req.data);
  }

  lemma PageOfFilter(data: Object)
    ensures AuditFilterOf(data).page == ToInt(Field(data, "page"), 1)
  {
    hide Text, Id, ToInt;
  }
}
