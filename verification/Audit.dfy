/** The audit log over whole runs: complete, append-only, and queried consistently. */
module Audit {
  import opened Prelude
  import opened Json
  import opened Protocol
  import opened Schema
  import opened Decisions
  import opened Server
  import opened Listing
  import opened Runs
  import opened Tokens
  import opened Paging

  /** How many of the first n requests were accepted logins or accepted administrative changes. */
  ghost function Notable(run: Run, n: nat): nat
    requires n <= |run.events|
  {
    if n == 0 then 0
    else Notable(run, n - 1)
         + (if Audited(run.events[n - 1].req.op) && run.Answer(n - 1).status == Ok then 1 else 0)
  }

  /** The user of an audit row at moment m, seen at moment n: gone if deleted in between. */
  ghost function ActorLater(run: Run, m: nat, n: nat, actor: Option<int>): Option<int>
    requires m <= n <= |run.events|
  {
    if actor.Some? && exists j: nat | m <= j < n :: Deleted(run, j, actor.value) then None else actor
  }

  lemma EffectOnAudit(db: Db, now: int, e: Effect)
    requires Applicable(db, e)
    ensures var d := Apply(db, now, e);
            && |d.audit| == |db.audit|
            && forall k | 0 <= k < |db.audit| ::
                 d.audit[k] == if e.DropUser? then WithoutActor(db.audit[k], e.uid) else db.audit[k]
  {
  }

  lemma StepOnAudit(run: Run, n: nat)
    requires run.Valid() && n < |run.events|
    ensures var (a, b) := (run.State(n).audit, run.State(n + 1).audit);
            && |b| == |a| + (if Audited(run.events[n].req.op) && run.Answer(n).status == Ok then 1 else 0)
            && forall k | 0 <= k < |a| :: b[k] == a[k].(actorId := ActorLater(run, n, n + 1, a[k].actorId))
  {
    hide Decide, Apply, Step, Caller, Id, Integrity;
    var db, env, req, o := run.State(n), run.events[n].env, run.events[n].req, run.Outcome(n);
    StatesIntact(run, n);
    Advance(run, n);
    EffectOnAudit(db, env.now, o.effect);
    NotesAreComplete(run.cfg, db, env, req);
    UsersAfter(db, env.now, o.effect);
    DropUserMeansDelete(run.cfg, db, env, req);
    forall k | 0 <= k < |db.audit|
      ensures ActorLater(run, n, n + 1, db.audit[k].actorId)
           == if o.effect.DropUser? then Cleared(db.audit[k].actorId, o.effect.uid) else db.audit[k].actorId
    {
      ActorNext(run, n, n, db.audit[k].actorId);
    }
  }

  lemma ActorNext(run: Run, m: nat, n: nat, actor: Option<int>)
    requires m <= n < |run.events|
    ensures ActorLater(run, m, n + 1, actor) ==
            var before := ActorLater(run, m, n, actor);
            if before.Some? && Deleted(run, n, before.value) then None else before
    ensures ActorLater(run, n, n, actor) == actor
  {
    hide Deleted;
    if actor.Some? && exists j: nat | m <= j < n + 1 :: Deleted(run, j, actor.value) {
      var j: nat :| m <= j < n + 1 && Deleted(run, j, actor.value);
      assert j < n || j == n;
    }
  }

  lemma UsersAfter(db: Db, now: int, e: Effect)
    requires Applicable(db, e)
    ensures forall u | u in db.users && !(e.DropUser? && e.uid == u) :: u in Apply(db, now, e).users
  {
  }

  /** The log grows by exactly one row per accepted login or administrative change, and by nothing else. */
  lemma {:induction false} AuditIsComplete(run: Run, n: nat)
    requires run.Valid() && n <= |run.events|
    ensures |run.State(n).audit| == |run.init.audit| + Notable(run, n)
  {
    hide Decide, Apply, Step, Integrity;
    if n > 0 {
      AuditIsComplete(run, n - 1);
      StepOnAudit(run, n - 1);
    }
  }

  /** A row once written stays at its place with all its columns, except that the reference to its actor is cleared
      exactly when that user is deleted. */
  lemma {:induction false} AuditIsImmutable(run: Run, m: nat, n: nat, k: nat)
    requires run.Valid() && m <= n <= |run.events| && k < |run.State(m).audit|
    ensures k < |run.State(n).audit|
    ensures var row := run.State(m).audit[k];
            run.State(n).audit[k] == row.(actorId := ActorLater(run, m, n, row.actorId))
  {
    hide Decide, Apply, Step, Integrity, Deleted;
    if m < n {
      AuditIsImmutable(run, m, n - 1, k);
      StepOnAudit(run, n - 1);
      var row := run.State(m).audit[k];
      ActorNext(run, m, n - 1, row.actorId);
      ActorNext(run, n - 1, n - 1, run.State(n - 1).audit[k].actorId);
    } else {
      hide ActorLater;
      var row := run.State(m).audit[k];
      if m < |run.events| { ActorNext(run, m, m, row.actorId); }
    }
  }

  // ---------------------------------------------------------------- what a row tells

  /** The action and kind of target noted for an operation; grants and revocations are noted as policy changes. */
  function NotedAs(op: Op): (string, string) {
    match op
    case AUTH => ("AUTH_SUCCESS", "user")
    case RESOURCE_CREATE => ("RESOURCE_CREATE", "resource")
    case RESOURCE_UPDATE => ("RESOURCE_UPDATE", "resource")
    case RESOURCE_DELETE => ("RESOURCE_DELETE", "resource")
    case POLICY_CREATE => ("POLICY_CREATE", "policy")
    case POLICY_UPDATE => ("POLICY_UPDATE", "policy")
    case POLICY_DELETE => ("POLICY_DELETE", "policy")
    case USER_CREATE => ("USER_CREATE", "user")
    case USER_UPDATE => ("USER_UPDATE", "user")
    case USER_DELETE => ("USER_DELETE", "user")
    case GRANT_ACCESS => ("POLICY_CREATE", "policy")
    case REVOKE_ACCESS => ("POLICY_DELETE", "policy")
    case _ => ("", "")
  }

  /** The id a change is about: the one answered for a creation, the one asked for otherwise. */
  function AboutId(req: Request, resp: Response): Json {
    match req.op
    case RESOURCE_CREATE => Field(resp.data, "id")
    case POLICY_CREATE => Field(resp.data, "id")
    case USER_CREATE => Field(resp.data, "id")
    case GRANT_ACCESS => Field(resp.data, "policy_id")
    case RESOURCE_UPDATE => Number(Id(req.data, "resource_id"))
    case RESOURCE_DELETE => Number(Id(req.data, "resource_id"))
    case USER_UPDATE => Number(Id(req.data, "user_id"))
    case USER_DELETE => Number(Id(req.data, "user_id"))
    case _ => Number(Id(req.data, "policy_id"))
  }

  /** The note of an accepted change by administrator c. */
  predicate NoteFits(db: Db, c: int, req: Request, o: Outcome)
    requires c in db.attrs
  {
    && o.note.Some? && o.note.value.actorId == c && o.note.value.actorName == db.attrs[c].role
    && (o.note.value.action, o.note.value.targetType) == NotedAs(req.op)
    && o.note.value.targetId > 0 && Number(o.note.value.targetId) == AboutId(req, Respond(req, o))
    && o.note.value.details == DetailsOf(req)
  }

  /** Only a grant is noted with details: that it is one, to whom and on what. */
  function DetailsOf(req: Request): Object {
    if req.op != GRANT_ACCESS then map[]
    else map["grant" := Bool(true), "subject" := Number(Id(req.data, "subject_id")),
             "resource" := Number(Id(req.data, "resource_id"))]
  }

  lemma ResourceNotes(db: Db, c: int, req: Request)
    requires c in db.attrs && db.nextResource > 0
    ensures req.op == RESOURCE_CREATE && DecideResourceCreate(db, c, req.data).status == Ok ==>
              NoteFits(db, c, req, DecideResourceCreate(db, c, req.data))
    ensures req.op == RESOURCE_UPDATE && DecideResourceUpdate(db, c, req.data).status == Ok ==>
              NoteFits(db, c, req, DecideResourceUpdate(db, c, req.data))
    ensures req.op == RESOURCE_DELETE && DecideResourceDelete(db, c, req.data).status == Ok ==>
              NoteFits(db, c, req, DecideResourceDelete(db, c, req.data))
  {
    hide Id, Text, Admissible, MergedResource, ResourceOk, AdminOutcome;
  }

  lemma PolicyNotes(db: Db, c: int, req: Request)
    requires c in db.attrs && db.nextPolicy > 0
    ensures req.op == POLICY_CREATE && DecidePolicyCreate(db, c, req.data).status == Ok ==>
              NoteFits(db, c, req, DecidePolicyCreate(db, c, req.data))
    ensures req.op == GRANT_ACCESS && DecideGrant(db, c, req.data).status == Ok ==>
              NoteFits(db, c, req, DecideGrant(db, c, req.data))
  {
    hide Id, Text, Admissible, ToRow, RecordOf, GrantRecord, AdminOutcome;
  }

  lemma PolicyChangeNotes(db: Db, c: int, req: Request)
    requires c in db.attrs
    ensures req.op == POLICY_UPDATE && DecidePolicyUpdate(db, c, req.data).status == Ok ==>
              NoteFits(db, c, req, DecidePolicyUpdate(db, c, req.data))
    ensures req.op in {POLICY_DELETE, REVOKE_ACCESS} && DecidePolicyDelete(db, c, req.data).status == Ok ==>
              NoteFits(db, c, req, DecidePolicyDelete(db, c, req.data))
  {
    hide Id, Text, Admissible, MergedPolicy, FromRow, UpdatedRow, PolicyRank, Page, Ordered, NameIsNull, AdminOutcome;
  }

  lemma UserNotes(cfg: Config, db: Db, env: Env, c: int, req: Request)
    requires c in db.attrs && db.nextUser > 0
    ensures req.op == USER_CREATE && DecideUserCreate(cfg, db, env, c, req.data).status == Ok ==>
              NoteFits(db, c, req, DecideUserCreate(cfg, db, env, c, req.data))
    ensures req.op == USER_UPDATE && DecideUserUpdate(db, c, req.data).status == Ok ==>
              NoteFits(db, c, req, DecideUserUpdate(db, c, req.data))
    ensures req.op == USER_DELETE && DecideUserDelete(db, c, req.data).status == Ok ==>
              NoteFits(db, c, req, DecideUserDelete(db, c, req.data))
  {
    hide Id, Text, Admissible, NewUser, NewAttrs, AttrsOk, AttrsChange, AdminOutcome;
  }

  lemma AdminNote(cfg: Config, db: Db, env: Env, req: Request)
    requires Integrity(db) && ByAdmin(cfg, db, env, req) && AdminChange(req.op)
    requires Decide(cfg, db, env, req).status == Ok
    ensures NoteFits(db, Caller(cfg, db, env.now, req.token).value, req, Decide(cfg, db, env, req))
  {
    assert db.nextUser > 0 && db.nextResource > 0 && db.nextPolicy > 0;
    hide Decide, Caller, NoteFits, Integrity, DecideResourceCreate, DecideResourceUpdate, DecideResourceDelete;
    hide DecidePolicyCreate, DecidePolicyUpdate, DecidePolicyDelete, DecideGrant, Admissible, AdminOutcome;
    hide DecideUserCreate, DecideUserUpdate, DecideUserDelete;
    var c := Caller(cfg, db, env.now, req.token).value;
    DecidedBy(cfg, db, env, req);
    ResourceNotes(db, c, req);
    PolicyNotes(db, c, req);
    PolicyChangeNotes(db, c, req);
    UserNotes(cfg, db, env, c, req);
  }

  /** An accepted administrative change appends one row that names its administrator, the change, and the id the client
      asked about or was told, at the time of the request. */
  lemma RowTells(cfg: Config, db: Db, env: Env, req: Request)
    requires Integrity(db) && ByAdmin(cfg, db, env, req) && AdminChange(req.op)
    requires Step(cfg, db, env, req).1.status == Ok
    ensures var ((d, resp), c) := (Step(cfg, db, env, req), Caller(cfg, db, env.now, req.token).value);
            && |d.audit| == |db.audit| + 1
            && var row := d.audit[|db.audit|];
               && row.actorId == Some(c) && row.actorName == "admin" && row.ts == env.now && row.result == "ok"
               && (row.action, row.targetType) == NotedAs(req.op)
               && row.targetId.Some? && Number(row.targetId.value) == AboutId(req, resp)
               && row.details == Some(Obj(DetailsOf(req)))
  {
    hide Decide, Apply, Caller, AboutId, NotedAs, Id, DetailsOf;
    var o := Decide(cfg, db, env, req);
    AdminNote(cfg, db, env, req);
    NotesAreComplete(cfg, db, env, req);
    EffectOnAudit(db, env.now, o.effect);
    UsersAfter(db, env.now, o.effect);
    assert o.note.value.actorId > 0;
  }

  // ---------------------------------------------------------------- queries

  lemma {:induction false} HitsConcat(cfg: Config, f: AuditFilter, a: seq<AuditRow>, b: seq<AuditRow>)
    requires FilterReadable(cfg, f)
    ensures AuditHits(cfg, f, a + b) == AuditHits(cfg, f, a) + AuditHits(cfg, f, b)
  {
    if a == [] {
      assert a + b == b;
    } else {
      assert (a + b)[1..] == a[1..] + b;
      HitsConcat(cfg, f, a[1..], b);
    }
  }

  lemma SplitAt<T>(s: seq<T>, i: nat)
    requires i < |s|
    ensures s == s[..i] + [s[i]] + s[i + 1..]
    ensures multiset(s[..i] + s[i + 1..]) == multiset(s) - multiset{s[i]}
  {
    assert s == s[..i] + [s[i]] + s[i + 1..];
  }

  lemma DropMatching<T>(a: seq<T>, b: seq<T>, i: nat)
    requires |a| > 0 && i < |b| && b[i] == a[0] && multiset(a) == multiset(b)
    ensures multiset(a[1..]) == multiset(b[..i] + b[i + 1..])
  {
    SplitAt(a, 0);
    SplitAt(b, i);
    assert a[..0] + a[1..] == a[1..];
  }

  /** Rows hit by a filter do not depend on the order the rows are listed in. */
  lemma {:induction false} HitsPermute(cfg: Config, f: AuditFilter, a: seq<AuditRow>, b: seq<AuditRow>)
    requires FilterReadable(cfg, f) && multiset(a) == multiset(b)
    ensures multiset(AuditHits(cfg, f, a)) == multiset(AuditHits(cfg, f, b))
    decreases |a|
  {
    hide FilterReadable, AuditHit;
    if a == [] {
      assert |b| == |multiset(b)| == 0;
    } else {
      assert a[0] in multiset(b);
      var i :| 0 <= i < |b| && b[i] == a[0];
      var rest := b[..i] + b[i + 1..];
      DropMatching(a, b, i);
      SplitAt(b, i);
      HitsPermute(cfg, f, a[1..], rest);
      HitsConcat(cfg, f, b[..i] + [b[i]], b[i + 1..]);
      HitsConcat(cfg, f, b[..i], [b[i]]);
      HitsConcat(cfg, f, b[..i], b[i + 1..]);
      assert multiset(AuditHits(cfg, f, b)) == multiset(AuditHits(cfg, f, rest)) + multiset(AuditHits(cfg, f, [a[0]]));
    }
  }

  /** A row is a hit exactly when it is listed and meets each bound, the actor and the action as far as given. */
  lemma {:induction false} HitsAreHits(cfg: Config, f: AuditFilter, rows: seq<AuditRow>)
    requires FilterReadable(cfg, f)
    ensures forall r :: r in AuditHits(cfg, f, rows) <==>
              && r in rows
              && (f.from != "" ==> r.ts >= cfg.parseTime(f.from).value)
              && (f.to != "" ==> r.ts <= cfg.parseTime(f.to).value)
              && (f.actorId > 0 ==> r.actorId == Some(f.actorId))
              && (f.action != "" ==> r.action == f.action)
  {
    if rows != [] {
      HitsAreHits(cfg, f, rows[1..]);
      assert forall r :: r in rows <==> r == rows[0] || r in rows[1..];
    }
  }

  lemma {:induction false} HitsSorted(cfg: Config, f: AuditFilter, rows: seq<AuditRow>)
    requires FilterReadable(cfg, f) && NewestFirst(rows)
    ensures NewestFirst(AuditHits(cfg, f, rows))
  {
    hide AuditHit, FilterReadable, NewestFirst;
    if rows != [] {
      TailNewest(rows);
      HitsSorted(cfg, f, rows[1..]);
      var rest := AuditHits(cfg, f, rows[1..]);
      HitsAreHits(cfg, f, rows[1..]);
      assert [] + rest == rest;
      PrependNewest(rows[0], rest);
    }
  }

  lemma TailNewest(rows: seq<AuditRow>)
    requires rows != [] && NewestFirst(rows)
    ensures NewestFirst(rows[1..]) && forall r | r in rows[1..] :: rows[0].ts >= r.ts
  {
  }

  lemma PrependNewest(r: AuditRow, rest: seq<AuditRow>)
    requires NewestFirst(rest)
    ensures (forall x | x in rest :: r.ts >= x.ts) ==> NewestFirst([r] + rest)
  {
  }

  // ---------------------------------------------------------------- the query operation

  /** An AUDIT_QUERY with a token and role accepted. */
  ghost predicate AuditRequest(cfg: Config, db: Db, env: Env, req: Request) {
    var c := Caller(cfg, db, env.now, req.token);
    req.op == AUDIT_QUERY && c.Some? && RoleMay(AUDIT_QUERY, db.attrs[c.value].role)
  }

  lemma QueryAnswer(cfg: Config, db: Db, env: Env, req: Request)
    requires AuditRequest(cfg, db, env, req)
    ensures Step(cfg, db, env, req) == (db, Respond(req, DecideAuditQuery(cfg, db, env, AuditFilterOf(req.data))))
  {
    hide DecideAuth, DecideAdmin, Caller, AuditFilterOf, DecideAuditQuery;
  }

  lemma {:induction false} HitsIgnorePage(cfg: Config, f: AuditFilter, k: int, rows: seq<AuditRow>)
    requires FilterReadable(cfg, f)
    ensures AuditHits(cfg, f.(page := k), rows) == AuditHits(cfg, f, rows)
  {
    if rows != [] {
      HitsIgnorePage(cfg, f, k, rows[1..]);
    }
  }

  lemma FilterAtPage(req: Request, k: int)
    requires 1 <= k <= INT32_MAX
    ensures AuditFilterOf(AtPage(req, k).data) == AuditFilterOf(req.data).(page := k)
  {
    var data := AtPage(req, k).data;
    assert forall key | key != "page" :: Field(data, key) == Field(req.data, key);
    hide ToStr, ToLongLong;
  }

  /** One page of an audit query: a page of the hits, and as total the number of hits in the table, whatever the page.
      A time bound that is no time empties the answer instead of being refused. */
  lemma AuditPage(cfg: Config, db: Db, env: Env, req: Request, k: int)
    requires AuditRequest(cfg, db, env, req) && 1 <= k <= INT32_MAX
    ensures var (d, resp) := Step(cfg, db, env, AtPage(req, k));
            var f := AuditFilterOf(req.data);
            && d == db && resp.status == Ok
            && (FilterReadable(cfg, f) ==>
                  && ItemsOf(resp) == AuditItems(Page(AuditHits(cfg, f, env.auditOrder), k, f.size))
                  && Field(resp.data, "total") == Number(|AuditHits(cfg, f, db.audit)|))
            && (!FilterReadable(cfg, f) ==> ItemsOf(resp) == [] && Field(resp.data, "total") == Number(0))
  {
    hide Step, Caller, AuditFilterOf, AuditHits, AuditItems, Page;
    QueryAnswer(cfg, db, env, AtPage(req, k));
    FilterAtPage(req, k);
    var f := AuditFilterOf(req.data);
    if FilterReadable(cfg, f) {
      HitsIgnorePage(cfg, f, k, env.auditOrder);
      HitsIgnorePage(cfg, f, k, db.audit);
    }
  }

  /** Reading pages 1 to n of an audit query, the database keeping to one order of equal instants, gives the first
      n * size of all hits in the table, newest first, each once; the total is the number of hits. */
  lemma {:induction false} AuditPagesPartition(cfg: Config, db: Db, env: Env, req: Request, n: nat)
    requires AuditRequest(cfg, db, env, req) && AuditOrderOk(db.audit, env.auditOrder)
    requires var f := AuditFilterOf(req.data);
             FilterReadable(cfg, f) && f.size >= 1 && n <= INT32_MAX && (n > 0 ==> (n - 1) * f.size <= INT32_MAX)
    ensures var f := AuditFilterOf(req.data);
            var hits := AuditHits(cfg, f, env.auditOrder);
            && n * f.size >= 0
            && ReadPages(cfg, db, env, req, n) == AuditItems(hits[..Min(n * f.size, |hits|)])
            && multiset(hits) == multiset(AuditHits(cfg, f, db.audit)) && |hits| == |AuditHits(cfg, f, db.audit)|
            && NewestFirst(hits)
  {
    hide Step, AuditRequest, AuditFilterOf, AuditHits, NewestFirst, FilterReadable, AtPage, AuditFields, Page;
    var f := AuditFilterOf(req.data);
    var hits := AuditHits(cfg, f, env.auditOrder);
    HitsPermute(cfg, f, env.auditOrder, db.audit);
    assert |hits| == |multiset(hits)| == |multiset(AuditHits(cfg, f, db.audit))|;
    HitsSorted(cfg, f, env.auditOrder);
    PagesArePrefix(hits, n, f.size);
    if n > 0 {
      assert n > 1 ==> (n - 2) * f.size <= (n - 1) * f.size;
      PagesArePrefix(hits, n - 1, f.size);
      AuditPagesPartition(cfg, db, env, req, n - 1);
      AuditPage(cfg, db, env, req, n);
      AuditItemsConcat(Pages(hits, n - 1, f.size), Page(hits, n, f.size));
    }
  }

  lemma AuditItemsConcat(a: seq<AuditRow>, b: seq<AuditRow>)
    ensures AuditItems(a + b) == AuditItems(a) + AuditItems(b)
  {
    hide AuditFields;
  }
}
