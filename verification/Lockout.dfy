/** How many passwords can be tried against one account. */
module Lockout {
  import opened Prelude
  import opened Protocol
  import opened Schema
  import opened Passwords
  import opened Decisions
  import opened Server
  import opened Runs

  /** Failures an account stands before the lock: the first one always counts, whatever the configured threshold. */
  function Threshold(cfg: Config): int {
    Max(1, cfg.maxFailed)
  }

  function LockSeconds(cfg: Config): int {
    MINUTE * cfg.lockoutMinutes
  }

  /** Request i compares a password with the one of account uid. */
  ghost predicate IsGuess(run: Run, i: nat, uid: int)
    requires i < |run.events|
  {
    var db, env, req := run.State(i), run.events[i].env, run.events[i].req;
    && req.op == AUTH && Text(req.data, "username") != "" && Text(req.data, "password") != ""
    && UserNamed(db, Text(req.data, "username")) == Some(uid) && Compares(db, env.now, uid)
  }

  ghost predicate WrongGuess(run: Run, i: nat, uid: int)
    requires i < |run.events|
  {
    var (env, req) := (run.events[i].env, run.events[i].req);
    IsGuess(run, i, uid) && !RightPassword(run.cfg, run.State(i).users[uid], env, Text(req.data, "password"))
  }

  /** The times of the comparisons among requests m to n - 1. */
  ghost function GuessTimes(run: Run, m: nat, n: nat, uid: int): seq<int>
    requires m <= n <= |run.events|
    decreases n
  {
    if n == m then []
    else GuessTimes(run, m, n - 1, uid) + (if IsGuess(run, n - 1, uid) then [run.events[n - 1].env.now] else [])
  }

  /** The counter of the account, if it exists, is a count. */
  predicate Counted(db: Db, uid: int) {
    uid in db.users ==> db.users[uid].failedAttempts >= 0
  }

  /** The account's counter and lock, given the comparisons of a stretch so far: the counter is at least their number,
      and once that reaches the threshold, the lock ends a full lockout after the latest failure. */
  ghost predicate LockState(cfg: Config, db: Db, uid: int, times: seq<int>) {
    && (uid in db.users ==>
          && db.users[uid].failedAttempts >= Min(|times|, INT32_MAX)
          && (|times| >= Threshold(cfg) ==>
                db.users[uid].lockedUntil == Some(times[|times| - 1] + LockSeconds(cfg))))
    && (uid >= db.nextUser ==> times == [])
  }

  /** From the threshold on, comparisons lie a full lockout apart. */
  ghost predicate Spaced(cfg: Config, times: seq<int>, now: int) {
    && (forall i | 0 <= i < |times| :: times[i] <= now)
    && (forall i | 0 < i < |times| :: times[i - 1] <= times[i])
    && (forall i | Threshold(cfg) <= i < |times| :: times[i - 1] + LockSeconds(cfg) <= times[i])
  }

  // ---------------------------------------------------------------- one step

  /** Only a comparison moves the counter and lock of an existing account. */
  lemma OtherEffects(db: Db, now: int, e: Effect, uid: int)
    requires Integrity(db) && Admissible(db, e) && uid > 0
    requires !(LoginEffect(e) && e.uid == uid)
    ensures var d := Apply(db, now, e);
            && (uid in db.users && uid in d.users ==>
                  && d.users[uid].failedAttempts == db.users[uid].failedAttempts
                  && d.users[uid].lockedUntil == db.users[uid].lockedUntil)
            && (uid !in db.users && uid in d.users ==>
                  uid >= db.nextUser && d.users[uid].failedAttempts == 0 && d.users[uid].lockedUntil == None)
            && d.nextUser >= db.nextUser
  {
  }

  lemma GuessEffect(run: Run, i: nat, uid: int)
    requires run.Valid() && i < |run.events|
    ensures var e := run.Outcome(i).effect;
            && (LoginEffect(e) && e.uid == uid <==> IsGuess(run, i, uid))
            && (WrongGuess(run, i, uid) ==>
                  e == CountFailure(uid, LockAfter(run.cfg, run.State(i).users[uid], run.events[i].env.now)))
  {
    hide DecideOpen, DecideAdmin, RightPassword, LockAfter, Integrity, HashToken, HashFree, NewSession, AttrsOf;
    hide UserFields, Text;
  }

  lemma SpacedLater(cfg: Config, times: seq<int>, now: int, later: int)
    requires times == [] || Spaced(cfg, times, now)
    requires now <= later
    ensures Spaced(cfg, times, later)
  {
  }

  /** No comparison of requests m to n - 1 succeeds. */
  ghost predicate NoSuccess(run: Run, m: nat, n: nat, uid: int)
    requires m <= n <= |run.events|
  {
    forall k: nat | m <= k < n && IsGuess(run, k, uid) :: WrongGuess(run, k, uid)
  }

  lemma {:induction false} LockInvariant(run: Run, m: nat, n: nat, uid: int)
    requires run.Valid() && m <= n <= |run.events| && uid > 0 && run.cfg.lockoutMinutes > 0
    requires Counted(run.State(m), uid) && NoSuccess(run, m, n, uid)
    ensures var times := GuessTimes(run, m, n, uid);
            && LockState(run.cfg, run.State(n), uid, times)
            && (n > m ==> Spaced(run.cfg, times, run.events[n - 1].env.now))
            && (n == m ==> times == [])
    decreases n
  {
    hide Decide, Apply, WriteAudit, Step, Integrity, IsGuess, WrongGuess, LockState, Spaced;
    if n == m {
      NothingYet(run.cfg, run.State(m), uid);
    } else {
      LockInvariant(run, m, n - 1, uid);
      StatesIntact(run, n - 1);
      var before := if n == m + 1 then run.events[n - 1].env.now else run.events[n - 2].env.now;
      SpacedLater(run.cfg, GuessTimes(run, m, n - 1, uid), before, run.events[n - 1].env.now);
      LockStep(run, n - 1, uid, GuessTimes(run, m, n - 1, uid));
    }
  }

  lemma NothingYet(cfg: Config, db: Db, uid: int)
    requires Counted(db, uid)
    ensures LockState(cfg, db, uid, [])
  {
  }

  /** Counters that are counts at the start stay so. */
  lemma {:induction false} CountersCount(run: Run, n: nat, uid: int)
    requires run.Valid() && n <= |run.events| && Counted(run.init, uid)
    ensures Counted(run.State(n), uid)
  {
    hide Decide, Apply, WriteAudit, Step, Integrity, Counted;
    if n > 0 {
      CountersCount(run, n - 1, uid);
      StatesIntact(run, n - 1);
      Advance(run, n - 1);
      var (db, now, o) := (run.State(n - 1), run.events[n - 1].env.now, run.Outcome(n - 1));
      EffectCounts(db, now, o.effect, uid);
      AuditKeepsCounts(Apply(db, now, o.effect), now, o.note, uid);
    }
  }

  lemma EffectCounts(db: Db, now: int, e: Effect, uid: int)
    requires Integrity(db) && Admissible(db, e) && Counted(db, uid)
    ensures Counted(Apply(db, now, e), uid)
  {
  }

  lemma AuditKeepsCounts(db: Db, now: int, note: Option<AuditNote>, uid: int)
    ensures Counted(WriteAudit(db, now, note), uid) == Counted(db, uid)
  {
    hide WriteAudit;
    WriteAuditOnlyLogs(db, now, note);
  }

  lemma FailureStep(cfg: Config, db: Db, now: int, uid: int, times: seq<int>)
    requires Integrity(db) && Compares(db, now, uid) && cfg.lockoutMinutes > 0
    requires LockState(cfg, db, uid, times) && Spaced(cfg, times, now)
    ensures var d := Apply(db, now, CountFailure(uid, LockAfter(cfg, db.users[uid], now)));
            LockState(cfg, d, uid, times + [now])
    ensures Spaced(cfg, times + [now], now)
  {
  }

  lemma QuietStep(cfg: Config, db: Db, now: int, e: Effect, uid: int, times: seq<int>)
    requires Integrity(db) && Admissible(db, e) && uid > 0 && !(LoginEffect(e) && e.uid == uid)
    requires LockState(cfg, db, uid, times)
    ensures LockState(cfg, Apply(db, now, e), uid, times)
  {
    hide Apply, Integrity, Admissible;
    OtherEffects(db, now, e, uid);
  }

  lemma LockStep(run: Run, i: nat, uid: int, times: seq<int>)
    requires run.Valid() && i < |run.events| && uid > 0 && run.cfg.lockoutMinutes > 0
    requires Integrity(run.State(i))
    requires LockState(run.cfg, run.State(i), uid, times) && Spaced(run.cfg, times, run.events[i].env.now)
    requires IsGuess(run, i, uid) ==> WrongGuess(run, i, uid)
    ensures var now := run.events[i].env.now;
            var next := times + (if IsGuess(run, i, uid) then [now] else []);
            LockState(run.cfg, run.State(i + 1), uid, next) && Spaced(run.cfg, next, now)
  {
    hide Decide, Apply, WriteAudit, Step, Integrity, LockState, Spaced, WrongGuess, LockAfter;
    var (db, now, o) := (run.State(i), run.events[i].env.now, run.Outcome(i));
    GuessEffect(run, i, uid);
    Advance(run, i);
    AuditKeepsLocks(run.cfg, Apply(db, now, o.effect), now, o.note, uid);
    if IsGuess(run, i, uid) {
      FailureStep(run.cfg, db, now, uid, times);
    } else {
      QuietStep(run.cfg, db, now, o.effect, uid, times);
      assert times + [] == times;
    }
  }

  lemma AuditKeepsLocks(cfg: Config, db: Db, now: int, note: Option<AuditNote>, uid: int)
    ensures forall times :: LockState(cfg, WriteAudit(db, now, note), uid, times) == LockState(cfg, db, uid, times)
  {
  }

  /** What a refused login gives away: the code says inactive or locked exactly when the account is so, with any
      password; an unknown name and a wrong password of an open account get the same answer, field by field. */
  lemma RefusedLogin(cfg: Config, db: Db, env: Env, req: Request)
    requires Integrity(db) && req.op == AUTH && Text(req.data, "username") != "" && Text(req.data, "password") != ""
    ensures var resp := Step(cfg, db, env, req).1;
            match UserNamed(db, Text(req.data, "username"))
            case None => resp == DeniedLogin(req)
            case Some(u) =>
              && (resp.code == ACCOUNT_INACTIVE <==> !db.users[u].isActive)
              && (resp.code == ACCOUNT_LOCKED <==> db.users[u].isActive && Locked(db.users[u], env.now))
              && (resp == DeniedLogin(req) <==>
                    Compares(db, env.now, u) && !RightPassword(cfg, db.users[u], env, Text(req.data, "password")))
  {
    hide DecideOpen, DecideAdmin, Caller, RightPassword, Integrity, Text, HashToken, HashFree, UserNamed, LockAfter;
  }

  function DeniedLogin(req: Request): Response {
    Response(K_VERSION, AUTH, req.reqId, Error, AUTH_DENIED, "AUTH_DENIED", map[])
  }

  /** The failure that reaches the configured threshold locks the account for exactly the lockout time, so with no time
      configured it locks nothing and comparisons go on without bound. */
  lemma LockLasts(cfg: Config, db: Db, now: int, uid: int, later: int)
    requires Compares(db, now, uid) && later >= now
    ensures var u := Apply(db, now, CountFailure(uid, LockAfter(cfg, db.users[uid], now))).users[uid];
            Locked(u, later) <==>
              CountedUp(db.users[uid].failedAttempts) >= cfg.maxFailed && later < now + LockSeconds(cfg)
  {
    hide CountedUp;
  }

  // ---------------------------------------------------------------- the bound

  lemma {:induction false} LockedApart(cfg: Config, times: seq<int>, now: int, i: nat, j: nat)
    requires Spaced(cfg, times, now) && Threshold(cfg) - 1 <= i <= j < |times|
    ensures times[j] - times[i] >= (j - i) * LockSeconds(cfg)
  {
    if i < j {
      LockedApart(cfg, times, now, i, j - 1);
      assert (j - i) * LockSeconds(cfg) == (j - 1 - i) * LockSeconds(cfg) + LockSeconds(cfg);
    }
  }

  lemma {:induction false} TimesAscend(cfg: Config, times: seq<int>, now: int, i: nat, j: nat)
    requires Spaced(cfg, times, now) && i <= j < |times|
    ensures times[i] <= times[j]
  {
    if i < j {
      TimesAscend(cfg, times, now, i, j - 1);
    }
  }

  lemma MulAtLeast(x: int, d: int)
    requires d > 0
    ensures x >= 1 ==> x * d >= d
  {
  }

  lemma QuotientBound(a: int, k: int, d: int)
    requires d > 0 && a >= k * d
    ensures a / d >= k
  {
    assert (k - a / d) * d == k * d - a / d * d <= a % d < d;
    MulAtLeast(k - a / d, d);
  }

  lemma SpacedBound(cfg: Config, times: seq<int>, now: int, i: nat, j: nat)
    requires Spaced(cfg, times, now) && cfg.lockoutMinutes > 0 && i <= j < |times|
    ensures j - i + 1 <= Threshold(cfg) + (times[j] - times[i]) / LockSeconds(cfg)
  {
    hide Spaced;
    var d := LockSeconds(cfg);
    var first := Max(i, Threshold(cfg) - 1);
    TimesAscend(cfg, times, now, i, j);
    QuotientBound(times[j] - times[i], 0, d);
    if first <= j {
      LockedApart(cfg, times, now, first, j);
      TimesAscend(cfg, times, now, i, first);
      QuotientBound(times[j] - times[i], j - first, d);
    }
  }

  /** The guess bound. Take any account, whatever its counter (not negative) and its lock are at the start, any run,
      whatever else goes on in it, and any stretch of it, requests m to n - 1, in which no comparison against the
      account succeeds. Between any two comparisons of the stretch, both included, there are at most the threshold plus
      one per full lockout that has passed. */
  lemma GuessBound(run: Run, m: nat, n: nat, uid: int, i: nat, j: nat)
    requires run.Valid() && m <= n <= |run.events| && uid > 0 && run.cfg.lockoutMinutes > 0
    requires Counted(run.init, uid) && NoSuccess(run, m, n, uid)
    requires i <= j < |GuessTimes(run, m, n, uid)|
    ensures var times := GuessTimes(run, m, n, uid);
            j - i + 1 <= Threshold(run.cfg) + (times[j] - times[i]) / LockSeconds(run.cfg)
  {
    hide LockState, Spaced, IsGuess, WrongGuess, LockSeconds, Threshold, Step, Counted, NoSuccess;
    CountersCount(run, m, uid);
    LockInvariant(run, m, n, uid);
    SpacedBound(run.cfg, GuessTimes(run, m, n, uid), run.events[n - 1].env.now, i, j);
  }
}
