/** The server's event loop: one request after another through the enforcement point, and the run that this is. */
module EventLoop {
  import opened Prelude
  import opened Protocol
  import opened Schema
  import opened Server
  import opened Runs
  import opened Pep

  /** The events are the incoming ones, in the surroundings the database chose. */
  ghost predicate Handled(run: Run, incoming: seq<Event>) {
    && |run.events| == |incoming|
    && forall k: nat | k < |incoming| :: ChosenAt(run, incoming, k)
  }

  ghost predicate ChosenAt(run: Run, incoming: seq<Event>, k: nat)
    requires k < |run.events| == |incoming|
  {
    && run.events[k].req == incoming[k].req
    && Chosen(run.State(k), incoming[k].env, Some(incoming[k].req), run.events[k].env)
  }

  predicate ClockRuns(incoming: seq<Event>) {
    forall i, j | 0 <= i <= j < |incoming| :: incoming[i].env.now <= incoming[j].env.now
  }

  /** The answers given are the run's. */
  ghost predicate Answered(run: Run, answers: seq<Response>) {
    |answers| == |run.events| && forall k: nat | k < |answers| :: answers[k] == run.Answer(k)
  }

  lemma ChosenTime(db: Db, env: Env, handled: Option<Request>, e: Env)
    requires Chosen(db, env, handled, e)
    ensures e.now == env.now
  {
  }

  lemma NothingHandled(run: Run)
    requires run.events == []
    ensures Handled(run, []) && Answered(run, []) && run.State(0) == run.init
  {
    hide Step, Chosen;
  }

  lemma {:induction false} Extended(run: Run, incoming: seq<Event>, answers: seq<Response>, e: Env)
    requires |answers| < |incoming| && Answered(run, answers) && Handled(run, incoming[..|answers|])
    requires Chosen(run.State(|answers|), incoming[|answers|].env, Some(incoming[|answers|].req), e)
    ensures var req := incoming[|answers|].req;
            var next := run.(events := run.events + [Event(e, req)]);
            var (d, resp) := Step(run.cfg, run.State(|answers|), e, req);
            && next.State(|answers| + 1) == d
            && Answered(next, answers + [resp]) && Handled(next, incoming[..|answers| + 1])
  {
    hide Step, Chosen;
    var n, req := |answers|, incoming[|answers|].req;
    var next := run.(events := run.events + [Event(e, req)]);
    forall k: nat | k <= n ensures next.State(k) == run.State(k) {
      assert next.events[..k] == run.events[..k];
      SamePast(next, run, k);
    }
    var longer := incoming[..n + 1];
    forall k: nat | k < n + 1 ensures ChosenAt(next, longer, k) {
      if k < n {
        assert ChosenAt(run, incoming[..n], k);
        assert next.events[k] == run.events[k];
      }
    }
    forall k: nat | k < n ensures next.Answer(k) == run.Answer(k) {
      assert next.events[k] == run.events[k];
    }
  }

  /** Putting any requests through the enforcement point, one after another, is a run of the state machine: its last
      state is what the tables are then, and its answers are those given. */
  method Serve(pep: PEP, incoming: seq<Event>) returns (answers: seq<Response>)
    requires pep.Valid() && ClockRuns(incoming)
    modifies pep.pip
    ensures pep.Valid()
    ensures exists run: Run :: run.cfg == pep.cfg && run.init == old(pep.pip.Tables()) && run.Valid()
              && Handled(run, incoming) && Answered(run, answers) && pep.pip.Tables() == run.State(|incoming|)
  {
    hide Step, Chosen, Integrity, Handled, Answered, ClockRuns;
    ghost var run := Run(pep.cfg, pep.pip.Tables(), []);
    NothingHandled(run);
    answers := [];
    for i := 0 to |incoming|
      invariant pep.Valid() && |answers| == |run.events| == i
      invariant run.cfg == pep.cfg && run.init == old(pep.pip.Tables())
      invariant Answered(run, answers) && Handled(run, incoming[..i]) && pep.pip.Tables() == run.State(i)
    {
      ghost var db := pep.pip.Tables();
      var resp := pep.Handle(incoming[i].req, incoming[i].env);
      ghost var e :| Chosen(db, incoming[i].env, Some(incoming[i].req), e)
                     && (pep.pip.Tables(), resp) == Step(pep.cfg, db, e, incoming[i].req);
      Extended(run, incoming, answers, e);
      run := run.(events := run.events + [Event(e, incoming[i].req)]);
      answers := answers + [resp];
    }
    assert incoming[..|incoming|] == incoming;
    ClockKept(run, incoming);
  }

  lemma ClockKept(run: Run, incoming: seq<Event>)
    requires Handled(run, incoming) && ClockRuns(incoming) && Integrity(run.init)
    ensures run.Valid()
  {
    hide Chosen, Integrity;
    forall k: nat | k < |incoming| ensures run.events[k].env.now == incoming[k].env.now {
      assert ChosenAt(run, incoming, k);
      ChosenTime(run.State(k), incoming[k].env, Some(incoming[k].req), run.events[k].env);
    }
  }
}
