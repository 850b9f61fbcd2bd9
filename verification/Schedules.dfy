/** When a connection answers everything. One readiness signal handles one frame, so it matters how sends, arrivals and
    signals follow each other. */
module Schedules {
  import opened Prelude
  import opened Protocol
  import opened Schema
  import opened Server
  import opened Framing
  import opened Stream

  /** If event i is an arrival, the signal it raises is the next event, before moment n. */
  predicate Raised(events: seq<Event>, i: nat, n: nat)
    requires i < n <= |events|
  {
    && (events[i].DeliverToServer? ==> i + 1 < n && events[i + 1].ServerReady?)
    && (events[i].DeliverToClient? ==> i + 1 < n && events[i + 1].ClientReady?)
  }

  /** Every arrival has been followed at once by the signal it raises. */
  predicate Signalled(events: seq<Event>, n: nat)
    requires n <= |events|
  {
    forall i: nat | i < n :: Raised(events, i, n)
  }

  /** The client sends only when it is not busy. */
  ghost predicate StopAndWait(cfg: Config, c: Codec, init: Db, events: seq<Event>, n: nat)
    requires n <= |events|
  {
    forall i: nat | i < n && events[i].Send? :: !After(cfg, c, init, events, i).busy
  }

  /** At most one request is open, and the client knows whether one is. */
  predicate OneOpen(s: Conn) {
    |s.got| <= |s.sent| <= |s.got| + 1 && (s.busy <==> |s.got| < |s.sent|)
  }

  // ---------------------------------------------------------------- steps

  lemma SendFills(cfg: Config, c: Codec, s: Conn, e: Event)
    requires e.Send?
    ensures var t := Next(cfg, c, s, e);
            t.toServer != [] && t.busy && |t.sent| == |s.sent| + 1 && t.got == s.got && t.answered == s.answered
            && t.toClient == s.toClient
  {
    hide RequestToJson;
  }

  lemma ServerMoves(cfg: Config, c: Codec, s: Conn, e: Event)
    requires !e.Send? && !e.ClientReady?
    ensures var t := Next(cfg, c, s, e);
            && t.sent == s.sent && t.got == s.got && t.busy == s.busy
            && (!e.DeliverToServer? ==> t.toServer == s.toServer)
            && (!e.ServerReady? ==> t.answered == s.answered)
            && (!e.DeliverToClient? && t.toClient == [] ==> s.toClient == [] && t.answered == s.answered)
  {
    hide Step, ServeOnce, ResponseToJson, RequestToJson;
  }

  lemma ClientMoves(cfg: Config, c: Codec, s: Conn)
    ensures var t := Next(cfg, c, s, ClientReady);
            && t.sent == s.sent && t.answered == s.answered && t.toServer == s.toServer && t.toClient == s.toClient
            && ((t.got == s.got && t.busy == s.busy) || (|t.got| == |s.got| + 1 && !t.busy))
  {
    hide ReceiveOnce;
  }

  lemma ClientTakesOne(cfg: Config, c: Codec, init: Db, s: Conn)
    requires Consistent(cfg, c, init, s) && c.Lawful() && InLimits(c, s) && s.toClient == []
    ensures |Next(cfg, c, s, ClientReady).got| == |s.got| + Min(1, |s.answered| - |s.got|)
  {
    hide Step, ServerSide, ResponseFromJson, ResponseToJson, Unframe;
    var open := s.answered[|s.got|..];
    ReadFirst(c, ResponseObjects(open), s.clientBuffer, []);
    if open != [] {
      assert s.clientBuffer + [] == s.clientBuffer;
      assert |s.clientBuffer| >= |Frame(c, ResponseObjects(open)[0])|;
      ResponseRoundTrip(open[0]);
    }
  }

  lemma {:induction false} LimitsEarlier(cfg: Config, c: Codec, init: Db, events: seq<Event>, n: nat, m: nat)
    requires m <= n <= |events| && InLimits(c, After(cfg, c, init, events, n))
    ensures InLimits(c, After(cfg, c, init, events, m))
  {
    hide Next, InLimits;
    if m < n {
      ListsGrow(cfg, c, After(cfg, c, init, events, n - 1), events[n - 1]);
      LimitsBefore(c, After(cfg, c, init, events, n - 1), After(cfg, c, init, events, n));
      LimitsEarlier(cfg, c, init, events, n - 1, m);
    }
  }

  lemma ConsistentAt(cfg: Config, c: Codec, init: Db, events: seq<Event>, n: nat, m: nat)
    requires m <= n <= |events| && c.Lawful() && InLimits(c, After(cfg, c, init, events, n))
    ensures Consistent(cfg, c, init, After(cfg, c, init, events, m)) && InLimits(c, After(cfg, c, init, events, m))
    ensures var s := After(cfg, c, init, events, m); |s.got| <= |s.answered| <= |s.sent|
  {
    hide Next, InLimits, DbAfter, Answers, Own, Frames, RequestObjects, ResponseObjects;
    LimitsEarlier(cfg, c, init, events, n, m);
    ScheduleConsistent(cfg, c, init, events, m);
  }

  // ---------------------------------------------------------------- stop and wait

  lemma {:induction false} AtMostOneOpen(cfg: Config, c: Codec, init: Db, events: seq<Event>, n: nat, m: nat)
    requires m <= n <= |events| && c.Lawful() && InLimits(c, After(cfg, c, init, events, n))
    requires StopAndWait(cfg, c, init, events, n)
    ensures OneOpen(After(cfg, c, init, events, m))
  {
    hide Next, InLimits, Consistent;
    ConsistentAt(cfg, c, init, events, n, m);
    if m > 0 {
      AtMostOneOpen(cfg, c, init, events, n, m - 1);
      var s, e := After(cfg, c, init, events, m - 1), events[m - 1];
      if e.Send? {
        SendFills(cfg, c, s, e);
      } else if e.ClientReady? {
        ClientMoves(cfg, c, s);
      } else {
        ServerMoves(cfg, c, s, e);
      }
    }
  }

  /** Between signals, no request that has arrived is unanswered. */
  lemma {:induction false} ServerSettled(cfg: Config, c: Codec, init: Db, events: seq<Event>, n: nat, m: nat)
    requires m <= n <= |events| && c.Lawful() && InLimits(c, After(cfg, c, init, events, n))
    requires StopAndWait(cfg, c, init, events, n) && Signalled(events, n)
    requires m > 0 ==> !events[m - 1].DeliverToServer?
    ensures var s := After(cfg, c, init, events, m); s.toServer == [] ==> |s.answered| == |s.sent|
  {
    hide Next, InLimits, Consistent, StopAndWait, ServerSignal;
    if m > 0 {
      var s, e := After(cfg, c, init, events, m - 1), events[m - 1];
      ConsistentAt(cfg, c, init, events, n, m - 1);
      if e.Send? {
        SendFills(cfg, c, s, e);
      } else if e.ServerReady? {
        ServerMoves(cfg, c, s, e);
        AtMostOneOpen(cfg, c, init, events, n, m - 1);
        if s.toServer == [] {
          SignalTakesOne(cfg, c, init, s, e.env);
          assert Next(cfg, c, s, e) == ServerSignal(cfg, c, s, e.env) by { SignalIsNext(cfg, c, s, e.env); }
        }
      } else {
        if m > 1 { assert Raised(events, m - 2, n); }
        ServerSettled(cfg, c, init, events, n, m - 1);
        if e.ClientReady? { ClientMoves(cfg, c, s); } else { ServerMoves(cfg, c, s, e); }
      }
    }
  }

  lemma SignalIsNext(cfg: Config, c: Codec, s: Conn, env: Env)
    ensures Next(cfg, c, s, ServerReady(env)) == ServerSignal(cfg, c, s, env)
  {
    hide ServerSignal;
  }

  /** Between signals, no answer that has arrived is undecoded. */
  lemma {:induction false} ClientSettled(cfg: Config, c: Codec, init: Db, events: seq<Event>, n: nat, m: nat)
    requires m <= n <= |events| && c.Lawful() && InLimits(c, After(cfg, c, init, events, n))
    requires StopAndWait(cfg, c, init, events, n) && Signalled(events, n)
    requires m > 0 ==> !events[m - 1].DeliverToClient?
    ensures var s := After(cfg, c, init, events, m); s.toClient == [] ==> |s.got| == |s.answered|
  {
    hide Next, InLimits, Consistent, StopAndWait;
    if m > 0 {
      var s, e := After(cfg, c, init, events, m - 1), events[m - 1];
      ConsistentAt(cfg, c, init, events, n, m - 1);
      if e.ClientReady? {
        ClientMoves(cfg, c, s);
        AtMostOneOpen(cfg, c, init, events, n, m - 1);
        if s.toClient == [] {
          ClientTakesOne(cfg, c, init, s);
        }
      } else {
        if m > 1 { assert Raised(events, m - 2, n); }
        ClientSettled(cfg, c, init, events, n, m - 1);
        if e.Send? { SendFills(cfg, c, s, e); } else { ServerMoves(cfg, c, s, e); }
      }
    }
  }

  lemma NothingPending(events: seq<Event>, n: nat)
    requires n <= |events| && Signalled(events, n)
    ensures n > 0 ==> !events[n - 1].DeliverToServer? && !events[n - 1].DeliverToClient?
  {
    if n > 0 {
      assert Raised(events, n - 1, n);
    }
  }

  /** A client that waits for each answer before it sends again loses nothing: once every byte has arrived and raised
      its signal, all its requests are answered, all answers decoded, and it is not busy, however the bytes were cut. */
  lemma PoliteClientIsAnswered(cfg: Config, c: Codec, init: Db, events: seq<Event>, n: nat)
    requires n <= |events| && c.Lawful() && InLimits(c, After(cfg, c, init, events, n))
    requires StopAndWait(cfg, c, init, events, n) && Signalled(events, n)
    requires var s := After(cfg, c, init, events, n); s.toServer == [] && s.toClient == []
    ensures var s := After(cfg, c, init, events, n);
            |s.got| == |s.sent| && !s.busy && s.got == Answers(cfg, init, s.log) && Own(s.log) == s.sent
  {
    hide Next, InLimits, StopAndWait, After, Answers, Own, DbAfter, Frames, RequestObjects, ResponseObjects;
    NothingPending(events, n);
    ConsistentAt(cfg, c, init, events, n, n);
    ServerSettled(cfg, c, init, events, n, n);
    ClientSettled(cfg, c, init, events, n, n);
    AtMostOneOpen(cfg, c, init, events, n, n);
  }

  // ---------------------------------------------------------------- two requests, one signal

  /** Two sends whose bytes arrive together: one signal at the server, and the one answer with its signal. */
  function Together(a: Event, b: Event, env: Env): seq<Event> {
    [a, b, DeliverToServer(2 * (MAX_PAYLOAD + 4)), ServerReady(env), DeliverToClient(MAX_PAYLOAD + 4), ClientReady]
  }

  lemma AllDelivered(cfg: Config, c: Codec, s: Conn, n: nat)
    ensures |s.toServer| <= n ==> Next(cfg, c, s, DeliverToServer(n)) ==
                                   s.(serverBuffer := s.serverBuffer + s.toServer, toServer := [])
    ensures |s.toClient| <= n ==> Next(cfg, c, s, DeliverToClient(n)) ==
                                   s.(clientBuffer := s.clientBuffer + s.toClient, toClient := [])
  {
    assert s.toServer[..|s.toServer|] == s.toServer && s.toClient[..|s.toClient|] == s.toClient;
  }

  lemma TwoSent(cfg: Config, c: Codec, init: Db, a: Event, b: Event, env: Env)
    requires a.Send? && b.Send? && InLimits(c, After(cfg, c, init, Together(a, b, env), 2))
    ensures var s := After(cfg, c, init, Together(a, b, env), 2);
            && |s.sent| == 2 && s.answered == [] && s.got == []
            && |s.toServer| <= 2 * (MAX_PAYLOAD + 4) && s.toClient == []
  {
    hide RequestToJson, ServerSignal, ReceiveOnce, Step;
    var events := Together(a, b, env);
    assert After(cfg, c, init, events, 0) == Start(init);
    assert After(cfg, c, init, events, 1) == Next(cfg, c, Start(init), a);
    var s := After(cfg, c, init, events, 2);
    assert s == Next(cfg, c, Next(cfg, c, Start(init), a), b);
    assert s.sent[0] in s.sent && s.sent[1] in s.sent;
    assert s.toServer == RequestFrame(c, s.sent[0]) + RequestFrame(c, s.sent[1]);
  }

  lemma AnswerFits(c: Codec, s: Conn, r: Response)
    requires InLimits(c, s) && r in s.answered
    ensures |ResponseFrame(c, r)| <= MAX_PAYLOAD + 4
  {
    hide ResponseToJson;
  }

  /** Waiting matters. Of two requests whose bytes arrive with one signal only the first is answered: every byte has
      arrived and every signal was raised, the client is not busy, and the second request stays in the server's buffer
      until something else arrives. This holds of any two requests. */
  lemma TogetherLeavesOne(cfg: Config, c: Codec, init: Db, a: Event, b: Event, env: Env)
    requires a.Send? && b.Send? && c.Lawful() && InLimits(c, After(cfg, c, init, Together(a, b, env), 6))
    ensures var events := Together(a, b, env);
            var s := After(cfg, c, init, events, 6);
            && Signalled(events, 6) && !StopAndWait(cfg, c, init, events, 6)
            && s.toServer == [] && s.toClient == [] && s.clientBuffer == [] && !s.busy
            && |s.sent| == 2 && |s.answered| == 1 && |s.got| == 1
            && s.serverBuffer == RequestFrame(c, s.sent[1])
  {
    hide Next, InLimits, ServerSignal, RequestFrame, ResponseFrame, Consistent, DbAfter, Answers, Own;
    var events := Together(a, b, env);
    LimitsEarlier(cfg, c, init, events, 6, 2);
    TwoSent(cfg, c, init, a, b, env);
    SecondWhileBusy(cfg, c, init, events);
    AfterArrival(cfg, c, init, a, b, env);
    AfterAnswer(cfg, c, init, a, b, env);
    ConsistentAt(cfg, c, init, events, 6, 6);
    LeftOver(cfg, c, init, After(cfg, c, init, events, 6));
  }

  lemma SecondWhileBusy(cfg: Config, c: Codec, init: Db, events: seq<Event>)
    requires |events| >= 2 && events[0].Send? && events[1].Send?
    ensures !StopAndWait(cfg, c, init, events, |events|)
  {
    SendFills(cfg, c, Start(init), events[0]);
    hide Next;
    assert After(cfg, c, init, events, 0) == Start(init);
    assert After(cfg, c, init, events, 1) == Next(cfg, c, Start(init), events[0]);
  }

  lemma AfterArrival(cfg: Config, c: Codec, init: Db, a: Event, b: Event, env: Env)
    requires a.Send? && b.Send? && c.Lawful() && InLimits(c, After(cfg, c, init, Together(a, b, env), 6))
    ensures var s := After(cfg, c, init, Together(a, b, env), 4);
            && s.toServer == [] && |s.sent| == 2 && |s.answered| == 1 && s.got == []
            && |s.toClient| <= MAX_PAYLOAD + 4
  {
    hide Next, InLimits, ServerSignal, RequestFrame, ResponseFrame, Consistent;
    var events := Together(a, b, env);
    ConsistentAt(cfg, c, init, events, 6, 2);
    ConsistentAt(cfg, c, init, events, 6, 3);
    ConsistentAt(cfg, c, init, events, 6, 4);
    TwoSent(cfg, c, init, a, b, env);
    var two, three := After(cfg, c, init, events, 2), After(cfg, c, init, events, 3);
    AllDelivered(cfg, c, two, 2 * (MAX_PAYLOAD + 4));
    ServerMoves(cfg, c, three, ServerReady(env));
    SignalTakesOne(cfg, c, init, three, env);
    SignalIsNext(cfg, c, three, env);
    OnlyAnswer(cfg, c, three, env);
    AnswerFits(c, After(cfg, c, init, events, 4), After(cfg, c, init, events, 4).answered[0]);
  }

  lemma OnlyAnswer(cfg: Config, c: Codec, s: Conn, env: Env)
    requires s.toClient == [] && s.answered == []
    ensures var t := ServerSignal(cfg, c, s, env);
            |t.answered| == 1 ==> t.toClient == ResponseFrame(c, t.answered[0])
  {
    hide Step, ServeOnce, ResponseFrame;
  }

  lemma AfterAnswer(cfg: Config, c: Codec, init: Db, a: Event, b: Event, env: Env)
    requires a.Send? && b.Send? && c.Lawful() && InLimits(c, After(cfg, c, init, Together(a, b, env), 6))
    ensures var s := After(cfg, c, init, Together(a, b, env), 6);
            s.toServer == [] && s.toClient == [] && |s.sent| == 2 && |s.answered| == 1 && |s.got| == 1 && !s.busy
  {
    hide Next, InLimits, ServerSignal, RequestFrame, ResponseFrame, Consistent;
    var events := Together(a, b, env);
    AfterArrival(cfg, c, init, a, b, env);
    ConsistentAt(cfg, c, init, events, 6, 5);
    var four, five := After(cfg, c, init, events, 4), After(cfg, c, init, events, 5);
    AllDelivered(cfg, c, four, MAX_PAYLOAD + 4);
    ClientTakesOne(cfg, c, init, five);
    ClientMoves(cfg, c, five);
  }

  /** What is left in the buffers when nothing is in flight. */
  lemma LeftOver(cfg: Config, c: Codec, init: Db, s: Conn)
    requires Consistent(cfg, c, init, s) && s.toServer == [] && s.toClient == []
    requires |s.sent| == 2 && |s.answered| == 1 && |s.got| == 1
    ensures s.clientBuffer == [] && s.serverBuffer == RequestFrame(c, s.sent[1])
  {
    hide RequestToJson, ResponseToJson, DbAfter, Answers, Own, Frame;
    assert s.serverBuffer + [] == s.serverBuffer && s.clientBuffer + [] == s.clientBuffer;
    var os := RequestObjects(s.sent[1..]);
    assert os == [RequestToJson(s.sent[1])] && os[1..] == [];
    assert Frames(c, os) == Frame(c, os[0]) + Frames(c, []);
    assert ResponseObjects(s.answered[1..]) == [];
  }
}
