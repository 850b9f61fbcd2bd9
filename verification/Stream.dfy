/** One connection from end to end: requests and answers as frames in two byte streams, cut and delivered in any way,
    one frame handled per readiness signal, while other connections use the server in between. */
module Stream {
  import opened Prelude
  import opened Json
  import opened Protocol
  import opened Schema
  import opened Server
  import opened Framing
  import Runs

  // ---------------------------------------------------------------- the two ends

  const MALFORMED := Response(K_VERSION, AUTH, 0, Error, VALIDATION_ERROR, "Malformed request", map[])

  datatype ServerTurn = ServerTurn(db: Db, rest: Bytes, handled: Option<Request>, reply: Option<Response>)

  /** Listener::onReadyRead: at most one frame is read and answered. */
  ghost function ServeOnce(cfg: Config, c: Codec, db: Db, env: Env, buffer: Bytes): ServerTurn {
    var (o, rest) := Unframe(c, buffer);
    if o.None? then ServerTurn(db, rest, None, None)
    else match RequestFromJson(o.value)
      case None => ServerTurn(db, rest, None, Some(MALFORMED))
      case Some(req) =>
        var (d, resp) := Step(cfg, db, env, req);
        ServerTurn(d, rest, Some(req), Some(resp))
  }

  /** ApiClient::processResponse: at most one frame is read. */
  function ReceiveOnce(c: Codec, buffer: Bytes): (Option<Response>, Bytes) {
    var (o, rest) := Unframe(c, buffer);
    (if o.None? then None else ResponseFromJson(o.value), rest)
  }

  /** The request a client sends for an operation text; an unknown text is sent as AUTH. */
  function ClientRequest(op: string, reqId: int32, data: Object, token: string): Request {
    Request(K_VERSION, OpFromString(op).GetOr(AUTH), reqId, token, data)
  }

  function RequestFrame(c: Codec, r: Request): Bytes {
    Frame(c, RequestToJson(r))
  }

  function ResponseFrame(c: Codec, r: Response): Bytes {
    Frame(c, ResponseToJson(r))
  }

  // ---------------------------------------------------------------- the schedule

  datatype Event =
    | Send(op: string, reqId: int32, data: Object, token: string)
    | DeliverToServer(n: nat)
    | ServerReady(env: Env)
    | DeliverToClient(n: nat)
    | ClientReady
    | Foreign(env: Env, req: Request)

  datatype Entry = Entry(mine: bool, env: Env, req: Request)

  /** Bytes on the wire and in the socket buffers, what either end has done, and the server's log of everything it
      handled, from this connection or another. */
  datatype Conn = Conn(db: Db, toServer: Bytes, serverBuffer: Bytes, toClient: Bytes, clientBuffer: Bytes,
                       sent: seq<Request>, answered: seq<Response>, got: seq<Response>, busy: bool, log: seq<Entry>)

  function Start(db: Db): Conn {
    Conn(db, [], [], [], [], [], [], [], false, [])
  }

  ghost function Next(cfg: Config, c: Codec, s: Conn, e: Event): Conn {
    match e
    case Send(op, reqId, data, token) =>
      var r := ClientRequest(op, reqId, data, token);
      s.(toServer := s.toServer + RequestFrame(c, r), sent := s.sent + [r], busy := true)
    case DeliverToServer(n) =>
      var k := Min(n, |s.toServer|);
      s.(serverBuffer := s.serverBuffer + s.toServer[..k], toServer := s.toServer[k..])
    case ServerReady(env) => ServerSignal(cfg, c, s, env)
    case DeliverToClient(n) =>
      var k := Min(n, |s.toClient|);
      s.(clientBuffer := s.clientBuffer + s.toClient[..k], toClient := s.toClient[k..])
    case ClientReady =>
      var (r, rest) := ReceiveOnce(c, s.clientBuffer);
      if r.None? then s.(clientBuffer := rest) else s.(clientBuffer := rest, got := s.got + [r.value], busy := false)
    case Foreign(env, req) =>
      s.(db := Step(cfg, s.db, env, req).0, log := s.log + [Entry(false, env, req)])
  }

  ghost function ServerSignal(cfg: Config, c: Codec, s: Conn, env: Env): Conn {
    var t := ServeOnce(cfg, c, s.db, env, s.serverBuffer);
    s.(db := t.db, serverBuffer := t.rest,
       toClient := if t.reply.Some? then s.toClient + ResponseFrame(c, t.reply.value) else s.toClient,
       answered := if t.reply.Some? then s.answered + [t.reply.value] else s.answered,
       log := if t.handled.Some? then s.log + [Entry(true, env, t.handled.value)] else s.log)
  }

  ghost function After(cfg: Config, c: Codec, init: Db, events: seq<Event>, n: nat): Conn
    requires n <= |events|
  {
    if n == 0 then Start(init) else Next(cfg, c, After(cfg, c, init, events, n - 1), events[n - 1])
  }

  /** What sending does: one frame at the end of the bytes to the server, carrying the token, the data and the id given,
      under the operation the text names, AUTH where it names none; and the client waits. */
  lemma SendSends(cfg: Config, c: Codec, s: Conn, op: string, reqId: int32, data: Object, token: string)
    ensures var t := Next(cfg, c, s, Send(op, reqId, data, token));
            && |t.sent| == |s.sent| + 1 && s.sent <= t.sent && t.busy
            && (var r := t.sent[|s.sent|];
                && r.token == token && r.data == data && r.reqId == reqId && r.version == 1
                && (if exists o :: OpToString(o) == op then OpToString(r.op) == op else r.op == AUTH)
                && t.toServer == s.toServer + Frame(c, RequestToJson(r)))
            && t == s.(toServer := t.toServer, sent := t.sent, busy := true)
  {
    hide Frame, RequestToJson, OpToString;
    forall o ensures OpFromString(op) == Some(o) <==> op == OpToString(o) {
      OpCodec(op, o);
    }
  }

  // ---------------------------------------------------------------- the intended meaning

  /** The tables after the server handled the log. */
  ghost function DbAfter(cfg: Config, init: Db, log: seq<Entry>): Db {
    if log == [] then init
    else var e := log[|log| - 1]; Step(cfg, DbAfter(cfg, init, log[..|log| - 1]), e.env, e.req).0
  }

  /** The answers to this connection's requests in the log, in order. */
  ghost function Answers(cfg: Config, init: Db, log: seq<Entry>): seq<Response> {
    if log == [] then []
    else
      var e, before := log[|log| - 1], log[..|log| - 1];
      Answers(cfg, init, before) + (if e.mine then [Step(cfg, DbAfter(cfg, init, before), e.env, e.req).1] else [])
  }

  function Own(log: seq<Entry>): seq<Request> {
    if log == [] then []
    else Own(log[..|log| - 1]) + (if log[|log| - 1].mine then [log[|log| - 1].req] else [])
  }

  function RequestObjects(rs: seq<Request>): (os: seq<Object>)
    ensures |os| == |rs|
  {
    seq(|rs|, i requires 0 <= i < |rs| => RequestToJson(rs[i]))
  }

  function ResponseObjects(rs: seq<Response>): (os: seq<Object>)
    ensures |os| == |rs|
  {
    seq(|rs|, i requires 0 <= i < |rs| => ResponseToJson(rs[i]))
  }

  ghost predicate InLimits(c: Codec, s: Conn) {
    && (forall r | r in s.sent :: |c.toText(RequestToJson(r))| <= MAX_PAYLOAD)
    && (forall r | r in s.answered :: |c.toText(ResponseToJson(r))| <= MAX_PAYLOAD)
  }

  /** The server has handled a prefix of the requests, in order, and the rest is on its way to it. */
  ghost predicate ServerSide(cfg: Config, c: Codec, init: Db, s: Conn) {
    && s.db == DbAfter(cfg, init, s.log)
    && s.answered == Answers(cfg, init, s.log)
    && |s.answered| <= |s.sent| && Own(s.log) == s.sent[..|s.answered|]
    && s.serverBuffer + s.toServer == Frames(c, RequestObjects(s.sent[|s.answered|..]))
  }

  /** The client has decoded a prefix of the answers, in order, and the rest is on its way to it. */
  ghost predicate ClientSide(c: Codec, s: Conn) {
    && |s.got| <= |s.answered| && s.got == s.answered[..|s.got|]
    && s.clientBuffer + s.toClient == Frames(c, ResponseObjects(s.answered[|s.got|..]))
  }

  /** The bytes between the ends are exactly the frames not yet handled, and everything handled was handled in order. */
  ghost predicate Consistent(cfg: Config, c: Codec, init: Db, s: Conn) {
    ServerSide(cfg, c, init, s) && ClientSide(c, s)
  }

  // ---------------------------------------------------------------- every step keeps it

  lemma SendKeeps(cfg: Config, c: Codec, init: Db, s: Conn, e: Event)
    requires Consistent(cfg, c, init, s) && e.Send?
    ensures Consistent(cfg, c, init, Next(cfg, c, s, e))
  {
    hide Step, DbAfter, Answers, Own, RequestToJson, ResponseToJson, Frame;
    var t := Next(cfg, c, s, e);
    var r := t.sent[|s.sent|];
    assert t.sent[|s.answered|..] == s.sent[|s.answered|..] + [r];
    assert RequestObjects(t.sent[|s.answered|..]) == RequestObjects(s.sent[|s.answered|..]) + [RequestToJson(r)];
    FramesAppend(c, RequestObjects(s.sent[|s.answered|..]), RequestToJson(r));
    assert t.sent[..|s.answered|] == s.sent[..|s.answered|];
  }

  lemma CutAnywhere(buffer: Bytes, pipe: Bytes, k: nat)
    requires k <= |pipe|
    ensures (buffer + pipe[..k]) + pipe[k..] == buffer + pipe
  {
    assert pipe[..k] + pipe[k..] == pipe;
  }

  lemma DeliveryKeeps(cfg: Config, c: Codec, init: Db, s: Conn, e: Event)
    requires Consistent(cfg, c, init, s) && (e.DeliverToServer? || e.DeliverToClient?)
    ensures Consistent(cfg, c, init, Next(cfg, c, s, e))
  {
    hide Step, DbAfter, Answers, Own, Frames, RequestObjects, ResponseObjects, ServerSignal, ReceiveOnce;
    if e.DeliverToServer? {
      CutAnywhere(s.serverBuffer, s.toServer, Min(e.n, |s.toServer|));
    } else {
      CutAnywhere(s.clientBuffer, s.toClient, Min(e.n, |s.toClient|));
    }
  }

  lemma ForeignKeeps(cfg: Config, c: Codec, init: Db, s: Conn, e: Event)
    requires Consistent(cfg, c, init, s) && e.Foreign?
    ensures Consistent(cfg, c, init, Next(cfg, c, s, e))
  {
    hide Step, Frames;
    var t := Next(cfg, c, s, e);
    assert t.log[..|t.log| - 1] == s.log;
  }

  /** A frame that is no JSON object is dropped without an answer; an object that is no request is answered MALFORMED.
      Neither touches the tables. */
  lemma NoRequestInFrame(cfg: Config, c: Codec, db: Db, env: Env, payload: Bytes, rest: Bytes)
    requires |payload| <= MAX_PAYLOAD
    ensures c.fromText(payload).None? ==>
              ServeOnce(cfg, c, db, env, FrameBytes(payload) + rest) == ServerTurn(db, rest, None, None)
    ensures c.fromText(payload).Some? && RequestFromJson(c.fromText(payload).value).None? ==>
              ServeOnce(cfg, c, db, env, FrameBytes(payload) + rest) == ServerTurn(db, rest, None, Some(MALFORMED))
  {
    hide Step, FrameBytes, RequestFromJson, Take;
    FrameRoundTrip(payload, rest);
  }

  /** What one readiness signal does at the server: the oldest unhandled request, if all of it has arrived. */
  lemma ServerTurnExact(cfg: Config, c: Codec, init: Db, s: Conn, env: Env)
    requires Consistent(cfg, c, init, s) && c.Lawful() && InLimits(c, s)
    ensures var t := ServeOnce(cfg, c, s.db, env, s.serverBuffer);
            if |s.answered| < |s.sent| && |s.serverBuffer| >= |RequestFrame(c, s.sent[|s.answered|])|
            then
              var req := s.sent[|s.answered|];
              && t.handled == Some(req) && t.db == Step(cfg, s.db, env, req).0
              && t.reply == Some(Step(cfg, s.db, env, req).1)
              && t.rest + s.toServer == Frames(c, RequestObjects(s.sent[|s.answered| + 1..]))
            else t == ServerTurn(s.db, s.serverBuffer, None, None)
  {
    hide Step, DbAfter, Answers, Own, RequestToJson, RequestFromJson, Frames, Unframe;
    var open := s.sent[|s.answered|..];
    var os := RequestObjects(open);
    ReadFirst(c, os, s.serverBuffer, s.toServer);
    if open != [] {
      RequestRoundTrip(open[0]);
      assert open[1..] == s.sent[|s.answered| + 1..];
      assert RequestObjects(open[1..]) == os[1..];
    }
  }

  lemma ServerSideKept(cfg: Config, c: Codec, init: Db, s: Conn, env: Env)
    requires Consistent(cfg, c, init, s) && c.Lawful() && InLimits(c, s)
    ensures ServerSide(cfg, c, init, ServerSignal(cfg, c, s, env))
    ensures var t := ServerSignal(cfg, c, s, env).answered;
            t == s.answered || (|t| == |s.answered| + 1 && t[..|s.answered|] == s.answered)
  {
    hide Step, ClientSide, ServeOnce, Frames, RequestObjects, ResponseFrame, RequestFrame, Unframe;
    var t := ServerSignal(cfg, c, s, env);
    ServerTurnExact(cfg, c, init, s, env);
    if t.answered != s.answered {
      assert t.log[..|t.log| - 1] == s.log;
      assert t.sent[..|t.answered|] == s.sent[..|s.answered|] + [s.sent[|s.answered|]];
    }
  }

  lemma ClientSideKept(cfg: Config, c: Codec, s: Conn, env: Env)
    requires ClientSide(c, s)
    ensures ClientSide(c, ServerSignal(cfg, c, s, env))
  {
    hide Step, ServeOnce, Frame, ResponseToJson;
    var t := ServerSignal(cfg, c, s, env);
    if t.answered != s.answered {
      var r := t.answered[|s.answered|];
      assert t.answered[|s.got|..] == s.answered[|s.got|..] + [r];
      AnswerQueued(c, s.answered[|s.got|..], r);
      assert t.clientBuffer + t.toClient == s.clientBuffer + s.toClient + ResponseFrame(c, r);
      assert t.answered[..|s.got|] == s.answered[..|s.got|];
    }
  }

  lemma AnswerQueued(c: Codec, waiting: seq<Response>, r: Response)
    ensures Frames(c, ResponseObjects(waiting + [r])) == Frames(c, ResponseObjects(waiting)) + ResponseFrame(c, r)
  {
    hide Frame, ResponseToJson, Frames;
    assert ResponseObjects(waiting + [r]) == ResponseObjects(waiting) + [ResponseToJson(r)];
    FramesAppend(c, ResponseObjects(waiting), ResponseToJson(r));
  }

  lemma ServerKeeps(cfg: Config, c: Codec, init: Db, s: Conn, env: Env)
    requires Consistent(cfg, c, init, s) && c.Lawful() && InLimits(c, s)
    ensures Consistent(cfg, c, init, ServerSignal(cfg, c, s, env))
  {
    hide ServerSide, ClientSide, ServerSignal, InLimits;
    ServerSideKept(cfg, c, init, s, env);
    ClientSideKept(cfg, c, s, env);
  }

  lemma ClientKeeps(cfg: Config, c: Codec, init: Db, s: Conn)
    requires Consistent(cfg, c, init, s) && c.Lawful() && InLimits(c, s)
    ensures Consistent(cfg, c, init, Next(cfg, c, s, ClientReady))
  {
    hide Step, DbAfter, Answers, Own, ResponseToJson, ResponseFromJson, Frames, Unframe;
    var t := Next(cfg, c, s, ClientReady);
    var open := s.answered[|s.got|..];
    ReadFirst(c, ResponseObjects(open), s.clientBuffer, s.toClient);
    if open != [] {
      ResponseRoundTrip(open[0]);
      assert open[1..] == s.answered[|s.got| + 1..];
      assert ResponseObjects(open[1..]) == ResponseObjects(open)[1..];
      assert s.answered[..|s.got| + 1] == s.answered[..|s.got|] + [s.answered[|s.got|]];
    }
  }

  lemma NextKeeps(cfg: Config, c: Codec, init: Db, s: Conn, e: Event)
    requires Consistent(cfg, c, init, s) && c.Lawful() && InLimits(c, s)
    ensures Consistent(cfg, c, init, Next(cfg, c, s, e))
  {
    hide Consistent, ServerSignal, Step, ReceiveOnce, InLimits;
    match e
    case Send(_, _, _, _) => SendKeeps(cfg, c, init, s, e);
    case DeliverToServer(_) => DeliveryKeeps(cfg, c, init, s, e);
    case DeliverToClient(_) => DeliveryKeeps(cfg, c, init, s, e);
    case ServerReady(env) => ServerKeeps(cfg, c, init, s, env);
    case ClientReady => ClientKeeps(cfg, c, init, s);
    case Foreign(_, _) => ForeignKeeps(cfg, c, init, s, e);
  }

  // ---------------------------------------------------------------- main results

  /** Nothing sent or answered is ever forgotten, so limits on the final lists are limits all along. */
  lemma ListsGrow(cfg: Config, c: Codec, s: Conn, e: Event)
    ensures var t := Next(cfg, c, s, e); s.sent <= t.sent && s.answered <= t.answered
  {
    hide Step, ServeOnce, ReceiveOnce, ClientRequest, Frame;
  }

  lemma {:induction false} ScheduleConsistent(cfg: Config, c: Codec, init: Db, events: seq<Event>, n: nat)
    requires n <= |events| && c.Lawful() && InLimits(c, After(cfg, c, init, events, n))
    ensures Consistent(cfg, c, init, After(cfg, c, init, events, n))
  {
    hide Next, Step, Consistent;
    if n == 0 {
      StartConsistent(cfg, c, init);
    } else {
      ListsGrow(cfg, c, After(cfg, c, init, events, n - 1), events[n - 1]);
      ScheduleConsistent(cfg, c, init, events, n - 1);
      NextKeeps(cfg, c, init, After(cfg, c, init, events, n - 1), events[n - 1]);
    }
  }

  lemma StartConsistent(cfg: Config, c: Codec, init: Db)
    ensures Consistent(cfg, c, init, Start(init))
  {
  }

  lemma {:induction false} AnswersEcho(cfg: Config, init: Db, log: seq<Entry>)
    ensures |Answers(cfg, init, log)| == |Own(log)|
    ensures forall i | 0 <= i < |Own(log)| :: Answers(cfg, init, log)[i].op == Own(log)[i].op
                                              && Answers(cfg, init, log)[i].reqId == Own(log)[i].reqId
  {
    hide Decide, Apply, WriteAudit, DbAfter;
    if log != [] {
      AnswersEcho(cfg, init, log[..|log| - 1]);
    }
  }

  /** For every interleaving of sends, cuts, deliveries, readiness signals and other clients' requests: what the client
      has decoded is a prefix, in order, of the answers the server computed for this connection; the requests answered
      are a prefix, in order, of those sent; each answer carries its request's operation and id; and the tables are
      those after the logged requests. */
  lemma StreamCorrespondence(cfg: Config, c: Codec, init: Db, events: seq<Event>, n: nat)
    requires n <= |events| && c.Lawful() && InLimits(c, After(cfg, c, init, events, n))
    ensures var s := After(cfg, c, init, events, n);
            && s.got <= Answers(cfg, init, s.log)
            && Own(s.log) <= s.sent
            && |Answers(cfg, init, s.log)| == |Own(s.log)|
            && (forall i | 0 <= i < |s.got| :: s.got[i].op == s.sent[i].op && s.got[i].reqId == s.sent[i].reqId)
            && s.db == DbAfter(cfg, init, s.log)
  {
    hide Next, Step, Frames, DbAfter, After, Answers, Own, InLimits;
    ScheduleConsistent(cfg, c, init, events, n);
    AnswersEcho(cfg, init, After(cfg, c, init, events, n).log);
  }

  /** The log of a connection, its own requests and the others', as a run of the server. */
  function LogRun(cfg: Config, init: Db, log: seq<Entry>): (run: Runs.Run)
    ensures run.cfg == cfg && run.init == init && |run.events| == |log|
    ensures forall k | 0 <= k < |log| :: run.events[k] == Runs.Event(log[k].env, log[k].req)
  {
    Runs.Run(cfg, init, seq(|log|, k requires 0 <= k < |log| => Runs.Event(log[k].env, log[k].req)))
  }

  /** The tables behind a connection are a state of that run, so every result about runs holds of them. */
  lemma {:induction false} TablesAreRun(cfg: Config, init: Db, log: seq<Entry>)
    ensures DbAfter(cfg, init, log) == LogRun(cfg, init, log).State(|log|)
  {
    hide Step, LogRun;
    if log != [] {
      var before := log[..|log| - 1];
      TablesAreRun(cfg, init, before);
      var a, b := LogRun(cfg, init, before), LogRun(cfg, init, log);
      assert a.events[..|before|] == b.events[..|before|];
      Runs.SamePast(a, b, |before|);
    }
  }

  /** And its answers are the run's answers to its own requests, in order. */
  lemma {:induction false} AnswersAreRun(cfg: Config, init: Db, log: seq<Entry>, k: nat)
    requires k < |log| && log[k].mine
    ensures |Own(log[..k])| < |Answers(cfg, init, log)|
    ensures Answers(cfg, init, log)[|Own(log[..k])|] == LogRun(cfg, init, log).Answer(k)
  {
    hide Step, LogRun;
    var before := log[..|log| - 1];
    AnswersEcho(cfg, init, before);
    var a, b := LogRun(cfg, init, before), LogRun(cfg, init, log);
    assert a.events[..|before|] == b.events[..|before|];
    if k == |log| - 1 {
      TablesAreRun(cfg, init, before);
      Runs.SamePast(a, b, k);
    } else {
      assert before[..k] == log[..k];
      AnswersAreRun(cfg, init, before, k);
      assert a.events[..k] == a.events[..|before|][..k] == b.events[..|before|][..k] == b.events[..k];
      Runs.SamePast(a, b, k);
    }
  }

  /** Nothing is lost: once every byte has arrived and no request waits, all requests have their answers. */
  lemma QuiescentIsComplete(cfg: Config, c: Codec, init: Db, events: seq<Event>, n: nat)
    requires n <= |events| && c.Lawful() && InLimits(c, After(cfg, c, init, events, n))
    requires var s := After(cfg, c, init, events, n);
             s.toServer == [] && s.serverBuffer == [] && s.toClient == [] && s.clientBuffer == []
    ensures var s := After(cfg, c, init, events, n); |s.got| == |s.sent| && s.got == Answers(cfg, init, s.log)
  {
    hide Next, Step, DbAfter, After, Answers, Own, InLimits;
    ScheduleConsistent(cfg, c, init, events, n);
  }

  /** The server after k signals in a row. */
  ghost function Signals(cfg: Config, c: Codec, s: Conn, envs: seq<Env>): Conn {
    if envs == [] then s else ServerSignal(cfg, c, Signals(cfg, c, s, envs[..|envs| - 1]), envs[|envs| - 1])
  }

  /** With everything arrived, k signals handle exactly min(k, waiting) requests: a signal is never wasted on a waiting
      request and never handles two. */
  lemma {:induction false} SignalsHandle(cfg: Config, c: Codec, init: Db, s: Conn, envs: seq<Env>)
    requires Consistent(cfg, c, init, s) && c.Lawful() && s.toServer == []
    requires InLimits(c, Signals(cfg, c, s, envs))
    ensures var t := Signals(cfg, c, s, envs);
            && Consistent(cfg, c, init, t) && t.toServer == [] && t.sent == s.sent && s.answered <= t.answered
            && |t.answered| == |s.answered| + Min(|envs|, |s.sent| - |s.answered|)
  {
    hide Step, Consistent, ServeOnce, ResponseFrame, DbAfter, Answers, Own, Frames, InLimits;
    NeverAhead(cfg, c, init, s);
    if envs != [] {
      var before := Signals(cfg, c, s, envs[..|envs| - 1]);
      var env := envs[|envs| - 1];
      LimitsBefore(c, before, Signals(cfg, c, s, envs));
      SignalsHandle(cfg, c, init, s, envs[..|envs| - 1]);
      ServerKeeps(cfg, c, init, before, env);
      SignalTakesOne(cfg, c, init, before, env);
    }
  }

  lemma NeverAhead(cfg: Config, c: Codec, init: Db, s: Conn)
    requires Consistent(cfg, c, init, s)
    ensures |s.answered| <= |s.sent|
  {
    hide Frames, DbAfter, Answers;
  }

  lemma LimitsBefore(c: Codec, s: Conn, t: Conn)
    requires s.sent <= t.sent && s.answered <= t.answered && InLimits(c, t)
    ensures InLimits(c, s)
  {
  }

  lemma SignalTakesOne(cfg: Config, c: Codec, init: Db, s: Conn, env: Env)
    requires Consistent(cfg, c, init, s) && c.Lawful() && InLimits(c, s) && s.toServer == []
    ensures |ServerSignal(cfg, c, s, env).answered| == |s.answered| + Min(1, |s.sent| - |s.answered|)
  {
    hide Step, DbAfter, Answers, Own, ServeOnce, Frame;
    ServerTurnExact(cfg, c, init, s, env);
    var open := RequestObjects(s.sent[|s.answered|..]);
    if open != [] {
      assert s.serverBuffer + [] == s.serverBuffer;
      assert |s.serverBuffer| >= |Frame(c, open[0])|;
    }
  }
}
