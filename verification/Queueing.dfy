/** Exactly how many requests are answered and how many answers are decoded, after any schedule whatever: either end is
    a queue that frames enter as their last byte arrives and that one signal serves by one frame. */
module Queueing {
  import opened Json
  import opened Protocol
  import opened Schema
  import opened Server
  import opened Framing
  import opened Stream
  import opened Schedules

  // ---------------------------------------------------------------- whole frames

  /** How many of the frames of `os` are whole within their first so many bytes. */
  function Whole(c: Codec, os: seq<Object>, bytes: int): (k: nat)
    ensures k <= |os|
  {
    if os == [] || bytes < |Frame(c, os[0])| then 0 else 1 + Whole(c, os[1..], bytes - |Frame(c, os[0])|)
  }

  /** It is the greatest number of leading frames that fit. */
  lemma {:induction false} WholeIsGreatest(c: Codec, os: seq<Object>, bytes: nat)
    ensures |Frames(c, os[..Whole(c, os, bytes)])| <= bytes
    ensures Whole(c, os, bytes) < |os| ==> |Frames(c, os[..Whole(c, os, bytes) + 1])| > bytes
  {
    hide Frame;
    if os != [] {
      var f, k := |Frame(c, os[0])|, Whole(c, os, bytes);
      if bytes >= f {
        WholeIsGreatest(c, os[1..], bytes - f);
        assert os[..k][1..] == os[1..][..k - 1];
        if k < |os| { assert os[..k + 1][1..] == os[1..][..k]; }
      } else {
        assert os[..1][1..] == [];
      }
    }
  }

  /** Requests that have arrived wholly and are not handled yet. */
  function WaitingRequests(c: Codec, s: Conn): nat
    requires |s.answered| <= |s.sent|
  {
    Whole(c, RequestObjects(s.sent[|s.answered|..]), |s.serverBuffer|)
  }

  /** Answers that have arrived wholly and are not decoded yet. */
  function WaitingAnswers(c: Codec, s: Conn): nat
    requires |s.got| <= |s.answered|
  {
    Whole(c, ResponseObjects(s.answered[|s.got|..]), |s.clientBuffer|)
  }

  /** All requests that have arrived wholly, handled or not. */
  function ArrivedRequests(c: Codec, s: Conn): nat
    requires |s.answered| <= |s.sent|
  {
    |s.answered| + WaitingRequests(c, s)
  }

  function ArrivedAnswers(c: Codec, s: Conn): nat
    requires |s.got| <= |s.answered|
  {
    |s.got| + WaitingAnswers(c, s)
  }

  /** The signals at an end among events m to n - 1. */
  function Signals(events: seq<Event>, atServer: bool, m: nat, n: nat): nat
    requires m <= n <= |events|
    decreases n
  {
    if n == m then 0
    else Signals(events, atServer, m, n - 1)
         + (if (if atServer then events[n - 1].ServerReady? else events[n - 1].ClientReady?) then 1 else 0)
  }

  // ---------------------------------------------------------------- one signal

  /** A signal at the server handles one request if one has arrived wholly, and does nothing otherwise. */
  lemma ServerServes(cfg: Config, c: Codec, init: Db, s: Conn, env: Env)
    requires Consistent(cfg, c, init, s) && c.Lawful() && InLimits(c, s)
    ensures |s.answered| <= |s.sent|
    ensures if WaitingRequests(c, s) == 0 then ServerSignal(cfg, c, s, env) == s
            else |ServerSignal(cfg, c, s, env).answered| == |s.answered| + 1
  {
    hide Step, DbAfter, Answers, Own, ServeOnce, Frames, Frame, ClientSide;
    ServerTurnExact(cfg, c, init, s, env);
    var open := s.sent[|s.answered|..];
    if open != [] {
      assert RequestObjects(open)[0] == RequestToJson(s.sent[|s.answered|]);
    }
  }

  lemma ClientServes(cfg: Config, c: Codec, init: Db, s: Conn)
    requires Consistent(cfg, c, init, s) && c.Lawful() && InLimits(c, s)
    ensures |s.got| <= |s.answered|
    ensures if WaitingAnswers(c, s) == 0 then Next(cfg, c, s, ClientReady) == s
            else |Next(cfg, c, s, ClientReady).got| == |s.got| + 1
  {
    hide Step, ServerSide, ResponseToJson, ResponseFromJson, Unframe, Frames, Frame;
    var open := s.answered[|s.got|..];
    ReadFirst(c, ResponseObjects(open), s.clientBuffer, s.toClient);
    if open != [] {
      ResponseRoundTrip(open[0]);
    }
  }

  /** Only its own signals move an end. */
  lemma OthersWait(cfg: Config, c: Codec, s: Conn, e: Event)
    ensures !e.ServerReady? ==> Next(cfg, c, s, e).answered == s.answered
    ensures !e.ClientReady? ==> Next(cfg, c, s, e).got == s.got
  {
    hide Next;
    if e.Send? {
      SendFills(cfg, c, s, e);
    } else if e.ClientReady? {
      ClientMoves(cfg, c, s);
    } else {
      ServerMoves(cfg, c, s, e);
    }
  }

  // ---------------------------------------------------------------- any schedule

  lemma {:induction false} AnsweredAtMost(cfg: Config, c: Codec, init: Db, events: seq<Event>, m: nat, n: nat)
    requires m <= n <= |events| && c.Lawful() && InLimits(c, After(cfg, c, init, events, n))
    ensures |After(cfg, c, init, events, m).answered| <= |After(cfg, c, init, events, m).sent|
    ensures |After(cfg, c, init, events, n).answered| <=
            ArrivedRequests(c, After(cfg, c, init, events, m)) + Signals(events, true, m, n)
    decreases n
  {
    hide Next, InLimits, Consistent, WaitingRequests, ServerSignal;
    ConsistentAt(cfg, c, init, events, n, m);
    if m < n {
      var s, e := After(cfg, c, init, events, n - 1), events[n - 1];
      ConsistentAt(cfg, c, init, events, n, n - 1);
      AnsweredAtMost(cfg, c, init, events, m, n - 1);
      OthersWait(cfg, c, s, e);
      if e.ServerReady? {
        ServerServes(cfg, c, init, s, e.env);
        SignalIsNext(cfg, c, s, e.env);
      }
    }
  }

  /** Moment m is where the answers given by n were held up last: all that had arrived was answered, and every signal
      since has answered one. */
  ghost predicate HeldUp(cfg: Config, c: Codec, init: Db, events: seq<Event>, m: nat, n: nat)
    requires m <= n <= |events|
  {
    var s := After(cfg, c, init, events, m);
    && |s.answered| <= |s.sent|
    && |After(cfg, c, init, events, n).answered| == ArrivedRequests(c, s) + Signals(events, true, m, n)
  }

  lemma {:induction false} AnsweredAtLeast(cfg: Config, c: Codec, init: Db, events: seq<Event>, n: nat) returns (m: nat)
    requires n <= |events| && c.Lawful() && InLimits(c, After(cfg, c, init, events, n))
    ensures m <= n && HeldUp(cfg, c, init, events, m, n)
  {
    hide Next, InLimits, Consistent, ServerSignal;
    if n == 0 {
      m := 0;
    } else {
      var s, e := After(cfg, c, init, events, n - 1), events[n - 1];
      hide WaitingRequests;
      ConsistentAt(cfg, c, init, events, n, n - 1);
      m := AnsweredAtLeast(cfg, c, init, events, n - 1);
      OthersWait(cfg, c, s, e);
      if e.ServerReady? {
        ServerServes(cfg, c, init, s, e.env);
        SignalIsNext(cfg, c, s, e.env);
        if WaitingRequests(c, s) == 0 {
          m := n;
        }
      }
    }
  }

  /** Exact for every schedule, nothing assumed of sends, cuts or signals: the requests answered by n are the least,
      over all moments m up to n, of what had arrived by m plus the signals since. */
  lemma AnsweredExactly(cfg: Config, c: Codec, init: Db, events: seq<Event>, n: nat)
    requires n <= |events| && c.Lawful() && InLimits(c, After(cfg, c, init, events, n))
    ensures forall m: nat | m <= n ::
              && |After(cfg, c, init, events, m).answered| <= |After(cfg, c, init, events, m).sent|
              && |After(cfg, c, init, events, n).answered| <=
                 ArrivedRequests(c, After(cfg, c, init, events, m)) + Signals(events, true, m, n)
    ensures exists m: nat | m <= n :: HeldUp(cfg, c, init, events, m, n)
  {
    hide Next, InLimits, HeldUp, ArrivedRequests;
    forall m: nat | m <= n
      ensures |After(cfg, c, init, events, m).answered| <= |After(cfg, c, init, events, m).sent|
      ensures |After(cfg, c, init, events, n).answered| <=
              ArrivedRequests(c, After(cfg, c, init, events, m)) + Signals(events, true, m, n)
    {
      AnsweredAtMost(cfg, c, init, events, m, n);
    }
    var m := AnsweredAtLeast(cfg, c, init, events, n);
  }

  /** There were as many signals since m as requests sent by n had not wholly arrived by m. */
  ghost predicate EnoughSignals(cfg: Config, c: Codec, init: Db, events: seq<Event>, m: nat, n: nat)
    requires m <= n <= |events|
  {
    var s := After(cfg, c, init, events, m);
    && |s.answered| <= |s.sent|
    && |After(cfg, c, init, events, n).sent| - ArrivedRequests(c, s) <= Signals(events, true, m, n)
  }

  /** So all requests sent by n are answered if and only if from every moment on there were as many signals as requests
      had not wholly arrived by that moment. */
  lemma AllAnsweredIff(cfg: Config, c: Codec, init: Db, events: seq<Event>, n: nat)
    requires n <= |events| && c.Lawful() && InLimits(c, After(cfg, c, init, events, n))
    ensures var s := After(cfg, c, init, events, n);
            |s.answered| == |s.sent| <==> forall m: nat | m <= n :: EnoughSignals(cfg, c, init, events, m, n)
  {
    hide Next, InLimits, ArrivedRequests, Consistent;
    ConsistentAt(cfg, c, init, events, n, n);
    var s := After(cfg, c, init, events, n);
    if |s.answered| == |s.sent| {
      forall m: nat | m <= n ensures EnoughSignals(cfg, c, init, events, m, n) {
        AnsweredAtMost(cfg, c, init, events, m, n);
      }
    }
    var held := AnsweredAtLeast(cfg, c, init, events, n);
    assert EnoughSignals(cfg, c, init, events, held, n) ==> |s.sent| <= |s.answered|;
  }

  // ---------------------------------------------------------------- the client's end

  lemma {:induction false} DecodedAtMost(cfg: Config, c: Codec, init: Db, events: seq<Event>, m: nat, n: nat)
    requires m <= n <= |events| && c.Lawful() && InLimits(c, After(cfg, c, init, events, n))
    ensures |After(cfg, c, init, events, m).got| <= |After(cfg, c, init, events, m).answered|
    ensures |After(cfg, c, init, events, n).got| <=
            ArrivedAnswers(c, After(cfg, c, init, events, m)) + Signals(events, false, m, n)
    decreases n
  {
    hide Next, InLimits, Consistent, WaitingAnswers;
    ConsistentAt(cfg, c, init, events, n, m);
    if m < n {
      var s, e := After(cfg, c, init, events, n - 1), events[n - 1];
      ConsistentAt(cfg, c, init, events, n, n - 1);
      DecodedAtMost(cfg, c, init, events, m, n - 1);
      OthersWait(cfg, c, s, e);
      if e.ClientReady? {
        ClientServes(cfg, c, init, s);
      }
    }
  }

  ghost predicate ClientHeldUp(cfg: Config, c: Codec, init: Db, events: seq<Event>, m: nat, n: nat)
    requires m <= n <= |events|
  {
    var s := After(cfg, c, init, events, m);
    && |s.got| <= |s.answered|
    && |After(cfg, c, init, events, n).got| == ArrivedAnswers(c, s) + Signals(events, false, m, n)
  }

  lemma {:induction false} DecodedAtLeast(cfg: Config, c: Codec, init: Db, events: seq<Event>, n: nat) returns (m: nat)
    requires n <= |events| && c.Lawful() && InLimits(c, After(cfg, c, init, events, n))
    ensures m <= n && ClientHeldUp(cfg, c, init, events, m, n)
  {
    hide Next, InLimits, Consistent;
    if n == 0 {
      m := 0;
    } else {
      var s, e := After(cfg, c, init, events, n - 1), events[n - 1];
      hide WaitingAnswers;
      ConsistentAt(cfg, c, init, events, n, n - 1);
      m := DecodedAtLeast(cfg, c, init, events, n - 1);
      OthersWait(cfg, c, s, e);
      if e.ClientReady? {
        ClientServes(cfg, c, init, s);
        if WaitingAnswers(c, s) == 0 {
          m := n;
        }
      }
    }
  }

  ghost predicate EnoughAtClient(cfg: Config, c: Codec, init: Db, events: seq<Event>, m: nat, n: nat)
    requires m <= n <= |events|
  {
    var s := After(cfg, c, init, events, m);
    && |s.got| <= |s.answered|
    && |After(cfg, c, init, events, n).answered| - ArrivedAnswers(c, s) <= Signals(events, false, m, n)
  }

  /** The same at the client: all answers given by n are decoded if and only if from every moment on there were as many
      signals as answers had not wholly arrived by then. */
  lemma AllDecodedIff(cfg: Config, c: Codec, init: Db, events: seq<Event>, n: nat)
    requires n <= |events| && c.Lawful() && InLimits(c, After(cfg, c, init, events, n))
    ensures var s := After(cfg, c, init, events, n);
            |s.got| == |s.answered| <==> forall m: nat | m <= n :: EnoughAtClient(cfg, c, init, events, m, n)
  {
    hide Next, InLimits, ArrivedAnswers, Consistent;
    ConsistentAt(cfg, c, init, events, n, n);
    var s := After(cfg, c, init, events, n);
    if |s.got| == |s.answered| {
      forall m: nat | m <= n ensures EnoughAtClient(cfg, c, init, events, m, n) {
        DecodedAtMost(cfg, c, init, events, m, n);
      }
    }
    var held := DecodedAtLeast(cfg, c, init, events, n);
    assert EnoughAtClient(cfg, c, init, events, held, n) ==> |s.answered| <= |s.got|;
  }
}
