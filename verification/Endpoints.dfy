/** The two ends of a connection as they run: one frame per readiness signal. */
module Endpoints {
  import opened Prelude
  import opened Json
  import opened Protocol
  import opened Schema
  import opened Server
  import opened Framing
  import opened Stream
  import opened Pep

  // ---------------------------------------------------------------- the server's end

  /** One server turn took place, in the surroundings e the database chose among those of env: the tables and the socket
      changed exactly as the turn says. */
  ghost predicate Turned(cfg: Config, codec: Codec, db: Db, env: Env, buffer: Bytes, e: Env,
                         db': Db, buffer': Bytes, written: Bytes, written': Bytes) {
    var t := ServeOnce(cfg, codec, db, e, buffer);
    && Chosen(db, env, t.handled, e)
    && db' == t.db && buffer' == t.rest
    && written' == written + (if t.reply.Some? then ResponseFrame(codec, t.reply.value) else [])
  }

  class Listener {
    const pep: PEP
    const codec: Codec

    constructor (pep: PEP, codec: Codec)
      ensures this.pep == pep && this.codec == codec
    {
      this.pep, this.codec := pep, codec;
    }

    /** The data behind the enforcement point, and the socket, change exactly as one server turn says. */
    method OnReadyRead(socket: Device, env: Env)
      requires pep.Valid()
      modifies socket, pep.pip
      ensures pep.Valid()
      ensures exists e :: Turned(pep.cfg, codec, old(pep.pip.Tables()), env, old(socket.buffer), e,
                                 pep.pip.Tables(), socket.buffer, old(socket.written), socket.written)
    {
      hide Step, Frame, FromU32, RequestFromJson;
      if |socket.buffer| == 0 {
        ghost var db, written := pep.pip.Tables(), socket.written;
        assert Turned(pep.cfg, codec, db, env, [], env, db, [], written, written);
        return;
      }
      ProcessRequest(socket, env);
    }

    method ProcessRequest(socket: Device, env: Env)
      requires pep.Valid()
      modifies socket, pep.pip
      ensures pep.Valid()
      ensures exists e :: Turned(pep.cfg, codec, old(pep.pip.Tables()), env, old(socket.buffer), e,
                                 pep.pip.Tables(), socket.buffer, old(socket.written), socket.written)
    {
      hide Step, Frame, Unframe, Integrity, RequestFromJson, ResponseToJson, AuditOrderOk;
      ghost var db, buffer, written := pep.pip.Tables(), socket.buffer, socket.written;
      var frame := ReadFrame(codec, socket);
      if frame.None? {
        assert Turned(pep.cfg, codec, db, env, buffer, env, db, socket.buffer, written, socket.written);
        return;
      }
      var request := RequestFromJson(frame.value);
      if request.None? {
        socket.Write(Frame(codec, ResponseToJson(MALFORMED)));
        assert Turned(pep.cfg, codec, db, env, buffer, env, db, socket.buffer, written, socket.written);
        return;
      }
      var response := pep.Handle(request.value, env);
      socket.Write(Frame(codec, ResponseToJson(response)));
      ghost var e :| Chosen(db, env, request, e) && (pep.pip.Tables(), response) == Step(pep.cfg, db, e, request.value);
      assert Turned(pep.cfg, codec, db, env, buffer, e, pep.pip.Tables(), socket.buffer, written, socket.written);
    }
  }

  // ---------------------------------------------------------------- the client's end

  /** What a client's user is handed for a response: all of it but the version. */
  function Handed(r: Response): Object {
    map["op" := Str(OpToString(r.op)), "req_id" := Number(r.reqId), "status" := Str(StatusToString(r.status)),
        "code" := Str(CodeToString(r.code)), "message" := Str(r.message), "data" := Obj(r.data)]
  }

  /** What is handed on still determines the response. */
  lemma HandedDetermines(r: Response)
    ensures ResponseFromJson(Handed(r)) == Some(r.(version := K_VERSION))
  {
    OpCodec(OpToString(r.op), r.op);
    CodeCodec(CodeToString(r.code), r.code);
    var o := Handed(r);
    assert o["op"] == Str(OpToString(r.op)) && o["status"] == Str(StatusToString(r.status));
  }

  class ApiClient {
    const socket: Device
    const codec: Codec
    var connected: bool
    var busy: bool
    var received: seq<Object>

    constructor (socket: Device, codec: Codec)
      ensures this.socket == socket && this.codec == codec && !connected && !busy && received == []
    {
      this.socket, this.codec := socket, codec;
      connected, busy, received := false, false, [];
    }

    /** Without a connection nothing is sent, and nothing says so. */
    method SendRequest(op: string, reqId: int32, data: Object, token: string)
      modifies socket`written, this`busy
      ensures busy == (old(busy) || connected)
      ensures socket.written == old(socket.written)
                                + (if connected then RequestFrame(codec, ClientRequest(op, reqId, data, token)) else [])
    {
      hide Frame, RequestToJson, OpFromString;
      if !connected {
        return;
      }
      var req := Request(K_VERSION, OpFromString(op).GetOr(AUTH), reqId, token, data);
      socket.Write(Frame(codec, RequestToJson(req)));
      busy := true;
    }

    /** Any decoded response ends the waiting, whichever request it answers; junk is dropped silently. */
    method ProcessResponse()
      modifies socket`buffer, this`busy, this`received
      ensures var (r, rest) := ReceiveOnce(codec, old(socket.buffer));
              && socket.buffer == rest
              && busy == (old(busy) && r.None?)
              && received == old(received) + (if r.Some? then [Handed(r.value)] else [])
    {
      hide Unframe, ResponseFromJson, Handed;
      var frame := ReadFrame(codec, socket);
      if frame.None? {
        return;
      }
      var response := ResponseFromJson(frame.value);
      if response.None? {
        return;
      }
      busy := false;
      received := received + [Handed(response.value)];
    }

    method OnDisconnected()
      modifies this`connected, this`busy
      ensures !connected && !busy
    {
      connected, busy := false, false;
    }
  }
}
