/** Requests, responses and their JSON form. */
module Protocol {
  import opened Prelude
  import opened Json

  datatype Op =
    | AUTH | LOGOUT | ME
    | RESOURCE_LIST | RESOURCE_GET | RESOURCE_CREATE | RESOURCE_UPDATE | RESOURCE_DELETE
    | POLICY_LIST | POLICY_CREATE | POLICY_UPDATE | POLICY_DELETE
    | USER_LIST | USER_CREATE | USER_UPDATE | USER_DELETE
    | ACCESS_CHECK | GRANT_ACCESS | REVOKE_ACCESS | AUDIT_QUERY

  datatype Status = Ok | Denied | Error

  datatype ResultCode =
    | OK | AUTH_DENIED | AUTH_FAILED_TOO_MANY | ACCOUNT_LOCKED | ACCOUNT_INACTIVE
    | TOKEN_INVALID | TOKEN_EXPIRED | ACCESS_DENIED | RESOURCE_NOT_FOUND | VALIDATION_ERROR
    | UNSUPPORTED_OP | SERVER_BUSY | INTERNAL_ERROR

  const K_VERSION: int32 := 1

  datatype Request = Request(version: int32, op: Op, reqId: int32, token: string, data: Object)

  datatype Response = Response(version: int32, op: Op, reqId: int32, status: Status, code: ResultCode,
                               message: string, data: Object)

  function OpToString(op: Op): string {
    match op
    case AUTH => "AUTH"
    case LOGOUT => "LOGOUT"
    case ME => "ME"
    case RESOURCE_LIST => "RESOURCE_LIST"
    case RESOURCE_GET => "RESOURCE_GET"
    case RESOURCE_CREATE => "RESOURCE_CREATE"
    case RESOURCE_UPDATE => "RESOURCE_UPDATE"
    case RESOURCE_DELETE => "RESOURCE_DELETE"
    case POLICY_LIST => "POLICY_LIST"
    case POLICY_CREATE => "POLICY_CREATE"
    case POLICY_UPDATE => "POLICY_UPDATE"
    case POLICY_DELETE => "POLICY_DELETE"
    case USER_LIST => "USER_LIST"
    case USER_CREATE => "USER_CREATE"
    case USER_UPDATE => "USER_UPDATE"
    case USER_DELETE => "USER_DELETE"
    case ACCESS_CHECK => "ACCESS_CHECK"
    case GRANT_ACCESS => "GRANT_ACCESS"
    case REVOKE_ACCESS => "REVOKE_ACCESS"
    case AUDIT_QUERY => "AUDIT_QUERY"
  }

  const OP_CODES: map<string, Op> := map[
    "AUTH" := AUTH, "LOGOUT" := LOGOUT, "ME" := ME,
    "RESOURCE_LIST" := RESOURCE_LIST, "RESOURCE_GET" := RESOURCE_GET, "RESOURCE_CREATE" := RESOURCE_CREATE,
    "RESOURCE_UPDATE" := RESOURCE_UPDATE, "RESOURCE_DELETE" := RESOURCE_DELETE,
    "POLICY_LIST" := POLICY_LIST, "POLICY_CREATE" := POLICY_CREATE, "POLICY_UPDATE" := POLICY_UPDATE,
    "POLICY_DELETE" := POLICY_DELETE, "USER_LIST" := USER_LIST, "USER_CREATE" := USER_CREATE,
    "USER_UPDATE" := USER_UPDATE, "USER_DELETE" := USER_DELETE, "ACCESS_CHECK" := ACCESS_CHECK,
    "GRANT_ACCESS" := GRANT_ACCESS, "REVOKE_ACCESS" := REVOKE_ACCESS, "AUDIT_QUERY" := AUDIT_QUERY]

  function OpFromString(s: string): Option<Op> {
    if s in OP_CODES then Some(OP_CODES[s]) else None
  }

  function StatusToString(s: Status): string {
    match s case Ok => "ok" case Denied => "denied" case Error => "error"
  }

  function StatusFromString(s: string): Option<Status> {
    if s == "ok" then Some(Ok) else if s == "denied" then Some(Denied) else if s == "error" then Some(Error) else None
  }

  function CodeToString(rc: ResultCode): string {
    match rc
    case OK => "OK"
    case AUTH_DENIED => "AUTH_DENIED"
    case AUTH_FAILED_TOO_MANY => "AUTH_FAILED_TOO_MANY"
    case ACCOUNT_LOCKED => "ACCOUNT_LOCKED"
    case ACCOUNT_INACTIVE => "ACCOUNT_INACTIVE"
    case TOKEN_INVALID => "TOKEN_INVALID"
    case TOKEN_EXPIRED => "TOKEN_EXPIRED"
    case ACCESS_DENIED => "ACCESS_DENIED"
    case RESOURCE_NOT_FOUND => "RESOURCE_NOT_FOUND"
    case VALIDATION_ERROR => "VALIDATION_ERROR"
    case UNSUPPORTED_OP => "UNSUPPORTED_OP"
    case SERVER_BUSY => "SERVER_BUSY"
    case INTERNAL_ERROR => "INTERNAL_ERROR"
  }

  const RESULT_CODES: map<string, ResultCode> := map[
    "OK" := OK, "AUTH_DENIED" := AUTH_DENIED, "AUTH_FAILED_TOO_MANY" := AUTH_FAILED_TOO_MANY,
    "ACCOUNT_LOCKED" := ACCOUNT_LOCKED, "ACCOUNT_INACTIVE" := ACCOUNT_INACTIVE, "TOKEN_INVALID" := TOKEN_INVALID,
    "TOKEN_EXPIRED" := TOKEN_EXPIRED, "ACCESS_DENIED" := ACCESS_DENIED, "RESOURCE_NOT_FOUND" := RESOURCE_NOT_FOUND,
    "VALIDATION_ERROR" := VALIDATION_ERROR, "UNSUPPORTED_OP" := UNSUPPORTED_OP, "SERVER_BUSY" := SERVER_BUSY,
    "INTERNAL_ERROR" := INTERNAL_ERROR]

  function CodeFromString(s: string): Option<ResultCode> {
    if s in RESULT_CODES then Some(RESULT_CODES[s]) else None
  }

  function RequestToJson(r: Request): Object {
    map["version" := Number(r.version), "op" := Str(OpToString(r.op)), "req_id" := Number(r.reqId)]
    + (if r.token == "" then map[] else map["token" := Str(r.token)])
    + map["data" := Obj(r.data)]
  }

  function RequestFromJson(o: Object): Option<Request> {
    if "op" !in o || "req_id" !in o then None
    else match OpFromString(ToStr(o["op"], ""))
      case None => None
      case Some(op) =>
        Some(Request(ToInt(Field(o, "version"), K_VERSION), op, ToInt(o["req_id"], 0),
                     ToStr(Field(o, "token"), ""), ToObject(Field(o, "data"))))
  }

  function ResponseToJson(r: Response): Object {
    map["version" := Number(r.version), "op" := Str(OpToString(r.op)), "req_id" := Number(r.reqId),
        "status" := Str(StatusToString(r.status)), "code" := Str(CodeToString(r.code)),
        "message" := Str(r.message), "data" := Obj(r.data)]
  }

  function ResponseFromJson(o: Object): Option<Response> {
    if "op" !in o || "status" !in o || "code" !in o then None
    else
      var op := OpFromString(ToStr(o["op"], ""));
      var status := StatusFromString(ToStr(o["status"], ""));
      var code := CodeFromString(ToStr(o["code"], ""));
      if op.None? || status.None? || code.None? then None
      else Some(Response(ToInt(Field(o, "version"), K_VERSION), op.value, ToInt(Field(o, "req_id"), 0),
                         status.value, code.value, ToStr(Field(o, "message"), ""), ToObject(Field(o, "data"))))
  }

  lemma OpDecodes(op: Op)
    ensures OpFromString(OpToString(op)) == Some(op)
  {
  }

  lemma OpEncodes(s: string)
    requires s in OP_CODES
    ensures s == OpToString(OP_CODES[s])
  {
  }

  /** A text names an operation exactly when it is the wire code of that operation. */
  lemma OpCodec(s: string, op: Op)
    ensures OpFromString(s) == Some(op) <==> s == OpToString(op)
  {
    OpDecodes(op);
    if s in OP_CODES {
      OpEncodes(s);
    }
  }

  lemma CodeDecodes(rc: ResultCode)
    ensures CodeFromString(CodeToString(rc)) == Some(rc)
  {
  }

  lemma CodeEncodes(s: string)
    requires s in RESULT_CODES
    ensures s == CodeToString(RESULT_CODES[s])
  {
  }

  lemma CodeCodec(s: string, rc: ResultCode)
    ensures CodeFromString(s) == Some(rc) <==> s == CodeToString(rc)
  {
    CodeDecodes(rc);
    if s in RESULT_CODES {
      CodeEncodes(s);
    }
  }

  /** Decoding an encoded request gives it back, whatever its version, id, token (empty included) and data. */
  lemma RequestRoundTrip(r: Request)
    ensures RequestFromJson(RequestToJson(r)) == Some(r)
  {
    OpCodec(OpToString(r.op), r.op);
    var o := RequestToJson(r);
    assert "token" in o <==> r.token != "";
    assert o["op"] == Str(OpToString(r.op)) && o["req_id"] == Number(r.reqId) && o["version"] == Number(r.version);
  }

  lemma ResponseRoundTrip(r: Response)
    ensures ResponseFromJson(ResponseToJson(r)) == Some(r)
  {
    OpCodec(OpToString(r.op), r.op);
    CodeCodec(CodeToString(r.code), r.code);
    var o := ResponseToJson(r);
    assert o["op"] == Str(OpToString(r.op)) && o["status"] == Str(StatusToString(r.status));
  }

  /** A request with no operation, no id or an unknown operation is rejected, and nothing else is. */
  lemma RequestRejected(o: Object)
    ensures RequestFromJson(o) == None <==>
            "op" !in o || "req_id" !in o || (forall op :: ToStr(o["op"], "") != OpToString(op))
  {
    if "op" in o {
      var s := ToStr(o["op"], "");
      if s in OP_CODES {
        OpCodec(s, OP_CODES[s]);
      } else {
        forall op ensures s != OpToString(op) { OpCodec(s, op); }
      }
    }
  }
}
