/** JSON values as QJsonValue presents them to the handlers, with Qt's defaulting conversions. */
module Json {
  import opened Prelude

  datatype Json =
    | Null
    | Bool(b: bool)
    | Number(n: int)
    | Str(s: string)
    | Arr(items: seq<Json>)
    | Obj(fields: map<string, Json>)

  type Object = map<string, Json>

  /** `obj[key]`: a missing key reads as a value that every conversion defaults. */
  function Field(o: Object, key: string): Json {
    if key in o then o[key] else Null
  }

  function ToStr(v: Json, default: string): string {
    if v.Str? then v.s else default
  }

  function ToInt(v: Json, default: int): (r: int)
    ensures INT32_MIN <= default <= INT32_MAX ==> INT32_MIN <= r <= INT32_MAX
  {
    if v.Number? && INT32_MIN <= v.n <= INT32_MAX then v.n else default
  }

  function ToBool(v: Json, default: bool): bool {
    if v.Bool? then v.b else default
  }

  function ToObject(v: Json): Object {
    if v.Obj? then v.fields else map[]
  }

  /** `toVariant().toLongLong()`: numbers, booleans and decimal text convert, everything else is 0. */
  function ToLongLong(v: Json): (r: int)
    ensures -INT64_MAX - 1 <= r <= INT64_MAX
  {
    match v
    case Number(n) => InRange64(n)
    case Bool(b) => if b then 1 else 0
    case Str(s) => ParseLongLong(s)
    case _ => 0
  }

  function InRange64(n: int): int {
    if -INT64_MAX - 1 <= n <= INT64_MAX then n else 0
  }

  /** Decimal text with an optional sign and surrounding blanks; 0 when malformed or out of range. */
  function ParseLongLong(s: string): int {
    var t := TrimRight(TrimLeft(s));
    if t != [] && t[0] == '-' then InRange64(-ParseDigits(t[1..]).GetOr(0))
    else if t != [] && t[0] == '+' then InRange64(ParseDigits(t[1..]).GetOr(0))
    else InRange64(ParseDigits(t).GetOr(0))
  }

  function TrimLeft(s: string): string {
    if s != [] && s[0] == ' ' then TrimLeft(s[1..]) else s
  }

  function TrimRight(s: string): string {
    if s != [] && s[|s| - 1] == ' ' then TrimRight(s[..|s| - 1]) else s
  }

  function ParseDigits(s: string): Option<int> {
    if s == [] || !('0' <= s[|s| - 1] <= '9') then None
    else
      var d := s[|s| - 1] as int - '0' as int;
      if |s| == 1 then Some(d)
      else match ParseDigits(s[..|s| - 1])
        case None => None
        case Some(m) => Some(10 * m + d)
  }

  lemma {:induction false} DecParses(n: nat)
    ensures ParseDigits(Dec(n)) == Some(n)
  {
    var s := Dec(n);
    if n >= 10 {
      assert s[..|s| - 1] == Dec(n / 10);
      DecParses(n / 10);
    }
  }

  /** An identifier may travel as a number or as decimal text: both read as itself, and beyond 64 bits as 0. */
  lemma IdAsText(n: nat)
    ensures ToLongLong(Str(Dec(n))) == if n <= INT64_MAX then n else 0
    ensures ToLongLong(Number(n)) == ToLongLong(Str(Dec(n)))
  {
    var s := Dec(n);
    assert '0' <= s[0] <= '9' && '0' <= s[|s| - 1] <= '9';
    DecParses(n);
  }
}
