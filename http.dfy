/** What the edge functions see of an HTTP request: the parsed JSON body,
    JavaScript truthiness of its values, and header lookup for the client
    address. */
module Http {
  import opened Text

  /** A parsed JSON value. Numbers are exact reals: JSON has no NaN or Infinity. */
  datatype Json =
    | JNull
    | JBool(b: bool)
    | JNum(n: real)
    | JStr(s: string)
    | JArr(items: seq<Json>)
    | JObj(fields: map<string, Json>)

  /** `input.key` on a parsed body; None is `undefined`. Arrays and primitives
      have none of the member names the functions read. */
  function Get(v: Json, key: string): (r: Option<Json>)
    ensures r.Some? <==> v.JObj? && key in v.fields
    ensures r.Some? ==> r.value == v.fields[key]
  {
    if v.JObj? && key in v.fields then Some(v.fields[key]) else None
  }

  /** JavaScript truthiness (`!x` is false) of a value that may be `undefined`. */
  predicate Truthy(v: Option<Json>) {
    match v
    case None => false
    case Some(j) =>
      match j
      case JNull => false
      case JBool(b) => b
      case JNum(n) => n != 0.0
      case JStr(s) => s != ""
      case _ => true
  }

  /** `typeof x === 'object'` for a truthy value: objects and arrays. */
  predicate IsObject(v: Json) {
    v.JObj? || v.JArr?
  }

  /** Request headers, keyed by lower-cased header name. */
  type Headers = map<string, string>

  const ForwardedFor := "x-forwarded-for"
  const RealIp := "x-real-ip"
  const UnknownIp := "unknown"

  /** `headers.get(name)` is truthy: present and not the empty string. */
  predicate HasHeader(h: Headers, name: string) {
    name in h && h[name] != ""
  }

  /** `s.split(sep)[0]`: the text before the first separator, or all of `s`. */
  function FirstSegment(s: string, sep: char): (r: string)
    ensures r <= s
    ensures sep !in r
    ensures |r| < |s| ==> s[|r|] == sep
  {
    if s == [] || s[0] == sep then "" else [s[0]] + FirstSegment(s[1..], sep)
  }

  /** getClientIP: the first comma-separated entry of x-forwarded-for, else
      x-real-ip, else "unknown", each trimmed. An x-forwarded-for that starts
      with a comma yields the empty string, not "unknown". */
  function ClientIp(h: Headers): (ip: string)
    ensures HasHeader(h, ForwardedFor) ==>
              ip == Trim(FirstSegment(h[ForwardedFor], ',')) && ',' !in ip
    ensures !HasHeader(h, ForwardedFor) && HasHeader(h, RealIp) ==> ip == Trim(h[RealIp])
    ensures !HasHeader(h, ForwardedFor) && !HasHeader(h, RealIp) ==> ip == UnknownIp
    ensures Trimmed(ip)
  {
    if HasHeader(h, ForwardedFor) then Trim(FirstSegment(h[ForwardedFor], ','))
    else if HasHeader(h, RealIp) then Trim(h[RealIp])
    else UnknownIp
  }

  /** The address depends only on the two headers it reads. */
  lemma ClientIpIgnoresOtherHeaders(h: Headers, name: string, value: string)
    requires name != ForwardedFor && name != RealIp
    ensures ClientIp(h[name := value]) == ClientIp(h)
  {
  }
}
