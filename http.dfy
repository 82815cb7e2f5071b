/** The HTTP side of a step: the verb enumeration and its case-insensitive
    parsing, and the request and response exchanged with the transport. */
module Http {
  import opened Values

  /** Spring's `HttpMethod` enumeration. */
  datatype Method = GET | HEAD | POST | PUT | PATCH | DELETE | OPTIONS | TRACE

  /** The enumeration constant's name, which `HttpMethod.valueOf` looks up. */
  function Name(m: Method): string
  {
    match m
    case GET => "GET"
    case HEAD => "HEAD"
    case POST => "POST"
    case PUT => "PUT"
    case PATCH => "PATCH"
    case DELETE => "DELETE"
    case OPTIONS => "OPTIONS"
    case TRACE => "TRACE"
  }

  function UpperChar(c: char): char
  {
    if 'a' <= c <= 'z' then (c as int - 32) as char else c
  }

  function LowerChar(c: char): char
  {
    if 'A' <= c <= 'Z' then (c as int + 32) as char else c
  }

  /** `StringUtils.upperCase`, on the ASCII letters. */
  function ToUpper(s: string): (u: string)
    ensures |u| == |s|
    ensures forall k :: 0 <= k < |s| ==> u[k] == UpperChar(s[k])
  {
    seq(|s|, k requires 0 <= k < |s| => UpperChar(s[k]))
  }

  function ToLower(s: string): (l: string)
    ensures |l| == |s|
    ensures forall k :: 0 <= k < |s| ==> l[k] == LowerChar(s[k])
  {
    seq(|s|, k requires 0 <= k < |s| => LowerChar(s[k]))
  }

  /** `HttpMethod.valueOf(StringUtils.upperCase(verb))`: the verb is upper-cased
      and must then be the name of a constant; anything else is an
      IllegalArgumentException. */
  function ParseMethod(verb: string): (r: Result<Method>)
    ensures r.Ok? ==> Name(r.value) == ToUpper(verb)
    ensures r.Err? ==> r.error == ArgumentError && forall m: Method :: Name(m) != ToUpper(verb)
  {
    var upper := ToUpper(verb);
    if upper == "GET" then Ok(GET)
    else if upper == "HEAD" then Ok(HEAD)
    else if upper == "POST" then Ok(POST)
    else if upper == "PUT" then Ok(PUT)
    else if upper == "PATCH" then Ok(PATCH)
    else if upper == "DELETE" then Ok(DELETE)
    else if upper == "OPTIONS" then Ok(OPTIONS)
    else if upper == "TRACE" then Ok(TRACE)
    else Err(ArgumentError)
  }

  /** Parsing is insensitive to case: a verb parses to `m` exactly when its
      upper-case form is `m`'s name, so the upper-case and the lower-case
      spelling of every constant both parse back to it. */
  lemma ParseMethodCaseInsensitive(verb: string, m: Method)
    ensures ParseMethod(verb) == Ok(m) <==> ToUpper(verb) == Name(m)
    ensures ParseMethod(Name(m)) == Ok(m)
    ensures ParseMethod(ToLower(Name(m))) == Ok(m)
  {
    var n := Name(m);
    assert ToUpper(n) == n;
    assert ToUpper(ToLower(n)) == n;
  }

  /** Headers as a multi-value map: each name carries a list of values. */
  type Headers = map<string, seq<string>>

  /** The multipart resource: a file under the test resources, an empty byte
      stream, or `null`. */
  datatype Resource = FileResource(path: string) | EmptyBytes | NoResource

  /** What the request carries: a parsed body (`Null` for none), or a form with
      one part. */
  datatype Payload = JsonBody(value: Value) | FormBody(field: string, resource: Resource)

  /** The `HttpEntity` and its target, as handed to `RestTemplate.exchange`. */
  datatype Request = Request(verb: Method, url: string, headers: Headers, payload: Payload)

  /** The stored `ResponseEntity`: its status code and its body. */
  datatype Exchange = Exchange(status: int, body: Value)
}
