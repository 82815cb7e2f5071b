/** The `RestSteps` object: the last response and the configured headers,
    and the steps that replace them (setting headers, and the two kinds of
    call). The transport, `RestTemplate.exchange`, is a function parameter. */
module Steps {
  import opened Values
  import opened Http
  import opened Placeholder

  /** A header table row: its first cell names the header, its second gives the value. */
  predicate IsCompleteRow(row: seq<string>)
  {
    |row| >= 2
  }

  /** The headers a table of complete rows sets, row by row, each `set`
      replacing whatever an earlier row gave the same name. */
  function HeadersFrom(rows: seq<seq<string>>): (h: Headers)
    requires forall k :: 0 <= k < |rows| ==> IsCompleteRow(rows[k])
    ensures forall name :: name in h ==> |h[name]| == 1
    decreases |rows|
  {
    if rows == [] then map[]
    else
      var last := rows[|rows| - 1];
      assert IsCompleteRow(last);
      HeadersFrom(rows[..|rows| - 1])[last[0] := [last[1]]]
  }

  /** A name is set exactly when some row names it, and then to the single
      value of the last row that does. */
  lemma {:induction false} HeadersFromLastRowWins(rows: seq<seq<string>>, name: string)
    requires forall k :: 0 <= k < |rows| ==> IsCompleteRow(rows[k])
    ensures name in HeadersFrom(rows) <==> exists k :: 0 <= k < |rows| && rows[k][0] == name
    ensures name in HeadersFrom(rows) ==>
      exists k :: 0 <= k < |rows| && rows[k][0] == name && HeadersFrom(rows)[name] == [rows[k][1]] &&
        forall k' :: k < k' < |rows| ==> rows[k'][0] != name
    decreases |rows|
  {
    if rows != [] {
      var n := |rows| - 1;
      var init := rows[..n];
      assert forall k :: 0 <= k < n ==> init[k] == rows[k];
      HeadersFromLastRowWins(init, name);
      if rows[n][0] != name && name in HeadersFrom(init) {
        var k :| 0 <= k < n && init[k][0] == name && HeadersFrom(init)[name] == [init[k][1]] &&
          forall k' :: k < k' < n ==> init[k'][0] != name;
        assert rows[k][0] == name && HeadersFrom(rows)[name] == [rows[k][1]];
      }
    }
  }

  /** How many rows the table fill gets through: the index of the first row
      with fewer than two cells, or all of them. */
  function CompleteRowCount(rows: seq<seq<string>>): (n: nat)
    ensures n <= |rows|
    ensures forall k :: 0 <= k < n ==> IsCompleteRow(rows[k])
    ensures n < |rows| ==> !IsCompleteRow(rows[n])
    decreases |rows|
  {
    if rows == [] || !IsCompleteRow(rows[0]) then 0 else 1 + CompleteRowCount(rows[1..])
  }

  /** The request `call` builds, or why it fails before any exchange: the
      verb must parse, a GET must not carry a body, and the path's
      placeholder must resolve against the previous response. The request
      carries the stored headers and the body as given. */
  function PrepareCall(verb: string, path: string, body: Value, headers: Headers, previous: Option<Exchange>): (r: Result<Request>)
    ensures ParseMethod(verb).Err? ==> r == Err(ArgumentError)
    ensures ParseMethod(verb) == Ok(GET) && body != Null ==> r == Err(ArgumentError)
    ensures r.Ok? <==>
      ParseMethod(verb).Ok? && !(ParseMethod(verb).value == GET && body != Null) && Resolve(path, previous).Ok?
    ensures r.Ok? ==>
      r.value.verb == ParseMethod(verb).value && Name(r.value.verb) == ToUpper(verb) &&
      r.value.url == Resolve(path, previous).value && r.value.headers == headers && r.value.payload == JsonBody(body)
  {
    match ParseMethod(verb)
    case Err(e) => Err(e)
    case Ok(m) =>
      if m == GET && body != Null then Err(ArgumentError)
      else
        match Resolve(path, previous)
        case Err(e) => Err(e)
        case Ok(url) => Ok(Request(m, url, headers, JsonBody(body)))
  }

  /** The header that `callWithFile` sends instead of the stored ones. */
  const MultipartHeaders: Headers := map["Content-Type" := ["multipart/form-data"]]

  /** The request `callWithFile` builds: one form part named `file`, the
      multipart content type and nothing else in the headers, and the path as
      given. Only the verb can make it fail: there is no GET check and no
      placeholder resolution. */
  function PrepareUpload(verb: string, path: string, file: string, resource: Resource): (r: Result<Request>)
    ensures r.Ok? <==> ParseMethod(verb).Ok?
    ensures r.Err? ==> r.error == ArgumentError
    ensures r.Ok? ==>
      r.value.verb == ParseMethod(verb).value && r.value.url == path &&
      r.value.headers == MultipartHeaders && r.value.payload == FormBody(file, resource)
  {
    match ParseMethod(verb)
    case Err(e) => Err(e)
    case Ok(m) => Ok(Request(m, path, MultipartHeaders, FormBody(file, resource)))
  }

  /** The resource of `iCallWithFileNull`: `null` for the word "null", an empty
      byte stream otherwise. */
  function UploadResource(kind: string): (r: Resource)
    ensures r == NoResource <==> kind == "null"
    ensures r != NoResource ==> r == EmptyBytes
  {
    if kind == "null" then NoResource else EmptyBytes
  }

  class RestSteps {
    /** The last response; `None` until the first call succeeds. */
    var response: Option<Exchange>
    /** The headers every `call` sends; empty until a table sets them. */
    var headers: Headers

    constructor ()
      ensures response == None && headers == map[]
    {
      response := None;
      headers := map[];
    }

    /** `iSetHeadersTo`: the headers are replaced by an empty set and then
        filled row by row. A row with fewer than two cells stops the fill
        when its second cell is fetched, leaving the rows before it in place. */
    method SetHeadersTo(rows: seq<seq<string>>) returns (outcome: Outcome)
      modifies this
      ensures response == old(response)
      ensures headers == HeadersFrom(rows[..CompleteRowCount(rows)])
      ensures outcome.Pass? <==> CompleteRowCount(rows) == |rows|
      ensures outcome.Fail? ==> outcome.error == MissingCell
    {
      headers := map[];
      var i := 0;
      while i < |rows|
        invariant 0 <= i <= |rows|
        invariant response == old(response)
        invariant forall k :: 0 <= k < i ==> IsCompleteRow(rows[k])
        invariant headers == HeadersFrom(rows[..i])
      {
        if |rows[i]| < 2 {
          CompleteRowCountAt(rows, i);
          return Fail(MissingCell);
        }
        assert rows[..i + 1][..i] == rows[..i];
        headers := headers[rows[i][0] := [rows[i][1]]];
        i := i + 1;
      }
      CompleteRowCountAt(rows, i);
      assert rows[..i] == rows;
      outcome := Pass;
    }

    /** `call`: build the request from the stored headers and the previous
        response, and store what the transport returns. Nothing is stored when
        the request cannot be built or the exchange fails; the headers are
        never touched. */
    method Call(verb: string, path: string, body: Value, transport: Request -> Result<Exchange>) returns (outcome: Outcome)
      modifies this
      ensures headers == old(headers)
      ensures ParseMethod(verb) == Ok(GET) && body != Null ==> outcome == Fail(ArgumentError) && response == old(response)
      ensures match PrepareCall(verb, path, body, old(headers), old(response))
        case Err(e) => outcome == Fail(e) && response == old(response)
        case Ok(request) =>
          match transport(request)
          case Err(e) => outcome == Fail(e) && response == old(response)
          case Ok(exchange) => outcome == Pass && response == Some(exchange)
    {
      var prepared := PrepareCall(verb, path, body, headers, response);
      if prepared.Err? {
        return Fail(prepared.error);
      }
      var result := transport(prepared.value);
      if result.Err? {
        return Fail(result.error);
      }
      response := Some(result.value);
      outcome := Pass;
    }

    /** `callWithFile`: send one form part with the multipart header, and store
        what the transport returns; the stored headers are not used and not
        changed. */
    method CallWithFile(verb: string, path: string, file: string, resource: Resource, transport: Request -> Result<Exchange>) returns (outcome: Outcome)
      modifies this
      ensures headers == old(headers)
      ensures match PrepareUpload(verb, path, file, resource)
        case Err(e) => outcome == Fail(e) && response == old(response)
        case Ok(request) =>
          match transport(request)
          case Err(e) => outcome == Fail(e) && response == old(response)
          case Ok(exchange) => outcome == Pass && response == Some(exchange)
    {
      var prepared := PrepareUpload(verb, path, file, resource);
      if prepared.Err? {
        return Fail(prepared.error);
      }
      var result := transport(prepared.value);
      if result.Err? {
        return Fail(result.error);
      }
      response := Some(result.value);
      outcome := Pass;
    }
  }

  /** `CompleteRowCount` is `i` once the first `i` rows are complete and row
      `i` is not (or there is none). */
  lemma {:induction false} CompleteRowCountAt(rows: seq<seq<string>>, i: nat)
    requires i <= |rows|
    requires forall k :: 0 <= k < i ==> IsCompleteRow(rows[k])
    requires i < |rows| ==> !IsCompleteRow(rows[i])
    ensures CompleteRowCount(rows) == i
    decreases i
  {
    if i > 0 {
      CompleteRowCountAt(rows[1..], i - 1);
    }
  }
}
