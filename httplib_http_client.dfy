/**
 * The cpp-httplib backend, HttplibHTTPClient (src/cpphttplib/httplib_http_client.cpp), with
 * the body of the task PerformRequest launches run synchronously.  The library's client is
 * not modelled: the request the backend hands it is an output (`NativeCall`), and the
 * `httplib::Result` it returns is an input (`NativeResult`).
 */
module HttplibBackend {

  import opened Exceptions
  import opened HttpResponse
  import opened StdString
  import opened HttplibUri

  type HeaderPair = (string, string)

  // ---------------------------------------------------------------------------------------
  // Request headers: "Name: Value" strings become the pairs of an httplib::Headers multimap

  /** What becomes of one caller header string. */
  datatype HeaderConversion =
    | Dropped                             // no ':' in the string
    | Converted(key: string, value: string)
    | SubstrOutOfRange                    // nothing but spaces after the first ':'

  /** One turn of the conversion loop: split at the first ':', strip every leading ' ' of
      the value.  When only spaces follow the colon, find_first_not_of gives npos and
      substr(npos) throws. */
  function ConvertHeader(header: string): (c: HeaderConversion)
    ensures c.Dropped? <==> ':' !in header
    ensures c.Converted? ==>
      && |c.key| + 1 + |c.value| <= |header|
      && header[..|c.key|] == c.key && ':' !in c.key && header[|c.key|] == ':'
      && header[|header| - |c.value|..] == c.value && |c.value| > 0 && c.value[0] != ' '
    ensures c.SubstrOutOfRange? ==> ':' in header
  {
    var colon := Find(header, ':');
    if colon == |header| then Dropped
    else
      var key := header[..colon];
      var value := header[colon + 1..];
      var start := FindFirstNotOf(value, ' ');
      if start == |value| then SubstrOutOfRange else Converted(key, value[start..])
  }

  function Spaces(n: nat): (s: string)
    ensures |s| == n && forall i :: 0 <= i < n ==> s[i] == ' '
  {
    seq(n, _ => ' ')
  }

  /** Every header with a colon reads as key ":" spaces rest, with no ':' in key and rest
      empty or not starting with ' '; the conversion yields (key, rest), or throws when rest
      is empty.  Tabs and later colons stay in the value. */
  lemma ConvertHeaderOf(key: string, n: nat, rest: string)
    requires ':' !in key
    requires rest == [] || rest[0] != ' '
    ensures ConvertHeader(key + ":" + Spaces(n) + rest)
      == if rest == [] then SubstrOutOfRange else Converted(key, rest)
  {
    var header := key + ":" + Spaces(n) + rest;
    var colon := Find(header, ':');
    assert header[|key|] == ':';
    assert colon == |key|;
    assert header[..colon] == key;
    var value := header[colon + 1..];
    assert value == Spaces(n) + rest;
    var start := FindFirstNotOf(value, ' ');
    if rest != [] {
      assert value[n] == rest[0];
      assert start == n;
      assert value[start..] == rest;
    } else {
      assert start == n == |value|;
    }
  }

  /** The converse: what the conversion yields always decomposes the header that way. */
  lemma ConvertHeaderDecomposes(header: string)
    ensures ConvertHeader(header).Dropped? <==> ':' !in header
    ensures ConvertHeader(header).Converted? ==>
      var c := ConvertHeader(header);
      && ':' !in c.key && |c.value| > 0 && c.value[0] != ' '
      && exists n: nat :: header == c.key + ":" + Spaces(n) + c.value
    ensures ConvertHeader(header).SubstrOutOfRange? ==>
      exists n: nat :: ':' !in header[..Find(header, ':')]
        && header == header[..Find(header, ':')] + ":" + Spaces(n)
  {
    var colon := Find(header, ':');
    if colon < |header| {
      var start := FindFirstNotOf(header[colon + 1..], ' ');
      SplitHeader(header, colon, start);
      if start == |header[colon + 1..]| {
        assert header[colon + 1..][start..] == [];
      }
    }
  }

  /** A header cut at a colon and after the spaces that follow it. */
  lemma SplitHeader(header: string, colon: nat, start: nat)
    requires colon < |header| && header[colon] == ':'
    requires start == FindFirstNotOf(header[colon + 1..], ' ')
    ensures header == header[..colon] + ":" + Spaces(start) + header[colon + 1..][start..]
  {
    var value := header[colon + 1..];
    SplitAtColon(header, colon);
    SplitAfterSpaces(value, start);
    var prefix := header[..colon] + ":";
    assert header == prefix + (Spaces(start) + value[start..]);
  }

  /** A string reads as what precedes one of its positions, the character there, and what
      follows it. */
  lemma SplitAtColon(header: string, colon: nat)
    requires colon < |header| && header[colon] == ':'
    ensures header == header[..colon] + ":" + header[colon + 1..]
  {
    assert header[..colon + 1] == header[..colon] + ":";
    assert header == header[..colon + 1] + header[colon + 1..];
  }

  /** A string whose first `start` characters are spaces is those spaces and the rest. */
  lemma SplitAfterSpaces(value: string, start: nat)
    requires start <= |value|
    requires forall i :: 0 <= i < start ==> value[i] == ' '
    ensures value == Spaces(start) + value[start..]
  {
    assert value[..start] == Spaces(start);
    assert value == value[..start] + value[start..];
  }

  /** The header string of the source's test. */
  lemma ConvertHeaderExampleTest()
    ensures ConvertHeader("X-Test: test-value") == Converted("X-Test", "test-value")
  {
    var header := "X-Test" + ":" + Spaces(1) + "test-value";
    assert header == "X-Test: test-value" by {
      assert Spaces(1) == " ";
    }
    ConvertHeaderOf("X-Test", 1, "test-value");
  }

  /** A tab after the colon is not stripped: only ' ' is. */
  lemma ConvertHeaderKeepsTab(key: string, n: nat, rest: string)
    requires ':' !in key
    ensures ConvertHeader(key + ":" + Spaces(n) + "\t" + rest) == Converted(key, "\t" + rest)
  {
    var prefix := key + ":" + Spaces(n);
    assert prefix + "\t" + rest == prefix + ("\t" + rest);
    ConvertHeaderOf(key, n, "\t" + rest);
  }

  predicate ConversionThrows(headers: seq<string>) {
    exists i :: 0 <= i < |headers| && ConvertHeader(headers[i]).SubstrOutOfRange?
  }

  /** The pairs the loop emplaces, in the caller's order: at most one per header, none
      with a ':' in its key, none with an empty value or one starting with a space. */
  function ConvertedPairs(headers: seq<string>): (pairs: seq<HeaderPair>)
    ensures |pairs| <= |headers|
    ensures forall k :: 0 <= k < |pairs| ==>
      ':' !in pairs[k].0 && |pairs[k].1| > 0 && pairs[k].1[0] != ' '
  {
    if headers == [] then []
    else
      var before := ConvertedPairs(headers[..|headers| - 1]);
      match ConvertHeader(headers[|headers| - 1])
      case Converted(key, value) => before + [(key, value)]
      case _ => before
  }

  /** The conversion loop as a whole: the multimap it fills (whose order is the library's),
      or the out_of_range it throws. */
  function ConvertAll(headers: seq<string>): (r: Result<multiset<HeaderPair>>)
    ensures r.Err? <==> exists i :: 0 <= i < |headers| && ConvertHeader(headers[i]).SubstrOutOfRange?
    ensures r.Err? ==> r.thrown == OutOfRange
    ensures r.Ok? ==> |r.value| <= |headers|
  {
    if ConversionThrows(headers) then Err(OutOfRange) else Ok(multiset(ConvertedPairs(headers)))
  }

  /** Converting a list converts its parts one after the other. */
  lemma {:induction false} ConvertedPairsAppend(a: seq<string>, b: seq<string>)
    ensures ConvertedPairs(a + b) == ConvertedPairs(a) + ConvertedPairs(b)
    decreases |b|
  {
    if b == [] {
      assert a + b == a;
    } else {
      var b' := b[..|b| - 1];
      assert (a + b)[..|a + b| - 1] == a + b';
      assert (a + b)[|a + b| - 1] == b[|b| - 1];
      ConvertedPairsAppend(a, b');
    }
  }

  /** One more header adds at most its own pair at the end. */
  lemma ConvertedPairsSnoc(headers: seq<string>, header: string)
    ensures ConvertedPairs(headers + [header]) == ConvertedPairs(headers) +
      match ConvertHeader(header)
      case Converted(key, value) => [(key, value)]
      case _ => []
  {
    assert (headers + [header])[..|headers|] == headers;
  }

  /** Every pair in the multimap comes from some caller header. */
  lemma {:induction false} ConvertedPairsSound(headers: seq<string>, p: HeaderPair)
    requires p in ConvertedPairs(headers)
    ensures exists i :: 0 <= i < |headers| && ConvertHeader(headers[i]) == Converted(p.0, p.1)
    decreases |headers|
  {
    var last := |headers| - 1;
    var before := headers[..last];
    ConvertStep(headers, last);
    assert headers[..last + 1] == headers;
    if p in ConvertedPairs(before) {
      ConvertedPairsSound(before, p);
      var i :| 0 <= i < |before| && ConvertHeader(before[i]) == Converted(p.0, p.1);
      assert headers[i] == before[i];
    } else {
      var c := ConvertHeader(headers[last]);
      assert c.Converted? && p == (c.key, c.value);
    }
  }

  /** Every caller header that converts puts its pair into the multimap. */
  lemma {:induction false} ConvertedPairsComplete(headers: seq<string>, i: nat, p: HeaderPair)
    requires i < |headers| && ConvertHeader(headers[i]) == Converted(p.0, p.1)
    ensures p in ConvertedPairs(headers)
    decreases |headers|
  {
    var last := |headers| - 1;
    var before, header := headers[..last], headers[last];
    assert headers == before + [header];
    ConvertedPairsSnoc(before, header);
    if i < last {
      assert before[i] == headers[i];
      ConvertedPairsComplete(before, i, p);
    }
  }

  /** A pair reaches the multimap exactly when some header converts to it. */
  lemma ConvertedPairsMembership(headers: seq<string>, p: HeaderPair)
    ensures p in ConvertedPairs(headers) <==>
      exists i :: 0 <= i < |headers| && ConvertHeader(headers[i]) == Converted(p.0, p.1)
  {
    if p in ConvertedPairs(headers) {
      ConvertedPairsSound(headers, p);
    }
    if exists i :: 0 <= i < |headers| && ConvertHeader(headers[i]) == Converted(p.0, p.1) {
      var i :| 0 <= i < |headers| && ConvertHeader(headers[i]) == Converted(p.0, p.1);
      ConvertedPairsComplete(headers, i, p);
    }
  }

  /** One more header makes the loop throw exactly when it or an earlier one does. */
  lemma ConversionThrowsSnoc(headers: seq<string>, header: string)
    ensures ConversionThrows(headers + [header]) <==>
      ConversionThrows(headers) || ConvertHeader(header).SubstrOutOfRange?
  {
    var all := headers + [header];
    if ConversionThrows(all) && !ConvertHeader(header).SubstrOutOfRange? {
      var i :| 0 <= i < |all| && ConvertHeader(all[i]).SubstrOutOfRange?;
      assert all[i] == headers[i];
    }
    if ConversionThrows(headers) {
      var i :| 0 <= i < |headers| && ConvertHeader(headers[i]).SubstrOutOfRange?;
      assert all[i] == headers[i];
    }
    if ConvertHeader(header).SubstrOutOfRange? {
      assert all[|headers|] == header;
    }
  }

  /** A header that throws makes the whole list throw, whatever follows it. */
  lemma ConversionThrowsExtends(headers: seq<string>, more: seq<string>)
    requires ConversionThrows(headers)
    ensures ConversionThrows(headers + more)
  {
    var i :| 0 <= i < |headers| && ConvertHeader(headers[i]).SubstrOutOfRange?;
    assert (headers + more)[i] == headers[i];
  }

  /** One turn of the loop: the prefix grows by one header, its pair and its throw. */
  lemma ConvertStep(headers: seq<string>, i: nat)
    requires i < |headers|
    ensures ConvertedPairs(headers[..i + 1]) == ConvertedPairs(headers[..i]) +
      match ConvertHeader(headers[i])
      case Converted(key, value) => [(key, value)]
      case _ => []
    ensures ConversionThrows(headers[..i + 1]) <==>
      ConversionThrows(headers[..i]) || ConvertHeader(headers[i]).SubstrOutOfRange?
  {
    assert headers[..i + 1] == headers[..i] + [headers[i]];
    ConvertedPairsSnoc(headers[..i], headers[i]);
    ConversionThrowsSnoc(headers[..i], headers[i]);
  }

  /** The loop over the caller's headers (lines 75-84), emplacing into the multimap. */
  method ConvertHeaders(headers: seq<string>) returns (r: Result<multiset<HeaderPair>>)
    ensures r == ConvertAll(headers)
  {
    var converted: multiset<HeaderPair> := multiset{};
    for i := 0 to |headers|
      invariant converted == multiset(ConvertedPairs(headers[..i]))
      invariant !ConversionThrows(headers[..i])
    {
      var header := headers[i];
      var conversion := ConvertHeader(header);
      ConvertStep(headers, i);
      if conversion.SubstrOutOfRange? {
        assert ConversionThrows(headers) by {
          assert ConvertHeader(headers[i]).SubstrOutOfRange?;
        }
        return Err(OutOfRange);
      }
      if conversion.Converted? {
        converted := converted + multiset{(conversion.key, conversion.value)};
      }
    }
    assert headers[..|headers|] == headers;
    return Ok(converted);
  }

  // ---------------------------------------------------------------------------------------
  // handle_result: classify the native error, or copy the response

  /** The integer values of cpp-httplib's `Error` enumerators the backend tests for. */
  const Success: nat := 0
  const ErrorConnection: nat := 2
  const ErrorRead: nat := 4

  /** An `httplib::Result`: the error code and, when it is Success, the response. */
  datatype NativeResult = NativeResult(error: nat, status: int, body: string, headers: seq<HeaderPair>)

  const GenericErrorPrefix := "Request failed with error code: "

  /** Connection gives ConnectionException, Read gives TimeoutException, every other
      failure the base HTTPException; never InvalidResponse. */
  function Classify(error: nat): (e: HTTPException)
    requires error != Success
    ensures e.Connection? <==> error == ErrorConnection
    ensures e.Timeout? <==> error == ErrorRead
    ensures e.HTTPError? <==> error != ErrorConnection && error != ErrorRead
    ensures !e.InvalidResponse?
  {
    if error == ErrorConnection then Connection("Failed to connect to server")
    else if error == ErrorRead then Timeout("Request timed out")
    else HTTPError(GenericErrorPrefix + ToString(error))
  }

  function RenderHeader(key: string, value: string): string {
    key + ": " + value
  }

  function RenderHeaders(headers: seq<HeaderPair>): seq<string> {
    seq(|headers|, i requires 0 <= i < |headers| => RenderHeader(headers[i].0, headers[i].1))
  }

  /** What handle_result makes of the library's answer.  Only Success yields a response;
      status and body are copied unchanged and each response header pair becomes exactly
      one "k: v" string, in the library's order, with nothing added. */
  function Handled(res: NativeResult): (r: Result<HTTPResponse>)
    ensures r.Ok? <==> res.error == Success
    ensures r.Err? ==> r.thrown == Http(Classify(res.error))
    ensures r.Ok? ==>
      && r.value.statusCode == res.status && r.value.body == res.body
      && |r.value.headers| == |res.headers|
      && forall i :: 0 <= i < |res.headers| ==>
           r.value.headers[i] == res.headers[i].0 + ": " + res.headers[i].1
  {
    if res.error != Success then Err(Http(Classify(res.error)))
    else Ok(HTTPResponse(res.status, RenderHeaders(res.headers), res.body))
  }

  /** The generic message carries the numeric code, which reads back from it, so different
      codes give different messages. */
  lemma ClassifyMessageCarriesCode(error: nat, other: nat)
    requires error != Success && error != ErrorConnection && error != ErrorRead
    requires other != Success && other != ErrorConnection && other != ErrorRead
    ensures var m := Classify(error).message;
      |m| > |GenericErrorPrefix| && m[..|GenericErrorPrefix|] == GenericErrorPrefix
      && IsDigits(m[|GenericErrorPrefix|..]) && DecimalValue(m[|GenericErrorPrefix|..]) == error
    ensures Classify(error) == Classify(other) ==> error == other
  {
    var m := Classify(error).message;
    assert m[|GenericErrorPrefix|..] == ToString(error);
    ToStringRoundTrip(error);
    if Classify(error) == Classify(other) {
      assert Classify(other).message[|GenericErrorPrefix|..] == ToString(other);
      ToStringInjective(error, other);
    }
  }

  /** A response header re-sent as a request header converts back to the same pair when
      its name has no ':' and its value is non-empty without a leading space; an empty
      value makes the conversion throw. */
  lemma RenderThenConvert(key: string, value: string)
    requires ':' !in key
    requires value == [] || value[0] != ' '
    ensures ConvertHeader(RenderHeader(key, value))
      == if value == [] then SubstrOutOfRange else Converted(key, value)
  {
    var prefix := key + ":" + Spaces(1);
    assert prefix == key + ": " by {
      assert Spaces(1) == " ";
    }
    ConvertHeaderOf(key, 1, value);
  }

  /** The handle_result lambda (lines 88-106): the response is filled only on success, its
      headers by the push_back loop. */
  method HandleResult(res: NativeResult) returns (r: Result<HTTPResponse>)
    ensures r == Handled(res)
  {
    if res.error != Success {
      if res.error == ErrorConnection {
        return Err(Http(Connection("Failed to connect to server")));
      } else if res.error == ErrorRead {
        return Err(Http(Timeout("Request timed out")));
      } else {
        return Err(Http(HTTPError(GenericErrorPrefix + ToString(res.error))));
      }
    }
    var response := HTTPResponse(res.status, [], res.body);
    for i := 0 to |res.headers|
      invariant response.statusCode == res.status && response.body == res.body
      invariant |response.headers| == i
      invariant forall k :: 0 <= k < i ==> response.headers[k] == RenderHeader(res.headers[k].0, res.headers[k].1)
    {
      var (key, value) := res.headers[i];
      response := response.(headers := response.headers + [key + ": " + value]);
    }
    assert response.headers == RenderHeaders(res.headers);
    return Ok(response);
  }

  // ---------------------------------------------------------------------------------------
  // Dispatch: the method string picks the library call

  /** The httplib::Client member the request goes through. */
  datatype Verb = Get | Post | Put | Delete | Patch

  function VerbName(verb: Verb): string {
    match verb
    case Get => "GET"
    case Post => "POST"
    case Put => "PUT"
    case Delete => "DELETE"
    case Patch => "PATCH"
  }

  /** The method string picks its call; anything but the five names throws. */
  function Dispatch(httpMethod: string): (r: Result<Verb>)
    ensures r.Ok? ==> VerbName(r.value) == httpMethod
    ensures r.Err? ==> r.thrown == Http(HTTPError("Unsupported HTTP method: " + httpMethod))
  {
    if httpMethod == "GET" then Ok(Get)
    else if httpMethod == "POST" then Ok(Post)
    else if httpMethod == "PUT" then Ok(Put)
    else if httpMethod == "DELETE" then Ok(Delete)
    else if httpMethod == "PATCH" then Ok(Patch)
    else Err(Http(HTTPError("Unsupported HTTP method: " + httpMethod)))
  }

  /** Every verb's name dispatches to that verb: Dispatch inverts VerbName. */
  lemma DispatchInvertsVerbName(verb: Verb)
    ensures Dispatch(VerbName(verb)) == Ok(verb)
  {
  }

  /** What is sent beside the headers: no body for Get and Delete; the body with the
      content type "application/json" for Post, Put and Patch. */
  datatype Payload = NoPayload | Payload(body: string, contentType: string)

  function PayloadFor(verb: Verb, body: string): Payload {
    if verb == Get || verb == Delete then NoPayload else Payload(body, "application/json")
  }

  /** The call made on a fresh httplib::Client bound to `host`, whose connection, read and
      write timeouts come from `timeoutMs`; `path` is passed through c_str(). */
  datatype NativeCall = NativeCall(host: string, timeoutMs: int, verb: Verb, path: string,
                                   headers: multiset<HeaderPair>, payload: Payload)

  /** A request either fails before the library is called, or is sent and its result handled. */
  datatype Attempt =
    | NotSent(thrown: Thrown)
    | Sent(call: NativeCall, outcome: Result<HTTPResponse>)

  /** What future.get() returns or rethrows. */
  function Outcome(a: Attempt): Result<HTTPResponse> {
    match a
    case NotSent(thrown) => Err(thrown)
    case Sent(_, outcome) => outcome
  }

  /** The body of the task PerformRequest launches, as a function of its inputs.  A sent
      request goes to the parsed host and path with the converted headers, the
      client's timeout and the payload its verb calls for; its outcome is handle_result's. */
  function Exchange(httpMethod: string, uri: string, body: string, headers: seq<string>,
                    timeoutMs: int, native: NativeResult): (a: Attempt)
    ensures a.Sent? ==>
      && ParseURI(uri).Ok?
      && a.call.host == ParseURI(uri).value.host
      && a.call.path == CStr(ParseURI(uri).value.path)
      && a.call.timeoutMs == timeoutMs
      && VerbName(a.call.verb) == httpMethod
      && a.call.headers == multiset(ConvertedPairs(headers))
      && a.call.payload == (if httpMethod in {"GET", "DELETE"} then NoPayload else Payload(body, "application/json"))
      && a.outcome == Handled(native)
  {
    match ParseURI(uri)
    case Err(thrown) => NotSent(thrown)
    case Ok(target) =>
      match ConvertAll(headers)
      case Err(thrown) => NotSent(thrown)
      case Ok(converted) =>
        match Dispatch(httpMethod)
        case Err(thrown) => NotSent(thrown)
        case Ok(verb) =>
          Sent(NativeCall(target.host, timeoutMs, verb, CStr(target.path), converted, PayloadFor(verb, body)),
               Handled(native))
  }

  /** A request fails before the library call in this order of precedence: an invalid URI,
      then a header with nothing but spaces after its colon, then an unsupported method. */
  lemma ExchangeFailsInOrder(httpMethod: string, uri: string, body: string, headers: seq<string>,
                             timeoutMs: int, native: NativeResult)
    ensures var a := Exchange(httpMethod, uri, body, headers, timeoutMs, native);
      && (!Matches(uri) ==> a == NotSent(Http(HTTPError("Invalid URI format"))))
      && (Matches(uri) && ConversionThrows(headers) ==> a == NotSent(OutOfRange))
      && (Matches(uri) && !ConversionThrows(headers) && Dispatch(httpMethod).Err? ==>
            a == NotSent(Http(HTTPError("Unsupported HTTP method: " + httpMethod))))
      && (a.Sent? <==> Matches(uri) && !ConversionThrows(headers) && Dispatch(httpMethod).Ok?)
  {
    ParseURIFailsExactly(uri);
  }

  /** What the future delivers: a response exactly when the URI fits, no header value is
      all spaces, the method is one of the five and the library reports Success; the
      response is then handle_result's. */
  lemma ExchangeOutcome(httpMethod: string, uri: string, body: string, headers: seq<string>,
                        timeoutMs: int, native: NativeResult)
    ensures var r := Outcome(Exchange(httpMethod, uri, body, headers, timeoutMs, native));
      && (r.Ok? <==> Matches(uri) && !ConversionThrows(headers) && Dispatch(httpMethod).Ok?
                     && native.error == Success)
      && (r.Ok? ==> r == Handled(native))
  {
    ExchangeFailsInOrder(httpMethod, uri, body, headers, timeoutMs, native);
  }

  /** The client of the cpp-httplib backend.  Its one field is the timeout in milliseconds,
      a std::chrono::milliseconds count. */
  class HttplibHTTPClient {
    var timeout: int

    constructor ()
      ensures timeout == 30000
    {
      timeout := 30000;
    }

    method SetTimeout(t: int)
      modifies this
      ensures timeout == t
    {
      timeout := t;
    }

    method GetTimeout() returns (t: int)
      ensures t == timeout
    {
      t := timeout;
    }

    /** The task's body: parse the URI, convert the headers, dispatch, handle the result. */
    method PerformRequest(httpMethod: string, uri: string, body: string, headers: seq<string>,
                          native: NativeResult) returns (a: Attempt)
      ensures a == Exchange(httpMethod, uri, body, headers, timeout, native)
    {
      var parsed := ParseURI(uri);
      if parsed.Err? {
        return NotSent(parsed.thrown);
      }
      var target := parsed.value;
      var converted := ConvertHeaders(headers);
      if converted.Err? {
        return NotSent(converted.thrown);
      }
      var dispatched := Dispatch(httpMethod);
      if dispatched.Err? {
        return NotSent(dispatched.thrown);
      }
      var verb := dispatched.value;
      var call := NativeCall(target.host, timeout, verb, CStr(target.path), converted.value,
                             PayloadFor(verb, body));
      var outcome := HandleResult(native);
      return Sent(call, outcome);
    }

    method Get(uri: string, headers: seq<string>, native: NativeResult) returns (a: Attempt)
      ensures a == Exchange("GET", uri, "", headers, timeout, native)
      ensures a.NotSent? <==> ParseURI(uri).Err? || ConvertAll(headers).Err?
      ensures a.Sent? ==> a.call.verb == Verb.Get && a.call.payload == NoPayload
    {
      DispatchInvertsVerbName(Verb.Get);
      a := PerformRequest("GET", uri, "", headers, native);
    }

    method Put(uri: string, body: string, headers: seq<string>, native: NativeResult) returns (a: Attempt)
      ensures a == Exchange("PUT", uri, body, headers, timeout, native)
      ensures a.NotSent? <==> ParseURI(uri).Err? || ConvertAll(headers).Err?
      ensures a.Sent? ==> a.call.verb == Verb.Put && a.call.payload == Payload(body, "application/json")
    {
      DispatchInvertsVerbName(Verb.Put);
      a := PerformRequest("PUT", uri, body, headers, native);
    }

    method Post(uri: string, body: string, headers: seq<string>, native: NativeResult) returns (a: Attempt)
      ensures a == Exchange("POST", uri, body, headers, timeout, native)
      ensures a.NotSent? <==> ParseURI(uri).Err? || ConvertAll(headers).Err?
      ensures a.Sent? ==> a.call.verb == Verb.Post && a.call.payload == Payload(body, "application/json")
    {
      DispatchInvertsVerbName(Verb.Post);
      a := PerformRequest("POST", uri, body, headers, native);
    }

    method Patch(uri: string, body: string, headers: seq<string>, native: NativeResult) returns (a: Attempt)
      ensures a == Exchange("PATCH", uri, body, headers, timeout, native)
      ensures a.NotSent? <==> ParseURI(uri).Err? || ConvertAll(headers).Err?
      ensures a.Sent? ==> a.call.verb == Verb.Patch && a.call.payload == Payload(body, "application/json")
    {
      DispatchInvertsVerbName(Verb.Patch);
      a := PerformRequest("PATCH", uri, body, headers, native);
    }

    method Delete(uri: string, headers: seq<string>, native: NativeResult) returns (a: Attempt)
      ensures a == Exchange("DELETE", uri, "", headers, timeout, native)
      ensures a.NotSent? <==> ParseURI(uri).Err? || ConvertAll(headers).Err?
      ensures a.Sent? ==> a.call.verb == Verb.Delete && a.call.payload == NoPayload
    {
      DispatchInvertsVerbName(Verb.Delete);
      a := PerformRequest("DELETE", uri, "", headers, native);
    }
  }
}
