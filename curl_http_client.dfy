/**
 * The libcurl backend, CurlHTTPClient (src/curl/curl_http_client.cpp), with the body of
 * the task PerformRequest launches run synchronously.  The easy handle is modelled by the
 * options the backend sets on it; what the network does during curl_easy_perform is an
 * input (`Transfer`), and libcurl's part of that call is modelled only as far as the
 * backend depends on it: every body chunk goes through the write callback, and a callback
 * that reports fewer bytes than it was given aborts the transfer with CURLE_WRITE_ERROR.
 * curl_easy_strerror is a parameter.
 */
module CurlBackend {

  import opened Optional
  import opened Exceptions
  import opened HttpResponse
  import opened StdString

  const CURLE_OK: nat := 0
  const CURLE_WRITE_ERROR: nat := 23

  /** The most body bytes libcurl hands the write callback in one call. */
  const CURL_MAX_WRITE_SIZE: nat := 16384

  /** 2^64: values of size_t are taken modulo this. */
  const SIZE_MODULUS: nat := 0x1_0000_0000_0000_0000

  /** The std::string the write callback appends to: `response_body`. */
  class StringBuffer {
    var data: string

    constructor ()
      ensures data == []
    {
      data := [];
    }
  }

  /** A curl_slist.  curl_slist_append copies the C string it is given. */
  class HeaderList {
    var items: seq<string>
    var freed: bool

    /** curl_slist_append on an empty (null) list. */
    constructor (item: string)
      ensures items == [CStr(item)] && !freed
    {
      items := [CStr(item)];
      freed := false;
    }

    /** curl_slist_append on an existing list. */
    method Append(item: string)
      requires !freed
      modifies this
      ensures items == old(items) + [CStr(item)] && !freed
    {
      items := items + [CStr(item)];
    }

    /** curl_slist_free_all. */
    method FreeAll()
      modifies this
      ensures freed && items == old(items)
    {
      freed := true;
    }
  }

  /** One piece of the response body as libcurl hands it to the write callback, and whether
      growing the buffer for it throws std::bad_alloc. */
  datatype Chunk = Chunk(bytes: string, allocationFails: bool)

  /** What the network does during curl_easy_perform: the body arrives in `chunks`, and the
      transfer ends with `code` and the response code `responseCode` (a `long`) unless a
      write is short. */
  datatype Transfer = Transfer(chunks: seq<Chunk>, code: nat, responseCode: int) {
    predicate Valid() {
      forall i :: 0 <= i < |chunks| ==> |chunks[i].bytes| <= CURL_MAX_WRITE_SIZE
    }
  }

  /** The callback reports fewer bytes than it was handed. */
  predicate WriteIsShort(chunk: Chunk) {
    chunk.allocationFails && |chunk.bytes| > 0
  }

  /** The chunk whose write is short first, or |chunks| when none is. */
  function FirstShortWrite(chunks: seq<Chunk>): (k: nat)
    ensures k <= |chunks|
    ensures k < |chunks| ==> WriteIsShort(chunks[k])
    ensures forall i :: 0 <= i < k ==> !WriteIsShort(chunks[i])
  {
    if chunks == [] then 0
    else if WriteIsShort(chunks[0]) then 0
    else 1 + FirstShortWrite(chunks[1..])
  }

  /** The chunks' bytes one after the other. */
  function Concat(chunks: seq<Chunk>): string {
    if chunks == [] then [] else Concat(chunks[..|chunks| - 1]) + chunks[|chunks| - 1].bytes
  }

  /** Concatenation distributes over joining the lists of chunks. */
  lemma {:induction false} ConcatAppend(a: seq<Chunk>, b: seq<Chunk>)
    ensures Concat(a + b) == Concat(a) + Concat(b)
    decreases |b|
  {
    if b == [] {
      assert a + b == a;
    } else {
      var b', last := b[..|b| - 1], b[|b| - 1];
      assert (a + b)[..|a + b| - 1] == a + b';
      assert (a + b)[|a + b| - 1] == last;
      calc {
        Concat(a + b);
        Concat(a + b') + last.bytes;
        { ConcatAppend(a, b'); }
        Concat(a) + Concat(b') + last.bytes;
        Concat(a) + (Concat(b') + last.bytes);
        Concat(a) + Concat(b);
      }
    }
  }

  /** Appending one chunk's bytes extends the concatenation of the chunks before it. */
  lemma ConcatPrefixStep(chunks: seq<Chunk>, i: nat)
    requires i < |chunks|
    ensures Concat(chunks[..i + 1]) == Concat(chunks[..i]) + chunks[i].bytes
  {
    assert chunks[..i + 1][..i] == chunks[..i];
  }

  /** Each chunk sits in the concatenation right after the chunks before it. */
  lemma ConcatPlacesChunk(chunks: seq<Chunk>, i: nat)
    requires i < |chunks|
    ensures var offset := |Concat(chunks[..i])|;
      offset + |chunks[i].bytes| <= |Concat(chunks)|
      && Concat(chunks)[offset..offset + |chunks[i].bytes|] == chunks[i].bytes
  {
    assert chunks == chunks[..i] + [chunks[i]] + chunks[i + 1..];
    ConcatAppend(chunks[..i] + [chunks[i]], chunks[i + 1..]);
    ConcatAppend(chunks[..i], [chunks[i]]);
    assert Concat([chunks[i]]) == chunks[i].bytes by {
      assert [chunks[i]][..0] == [];
    }
  }

  /** The transfer stops at chunk `i` when every write before it was whole and its own
      write is short, or there are no more chunks. */
  lemma StopsAt(t: Transfer, i: nat)
    requires i <= FirstShortWrite(t.chunks)
    requires i == |t.chunks| || WriteIsShort(t.chunks[i])
    ensures Received(t) == Concat(t.chunks[..i])
    ensures PerformCode(t) == if i < |t.chunks| then CURLE_WRITE_ERROR else t.code
  {
  }

  /** The result of curl_easy_perform: CURLE_WRITE_ERROR when any write is short, and
      otherwise the transfer's own code. */
  function PerformCode(t: Transfer): (code: nat)
    ensures (exists i :: 0 <= i < |t.chunks| && WriteIsShort(t.chunks[i])) ==> code == CURLE_WRITE_ERROR
    ensures (forall i :: 0 <= i < |t.chunks| ==> !WriteIsShort(t.chunks[i])) ==> code == t.code
  {
    if FirstShortWrite(t.chunks) < |t.chunks| then CURLE_WRITE_ERROR else t.code
  }

  /** The bytes the write callback has appended when curl_easy_perform returns: a prefix
      of all the chunks' bytes, and all of them when no write is short. */
  function Received(t: Transfer): (received: string)
    ensures received <= Concat(t.chunks)
    ensures FirstShortWrite(t.chunks) == |t.chunks| ==> received == Concat(t.chunks)
  {
    var k := FirstShortWrite(t.chunks);
    ConcatAppend(t.chunks[..k], t.chunks[k..]);
    assert t.chunks[..k] + t.chunks[k..] == t.chunks;
    Concat(t.chunks[..k])
  }

  /** What the task delivers: any result other than CURLE_OK throws the base HTTPException
      with libcurl's text for it; otherwise the response code, no headers and the body. */
  function CurlOutcome(t: Transfer, strerror: nat -> string): (r: Result<HTTPResponse>)
    ensures r.Err? <==> PerformCode(t) != CURLE_OK
    ensures r.Err? ==> r.thrown == Http(HTTPError(strerror(PerformCode(t))))
    ensures r.Ok? ==> r.value.headers == [] && r.value.body == Received(t)
    ensures r.Ok? && -0x8000_0000 <= t.responseCode < 0x8000_0000 ==> r.value.statusCode == t.responseCode
  {
    var code := PerformCode(t);
    if code != CURLE_OK then Err(Http(HTTPError(strerror(code))))
    else Ok(HTTPResponse(IntFromLong(t.responseCode), [], Received(t)))
  }

  /** Every failure is the base HTTPException carrying curl_easy_strerror's text, never a
      ConnectionException or TimeoutException; a short write fails with CURLE_WRITE_ERROR. */
  lemma CurlFailuresAreBase(t: Transfer, strerror: nat -> string)
    ensures CurlOutcome(t, strerror).Err? ==>
      && CurlOutcome(t, strerror).thrown.Http?
      && !CurlOutcome(t, strerror).thrown.exception.Connection?
      && !CurlOutcome(t, strerror).thrown.exception.Timeout?
    ensures (exists i :: 0 <= i < |t.chunks| && WriteIsShort(t.chunks[i])) ==>
      CurlOutcome(t, strerror) == Err(Http(HTTPError(strerror(CURLE_WRITE_ERROR))))
  {
  }

  /** A successful response has the response code (as an int), no headers, and as body the
      in-order concatenation of every chunk delivered. */
  lemma CurlResponse(t: Transfer, strerror: nat -> string)
    requires CurlOutcome(t, strerror).Ok?
    ensures var r := CurlOutcome(t, strerror).value;
      && (-0x8000_0000 <= t.responseCode < 0x8000_0000 ==> r.statusCode == t.responseCode)
      && r.headers == []
      && r.body == Concat(t.chunks)
      && forall i :: 0 <= i < |t.chunks| ==>
           |Concat(t.chunks[..i])| + |t.chunks[i].bytes| <= |r.body| &&
           r.body[|Concat(t.chunks[..i])|..|Concat(t.chunks[..i])| + |t.chunks[i].bytes|] == t.chunks[i].bytes
  {
    assert t.chunks[..|t.chunks|] == t.chunks;
    assert Received(t) == Concat(t.chunks);
    forall i | 0 <= i < |t.chunks|
      ensures var offset := |Concat(t.chunks[..i])|;
        offset + |t.chunks[i].bytes| <= |Concat(t.chunks)|
        && Concat(t.chunks)[offset..offset + |t.chunks[i].bytes|] == t.chunks[i].bytes
    {
      ConcatPlacesChunk(t.chunks, i);
    }
  }

  /** The options of a CURL easy handle that the backend sets, and the response code
      CURLINFO_RESPONSE_CODE reads back. */
  class CurlHandle {
    var url: Option<string>                 // CURLOPT_URL
    var timeoutMs: int                      // CURLOPT_TIMEOUT_MS, 0 for none
    var httpHeader: HeaderList?             // CURLOPT_HTTPHEADER
    var writeData: StringBuffer?            // CURLOPT_WRITEDATA
    var customRequest: Option<string>       // CURLOPT_CUSTOMREQUEST
    var postFields: Option<string>          // CURLOPT_POSTFIELDS
    var responseCode: int

    predicate IsReset()
      reads this
    {
      && url == None && timeoutMs == 0 && httpHeader == null && writeData == null
      && customRequest == None && postFields == None && responseCode == 0
    }

    /** curl_easy_init. */
    constructor ()
      ensures IsReset()
    {
      url, timeoutMs, httpHeader, writeData := None, 0, null, null;
      customRequest, postFields, responseCode := None, None, 0;
    }

    /** curl_easy_reset. */
    method Reset()
      modifies this
      ensures IsReset()
    {
      url, timeoutMs, httpHeader, writeData := None, 0, null, null;
      customRequest, postFields, responseCode := None, None, 0;
    }

    /** curl_easy_perform as far as the backend sees it: each chunk goes to the write
        callback with size 1, until a write comes back short. */
    method Perform(t: Transfer) returns (code: nat)
      requires t.Valid() && writeData != null
      modifies this`responseCode, writeData
      ensures writeData.data == old(writeData.data) + Received(t)
      ensures code == PerformCode(t)
      ensures responseCode == t.responseCode
    {
      var buffer := writeData;
      code := t.code;
      var i := 0;
      ghost var start := buffer.data;
      ghost var received: string := [];
      while i < |t.chunks|
        invariant i <= FirstShortWrite(t.chunks)
        invariant received == Concat(t.chunks[..i])
        invariant buffer.data == start + received
      {
        var chunk := t.chunks[i];
        assert (1 * |chunk.bytes|) % SIZE_MODULUS == |chunk.bytes|;
        var written := CurlHTTPClient.WriteCallback(chunk.bytes, 1, |chunk.bytes|, buffer, chunk.allocationFails);
        if written != |chunk.bytes| {
          StopsAt(t, i);
          code := CURLE_WRITE_ERROR;
          break;
        }
        ConcatPrefixStep(t.chunks, i);
        assert start + received + chunk.bytes == start + (received + chunk.bytes);
        received := received + chunk.bytes;
        i := i + 1;
      }
      if i == |t.chunks| {
        StopsAt(t, i);
      }
      responseCode := t.responseCode;
    }
  }

  /** The client of the libcurl backend: the timeout in milliseconds (a std::chrono
      milliseconds count) and the one easy handle every request reuses. */
  class CurlHTTPClient {
    var timeout: int
    const handle: CurlHandle

    constructor ()
      ensures timeout == 30000 && fresh(handle) && handle.IsReset()
    {
      timeout := 30000;
      handle := new CurlHandle();
    }

    method SetTimeout(t: int)
      modifies this`timeout
      ensures timeout == t
    {
      timeout := t;
    }

    method GetTimeout() returns (t: int)
      ensures t == timeout
    {
      t := timeout;
    }

    /** WriteCallback: append size*nmemb bytes (size_t arithmetic) to the buffer and report
        that many, or report 0 and leave the buffer as it was when the append throws
        std::bad_alloc. */
    static method WriteCallback(contents: string, size: nat, nmemb: nat, s: StringBuffer,
                                allocationFails: bool) returns (written: nat)
      requires size < SIZE_MODULUS && nmemb < SIZE_MODULUS
      requires (size * nmemb) % SIZE_MODULUS <= |contents|
      modifies s
      ensures written == if allocationFails then 0 else (size * nmemb) % SIZE_MODULUS
      ensures s.data == if allocationFails then old(s.data)
                        else old(s.data) + contents[..(size * nmemb) % SIZE_MODULUS]
    {
      var newLength := (size * nmemb) % SIZE_MODULUS;
      if allocationFails {
        return 0;
      }
      s.data := s.data + contents[..newLength];
      return newLength;
    }

    /** The loop of curl_slist_append calls: one item per caller header, in order, or no
        list at all when there are no headers. */
    static method BuildHeaderList(headers: seq<string>) returns (list: HeaderList?)
      ensures list == null <==> headers == []
      ensures list != null ==> fresh(list) && !list.freed && list.items == CStrs(headers)
    {
      list := null;
      for i := 0 to |headers|
        invariant (list == null) == (i == 0)
        invariant list != null ==> fresh(list) && !list.freed && list.items == CStrs(headers[..i])
      {
        if list == null {
          list := new HeaderList(headers[i]);
        } else {
          list.Append(headers[i]);
        }
      }
      assert headers[..|headers|] == headers;
    }


    /** The handle's options for this request (lines 64-83): reset, then the URL, the
        timeout in milliseconds, the header list, the response buffer, and for any method
        but GET the custom request and a non-empty body. */
    ghost predicate OptionsSet(httpMethod: string, uri: string, body: string)
      reads this, handle
    {
      && handle.url == Some(CStr(uri))
      && handle.timeoutMs == timeout
      && handle.customRequest == (if httpMethod != "GET" then Some(CStr(httpMethod)) else None)
      && handle.postFields == (if httpMethod != "GET" && body != [] then Some(CStr(body)) else None)
    }

    /** Lines 64-83: set the handle up for one request. */
    method Prepare(httpMethod: string, uri: string, body: string, headers: seq<string>)
      returns (list: HeaderList?, responseBody: StringBuffer)
      modifies handle
      ensures OptionsSet(httpMethod, uri, body)
      ensures list == null <==> headers == []
      ensures list != null ==> fresh(list) && !list.freed && list.items == CStrs(headers)
      ensures handle.httpHeader == list
      ensures fresh(responseBody) && responseBody.data == [] && handle.writeData == responseBody
    {
      handle.Reset();
      handle.url := Some(CStr(uri));
      handle.timeoutMs := timeout;

      list := BuildHeaderList(headers);
      handle.httpHeader := list;

      responseBody := new StringBuffer();
      handle.writeData := responseBody;

      if httpMethod != "GET" {
        handle.customRequest := Some(CStr(httpMethod));
        if body != [] {
          handle.postFields := Some(CStr(body));
        }
      }
    }

    /** The handle is set up for this request, and its header list has been freed. */
    ghost predicate Configured(httpMethod: string, uri: string, body: string, headers: seq<string>)
      reads this, handle, handle.httpHeader
    {
      && OptionsSet(httpMethod, uri, body)
      && (handle.httpHeader == null <==> headers == [])
      && (handle.httpHeader != null ==> handle.httpHeader.items == CStrs(headers) && handle.httpHeader.freed)
    }

    /** The task's body: set the handle up, perform, free the header list, then throw or
        assemble the response. */
    method PerformRequest(httpMethod: string, uri: string, body: string, headers: seq<string>,
                          t: Transfer, strerror: nat -> string) returns (r: Result<HTTPResponse>)
      requires t.Valid()
      modifies handle
      ensures Configured(httpMethod, uri, body, headers)
      ensures handle.httpHeader != null ==> fresh(handle.httpHeader)
      ensures handle.writeData != null && fresh(handle.writeData) && handle.writeData.data == Received(t)
      ensures r == CurlOutcome(t, strerror)
    {
      var list, responseBody := Prepare(httpMethod, uri, body, headers);

      var res := handle.Perform(t);

      if list != null {
        list.FreeAll();
      }

      if res != CURLE_OK {
        r := Err(Http(HTTPError(strerror(res))));
      } else {
        var statusCode := handle.responseCode;
        r := Ok(HTTPResponse(IntFromLong(statusCode), [], responseBody.data));
      }
    }

    method Get(uri: string, headers: seq<string>, t: Transfer, strerror: nat -> string)
      returns (r: Result<HTTPResponse>)
      requires t.Valid()
      modifies handle
      ensures Configured("GET", uri, "", headers)
      ensures handle.customRequest == None && handle.postFields == None
      ensures r == CurlOutcome(t, strerror)
    {
      r := PerformRequest("GET", uri, "", headers, t, strerror);
    }

    method Put(uri: string, body: string, headers: seq<string>, t: Transfer, strerror: nat -> string)
      returns (r: Result<HTTPResponse>)
      requires t.Valid()
      modifies handle
      ensures Configured("PUT", uri, body, headers)
      ensures handle.customRequest == Some("PUT")
      ensures r == CurlOutcome(t, strerror)
    {
      CStrWithoutNul("PUT");
      r := PerformRequest("PUT", uri, body, headers, t, strerror);
    }

    method Post(uri: string, body: string, headers: seq<string>, t: Transfer, strerror: nat -> string)
      returns (r: Result<HTTPResponse>)
      requires t.Valid()
      modifies handle
      ensures Configured("POST", uri, body, headers)
      ensures handle.customRequest == Some("POST")
      ensures r == CurlOutcome(t, strerror)
    {
      CStrWithoutNul("POST");
      r := PerformRequest("POST", uri, body, headers, t, strerror);
    }

    method Patch(uri: string, body: string, headers: seq<string>, t: Transfer, strerror: nat -> string)
      returns (r: Result<HTTPResponse>)
      requires t.Valid()
      modifies handle
      ensures Configured("PATCH", uri, body, headers)
      ensures handle.customRequest == Some("PATCH")
      ensures r == CurlOutcome(t, strerror)
    {
      CStrWithoutNul("PATCH");
      r := PerformRequest("PATCH", uri, body, headers, t, strerror);
    }

    method Delete(uri: string, headers: seq<string>, t: Transfer, strerror: nat -> string)
      returns (r: Result<HTTPResponse>)
      requires t.Valid()
      modifies handle
      ensures Configured("DELETE", uri, "", headers)
      ensures handle.customRequest == Some("DELETE") && handle.postFields == None
      ensures r == CurlOutcome(t, strerror)
    {
      CStrWithoutNul("DELETE");
      r := PerformRequest("DELETE", uri, "", headers, t, strerror);
    }
  }
}
