# http_client: a Dafny model of the two backends' request logic

The library `http_client` offers one asynchronous HTTP client interface (Get, Put, Post,
Patch, Delete, SetTimeout, GetTimeout) with two backends. One sits on cpp-httplib
(`HttplibHTTPClient`) and one on libcurl (`CurlHTTPClient`). Under the futures, mutexes and
foreign library calls, each backend runs a little sequential logic. This project models that
logic and proves what it does:

- **URI splitting** in the cpp-httplib backend (`HttplibUri`). The case-insensitive pattern
  `(https?:\/\/)?([^\/\s]+)(\/.*)?` is modelled by hand, with ECMAScript's backtracking
  priority: the reading with a scheme is tried first, then the reading without one. The
  model includes a declarative reference definition of "the pattern fits with these
  captures", and the computed split is proved to agree with it.
- **Request header conversion** in the cpp-httplib backend (`HttplibBackend`). `"Name: Value"`
  strings become the pairs of an `httplib::Headers` multimap. A string without a colon is
  dropped. The key is the text before the first colon. Every leading space of the value is
  stripped. A value with nothing but spaces makes `substr(npos)` throw `std::out_of_range`.
- **Result classification and response assembly**, per backend. cpp-httplib's error enum
  becomes a Connection, Timeout or generic exception. libcurl's result code always becomes
  the base exception.
- **Method dispatch** and the payload or handle options chosen for each verb.
- **The libcurl write callback**: an in-place append to the response buffer, driven chunk by
  chunk by `curl_easy_perform`.
- **The timeout field** of each client class: its default of 30000 ms, and the set/get
  round trip.

Each backend's `PerformRequest` runs the body of the task it launches synchronously. The
native library is replaced by values:

- **cpp-httplib backend.** The call the backend makes is an output (`NativeCall`). The
  `httplib::Result` it gets back is an input (`NativeResult`).
- **libcurl backend.** The options set on the easy handle are the fields of `CurlHandle`.
  What the network delivers during `curl_easy_perform` is an input (`Transfer`).
  `curl_easy_strerror` is a function parameter.

Modules:

- `Optional`: the Option type.
- `Exceptions`: the exception taxonomy. `HTTPException` has four kinds: the base
  `HTTPError`, `Timeout`, `Connection` and `InvalidResponse`. `Thrown` adds
  `std::out_of_range`. `Result` is a value or what was thrown.
- `HttpResponse`: the response value.
- `StdString`: the C++ standard-library behaviour the backends rely on: `find`,
  `find_first_not_of`, `c_str()` stopping at the first NUL, `std::to_string`, and the
  wrap-around of `static_cast<int>` on a `long`.
- `HttplibUri` and `HttplibBackend`: src/cpphttplib/httplib_http_client.cpp.
- `CurlBackend`: src/curl/curl_http_client.cpp.

Behaviour worth noting, as the code has it:

- **Header values.** The conversion strips every leading `' '` of a value, not only one;
  tabs stay (src/cpphttplib/httplib_http_client.cpp:81). A value of nothing but spaces,
  or an empty one, throws `std::out_of_range` from `substr(npos)`.
- **Response header order.** Response headers keep the order in which the library's
  container yields them (src/cpphttplib/httplib_http_client.cpp:103-105).
- **libcurl failures.** The test in tests/curl_client_tests.cpp:78-83 expects
  `ConnectionException` when the server is unreachable. The code throws the base
  `HTTPException` for every libcurl failure (src/curl/curl_http_client.cpp:91-93), and the
  model follows the code.

## Model

| member | source | states |
|---|---|---|
| StdString.Find | src/cpphttplib/httplib_http_client.cpp:76 | `find(':')` gives the first position holding the character, or "none" (here the length) exactly when it does not occur |
| StdString.FindFirstNotOf | src/cpphttplib/httplib_http_client.cpp:81 | `find_first_not_of(" ")` gives the first position holding another character, or "none" when all are spaces |
| StdString.CStr | src/curl/curl_http_client.cpp:65 | what a C API reads through `c_str()`: a prefix of the string without NUL, ending right before the first NUL if there is one |
| StdString.ToString | src/cpphttplib/httplib_http_client.cpp:95 | `std::to_string` of a code is a non-empty run of decimal digits with no leading zero |
| StdString.CStrWithoutNul | src/curl/curl_http_client.cpp:65 | a string reaches a C API through `c_str()` unchanged exactly when it holds no NUL |
| StdString.CStrsWithoutNul | src/curl/curl_http_client.cpp:68-72 | caller header strings without NUL are forwarded verbatim and in order, none dropped |
| StdString.ToStringRoundTrip | src/cpphttplib/httplib_http_client.cpp:95 | the decimal text `std::to_string` writes reads back as the error code |
| StdString.ToStringInjective | src/cpphttplib/httplib_http_client.cpp:95 | different error codes have different decimal texts |
| StdString.IntFromLong | src/curl/curl_http_client.cpp:99 | `static_cast<int>` of the `long` response code lies in the 32-bit range, agrees with it modulo 2^32, and is the code itself whenever that fits |
| HttplibUri.SchemeLength | src/cpphttplib/httplib_http_client.cpp:42 | at most one prefix of the URI is `http://` or `https://` in any letter case, and this finds it |
| HttplibUri.AuthorityEnd | src/cpphttplib/httplib_http_client.cpp:42 | the authority group `[^/\s]+` extends over every authority character up to the first '/' or white space |
| HttplibUri.AuthorityIsGreedy | src/cpphttplib/httplib_http_client.cpp:42 | when the pattern fits with a given authority end, that end is the greedy one |
| HttplibUri.ReadFrom | src/cpphttplib/httplib_http_client.cpp:42-45 | a reading of groups 2 and 3 from a position fits the rest of the URI |
| HttplibUri.ReadFromExact | src/cpphttplib/httplib_http_client.cpp:42-45 | whenever groups 2 and 3 fit from a position, ReadFrom finds exactly that split |
| HttplibUri.SchemeIsSchemeLength | src/cpphttplib/httplib_http_client.cpp:42 | any fit that uses the scheme group uses the one scheme prefix of the URI |
| HttplibUri.Match | src/cpphttplib/httplib_http_client.cpp:42-45 | the split the matcher reports fits the whole pattern, with a scheme prefix if group 1 is used |
| HttplibUri.MatchCorrect | src/cpphttplib/httplib_http_client.cpp:42-45 | no match means no fit at all; a fit with a scheme always wins over the fallback without one |
| HttplibUri.ParseURI | src/cpphttplib/httplib_http_client.cpp:41-53 | a failure is `HTTPException("Invalid URI format")`; on success the path starts with '/', and host ++ path is the URI, or the host is the URI and the path is "/" |
| HttplibUri.ParseURIFailsExactly | src/cpphttplib/httplib_http_client.cpp:41-47 | ParseURI throws `HTTPException("Invalid URI format")` exactly when the whole URI fits neither reading |
| HttplibUri.ParseURIFollowsPattern | src/cpphttplib/httplib_http_client.cpp:41-53 | for the captures `std::regex_match` selects, the host is scheme plus authority and the path is the path group, or "/" when it is empty |
| HttplibUri.ParseURIShape | src/cpphttplib/httplib_http_client.cpp:49-50 | on success: host ++ path is the URI, or host is the URI and path is "/"; the path starts with '/'; the host is an optional scheme, kept as written, and a non-empty authority without '/' or white space |
| HttplibUri.ParseURIExampleFull | src/cpphttplib/httplib_http_client.cpp:41-53 | "http://localhost:8080/test" splits into "http://localhost:8080" and "/test" |
| HttplibUri.ParseURIExampleUpperCase | src/cpphttplib/httplib_http_client.cpp:42 | the scheme matches in any letter case and is kept as written; a URI without a path gets "/" |
| HttplibUri.ParseURIExampleSchemeOnly | src/cpphttplib/httplib_http_client.cpp:41-53 | "http://" alone falls back to host "http:" and path "//" |
| HttplibUri.ParseURIExampleSpace | src/cpphttplib/httplib_http_client.cpp:41-53 | "http://a b" falls back to host "http:" and path "//a b" |
| HttplibUri.ParseURIExamplesInvalid | src/cpphttplib/httplib_http_client.cpp:45-47 | "", "/x" and "a b" are rejected |
| HttplibBackend.ConvertHeader | src/cpphttplib/httplib_http_client.cpp:76-81 | a header is dropped exactly when it has no ':'; a converted key is the colon-free text before the first ':' and the value is a non-empty suffix not starting with a space; a throw needs a ':' |
| HttplibBackend.ConvertHeaderOf | src/cpphttplib/httplib_http_client.cpp:75-84 | a header built as key, ':', any number of spaces and a rest converts to (key, rest), or throws out_of_range when the rest is empty; later colons stay in the value |
| HttplibBackend.ConvertHeaderDecomposes | src/cpphttplib/httplib_http_client.cpp:76-81 | a header is dropped exactly when it has no ':'; every converted or throwing header is a colon-free key, ':', spaces and the value |
| HttplibBackend.ConvertHeaderExampleTest | src/cpphttplib/httplib_http_client.cpp:75-84 | "X-Test: test-value" converts to ("X-Test", "test-value") |
| HttplibBackend.ConvertHeaderKeepsTab | src/cpphttplib/httplib_http_client.cpp:81 | only spaces are stripped: a tab after them stays in the value |
| HttplibBackend.ConvertedPairs | src/cpphttplib/httplib_http_client.cpp:75-84 | the loop emplaces at most one pair per header, none with a ':' in its key and none whose value is empty or starts with a space |
| HttplibBackend.ConvertAll | src/cpphttplib/httplib_http_client.cpp:75-84 | the loop throws out_of_range exactly when some header's value is all spaces, and otherwise fills the multimap with at most one pair per header |
| HttplibBackend.ConvertedPairsAppend | src/cpphttplib/httplib_http_client.cpp:75-84 | converting two lists of headers one after the other gives the pairs of each, in turn |
| HttplibBackend.ConvertedPairsSnoc | src/cpphttplib/httplib_http_client.cpp:75-84 | one more turn of the loop adds the pair of that header, or nothing |
| HttplibBackend.ConvertedPairsSound | src/cpphttplib/httplib_http_client.cpp:75-84 | every pair the loop emplaces comes from some caller header that converts to it |
| HttplibBackend.ConvertedPairsComplete | src/cpphttplib/httplib_http_client.cpp:75-84 | every caller header that converts puts its pair into the multimap |
| HttplibBackend.ConvertedPairsMembership | src/cpphttplib/httplib_http_client.cpp:75-84 | a pair reaches the multimap exactly when some caller header converts to it |
| HttplibBackend.ConversionThrowsSnoc | src/cpphttplib/httplib_http_client.cpp:75-84 | one more header makes the loop throw exactly when it throws or an earlier one did |
| HttplibBackend.ConversionThrowsExtends | src/cpphttplib/httplib_http_client.cpp:75-84 | once a header throws, the loop throws whatever headers follow |
| HttplibBackend.ConvertStep | src/cpphttplib/httplib_http_client.cpp:75-84 | one turn of the loop adds at most the current header's pair, and the loop has thrown by then exactly when it had before or this header throws |
| HttplibBackend.ConvertHeaders | src/cpphttplib/httplib_http_client.cpp:72-84 | the emplace loop throws out_of_range exactly when some header throws, and otherwise fills the multimap with exactly the converted pairs |
| HttplibBackend.Classify | src/cpphttplib/httplib_http_client.cpp:89-96 | Connection gives ConnectionException, Read gives TimeoutException, every other failure gives the base exception, and none gives InvalidResponse |
| HttplibBackend.ClassifyMessageCarriesCode | src/cpphttplib/httplib_http_client.cpp:95 | the generic message is "Request failed with error code: " then the code's digits, which read back as the code |
| HttplibBackend.Handled | src/cpphttplib/httplib_http_client.cpp:88-106 | only Success yields a response; status and body are copied unchanged; each header pair becomes exactly one "k: v" string, in order, with nothing added |
| HttplibBackend.RenderThenConvert | src/cpphttplib/httplib_http_client.cpp:104 | a rendered response header whose key has no ':' and whose value is empty or does not start with ' ' converts back, as a request header, to the same pair, or throws when the value is empty |
| HttplibBackend.HandleResult | src/cpphttplib/httplib_http_client.cpp:88-106 | the push_back loop over the response headers computes the classified outcome |
| HttplibBackend.Dispatch | src/cpphttplib/httplib_http_client.cpp:108-120 | a dispatched call is the one whose name is the method; anything else throws "Unsupported HTTP method: " followed by the method |
| HttplibBackend.DispatchInvertsVerbName | src/cpphttplib/httplib_http_client.cpp:108-120 | each of "GET", "POST", "PUT", "DELETE" and "PATCH" dispatches to its own call |
| HttplibBackend.ExchangeFailsInOrder | src/cpphttplib/httplib_http_client.cpp:69-120 | before the library is called, an invalid URI fails first, then an all-space header value, then an unsupported method; otherwise the request is sent |
| HttplibBackend.ExchangeOutcome | src/cpphttplib/httplib_http_client.cpp:67-123 | the future delivers a response exactly when the URI fits, no header value is all spaces, the method is one of the five and the library reports Success; the response is handle_result's |
| HttplibBackend.Exchange | src/cpphttplib/httplib_http_client.cpp:67-123 | a sent request goes to the parsed host and path with the converted headers and the client's timeout; GET and DELETE carry no body; the others carry it as "application/json"; the outcome is handle_result's |
| HttplibBackend.HttplibHTTPClient.constructor | src/cpphttplib/httplib_http_client.cpp:9 | the timeout starts at 30000 ms |
| HttplibBackend.HttplibHTTPClient.SetTimeout | src/cpphttplib/httplib_http_client.cpp:31-34 | the timeout becomes the given value |
| HttplibBackend.HttplibHTTPClient.GetTimeout | src/cpphttplib/httplib_http_client.cpp:36-39 | returns the last value set |
| HttplibBackend.HttplibHTTPClient.PerformRequest | src/cpphttplib/httplib_http_client.cpp:63-124 | parse, convert, dispatch and handle the result, with the client's current timeout |
| HttplibBackend.HttplibHTTPClient.Get | src/cpphttplib/httplib_http_client.cpp:11-13 | GET with an empty body; fails before sending exactly on a bad URI or an all-space header value |
| HttplibBackend.HttplibHTTPClient.Put | src/cpphttplib/httplib_http_client.cpp:15-17 | PUT with the body as "application/json" |
| HttplibBackend.HttplibHTTPClient.Post | src/cpphttplib/httplib_http_client.cpp:19-21 | POST with the body as "application/json" |
| HttplibBackend.HttplibHTTPClient.Patch | src/cpphttplib/httplib_http_client.cpp:23-25 | PATCH with the body as "application/json" |
| HttplibBackend.HttplibHTTPClient.Delete | src/cpphttplib/httplib_http_client.cpp:27-29 | DELETE with an empty body and no payload |
| CurlBackend.HeaderList.constructor | src/curl/curl_http_client.cpp:70 | appending to the empty list gives a list holding the header's C string |
| CurlBackend.HeaderList.Append | src/curl/curl_http_client.cpp:70 | appending adds the header's C string at the end and keeps the rest |
| CurlBackend.HeaderList.FreeAll | src/curl/curl_http_client.cpp:87-89 | the list is freed |
| CurlBackend.FirstShortWrite | src/curl/curl_http_client.cpp:85 | finds the first chunk whose write comes back short, if any |
| CurlBackend.StopsAt | src/curl/curl_http_client.cpp:85 | when every write before a chunk was whole and that chunk's write is short (or no chunk is left), the buffer holds exactly the earlier chunks and perform returns CURLE_WRITE_ERROR (or the transfer's own code) |
| CurlBackend.ConcatPrefixStep | src/curl/curl_http_client.cpp:109 | one more whole write extends the accumulated body by exactly that chunk's bytes |
| CurlBackend.ConcatAppend | src/curl/curl_http_client.cpp:74-76 | the accumulated body of two runs of chunks is the body of the first followed by the body of the second |
| CurlBackend.ConcatPlacesChunk | src/curl/curl_http_client.cpp:106-114 | each chunk's bytes sit in the accumulated body right after those of the chunks before it |
| CurlBackend.PerformCode | src/curl/curl_http_client.cpp:85 | perform returns CURLE_WRITE_ERROR when any write is short, and otherwise the transfer's own code |
| CurlBackend.Received | src/curl/curl_http_client.cpp:85 | the buffer ends up holding a prefix of all the chunks' bytes, and all of them when no write is short |
| CurlBackend.CurlOutcome | src/curl/curl_http_client.cpp:91-102 | the request fails exactly when perform does not return CURLE_OK, with the base HTTPException carrying libcurl's text for the code; a success has no headers, the received body, and the response code itself whenever it fits in an int |
| CurlBackend.CurlFailuresAreBase | src/curl/curl_http_client.cpp:91-93 | a failure is never a ConnectionException or TimeoutException; a short write fails with CURLE_WRITE_ERROR's text |
| CurlBackend.CurlResponse | src/curl/curl_http_client.cpp:95-102 | a successful response has the native response code when that code fits in an int, no headers, and as body the in-order concatenation of every delivered chunk |
| CurlBackend.CurlHandle.constructor | src/curl/curl_http_client.cpp:13 | a fresh handle has no options set |
| CurlBackend.CurlHandle.Reset | src/curl/curl_http_client.cpp:64 | every option the backend uses is back to its default |
| CurlBackend.CurlHandle.Perform | src/curl/curl_http_client.cpp:85 | the buffer gains the chunks delivered before the first short write, and the result is CURLE_WRITE_ERROR if a write was short, otherwise the transfer's own code |
| CurlBackend.CurlHTTPClient.constructor | src/curl/curl_http_client.cpp:12 | the timeout starts at 30000 ms |
| CurlBackend.CurlHTTPClient.SetTimeout | src/curl/curl_http_client.cpp:50-53 | the timeout becomes the given value |
| CurlBackend.CurlHTTPClient.GetTimeout | src/curl/curl_http_client.cpp:55-58 | returns the last value set |
| CurlBackend.CurlHTTPClient.WriteCallback | src/curl/curl_http_client.cpp:106-114 | appends exactly size*nmemb bytes after the old contents and returns that count; on allocation failure it returns 0 and leaves the buffer as it was |
| CurlBackend.CurlHTTPClient.BuildHeaderList | src/curl/curl_http_client.cpp:68-71 | the curl_slist_append loop gives no list for no headers, and otherwise a fresh list of every caller header's C string, in order, none dropped |
| CurlBackend.CurlHTTPClient.Prepare | src/curl/curl_http_client.cpp:64-83 | after a reset, the handle holds the URL, the timeout in ms unchanged, the header list and an empty response buffer; the custom method is set exactly when it is not GET, the body only then and when non-empty |
| CurlBackend.CurlHTTPClient.PerformRequest | src/curl/curl_http_client.cpp:60-104 | sets the URL, the timeout unchanged in ms and the header list of every caller string in order; sets the custom method exactly when it is not GET, and the body only then and when non-empty; frees the list on both paths; the outcome is the classified result |
| CurlBackend.CurlHTTPClient.Get | src/curl/curl_http_client.cpp:25-27 | GET sets neither a custom method nor a body |
| CurlBackend.CurlHTTPClient.Put | src/curl/curl_http_client.cpp:29-31 | the custom method is "PUT" |
| CurlBackend.CurlHTTPClient.Post | src/curl/curl_http_client.cpp:33-40 | the custom method is "POST" |
| CurlBackend.CurlHTTPClient.Patch | src/curl/curl_http_client.cpp:42-44 | the custom method is "PATCH" |
| CurlBackend.CurlHTTPClient.Delete | src/curl/curl_http_client.cpp:46-48 | the custom method is "DELETE" and no body is set |

## Left out

- `std::async`, `std::future` and the mutex each request holds. These are concurrency. Each request runs as one sequential method, and its result or exception is returned as a `Result`.
- cpp-httplib's `Client` and the `curl_easy_*` calls. These are foreign code. Their results are inputs, and the calls the backends make are outputs or handle fields.
- HttplibBackend.Exchange: the `httplib::Client` constructor that `CreateClient` runs between parsing the URI and converting the headers (src/cpphttplib/httplib_http_client.cpp:56, 71) is assumed not to throw; it can, for instance for an "https" host in a build without SSL support. ExchangeFailsInOrder's order of failures holds under that assumption.
- `curl_easy_init` failure and `curl_easy_cleanup` in the destructor. These are foreign resource management. The constructor always obtains a handle.
- `CreateClient`'s conversion of the timeout to seconds as a `double`. This is floating point. The native call carries the timeout in milliseconds.
- The order of request headers inside `httplib::Headers`. The multimap is modelled as a multiset of pairs.
- spdlog debug logging in `CurlHTTPClient::Post`. It is output only.
- The return codes of `curl_easy_setopt` and `curl_easy_getinfo`, which the source ignores. libcurl's own checks on option values are not modelled either. For example, libcurl rejects a negative timeout and keeps its previous value. The model records the value passed.
- `curl_slist_append` returning NULL when it cannot allocate. The source ignores this case.
- The abstract `HTTPClient` interface and the two backend headers. They hold declarations only.
- The tests, the test server and the demo program. They are process plumbing.
- Characters stand for bytes: strings are `seq<char>` with one char per byte. No encoding is modelled.
- CurlBackend.CurlHandle.Perform: libcurl is modelled only as the sequence of body chunks it hands the write callback, at most 16384 bytes each, and the code and response code the transfer ends with. Redirects, header callbacks and progress are not modelled.
