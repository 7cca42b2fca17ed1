/**
 * ParseURI of the cpp-httplib backend.  The source matches the whole URI against the
 * pattern `(https?:\/\/)?([^\/\s]+)(\/.*)?`, case-insensitively, and takes
 * host = group 1 + group 2 and path = group 3, or "/" when group 3 is absent.
 *
 * The pattern is modelled by hand.  `MatchesAt` says declaratively which split points
 * make the whole string fit the pattern; `Match` computes the split that the ECMAScript
 * matcher reports: the greedy `?` of group 1 tries the reading with a scheme first and
 * falls back to the reading without one.  Character classes follow the C locale:
 * `\s` is space, \t, \n, \v, \f or \r; `.` is anything but \n and \r; `icase` folds
 * only the ASCII letters.
 */
module HttplibUri {

  import opened Exceptions

  predicate IsSpace(c: char) {
    c == ' ' || '\t' <= c <= '\r'
  }

  function Lower(c: char): char {
    if 'A' <= c <= 'Z' then (c as int + 32) as char else c
  }

  predicate EqualsIgnoringCase(s: string, pattern: string) {
    |s| == |pattern| && forall i :: 0 <= i < |s| ==> Lower(s[i]) == pattern[i]
  }

  /** What group 1, `(https?:\/\/)`, matches. */
  predicate IsScheme(s: string) {
    EqualsIgnoringCase(s, "http://") || EqualsIgnoringCase(s, "https://")
  }

  /** What `[^\/\s]` matches. */
  predicate IsAuthorityChar(c: char) {
    c != '/' && !IsSpace(c)
  }

  /** What group 2, `([^\/\s]+)`, matches. */
  predicate IsAuthority(s: string) {
    |s| > 0 && forall i :: 0 <= i < |s| ==> IsAuthorityChar(s[i])
  }

  /** What group 3, `(\/.*)`, matches. */
  predicate IsPath(s: string) {
    |s| > 0 && s[0] == '/' && forall i :: 1 <= i < |s| ==> s[i] != '\n' && s[i] != '\r'
  }

  /** Groups 2 and 3 fit `uri[i..]` with group 2 = uri[i..j] and group 3 = uri[j..]
      (absent when j = |uri|). */
  predicate FitsFrom(uri: string, i: nat, j: nat) {
    i <= j <= |uri| && IsAuthority(uri[i..j]) && (j == |uri| || IsPath(uri[j..]))
  }

  /** The whole of `uri` fits the pattern with group 1 = uri[..i] (absent when i = 0),
      group 2 = uri[i..j] and group 3 = uri[j..] (absent when j = |uri|). */
  predicate MatchesAt(uri: string, i: nat, j: nat) {
    FitsFrom(uri, i, j) && (i == 0 || IsScheme(uri[..i]))
  }

  /** `std::regex_match` succeeds. */
  ghost predicate Matches(uri: string) {
    exists i: nat, j: nat :: MatchesAt(uri, i, j)
  }

  /** The length of an "http://" or "https://" prefix of `uri`, in any letter case, or 0. */
  function SchemeLength(uri: string): (n: nat)
    ensures n <= |uri|
    ensures n > 0 ==> IsScheme(uri[..n])
    ensures forall k :: 0 < k <= |uri| && IsScheme(uri[..k]) ==> k == n
  {
    if |uri| >= 8 && EqualsIgnoringCase(uri[..8], "https://") then
      assert Lower(uri[4]) == 's';
      assert !EqualsIgnoringCase(uri[..7], "http://") by {
        assert uri[..7][4] == uri[4];
      }
      8
    else if |uri| >= 7 && EqualsIgnoringCase(uri[..7], "http://") then 7
    else 0
  }

  /** The end of the longest run of authority characters from `from` on: the greedy `+`. */
  function AuthorityEnd(uri: string, from: nat): (j: nat)
    requires from <= |uri|
    ensures from <= j <= |uri|
    ensures forall k :: from <= k < j ==> IsAuthorityChar(uri[k])
    ensures j < |uri| ==> !IsAuthorityChar(uri[j])
    decreases |uri| - from
  {
    if from == |uri| || !IsAuthorityChar(uri[from]) then from
    else AuthorityEnd(uri, from + 1)
  }

  /** The split points of a successful match: group 1 ends at `schemeEnd`, group 2 at
      `authorityEnd`. */
  datatype Reading = NoMatch | Reading(schemeEnd: nat, authorityEnd: nat)

  /** The reading whose authority starts at `i`, if groups 2 and 3 fit there. */
  function ReadFrom(uri: string, i: nat): (r: Reading)
    requires i <= |uri|
    ensures r.Reading? ==> r.schemeEnd == i && FitsFrom(uri, i, r.authorityEnd)
  {
    var j := AuthorityEnd(uri, i);
    if j > i && (j == |uri| || IsPath(uri[j..])) then
      assert IsAuthority(uri[i..j]);
      Reading(i, j)
    else NoMatch
  }

  /** The split the matcher reports: with a scheme if that reading fits, else without. */
  function Match(uri: string): (m: Reading)
    ensures m.Reading? ==> MatchesAt(uri, m.schemeEnd, m.authorityEnd)
  {
    var n := SchemeLength(uri);
    if n > 0 && ReadFrom(uri, n).Reading? then ReadFrom(uri, n) else ReadFrom(uri, 0)
  }

  datatype HostPath = HostPath(host: string, path: string)

  /** HttplibHTTPClient::ParseURI. */
  function ParseURI(uri: string): (r: Result<HostPath>)
    ensures r.Err? ==> r.thrown == Http(HTTPError("Invalid URI format"))
    ensures r.Ok? ==> && |r.value.path| > 0 && r.value.path[0] == '/'
                      && (r.value.host + r.value.path == uri || (r.value.host == uri && r.value.path == "/"))
  {
    match Match(uri)
    case NoMatch => Err(Http(HTTPError("Invalid URI format")))
    case Reading(i, j) =>
      assert uri[..i] + uri[i..j] == uri[..j];
      assert uri[..j] + uri[j..] == uri;
      Ok(HostPath(uri[..i] + uri[i..j], if j < |uri| then uri[j..] else "/"))
  }

  /** Group 2 is greedy: wherever groups 2 and 3 fit from `i`, group 2 ends at AuthorityEnd. */
  lemma AuthorityIsGreedy(uri: string, i: nat, j: nat)
    requires FitsFrom(uri, i, j)
    ensures j == AuthorityEnd(uri, i)
  {
  }

  /** ReadFrom misses no fitting split from `i`. */
  lemma ReadFromExact(uri: string, i: nat)
    requires i <= |uri|
    ensures forall j: nat :: FitsFrom(uri, i, j) ==> ReadFrom(uri, i) == Reading(i, j)
  {
    forall j': nat | FitsFrom(uri, i, j')
      ensures ReadFrom(uri, i) == Reading(i, j')
    {
      AuthorityIsGreedy(uri, i, j');
    }
  }

  /** A reading with a scheme can only have the scheme SchemeLength finds. */
  lemma SchemeIsSchemeLength(uri: string, i: nat, j: nat)
    requires MatchesAt(uri, i, j) && i > 0
    ensures i == SchemeLength(uri)
  {
  }

  /** No fitting reading is missed; when Match reports one without a scheme, none with a
      scheme fits. */
  lemma MatchCorrect(uri: string)
    ensures Match(uri).NoMatch? ==> !Matches(uri)
    ensures Match(uri).Reading? && Match(uri).schemeEnd == 0 ==>
      forall i: nat, j: nat :: 0 < i && MatchesAt(uri, i, j) ==> false
    ensures forall i: nat, j: nat :: 0 < i && MatchesAt(uri, i, j) ==> Match(uri) == Reading(i, j)
  {
    var n := SchemeLength(uri);
    ReadFromExact(uri, 0);
    if n > 0 {
      ReadFromExact(uri, n);
    }
    forall i: nat, j: nat | 0 < i && MatchesAt(uri, i, j)
      ensures Match(uri) == Reading(i, j)
    {
      SchemeIsSchemeLength(uri, i, j);
    }
    if Match(uri).NoMatch? {
      forall i: nat, j: nat | MatchesAt(uri, i, j)
        ensures false
      {
        if i > 0 {
          SchemeIsSchemeLength(uri, i, j);
        }
      }
    }
  }

  /** ParseURI throws "Invalid URI format" exactly when no reading of the pattern fits the
      whole string. */
  lemma ParseURIFailsExactly(uri: string)
    ensures ParseURI(uri).Err? <==> !Matches(uri)
    ensures ParseURI(uri).Err? ==> ParseURI(uri).thrown == Http(HTTPError("Invalid URI format"))
  {
    MatchCorrect(uri);
  }

  /** ParseURI returns the captures of the first fitting reading in the pattern's order:
      the one with a scheme whenever it fits, otherwise the one without. */
  lemma ParseURIFollowsPattern(uri: string, i: nat, j: nat)
    requires MatchesAt(uri, i, j)
    requires i == 0 ==> forall i': nat, j': nat :: 0 < i' ==> !MatchesAt(uri, i', j')
    ensures ParseURI(uri) == Ok(HostPath(uri[..j], if j < |uri| then uri[j..] else "/"))
  {
    MatchCorrect(uri);
    if i == 0 {
      ReadFromExact(uri, 0);
      assert Match(uri).schemeEnd == 0;
    }
    assert uri[..i] + uri[i..j] == uri[..j];
  }

  /** On success the host is an optional scheme, kept as written, followed by a non-empty
      authority free of '/' and white space; the path starts with '/', and host ++ path is
      the URI unless the URI had no path, in which case host is the URI and path is "/". */
  lemma ParseURIShape(uri: string)
    requires ParseURI(uri).Ok?
    ensures var hp := ParseURI(uri).value;
      && (hp.host + hp.path == uri || (hp.host == uri && hp.path == "/"))
      && |hp.path| > 0 && hp.path[0] == '/'
      && exists i :: 0 <= i < |hp.host| && (i == 0 || IsScheme(hp.host[..i])) && IsAuthority(hp.host[i..])
  {
    MatchCorrect(uri);
    var i, j := Match(uri).schemeEnd, Match(uri).authorityEnd;
    var hp := ParseURI(uri).value;
    assert hp.host == uri[..j];
    assert hp.host[..i] == uri[..i] && hp.host[i..] == uri[i..j];
    if j < |uri| {
      assert uri[..j] + uri[j..] == uri;
    }
  }

  /** A URI as the tests write it. */
  lemma ParseURIExampleFull()
    ensures ParseURI("http://localhost:8080/test") == Ok(HostPath("http://localhost:8080", "/test"))
  {
    var uri := "http://localhost:8080/test";
    assert IsScheme(uri[..7]) by {
      assert uri[..7] == "http://";
    }
    assert IsAuthority(uri[7..21]) by {
      assert uri[7..21] == "localhost:8080";
    }
    assert IsPath(uri[21..]) by {
      assert uri[21..] == "/test";
    }
    assert uri[..21] == "http://localhost:8080";
    ParseURIFollowsPattern(uri, 7, 21);
  }

  /** The scheme is kept as written, in its own letter case; no path gives "/". */
  lemma ParseURIExampleUpperCase()
    ensures ParseURI("HTTPS://Example.org") == Ok(HostPath("HTTPS://Example.org", "/"))
  {
    var uri := "HTTPS://Example.org";
    assert uri[..8] == "HTTPS://";
    assert uri[8..19] == "Example.org";
    assert uri[..19] == uri;
    ParseURIFollowsPattern(uri, 8, 19);
  }

  /** The scheme reading fails (no authority follows), so the reading without scheme wins. */
  lemma ParseURIExampleSchemeOnly()
    ensures ParseURI("http://") == Ok(HostPath("http:", "//"))
  {
    var uri := "http://";
    assert uri[..5] == "http:" && uri[0..5] == "http:" && uri[5..] == "//";
    forall i': nat, j': nat | 0 < i'
      ensures !MatchesAt(uri, i', j')
    {
      if MatchesAt(uri, i', j') {
        SchemeIsSchemeLength(uri, i', j');
      }
    }
    ParseURIFollowsPattern(uri, 0, 5);
  }

  /** The scheme reading fails (a space ends the authority), so "http:" becomes the host. */
  lemma ParseURIExampleSpace()
    ensures ParseURI("http://a b") == Ok(HostPath("http:", "//a b"))
  {
    var uri := "http://a b";
    assert uri[..5] == "http:" && uri[0..5] == "http:" && uri[5..] == "//a b";
    forall i': nat, j': nat | 0 < i'
      ensures !MatchesAt(uri, i', j')
    {
      if MatchesAt(uri, i', j') {
        SchemeIsSchemeLength(uri, i', j');
        AuthorityIsGreedy(uri, 7, j');
      }
    }
    ParseURIFollowsPattern(uri, 0, 5);
  }

  /** Inputs that fit neither reading. */
  lemma ParseURIExamplesInvalid()
    ensures ParseURI("").Err? && ParseURI("/x").Err? && ParseURI("a b").Err?
  {
  }
}
