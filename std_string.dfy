/**
 * The behaviour of the C++ standard library that the two backends rely on: searching a
 * std::string, handing it on through c_str(), std::to_string and the narrowing
 * static_cast<int>.  Strings are sequences of chars, one char per byte; a search that
 * would return std::string::npos returns |s| here, which no valid position equals.
 */
module StdString {

  /** `s.find(c)`: the position of the first `c` in `s`, or |s| when there is none. */
  function Find(s: string, c: char): (k: nat)
    ensures k <= |s|
    ensures k < |s| ==> s[k] == c
    ensures forall i :: 0 <= i < k ==> s[i] != c
  {
    if s == [] then 0
    else if s[0] == c then 0
    else 1 + Find(s[1..], c)
  }

  /** `s.find_first_not_of(c)` for a one-character set: the position of the first
      character other than `c`, or |s| when every character is `c`. */
  function FindFirstNotOf(s: string, c: char): (k: nat)
    ensures k <= |s|
    ensures k < |s| ==> s[k] != c
    ensures forall i :: 0 <= i < k ==> s[i] == c
  {
    if s == [] then 0
    else if s[0] != c then 0
    else 1 + FindFirstNotOf(s[1..], c)
  }

  /** The string that `s.c_str()` denotes to a C API: `s` up to its first NUL. */
  function CStr(s: string): (r: string)
    ensures r <= s && '\0' !in r
    ensures |r| < |s| ==> s[|r|] == '\0'
  {
    s[..Find(s, '\0')]
  }

  /** Every string of a list as a C API sees it. */
  function CStrs(ss: seq<string>): (rs: seq<string>)
    ensures |rs| == |ss|
    ensures forall i :: 0 <= i < |ss| ==> rs[i] == CStr(ss[i])
  {
    seq(|ss|, i requires 0 <= i < |ss| => CStr(ss[i]))
  }

  /** A string without NUL reaches a C API unchanged, and one with a NUL does not. */
  lemma CStrWithoutNul(s: string)
    ensures CStr(s) == s <==> '\0' !in s
  {
    if '\0' !in s {
      assert |CStr(s)| == |s|;
    }
  }

  /** A list of strings without NUL reaches a C API unchanged. */
  lemma CStrsWithoutNul(ss: seq<string>)
    requires forall i :: 0 <= i < |ss| ==> '\0' !in ss[i]
    ensures CStrs(ss) == ss
  {
    forall i | 0 <= i < |ss|
      ensures CStrs(ss)[i] == ss[i]
    {
      var r := CStr(ss[i]);
      assert |r| == |ss[i]|;
    }
  }

  predicate IsDigits(s: string) {
    forall i :: 0 <= i < |s| ==> '0' <= s[i] <= '9'
  }

  function Digit(d: nat): (c: char)
    requires d < 10
  {
    ('0' as int + d) as char
  }

  /** `std::to_string` of a non-negative value: its decimal digits, with no leading zero. */
  function ToString(n: nat): (s: string)
    ensures |s| > 0 && IsDigits(s)
    ensures s[0] == '0' ==> n == 0
    decreases n
  {
    if n < 10 then [Digit(n)] else ToString(n / 10) + [Digit(n % 10)]
  }

  /** The number a string of decimal digits denotes: the inverse of ToString. */
  function DecimalValue(s: string): nat
    requires IsDigits(s)
  {
    if s == [] then 0
    else DecimalValue(s[..|s| - 1]) * 10 + (s[|s| - 1] as int - '0' as int)
  }

  /** The decimal text of a number reads back as that number. */
  lemma {:induction false} ToStringRoundTrip(n: nat)
    ensures DecimalValue(ToString(n)) == n
    decreases n
  {
    if n >= 10 {
      var s := ToString(n / 10);
      ToStringRoundTrip(n / 10);
      assert (s + [Digit(n % 10)])[..|s|] == s;
    }
  }

  /** Different numbers have different decimal texts. */
  lemma ToStringInjective(a: nat, b: nat)
    requires ToString(a) == ToString(b)
    ensures a == b
  {
    ToStringRoundTrip(a);
    ToStringRoundTrip(b);
  }

  /** `static_cast<int>` of a `long`: the value modulo 2^32, read as a signed 32-bit int. */
  function IntFromLong(x: int): (r: int)
    ensures -0x8000_0000 <= r < 0x8000_0000
    ensures (x - r) % 0x1_0000_0000 == 0
    ensures -0x8000_0000 <= x < 0x8000_0000 ==> r == x
  {
    (x + 0x8000_0000) % 0x1_0000_0000 - 0x8000_0000
  }
}
