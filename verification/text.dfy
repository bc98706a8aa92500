/**
 * String helpers shared by the backend and the frontend models.
 *
 * Strings are `seq<char>`. Character classes follow the JavaScript regular
 * expression and `String.prototype.trim` definitions the application relies on.
 */
module Text {

  /** JavaScript's `\s` class, which is also the set `trim()` strips:
      the ASCII whitespace controls, space, and the Unicode space separators,
      line/paragraph separators and the byte-order mark. */
  predicate IsSpace(c: char) {
    var n := c as int;
    || (9 <= n <= 13) || n == 32 || n == 0xA0 || n == 0x1680
    || (0x2000 <= n <= 0x200A) || n == 0x2028 || n == 0x2029
    || n == 0x202F || n == 0x205F || n == 0x3000 || n == 0xFEFF
  }

  /** JavaScript's `\w` class without the unicode flag: `[A-Za-z0-9_]`. */
  predicate IsWordChar(c: char) {
    ('a' <= c <= 'z') || ('A' <= c <= 'Z') || ('0' <= c <= '9') || c == '_'
  }

  predicate AllSpace(s: string) {
    forall k :: 0 <= k < |s| ==> IsSpace(s[k])
  }

  /** `r` occurs in `s` starting at index `i`. */
  predicate InfixAt(r: string, s: string, i: int) {
    0 <= i <= |s| - |r| && s[i..i + |r|] == r
  }

  /** Length of the whitespace run `s` starts with. */
  function LeadingSpace(s: string): (n: nat)
    ensures n <= |s|
    ensures forall k :: 0 <= k < n ==> IsSpace(s[k])
    ensures n < |s| ==> !IsSpace(s[n])
  {
    if |s| == 0 || !IsSpace(s[0]) then 0 else 1 + LeadingSpace(s[1..])
  }

  /** Where the whitespace run `s` ends with begins. */
  function TrailingStart(s: string): (m: nat)
    ensures m <= |s|
    ensures forall k :: m <= k < |s| ==> IsSpace(s[k])
    ensures m > 0 ==> !IsSpace(s[m - 1])
  {
    if |s| == 0 || !IsSpace(s[|s| - 1]) then |s| else TrailingStart(s[..|s| - 1])
  }

  /** `String.prototype.trim`: the piece of `s` between its leading and
      trailing whitespace runs, with no whitespace at either end, empty exactly
      when `s` is all whitespace. */
  function Trim(s: string): (r: string)
    ensures InfixAt(r, s, LeadingSpace(s))
    ensures r == [] || (!IsSpace(r[0]) && !IsSpace(r[|r| - 1]))
    ensures r == [] <==> AllSpace(s)
  {
    var lo := LeadingSpace(s);
    if lo == |s| then []
    else
      var hi := TrailingStart(s);
      assert lo < hi;
      s[lo..hi]
  }

  /** A string whose characters from `m` on are whitespace ends in an all-whitespace piece. */
  lemma SpaceFrom(s: string, m: nat)
    requires m <= |s| && forall k :: m <= k < |s| ==> IsSpace(s[k])
    ensures AllSpace(s[m..])
  {
    var tail := s[m..];
    forall k | 0 <= k < |tail| ensures IsSpace(tail[k]) {
      assert tail[k] == s[m + k];
    }
  }

  /** What follows the trimmed text is whitespace. */
  lemma TrimTailIsSpace(s: string)
    ensures LeadingSpace(s) + |Trim(s)| <= |s|
    ensures AllSpace(s[LeadingSpace(s) + |Trim(s)|..])
  {
    var lo := LeadingSpace(s);
    if lo < |s| {
      var hi := TrailingStart(s);
      assert |Trim(s)| == hi - lo;
      SpaceFrom(s, hi);
    }
  }

  /** The leading whitespace run is whitespace. */
  lemma LeadingIsSpace(s: string)
    ensures AllSpace(s[..LeadingSpace(s)])
  {
    var head := s[..LeadingSpace(s)];
    forall k | 0 <= k < |head| ensures IsSpace(head[k]) {
      assert head[k] == s[k];
    }
  }

  /** Cutting a string at two points and gluing the pieces back gives it again. */
  lemma CutThree(s: string, lo: nat, hi: nat)
    requires lo <= hi <= |s|
    ensures s == s[..lo] + s[lo..hi] + s[hi..]
  {
    assert s == s[..lo] + s[lo..];
    assert s[lo..] == s[lo..hi] + s[hi..];
  }

  /** `s` is its leading whitespace, its trimmed text and its trailing whitespace. */
  lemma TrimSplit(s: string)
    ensures LeadingSpace(s) + |Trim(s)| <= |s|
    ensures s == s[..LeadingSpace(s)] + Trim(s) + s[LeadingSpace(s) + |Trim(s)|..]
    ensures AllSpace(s[..LeadingSpace(s)])
    ensures AllSpace(s[LeadingSpace(s) + |Trim(s)|..])
  {
    var lo := LeadingSpace(s);
    var hi := lo + |Trim(s)|;
    assert Trim(s) == s[lo..hi];
    CutThree(s, lo, hi);
    LeadingIsSpace(s);
    TrimTailIsSpace(s);
  }

  /** `Array.prototype.join(sep)` on a list of strings. */
  function Join(xs: seq<string>, sep: string): string
  {
    if |xs| == 0 then "" else if |xs| == 1 then xs[0] else xs[0] + sep + Join(xs[1..], sep)
  }

  /** With a non-empty separator, a join is empty exactly for `[]` and `[""]`. */
  lemma {:induction false} JoinEmptyIff(xs: seq<string>, sep: string)
    requires sep != ""
    ensures Join(xs, sep) == "" <==> (|xs| == 0 || (|xs| == 1 && xs[0] == ""))
  {
    if |xs| > 1 {
      assert |xs[0] + sep + Join(xs[1..], sep)| >= |sep| > 0;
    }
  }

  /** `s.indexOf(c)`, with `|s|` standing for "absent": the first position holding `c`. */
  function FirstIndex(s: string, c: char): (i: nat)
    ensures i <= |s|
    ensures i < |s| ==> s[i] == c
    ensures forall k :: 0 <= k < i ==> s[k] != c
  {
    if |s| == 0 then 0 else if s[0] == c then 0 else 1 + FirstIndex(s[1..], c)
  }

  /** `s.lastIndexOf(c) + 1`, with 0 standing for "absent": the position just past the last `c`. */
  function LastEnd(s: string, c: char): (j: nat)
    ensures j <= |s|
    ensures j > 0 ==> s[j - 1] == c
    ensures forall k :: j <= k < |s| ==> s[k] != c
  {
    if |s| == 0 then 0 else if s[|s| - 1] == c then |s| else LastEnd(s[..|s| - 1], c)
  }

  function DigitChar(d: nat): char
    requires d < 10
  {
    ('0' as int + d) as char
  }

  /** Decimal rendering of a natural number, as a JavaScript template literal prints it. */
  function Decimal(n: nat): (r: string)
    ensures |r| >= 1
    ensures forall k :: 0 <= k < |r| ==> '0' <= r[k] <= '9'
    ensures n > 0 ==> r[0] != '0'
    decreases n
  {
    if n < 10 then [DigitChar(n)] else Decimal(n / 10) + [DigitChar(n % 10)]
  }

  /** Reads a string of decimal digits back as a number. */
  function DigitsValue(s: string): nat
    requires forall k :: 0 <= k < |s| ==> '0' <= s[k] <= '9'
  {
    if |s| == 0 then 0 else 10 * DigitsValue(s[..|s| - 1]) + (s[|s| - 1] as int - '0' as int)
  }

  /** Decimal rendering is faithful: reading the digits back gives the number. */
  lemma {:induction false} DecimalRoundTrip(n: nat)
    ensures DigitsValue(Decimal(n)) == n
    decreases n
  {
    var r := Decimal(n);
    if n >= 10 {
      DecimalRoundTrip(n / 10);
      assert r[..|r| - 1] == Decimal(n / 10);
    }
  }
}
