/**
 * PHP strings and the three string primitives the filter relies on:
 * `stripos` (case-insensitive search), `preg_match('/^uri,(.*)/', ...)`
 * and the truthiness test `if ($s)` on a string.
 */
module PhpStrings {
  import opened Wrappers

  /** PHP strings are byte strings: every character is below 256. */
  type Byte = c: char | c as int < 256 witness 'a'
  type Bytes = seq<Byte>

  /** ASCII lower-casing, the folding `stripos` applies to both of its arguments. */
  function ToLower(c: Byte): (r: Byte)
  {
    if 'A' <= c <= 'Z' then (c as int + 32) as char else c
  }

  function LowerAll(s: Bytes): (r: Bytes)
    ensures |r| == |s|
  {
    seq(|s|, i requires 0 <= i < |s| => ToLower(s[i]))
  }

  /** The needle occurs at offset `i` of the haystack, ignoring ASCII case. */
  predicate MatchesAt(haystack: Bytes, needle: Bytes, i: nat)
  {
    i + |needle| <= |haystack| && LowerAll(haystack[i..i + |needle|]) == LowerAll(needle)
  }

  lemma MatchesAtShift(haystack: Bytes, needle: Bytes, i: nat)
    requires haystack != []
    ensures MatchesAt(haystack[1..], needle, i) <==> MatchesAt(haystack, needle, i + 1)
  {
    if i + |needle| <= |haystack[1..]| {
      assert haystack[1..][i..i + |needle|] == haystack[i + 1..i + 1 + |needle|];
    }
  }

  /**
   * `stripos($haystack, $needle)`: the offset of the FIRST case-insensitive
   * occurrence of the needle, or None where PHP returns false.
   */
  function Stripos(haystack: Bytes, needle: Bytes): (r: Option<nat>)
    ensures r.Some? ==> MatchesAt(haystack, needle, r.value)
    ensures r.Some? ==> forall j :: 0 <= j < r.value ==> !MatchesAt(haystack, needle, j)
    ensures r.None? ==> forall j: nat :: !MatchesAt(haystack, needle, j)
    decreases |haystack|
  {
    if |needle| > |haystack| then None
    else if MatchesAt(haystack, needle, 0) then Some(0)
    else
      var rest := Stripos(haystack[1..], needle);
      NoMatchBefore(haystack, needle, rest);
      if rest.None? then None else Some(rest.value + 1)
  }

  /**
   * When the needle does not occur at offset 0, the misses of the tail
   * (below `bound + 1`, or everywhere when `bound` is None) shift by one.
   */
  lemma NoMatchBefore(haystack: Bytes, needle: Bytes, bound: Option<nat>)
    requires haystack != [] && !MatchesAt(haystack, needle, 0)
    requires bound.Some? ==> forall j :: 0 <= j < bound.value ==> !MatchesAt(haystack[1..], needle, j)
    requires bound.None? ==> forall j: nat :: !MatchesAt(haystack[1..], needle, j)
    ensures bound.Some? ==> forall j :: 0 <= j < bound.value + 1 ==> !MatchesAt(haystack, needle, j)
    ensures bound.Some? ==> forall j :: 0 <= j < bound.value ==> (MatchesAt(haystack[1..], needle, j) <==> MatchesAt(haystack, needle, j + 1))
    ensures bound.Some? && MatchesAt(haystack[1..], needle, bound.value) ==> MatchesAt(haystack, needle, bound.value + 1)
    ensures bound.None? ==> forall j: nat :: !MatchesAt(haystack, needle, j)
  {
    forall j: nat | 0 < j ensures MatchesAt(haystack[1..], needle, j - 1) <==> MatchesAt(haystack, needle, j) {
      MatchesAtShift(haystack, needle, j - 1);
    }
    if bound.Some? {
      MatchesAtShift(haystack, needle, bound.value);
    }
  }

  /** PHP's `if ($s)` on a string: false exactly for "" and "0". */
  function Truthy(s: Bytes): (r: bool)
    ensures r <==> |s| >= 2 || (|s| == 1 && s[0] != '0')
  {
    s != "" && s != "0"
  }

  /** Index of the first `c` in `s`, or `|s|` when there is none. */
  function IndexOf(s: Bytes, c: Byte): (r: nat)
    ensures r <= |s|
    ensures forall j :: 0 <= j < r ==> s[j] != c
    ensures r < |s| ==> s[r] == c
  {
    if s == [] then 0
    else if s[0] == c then 0
    else 1 + IndexOf(s[1..], c)
  }

  lemma IndexOfSplit(a: Bytes, c: Byte, b: Bytes)
    requires c !in a
    ensures IndexOf(a + [c] + b, c) == |a|
  {
    var s := a + [c] + b;
    assert s[|a|] == c;
    assert forall j :: 0 <= j < |a| ==> s[j] == a[j];
  }

  lemma IndexOfAbsent(a: Bytes, c: Byte)
    requires c !in a
    ensures IndexOf(a, c) == |a|
  {
  }

  const UriPrefix: Bytes := "uri,"

  /**
   * `preg_match('/^uri,(.*)/', $s, $matches)` and `$matches[1]`: None when
   * the subject does not start with "uri,"; otherwise the text after the
   * prefix up to (not including) the first newline, since `.` does not
   * match a line feed and `.*` is greedy.
   */
  function MatchUriPattern(s: Bytes): (r: Option<Bytes>)
    ensures r.Some? <==> |s| >= |UriPrefix| && s[..|UriPrefix|] == UriPrefix
    ensures r.Some? ==> '\n' !in r.value
    ensures r.Some? ==> UriPrefix + r.value <= s
    ensures r.Some? && |UriPrefix| + |r.value| < |s| ==> s[|UriPrefix| + |r.value|] == '\n'
  {
    if |s| >= |UriPrefix| && s[..|UriPrefix|] == UriPrefix then
      var rest := s[|UriPrefix|..];
      var n := IndexOf(rest, '\n');
      assert rest[..n] == s[|UriPrefix|..|UriPrefix| + n];
      Some(rest[..n])
    else None
  }

  /** A deep link written as "uri," followed by a newline-free text is read back whole. */
  lemma MatchUriPatternOf(u: Bytes)
    requires '\n' !in u
    ensures MatchUriPattern(UriPrefix + u) == Some(u)
  {
    var s := UriPrefix + u;
    assert s[..|UriPrefix|] == UriPrefix;
    assert s[|UriPrefix|..] == u;
    IndexOfAbsent(u, '\n');
    assert u[..|u|] == u;
  }
}
