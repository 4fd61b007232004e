/**
 * String primitives shared by the model: ASCII case mapping (JavaScript
 * `toLowerCase`/`toUpperCase` restricted to ASCII), `trim` with an explicit
 * whitespace predicate, substring search (`includes`, Python `in`),
 * `Array.prototype.join`, and decimal rendering of a natural number.
 */
module Strings {

  // ---------------------------------------------------------------- case

  function LowerChar(c: char): (d: char)
    ensures 'A' <= c <= 'Z' ==> d as int == c as int + 32
    ensures !('A' <= c <= 'Z') ==> d == c
  {
    if 'A' <= c <= 'Z' then (c as int + 32) as char else c
  }

  function UpperChar(c: char): (d: char)
    ensures 'a' <= c <= 'z' ==> d as int == c as int - 32
    ensures !('a' <= c <= 'z') ==> d == c
  {
    if 'a' <= c <= 'z' then (c as int - 32) as char else c
  }

  /** `s.toLowerCase()` over ASCII letters. */
  function Lower(s: string): (r: string)
    ensures |r| == |s|
    ensures forall k :: 0 <= k < |s| ==> r[k] == LowerChar(s[k])
  {
    if s == [] then [] else [LowerChar(s[0])] + Lower(s[1..])
  }

  /** `s.toUpperCase()` over ASCII letters. */
  function Upper(s: string): (r: string)
    ensures |r| == |s|
    ensures forall k :: 0 <= k < |s| ==> r[k] == UpperChar(s[k])
  {
    if s == [] then [] else [UpperChar(s[0])] + Upper(s[1..])
  }

  /** Text without upper-case ASCII letters is its own lower-case form. */
  lemma LowerWithoutUpper(s: string)
    requires forall k :: 0 <= k < |s| ==> !('A' <= s[k] <= 'Z')
    ensures Lower(s) == s
  {
    assert forall k :: 0 <= k < |s| ==> Lower(s)[k] == s[k];
  }

  lemma LowerIdempotent(s: string)
    ensures Lower(Lower(s)) == Lower(s)
  {
    assert forall k :: 0 <= k < |s| ==> Lower(Lower(s))[k] == Lower(s)[k];
  }

  lemma LowerOfUpper(s: string)
    ensures Lower(Upper(s)) == Lower(s)
  {
    assert forall k :: 0 <= k < |s| ==> Lower(Upper(s))[k] == Lower(s)[k];
  }

  // ---------------------------------------------------------- whitespace

  /** The whitespace `trim` removes, restricted to ASCII: space, tab, LF, VT, FF, CR. */
  predicate IsWhitespace(c: char) {
    c == ' ' || c == '\t' || c == '\n' || c == '\r' || c as int == 11 || c as int == 12
  }

  /** The first offset at or after `i` that does not hold whitespace, or `|s|`. */
  function TrimStartIndex(s: string, i: nat): (a: nat)
    requires i <= |s|
    ensures i <= a <= |s|
    decreases |s| - i
  {
    if i < |s| && IsWhitespace(s[i]) then TrimStartIndex(s, i + 1) else i
  }

  /** The offset just after the last character of `s[lo..j]` that is not whitespace, or `lo`. */
  function TrimEndIndex(s: string, lo: nat, j: nat): (b: nat)
    requires lo <= j <= |s|
    ensures lo <= b <= j
    decreases j
  {
    if j > lo && IsWhitespace(s[j - 1]) then TrimEndIndex(s, lo, j - 1) else j
  }

  /** `s.trim()`: the part of `s` between its leading and its trailing whitespace. */
  function Trim(s: string): string {
    var a := TrimStartIndex(s, 0);
    s[a..TrimEndIndex(s, a, |s|)]
  }

  lemma {:induction false} TrimStartIndexShape(s: string, i: nat)
    requires i <= |s|
    ensures var a := TrimStartIndex(s, i);
      && (forall k :: i <= k < a ==> IsWhitespace(s[k]))
      && (a < |s| ==> !IsWhitespace(s[a]))
    decreases |s| - i
  {
    if i < |s| && IsWhitespace(s[i]) {
      TrimStartIndexShape(s, i + 1);
    }
  }

  lemma {:induction false} TrimEndIndexShape(s: string, lo: nat, j: nat)
    requires lo <= j <= |s|
    ensures var b := TrimEndIndex(s, lo, j);
      && (forall k :: b <= k < j ==> IsWhitespace(s[k]))
      && (b > lo ==> !IsWhitespace(s[b - 1]))
    decreases j
  {
    if j > lo && IsWhitespace(s[j - 1]) {
      TrimEndIndexShape(s, lo, j - 1);
    }
  }

  /**
   * The trim of `s` is `s` without a leading and a trailing stretch of
   * whitespace, it neither starts nor ends with whitespace, and it is empty
   * exactly when `s` is all whitespace.
   */
  lemma TrimShape(s: string)
    ensures var r := Trim(s);
      && IsSubstring(r, s)
      && (r != [] ==> !IsWhitespace(r[0]) && !IsWhitespace(r[|r| - 1]))
      && (r == [] <==> forall k :: 0 <= k < |s| ==> IsWhitespace(s[k]))
      && exists a, b :: 0 <= a <= b <= |s| && r == s[a..b]
           && (forall k :: 0 <= k < a ==> IsWhitespace(s[k]))
           && (forall k :: b <= k < |s| ==> IsWhitespace(s[k]))
  {
    var a := TrimStartIndex(s, 0);
    var b := TrimEndIndex(s, a, |s|);
    var r := s[a..b];
    TrimStartIndexShape(s, 0);
    TrimEndIndexShape(s, a, |s|);
    assert OccursAt(r, s, a) by {
      assert s[a..][..|r|] == r;
    }
    if r != [] {
      assert r[0] == s[a] && r[|r| - 1] == s[b - 1];
    } else {
      assert b == a;
    }
  }

  /** Text that neither starts nor ends with whitespace is its own trim. */
  lemma TrimUnchanged(s: string)
    requires s == [] || (!IsWhitespace(s[0]) && !IsWhitespace(s[|s| - 1]))
    ensures Trim(s) == s
  {
    assert TrimStartIndex(s, 0) == 0;
    if s != [] {
      assert TrimEndIndex(s, 0, |s|) == |s|;
    }
  }

  lemma {:induction false} TrimStartIndexAppend(s: string, c: char, i: nat)
    requires IsWhitespace(c) && i <= |s|
    ensures var a := TrimStartIndex(s, i);
      && (a < |s| ==> TrimStartIndex(s + [c], i) == a)
      && (a == |s| ==> TrimStartIndex(s + [c], i) == |s| + 1)
    decreases |s| - i
  {
    var t := s + [c];
    if i < |s| {
      assert t[i] == s[i];
      if IsWhitespace(s[i]) {
        TrimStartIndexAppend(s, c, i + 1);
      }
    } else {
      assert t[i] == c;
      assert TrimStartIndex(t, i + 1) == i + 1;
    }
  }

  lemma {:induction false} TrimEndIndexAppend(s: string, c: char, lo: nat, j: nat)
    requires lo <= j <= |s|
    ensures TrimEndIndex(s + [c], lo, j) == TrimEndIndex(s, lo, j)
    decreases j
  {
    if j > lo {
      assert (s + [c])[j - 1] == s[j - 1];
      TrimEndIndexAppend(s, c, lo, j - 1);
    }
  }

  /** Whitespace added at the end is trimmed away again. */
  lemma TrimAppendSpace(s: string, c: char)
    requires IsWhitespace(c)
    ensures Trim(s + [c]) == Trim(s)
  {
    var t := s + [c];
    var a := TrimStartIndex(s, 0);
    TrimStartIndexAppend(s, c, 0);
    if a < |s| {
      assert t[|t| - 1] == c;
      assert TrimEndIndex(t, a, |t|) == TrimEndIndex(t, a, |s|);
      TrimEndIndexAppend(s, c, a, |s|);
      var b := TrimEndIndex(s, a, |s|);
      assert t[a..b] == s[a..b];
    }
  }

  /** The three parts of `head + mid + tail` can be read back by position. */
  lemma ThreeParts(head: string, mid: string, tail: string)
    ensures var r := head + mid + tail;
      && r[..|head|] == head
      && r[|head|..|head| + |mid|] == mid
      && r[|head| + |mid|..] == tail
      && OccursAt(mid, r, |head|)
  {
    var r := head + mid + tail;
    assert r[|head|..|head| + |mid|] == mid;
  }

  // ------------------------------------------------------------ substrings

  /** `p` occurs in `s` at offset `i`. */
  predicate OccursAt(p: string, s: string, i: int) {
    0 <= i && i + |p| <= |s| && s[i..i + |p|] == p
  }

  /** `s.includes(p)` (and Python's `p in s`). */
  function IsSubstring(p: string, s: string): (b: bool)
    ensures b <==> exists i :: OccursAt(p, s, i)
  {
    if p <= s then
      assert OccursAt(p, s, 0);
      true
    else if |s| == 0 then
      false
    else
      var b := IsSubstring(p, s[1..]);
      if b then
        var i :| OccursAt(p, s[1..], i);
        assert OccursAt(p, s, i + 1) by { assert s[i + 1..i + 1 + |p|] == s[1..][i..i + |p|]; }
        true
      else
        assert forall i :: OccursAt(p, s, i) ==> OccursAt(p, s[1..], i - 1) by {
          forall i | OccursAt(p, s, i) ensures OccursAt(p, s[1..], i - 1) {
            assert s[1..][i - 1..i - 1 + |p|] == s[i..i + |p|];
          }
        }
        false
  }

  lemma SubstringOfSubstring(p: string, q: string, s: string)
    requires IsSubstring(p, q) && IsSubstring(q, s)
    ensures IsSubstring(p, s)
  {
    var i :| OccursAt(p, q, i);
    var j :| OccursAt(q, s, j);
    forall k | 0 <= k < |p| ensures s[j + i + k] == p[k] {
      assert p[k] == q[i..i + |p|][k] == q[i + k];
      assert q[i + k] == s[j..j + |q|][i + k];
    }
    assert s[j + i..j + i + |p|] == p;
    assert OccursAt(p, s, j + i);
  }

  /** Some element of `words` occurs in `s` (`words.some(w => s.includes(w))`). */
  function ContainsAny(s: string, words: seq<string>): (b: bool)
    ensures b <==> exists k :: 0 <= k < |words| && IsSubstring(words[k], s)
  {
    if words == [] then false
    else if IsSubstring(words[0], s) then true
    else
      var b := ContainsAny(s, words[1..]);
      assert forall k :: 1 <= k < |words| ==> words[k] == words[1..][k - 1];
      b
  }

  // --------------------------------------------------------- concatenation

  /** The number of characters in all parts together. */
  function TotalLength(parts: seq<string>): nat {
    if parts == [] then 0 else |parts[0]| + TotalLength(parts[1..])
  }

  /** `parts.join(sep)`: every part, with one separator between each two neighbours. */
  function Join(sep: string, parts: seq<string>): (r: string)
    ensures parts == [] ==> r == []
    ensures parts != [] ==> |r| == TotalLength(parts) + (|parts| - 1) * |sep|
    ensures parts != [] ==> r[..|parts[0]|] == parts[0]
  {
    if parts == [] then []
    else if |parts| == 1 then parts[0]
    else
      var rest := Join(sep, parts[1..]);
      assert (|parts| - 1) * |sep| == |sep| + (|parts[1..]| - 1) * |sep|;
      parts[0] + sep + rest
  }

  /** Joining one more part adds the separator and that part at the end. */
  lemma {:induction false} JoinAppend(sep: string, parts: seq<string>, p: string)
    requires parts != []
    ensures Join(sep, parts + [p]) == Join(sep, parts) + sep + p
  {
    if |parts| > 1 {
      assert (parts + [p])[1..] == parts[1..] + [p];
      JoinAppend(sep, parts[1..], p);
    }
  }

  /** `parts.join('')`: all parts written one after the other. */
  function Concat(parts: seq<string>): string {
    if parts == [] then [] else parts[0] + Concat(parts[1..])
  }

  lemma {:induction false} ConcatAppend(parts: seq<string>, p: string)
    ensures Concat(parts + [p]) == Concat(parts) + p
  {
    if parts != [] {
      assert (parts + [p])[1..] == parts[1..] + [p];
      ConcatAppend(parts[1..], p);
    } else {
      assert [p][1..] == [];
    }
  }

  /** Joining one more part of a list extends the join by that part. */
  lemma ConcatPrefix(parts: seq<string>, k: nat)
    requires k < |parts|
    ensures Concat(parts[..k + 1]) == Concat(parts[..k]) + parts[k]
  {
    assert parts[..k + 1] == parts[..k] + [parts[k]];
    ConcatAppend(parts[..k], parts[k]);
  }

  // --------------------------------------------------------------- numbers

  function DigitChar(d: nat): (c: char)
    requires d < 10
    ensures '0' <= c <= '9'
  {
    ('0' as int + d) as char
  }

  /** The decimal rendering of `n` (JavaScript `${n}` for a non-negative integer). */
  function NatToString(n: nat): (r: string)
    ensures |r| >= 1
    ensures n >= 10 ==> |r| >= 2
    ensures forall k :: 0 <= k < |r| ==> '0' <= r[k] <= '9'
  {
    if n < 10 then [DigitChar(n)] else NatToString(n / 10) + [DigitChar(n % 10)]
  }

  lemma {:induction false} NatToStringInjective(n: nat, m: nat)
    requires NatToString(n) == NatToString(m)
    ensures n == m
  {
    var s := NatToString(n);
    if n < 10 && m < 10 {
      assert DigitChar(n) == s[0] == DigitChar(m);
    } else if n >= 10 && m >= 10 {
      assert DigitChar(n % 10) == s[|s| - 1] == DigitChar(m % 10);
      assert NatToString(n / 10) == s[..|s| - 1] == NatToString(m / 10);
      NatToStringInjective(n / 10, m / 10);
    }
  }
}
