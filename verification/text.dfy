/**
 * Python string primitives the resolver relies on, over `string` (`seq<char>`):
 * `str.isspace`, ASCII `str.lower`, `in` on strings, `str.startswith`,
 * `str.strip`, `str.split(sep)`, `str.split()`, `str.replace` and `str.join`.
 */
module Text {
  import opened Wrappers

  /** Python's `str.isspace` for one character. */
  predicate IsSpace(c: char) {
    || ('\t' <= c <= '\r') || ('\U{001C}' <= c <= ' ') || c == '\U{0085}' || c == '\U{00A0}'
    || c == '\U{1680}' || ('\U{2000}' <= c <= '\U{200A}') || c == '\U{2028}' || c == '\U{2029}'
    || c == '\U{202F}' || c == '\U{205F}' || c == '\U{3000}'
  }

  predicate AllSpace(s: string) {
    forall i :: 0 <= i < |s| ==> IsSpace(s[i])
  }

  /** ASCII lower-casing of one character. */
  function LowerChar(c: char): char {
    if 'A' <= c <= 'Z' then (c as int + 32) as char else c
  }

  function Lower(s: string): (r: string)
    decreases |s|
    ensures |r| == |s|
    ensures forall i :: 0 <= i < |s| ==> r[i] == LowerChar(s[i])
  {
    if |s| == 0 then [] else [LowerChar(s[0])] + Lower(s[1..])
  }

  lemma LowerIdempotent(s: string)
    ensures Lower(Lower(s)) == Lower(s)
  {
  }

  /** `sub` occurs in `s` starting at index `i`. */
  predicate OccursAt(s: string, sub: string, i: int) {
    0 <= i && i + |sub| <= |s| && s[i..i + |sub|] == sub
  }

  /** Python's `sub in s` for strings. */
  predicate Contains(s: string, sub: string) {
    exists i :: 0 <= i <= |s| - |sub| && OccursAt(s, sub, i)
  }

  lemma OccursAtTail(s: string, sub: string, i: int)
    requires |s| > 0 && 0 <= i
    ensures OccursAt(s[1..], sub, i) <==> OccursAt(s, sub, i + 1)
  {
    if 0 <= i && i + |sub| <= |s| - 1 {
      assert s[1..][i..i + |sub|] == s[i + 1..i + 1 + |sub|];
    }
  }

  /** Index of the first occurrence of `sub` in `s`, as Python's `str.find`. */
  function Find(s: string, sub: string): (r: Option<nat>)
    ensures r.Some? ==> OccursAt(s, sub, r.value)
    ensures r.Some? ==> forall j :: 0 <= j < r.value ==> !OccursAt(s, sub, j)
    ensures r.None? <==> !Contains(s, sub)
    decreases |s|
  {
    if |s| < |sub| then None
    else if s[..|sub|] == sub then Some(0)
    else
      match Find(s[1..], sub)
      case None =>
        assert !Contains(s, sub) by {
          forall i | 0 < i <= |s| - |sub| ensures !OccursAt(s, sub, i) {
            OccursAtTail(s, sub, i - 1);
          }
        }
        None
      case Some(k) =>
        OccursAtTail(s, sub, k);
        assert forall j :: 0 <= j < k + 1 ==> !OccursAt(s, sub, j) by {
          forall j | 0 < j < k + 1 ensures !OccursAt(s, sub, j) {
            OccursAtTail(s, sub, j - 1);
          }
        }
        Some(k + 1)
  }

  /** Python's `s.startswith(p)`. */
  predicate StartsWith(s: string, p: string) {
    |p| <= |s| && s[..|p|] == p
  }

  /** Python's `sep.join(xs)`. */
  function Join(xs: seq<string>, sep: string): string
    decreases |xs|
  {
    if |xs| == 0 then ""
    else if |xs| == 1 then xs[0]
    else xs[0] + sep + Join(xs[1..], sep)
  }

  /**
   * Python's `s.split(sep)` for a non-empty separator: the pieces between
   * the leftmost non-overlapping occurrences of `sep`.
   */
  function SplitOn(s: string, sep: string): (r: seq<string>)
    requires |sep| > 0
    ensures |r| >= 1
    ensures forall k :: 0 <= k < |r| ==> !Contains(r[k], sep)
    ensures Join(r, sep) == s
    decreases |s|
  {
    match Find(s, sep)
    case None => [s]
    case Some(i) =>
      var rest := SplitOn(s[i + |sep|..], sep);
      assert s == s[..i] + sep + s[i + |sep|..] by {
        assert s[i..i + |sep|] == sep;
      }
      assert !Contains(s[..i], sep) by {
        forall j | 0 <= j <= i - |sep| ensures !OccursAt(s[..i], sep, j) {
          assert s[..i][j..j + |sep|] == s[j..j + |sep|];
          assert !OccursAt(s, sep, j);
        }
      }
      [s[..i]] + rest
  }

  /** A string without the separator character splits into itself alone. */
  lemma SplitNoChar(s: string, c: char)
    requires c !in s
    ensures SplitOn(s, [c]) == [s]
  {
    assert !Contains(s, [c]) by {
      forall j | 0 <= j < |s| ensures !OccursAt(s, [c], j) {
        assert s[j..j + 1] == [s[j]];
      }
    }
  }

  /** A piece without the separator character, then the separator, splits off as the first piece. */
  lemma SplitFirstChar(x: string, c: char, tail: string)
    requires c !in x
    ensures SplitOn(x + [c] + tail, [c]) == [x] + SplitOn(tail, [c])
  {
    var s := x + [c] + tail;
    var n := |x|;
    assert OccursAt(s, [c], n) by {
      assert s[n..n + 1] == [c];
    }
    forall j | 0 <= j < n ensures !OccursAt(s, [c], j) {
      assert s[j] == x[j];
    }
    assert Find(s, [c]) == Some(n);
    assert s[..n] == x;
    assert s[n + 1..] == tail;
  }

  /** Splitting a join on a one-character separator gives back the pieces. */
  lemma {:induction false} SplitJoinChar(xs: seq<string>, c: char)
    requires |xs| >= 1
    requires forall k :: 0 <= k < |xs| ==> c !in xs[k]
    ensures SplitOn(Join(xs, [c]), [c]) == xs
    decreases |xs|
  {
    if |xs| == 1 {
      SplitNoChar(xs[0], c);
    } else {
      SplitFirstChar(xs[0], c, Join(xs[1..], [c]));
      SplitJoinChar(xs[1..], c);
      assert xs == [xs[0]] + xs[1..];
    }
  }

  /** The number of whitespace characters `s` starts with. */
  function LeadingSpaces(s: string): (n: nat)
    ensures n <= |s|
    decreases |s|
  {
    if |s| > 0 && IsSpace(s[0]) then 1 + LeadingSpaces(s[1..]) else 0
  }

  /** The number of whitespace characters `s` ends with. */
  function TrailingSpaces(s: string): (n: nat)
    ensures n <= |s|
    decreases |s|
  {
    if |s| > 0 && IsSpace(s[|s| - 1]) then 1 + TrailingSpaces(s[..|s| - 1]) else 0
  }

  lemma {:induction false} LeadingSpacesFacts(s: string)
    ensures AllSpace(s[..LeadingSpaces(s)])
    ensures LeadingSpaces(s) < |s| ==> !IsSpace(s[LeadingSpaces(s)])
    decreases |s|
  {
    if |s| > 0 && IsSpace(s[0]) {
      LeadingSpacesFacts(s[1..]);
      var n := LeadingSpaces(s[1..]);
      assert s[..n + 1] == [s[0]] + s[1..][..n];
    }
  }

  lemma {:induction false} TrailingSpacesFacts(s: string)
    ensures AllSpace(s[|s| - TrailingSpaces(s)..])
    ensures TrailingSpaces(s) < |s| ==> !IsSpace(s[|s| - 1 - TrailingSpaces(s)])
    decreases |s|
  {
    if |s| > 0 && IsSpace(s[|s| - 1]) {
      var t := s[..|s| - 1];
      TrailingSpacesFacts(t);
      var n := TrailingSpaces(t);
      assert s[|s| - (n + 1)..] == t[|t| - n..] + [s[|s| - 1]];
    }
  }

  /** Python's `s.lstrip()`. */
  function StripLeft(s: string): string {
    s[LeadingSpaces(s)..]
  }

  /** Python's `s.rstrip()`. */
  function StripRight(s: string): string {
    s[..|s| - TrailingSpaces(s)]
  }

  /** Python's `s.strip()`: the part of `s` between its leading and trailing whitespace. */
  function Strip(s: string): string {
    StripRight(StripLeft(s))
  }

  /** A stripped string that is not empty starts and ends with a non-space. */
  lemma StripEnds(s: string)
    ensures var r := Strip(s); |r| > 0 ==> !IsSpace(r[0]) && !IsSpace(r[|r| - 1])
  {
    var l := StripLeft(s);
    LeadingSpacesFacts(s);
    TrailingSpacesFacts(l);
    var r := Strip(s);
    if |r| > 0 {
      assert r[0] == l[0];
    }
  }

  /** Stripping leaves nothing exactly when the string is all whitespace. */
  lemma StripEmptyIff(s: string)
    ensures Strip(s) == [] <==> AllSpace(s)
  {
    var n := LeadingSpaces(s);
    var l := StripLeft(s);
    LeadingSpacesFacts(s);
    TrailingSpacesFacts(l);
    if |l| > 0 {
      assert !IsSpace(l[0]);
      assert !IsSpace(s[n]);
    } else {
      assert s[..n] == s;
    }
  }

  /** The stripped string is a substring of the original. */
  lemma StripInside(s: string)
    ensures Contains(s, Strip(s))
  {
    var n := LeadingSpaces(s);
    var l := StripLeft(s);
    var r := Strip(s);
    assert r == s[n..n + |r|];
    assert OccursAt(s, r, n);
  }

  /** The number of non-space characters `t` starts with. */
  function WordLength(t: string): (n: nat)
    ensures n <= |t|
    ensures |t| > 0 && !IsSpace(t[0]) ==> n > 0
    decreases |t|
  {
    if |t| == 0 || IsSpace(t[0]) then 0 else 1 + WordLength(t[1..])
  }

  /** After the leading whitespace, a non-empty rest starts a word of at least one character. */
  lemma WordStep(s: string)
    requires StripLeft(s) != []
    ensures 0 < WordLength(StripLeft(s)) <= |StripLeft(s)| <= |s|
  {
    LeadingSpacesFacts(s);
  }

  /** Python's `s.split()`: the maximal whitespace-free runs of `s`. */
  function Words(s: string): seq<string>
    decreases |s|
  {
    var t := StripLeft(s);
    if t == [] then []
    else
      WordStep(s);
      var n := WordLength(t);
      [t[..n]] + Words(t[n..])
  }

  /** Python's `s.replace(a, b)` for one-character `a` and `b`. */
  function ReplaceChar(s: string, a: char, b: char): (r: string)
    ensures |r| == |s|
    ensures forall i :: 0 <= i < |s| ==> r[i] == (if s[i] == a then b else s[i])
  {
    seq(|s|, i requires 0 <= i < |s| => if s[i] == a then b else s[i])
  }

  /** Python's `s.replace(c, rep)` for a one-character `c`. */
  function ReplaceWith(s: string, c: char, rep: string): (r: string)
    ensures c !in s ==> r == s
    decreases |s|
  {
    if |s| == 0 then []
    else (if s[0] == c then rep else [s[0]]) + ReplaceWith(s[1..], c, rep)
  }

  /** Replacing in a concatenation replaces in each part. */
  lemma {:induction false} ReplaceWithAppend(a: string, b: string, c: char, rep: string)
    ensures ReplaceWith(a + b, c, rep) == ReplaceWith(a, c, rep) + ReplaceWith(b, c, rep)
    decreases |a|
  {
    if |a| == 0 {
      assert a + b == b;
    } else {
      assert (a + b)[0] == a[0];
      assert (a + b)[1..] == a[1..] + b;
      ReplaceWithAppend(a[1..], b, c, rep);
    }
  }
}
