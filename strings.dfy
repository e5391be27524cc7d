/**
 * The text primitives of Rust's `str` that the pipeline relies on:
 * `trim`, ASCII `to_uppercase`, `split` on one character, `join`,
 * substring search (`find`, the last match) and `replace`.
 */
module Strings {
  import opened Wrappers

  /** Unicode White_Space: the characters `str::trim` removes. */
  predicate IsWhitespace(c: char) {
    || ('\t' <= c <= '\r') || c == ' ' || c == '\U{0085}' || c == '\U{00A0}'
    || c == '\U{1680}' || ('\U{2000}' <= c <= '\U{200A}') || c == '\U{2028}'
    || c == '\U{2029}' || c == '\U{202F}' || c == '\U{205F}' || c == '\U{3000}'
  }

  /** Neither end of `s` is whitespace. */
  predicate IsTrimmed(s: string) {
    s == [] || (!IsWhitespace(s[0]) && !IsWhitespace(s[|s| - 1]))
  }

  /** `str::trim_start`: drops the leading whitespace and nothing else. */
  function TrimStart(s: string): (r: string)
    ensures |r| <= |s| && r == s[|s| - |r|..]
    ensures forall i :: 0 <= i < |s| - |r| ==> IsWhitespace(s[i])
    ensures r == [] || !IsWhitespace(r[0])
  {
    if s != [] && IsWhitespace(s[0]) then TrimStart(s[1..]) else s
  }

  /** `str::trim_end`: drops the trailing whitespace and nothing else. */
  function TrimEnd(s: string): (r: string)
    ensures |r| <= |s| && r == s[..|r|]
    ensures forall i :: |r| <= i < |s| ==> IsWhitespace(s[i])
    ensures r == [] || !IsWhitespace(r[|r| - 1])
  {
    if s != [] && IsWhitespace(s[|s| - 1]) then TrimEnd(s[..|s| - 1]) else s
  }

  /** `r` is `s` from index `a` on, less only whitespace at both ends. */
  predicate SliceBetweenSpace(s: string, r: string, a: nat) {
    a + |r| <= |s| && r == s[a..a + |r|]
    && (forall i :: 0 <= i < a ==> IsWhitespace(s[i]))
    && (forall i :: a + |r| <= i < |s| ==> IsWhitespace(s[i]))
  }

  /**
   * `str::trim`: the slice of `s` left after dropping whitespace at both
   * ends; it is trimmed, and a trimmed text is left as it is.
   */
  function Trim(s: string): (r: string)
    ensures IsTrimmed(r)
    ensures |r| <= |s|
    ensures exists a :: SliceBetweenSpace(s, r, a)
    ensures IsTrimmed(s) ==> r == s
  {
    var t := TrimStart(s);
    var r := TrimEnd(t);
    assert r != [] ==> r[0] == t[0];
    TrimSlice(s, t, r);
    r
  }

  /** Dropping a whitespace prefix and then a whitespace suffix leaves a slice between whitespace. */
  lemma TrimSlice(s: string, t: string, r: string)
    requires |t| <= |s| && t == s[|s| - |t|..]
    requires forall i :: 0 <= i < |s| - |t| ==> IsWhitespace(s[i])
    requires |r| <= |t| && r == t[..|r|]
    requires forall i :: |r| <= i < |t| ==> IsWhitespace(t[i])
    ensures SliceBetweenSpace(s, r, |s| - |t|)
  {
    var a := |s| - |t|;
    forall i | a + |r| <= i < |s| ensures IsWhitespace(s[i]) {
      assert s[i] == t[i - a];
    }
  }

  /** ASCII upper-casing of one character; every other character is kept. */
  function UpperChar(c: char): char {
    if 'a' <= c <= 'z' then (c as int - 32) as char else c
  }

  predicate IsLowerAscii(c: char) { 'a' <= c <= 'z' }

  /** `str::to_uppercase`, restricted to the ASCII letters. */
  function ToUpper(s: string): (r: string)
    ensures |r| == |s|
    ensures forall i :: 0 <= i < |s| ==>
              (IsLowerAscii(s[i]) ==> r[i] as int == s[i] as int - 32)
              && (!IsLowerAscii(s[i]) ==> r[i] == s[i])
    ensures forall i :: 0 <= i < |r| ==> !IsLowerAscii(r[i])
    ensures forall i :: 0 <= i < |r| ==> (IsWhitespace(r[i]) <==> IsWhitespace(s[i]))
    ensures (forall i :: 0 <= i < |s| ==> !IsLowerAscii(s[i])) ==> r == s
  {
    seq(|s|, i requires 0 <= i < |s| => UpperChar(s[i]))
  }

  /** Number of occurrences of `c` in `s`. */
  function Count(s: string, c: char): (n: nat)
    ensures n == 0 <==> c !in s
    ensures n <= |s|
  {
    if s == [] then 0 else (if s[0] == c then 1 else 0) + Count(s[1..], c)
  }

  /** `[String]::join(sep)`. */
  function Join(parts: seq<string>, sep: string): string {
    if |parts| == 0 then ""
    else if |parts| == 1 then parts[0]
    else parts[0] + sep + Join(parts[1..], sep)
  }

  predicate NoneContains(parts: seq<string>, c: char) {
    forall i :: 0 <= i < |parts| ==> c !in parts[i]
  }

  /**
   * `str::split(c)`: the pieces between the occurrences of `c`, empty pieces
   * included, so there is always one more piece than there are separators.
   */
  function Split(s: string, c: char): (parts: seq<string>)
    ensures |parts| == Count(s, c) + 1
    ensures NoneContains(parts, c)
    ensures Join(parts, [c]) == s
  {
    if s == [] then [""]
    else
      var rest := Split(s[1..], c);
      if s[0] == c then
        [""] + rest
      else
        var parts := [[s[0]] + rest[0]] + rest[1..];
        assert parts[1..] == rest[1..];
        parts
  }

  /** Joining is injective on lists whose pieces do not hold the separator. */
  lemma {:induction false} JoinInjective(a: seq<string>, b: seq<string>, c: char)
    requires |a| >= 1 && |b| >= 1
    requires NoneContains(a, c) && NoneContains(b, c)
    requires Join(a, [c]) == Join(b, [c])
    ensures a == b
    decreases |a|
  {
    var s := Join(a, [c]);
    if |a| > 1 && |b| > 1 {
      var ja, jb := Join(a[1..], [c]), Join(b[1..], [c]);
      assert s == a[0] + [c] + ja && s == b[0] + [c] + jb;
      FirstSeparator(a[0], ja, c);
      FirstSeparator(b[0], jb, c);
      assert a[0] == s[..|a[0]|] == b[0];
      assert ja == s[|a[0]| + 1..] == jb;
      JoinInjective(a[1..], b[1..], c);
      assert a == [a[0]] + a[1..];
      assert b == [b[0]] + b[1..];
    } else if |a| > 1 {
      assert false;
    } else if |b| > 1 {
      assert false;
    }
  }

  /** In `p + [c] + q` with `c` absent from `p`, the first `c` is at index `|p|`. */
  lemma FirstSeparator(p: string, q: string, c: char)
    requires c !in p
    ensures FindChar(p + [c] + q, c) == |p|
  {
    var s := p + [c] + q;
    assert s[|p|] == c;
    assert forall j :: 0 <= j < |p| ==> s[j] == p[j];
  }

  /** Index of the first `c` in `s`, or `|s|` when there is none. */
  function FindChar(s: string, c: char): (k: nat)
    ensures k <= |s| && c !in s[..k]
    ensures k < |s| ==> s[k] == c
  {
    if s == [] then 0
    else if s[0] == c then 0
    else
      var k := 1 + FindChar(s[1..], c);
      assert s[..k] == [s[0]] + s[1..][..k - 1];
      k
  }

  /** Splitting undoes joining, when no piece holds the separator. */
  lemma SplitJoin(parts: seq<string>, c: char)
    requires |parts| >= 1 && NoneContains(parts, c)
    ensures Split(Join(parts, [c]), c) == parts
  {
    JoinInjective(Split(Join(parts, [c]), c), parts, c);
  }

  // ----- substring search -----

  /** `pat` occurs in `s` starting at index `i`. */
  predicate OccursAt(s: string, pat: string, i: int) {
    0 <= i && i + |pat| <= |s| && s[i..i + |pat|] == pat
  }

  /** The first occurrence of `pat` at or after index `k`. */
  function FindFrom(s: string, pat: string, k: nat): (r: Option<nat>)
    ensures r.Some? ==> k <= r.value && OccursAt(s, pat, r.value)
    ensures r.Some? ==> forall j :: k <= j < r.value ==> !OccursAt(s, pat, j)
    ensures r.None? ==> forall j :: k <= j ==> !OccursAt(s, pat, j)
    decreases |s| - k
  {
    if k + |pat| > |s| then None
    else if s[k..k + |pat|] == pat then Some(k)
    else FindFrom(s, pat, k + 1)
  }

  /** `str::find`: the leftmost occurrence of `pat`. */
  function FindFirst(s: string, pat: string): (r: Option<nat>)
    ensures r.Some? ==> OccursAt(s, pat, r.value)
    ensures r.Some? ==> forall j :: 0 <= j < r.value ==> !OccursAt(s, pat, j)
    ensures r.None? ==> forall j :: 0 <= j ==> !OccursAt(s, pat, j)
  {
    FindFrom(s, pat, 0)
  }

  /** The last occurrence of `pat` starting at or before index `k`. */
  function FindLastUpTo(s: string, pat: string, k: nat): (r: Option<nat>)
    ensures r.Some? ==> r.value <= k && OccursAt(s, pat, r.value)
    ensures r.Some? ==> forall j :: r.value < j <= k ==> !OccursAt(s, pat, j)
    ensures r.None? ==> forall j :: 0 <= j <= k ==> !OccursAt(s, pat, j)
  {
    if OccursAt(s, pat, k) then Some(k)
    else if k == 0 then None
    else FindLastUpTo(s, pat, k - 1)
  }

  /** The rightmost occurrence of `pat`. */
  function FindLast(s: string, pat: string): (r: Option<nat>)
    ensures r.Some? ==> OccursAt(s, pat, r.value)
    ensures r.Some? ==> forall j :: r.value < j ==> !OccursAt(s, pat, j)
    ensures r.None? ==> forall j :: 0 <= j ==> !OccursAt(s, pat, j)
  {
    if |pat| > |s| then None else FindLastUpTo(s, pat, |s| - |pat|)
  }

  // ----- replace -----

  /**
   * `str::replace(pat, rep)`: scans left to right and replaces each
   * non-overlapping occurrence of `pat`, resuming after the occurrence.
   */
  function Replace(s: string, pat: string, rep: string): string
    requires |pat| > 0
    decreases |s|
  {
    if |s| < |pat| then s
    else if s[..|pat|] == pat then rep + Replace(s[|pat|..], pat, rep)
    else [s[0]] + Replace(s[1..], pat, rep)
  }

  /** `pat` begins with the marker `m` and holds it nowhere else. */
  predicate MarkedOnce(pat: string, m: char) {
    |pat| > 0 && pat[0] == m && m !in pat[1..]
  }

  /** An occurrence at the front is replaced and the scan resumes after it. */
  lemma ReplaceAtStart(pat: string, t: string, rep: string)
    requires |pat| > 0
    ensures Replace(pat + t, pat, rep) == rep + Replace(t, pat, rep)
  {
    assert (pat + t)[..|pat|] == pat;
    assert (pat + t)[|pat|..] == t;
  }

  /** A text is left as it is when `pat` does not occur in it. */
  lemma {:induction false} ReplaceAbsent(s: string, pat: string, rep: string)
    requires |pat| > 0
    requires forall i :: !OccursAt(s, pat, i)
    ensures Replace(s, pat, rep) == s
    decreases |s|
  {
    if |s| >= |pat| {
      assert !OccursAt(s, pat, 0);
      forall i ensures !OccursAt(s[1..], pat, i) {
        if 0 <= i && i + |pat| <= |s| - 1 {
          assert s[1..][i..i + |pat|] == s[i + 1..i + 1 + |pat|];
          assert !OccursAt(s, pat, i + 1);
        }
      }
      ReplaceAbsent(s[1..], pat, rep);
    }
  }

  /** A marked pattern holds its marker at no index but the first. */
  lemma MarkedOnceAt(pat: string, m: char, k: int)
    requires MarkedOnce(pat, m) && 0 < k < |pat|
    ensures pat[k] != m
  {
    assert pat[k] == pat[1..][k - 1];
  }

  /** A prefix free of the marker is copied unchanged. */
  lemma {:induction false} ReplaceMarkerFreePrefix(u: string, t: string, pat: string, rep: string, m: char)
    requires MarkedOnce(pat, m) && m !in u
    ensures Replace(u + t, pat, rep) == u + Replace(t, pat, rep)
    decreases |u|
  {
    var s := u + t;
    if u == [] {
      assert s == t;
    } else if |s| < |pat| {
      assert Replace(t, pat, rep) == t;
    } else {
      assert s[0] == u[0] && u[0] != m;
      assert s[..|pat|] != pat by {
        assert s[..|pat|][0] != pat[0];
      }
      assert s[1..] == u[1..] + t;
      assert m !in u[1..];
      ReplaceMarkerFreePrefix(u[1..], t, pat, rep, m);
      assert u + Replace(t, pat, rep) == [u[0]] + (u[1..] + Replace(t, pat, rep));
    }
  }

  /** A prefix that holds the marker only at its head, and is not `pat`, is copied unchanged. */
  lemma ReplaceMarkedPrefix(u: string, t: string, pat: string, rep: string, m: char)
    requires MarkedOnce(pat, m) && MarkedOnce(u, m)
    requires |u| >= |pat| && u[..|pat|] != pat
    ensures Replace(u + t, pat, rep) == u + Replace(t, pat, rep)
  {
    var s := u + t;
    assert s[..|pat|] == u[..|pat|];
    assert s[1..] == u[1..] + t;
    ReplaceMarkerFreePrefix(u[1..], t, pat, rep, m);
    assert u + Replace(t, pat, rep) == [u[0]] + (u[1..] + Replace(t, pat, rep));
  }

  /** Replacing distributes over a split point where the marker starts the second part. */
  lemma {:induction false} ReplaceSplitAtMarker(a: string, b: string, pat: string, rep: string, m: char)
    requires MarkedOnce(pat, m)
    requires b == [] || b[0] == m
    ensures Replace(a + b, pat, rep) == Replace(a, pat, rep) + Replace(b, pat, rep)
    decreases |a|
  {
    var s := a + b;
    if a == [] {
      assert s == b;
    } else if |s| < |pat| {
      assert Replace(b, pat, rep) == b;
    } else if |a| >= |pat| && a[..|pat|] == pat {
      var t := a[|pat|..];
      calc {
        Replace(s, pat, rep);
      == { assert s[..|pat|] == pat; assert s[|pat|..] == t + b; }
        rep + Replace(t + b, pat, rep);
      == { ReplaceSplitAtMarker(t, b, pat, rep, m); }
        rep + (Replace(t, pat, rep) + Replace(b, pat, rep));
      ==
        (rep + Replace(t, pat, rep)) + Replace(b, pat, rep);
      }
    } else {
      var t := a[1..];
      calc {
        Replace(s, pat, rep);
      == { NoPatternAtSplit(a, b, pat, m); assert s[1..] == t + b; }
        [a[0]] + Replace(t + b, pat, rep);
      == { ReplaceSplitAtMarker(t, b, pat, rep, m); }
        [a[0]] + (Replace(t, pat, rep) + Replace(b, pat, rep));
      ==
        ([a[0]] + Replace(t, pat, rep)) + Replace(b, pat, rep);
      == { ReplaceHead(a, pat, rep); }
        Replace(a, pat, rep) + Replace(b, pat, rep);
      }
    }
  }

  /** When `a` does not start with `pat` and `b` starts with the marker, neither does `a + b`. */
  lemma NoPatternAtSplit(a: string, b: string, pat: string, m: char)
    requires MarkedOnce(pat, m)
    requires a != [] && (b == [] || b[0] == m)
    requires |a + b| >= |pat| && !(|a| >= |pat| && a[..|pat|] == pat)
    ensures (a + b)[..|pat|] != pat && (a + b)[0] == a[0]
  {
    var s := a + b;
    if |a| < |pat| {
      MarkedOnceAt(pat, m, |a|);
      assert s[..|pat|][|a|] == b[0];
    } else {
      assert s[..|pat|] == a[..|pat|];
    }
  }

  /** A head that does not start `pat` is copied, and the scan resumes after it. */
  lemma ReplaceHead(a: string, pat: string, rep: string)
    requires |pat| > 0 && a != [] && !(|a| >= |pat| && a[..|pat|] == pat)
    ensures Replace(a, pat, rep) == [a[0]] + Replace(a[1..], pat, rep)
  {
    if |a| < |pat| {
      assert Replace(a[1..], pat, rep) == a[1..];
      assert [a[0]] + a[1..] == a;
    }
  }

  /** Text produced by `Replace` that holds no marker was copied from the input. */
  lemma {:induction false} ReplacedPrefixWithoutMarker(t: string, w: string, pat: string, rep: string, m: char)
    requires MarkedOnce(pat, m) && MarkedOnce(rep, m)
    requires m !in w
    ensures |w| <= |Replace(t, pat, rep)| && Replace(t, pat, rep)[..|w|] == w
            ==> |w| <= |t| && t[..|w|] == w
    decreases |t|
  {
    var out := Replace(t, pat, rep);
    if w != [] && |t| >= |pat| {
      if t[..|pat|] == pat {
        assert out[0] == m;
      } else {
        var x := Replace(t[1..], pat, rep);
        assert out == [t[0]] + x;
        ReplacedPrefixWithoutMarker(t[1..], w[1..], pat, rep, m);
        if |w| <= |out| && out[..|w|] == w {
          assert x[..|w| - 1] == w[1..];
          assert t[..|w|] == [t[0]] + t[1..][..|w| - 1];
        }
      }
    }
  }

  /** `pat` does not occur in `rep + x` when it does not occur in `x`. */
  lemma NoPatternAfterReplacement(rep: string, x: string, pat: string, m: char)
    requires MarkedOnce(pat, m) && MarkedOnce(rep, m)
    requires |rep| >= |pat| && rep[..|pat|] != pat
    requires forall i :: !OccursAt(x, pat, i)
    ensures forall i :: !OccursAt(rep + x, pat, i)
  {
    var out := rep + x;
    forall i | 0 <= i && i + |pat| <= |out| ensures !OccursAt(out, pat, i) {
      if i == 0 {
        assert out[..|pat|] == rep[..|pat|];
      } else if i < |rep| {
        MarkedOnceAt(rep, m, i);
        assert out[i..i + |pat|][0] == rep[i];
      } else {
        assert out[i..i + |pat|] == x[i - |rep|..i - |rep| + |pat|];
        assert !OccursAt(x, pat, i - |rep|);
      }
    }
  }

  /** `pat` does not occur in `[s[0]] + Replace(s[1..])` when `s` does not begin with `pat`. */
  lemma NoPatternAfterCopy(s: string, pat: string, rep: string, m: char)
    requires MarkedOnce(pat, m) && MarkedOnce(rep, m)
    requires |s| >= |pat| && s[..|pat|] != pat
    requires forall i :: !OccursAt(Replace(s[1..], pat, rep), pat, i)
    ensures forall i :: !OccursAt([s[0]] + Replace(s[1..], pat, rep), pat, i)
  {
    var x := Replace(s[1..], pat, rep);
    var out := [s[0]] + x;
    forall i | 0 <= i && i + |pat| <= |out| ensures !OccursAt(out, pat, i) {
      if i == 0 {
        var w := pat[1..];
        ReplacedPrefixWithoutMarker(s[1..], w, pat, rep, m);
        assert out[..|pat|] == [s[0]] + x[..|w|];
        if |w| <= |s[1..]| {
          assert s[..|pat|] == [s[0]] + s[1..][..|w|];
        }
        assert pat == [pat[0]] + w;
      } else {
        assert out[i..i + |pat|] == x[i - 1..i - 1 + |pat|];
        assert !OccursAt(x, pat, i - 1);
      }
    }
  }

  /**
   * After `Replace`, `pat` no longer occurs, provided the replacement holds
   * the marker only at its head and does not itself begin with `pat`.
   */
  lemma {:induction false} ReplaceLeavesNoPattern(s: string, pat: string, rep: string, m: char)
    requires MarkedOnce(pat, m) && MarkedOnce(rep, m)
    requires |rep| >= |pat| && rep[..|pat|] != pat
    ensures forall i :: !OccursAt(Replace(s, pat, rep), pat, i)
    decreases |s|
  {
    if |s| < |pat| {
    } else if s[..|pat|] == pat {
      ReplaceLeavesNoPattern(s[|pat|..], pat, rep, m);
      NoPatternAfterReplacement(rep, Replace(s[|pat|..], pat, rep), pat, m);
    } else {
      ReplaceLeavesNoPattern(s[1..], pat, rep, m);
      NoPatternAfterCopy(s, pat, rep, m);
    }
  }
}
