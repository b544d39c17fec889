/**
 * The few JavaScript built-ins the application's logic leans on, stated as
 * Dafny functions: `String.prototype.toLowerCase`, `includes`, `startsWith`,
 * `split('/').pop()`, the `\s` character class, `Array.prototype.filter`,
 * `Array.prototype.slice` and `Math.ceil(n / d)`.
 */
module JsBuiltins {

  function Min(a: int, b: int): (r: int)
    ensures r <= a && r <= b && (r == a || r == b)
  {
    if a <= b then a else b
  }

  function Max(a: int, b: int): (r: int)
    ensures r >= a && r >= b && (r == a || r == b)
  {
    if a <= b then b else a
  }

  // ---------------------------------------------------------------- strings

  /** The characters matched by `\s` in a JavaScript regular expression
    * (WhiteSpace and LineTerminator of ECMA-262, section 22.2.2.9). */
  predicate IsWhitespace(c: char) {
    || c == ' ' || c == '\t' || c == '\n' || c == '\U{000B}' || c == '\U{000C}' || c == '\r'
    || c == '\U{00A0}' || c == '\U{1680}' || ('\U{2000}' <= c <= '\U{200A}')
    || c == '\U{2028}' || c == '\U{2029}' || c == '\U{202F}' || c == '\U{205F}'
    || c == '\U{3000}' || c == '\U{FEFF}'
  }

  predicate IsAsciiUpper(c: char) { 'A' <= c <= 'Z' }

  predicate IsAsciiDigit(c: char) { '0' <= c <= '9' }

  function LowerChar(c: char): (r: char) {
    if IsAsciiUpper(c) then (c as int + 32) as char else c
  }

  /** `s.toLowerCase()`, restricted to the ASCII letters. */
  function ToLowerCase(s: string): (r: string)
    ensures |r| == |s|
    ensures forall k :: 0 <= k < |r| ==> !IsAsciiUpper(r[k])
    ensures forall k :: 0 <= k < |s| && !IsAsciiUpper(s[k]) ==> r[k] == s[k]
    ensures forall k :: 0 <= k < |s| && IsAsciiUpper(s[k]) ==> r[k] as int == s[k] as int + 32
  {
    seq(|s|, k requires 0 <= k < |s| => LowerChar(s[k]))
  }

  /** Lower-casing twice is lower-casing once. */
  lemma ToLowerCaseIdempotent(s: string)
    ensures ToLowerCase(ToLowerCase(s)) == ToLowerCase(s)
  {
    var once := ToLowerCase(s);
    assert forall k :: 0 <= k < |once| ==> ToLowerCase(once)[k] == once[k];
  }

  /** needle occurs in hay starting at index i. */
  predicate OccursAt(hay: string, needle: string, i: int) {
    0 <= i <= |hay| - |needle| && hay[i..i + |needle|] == needle
  }

  /** `hay.includes(needle)`: needle occurs in hay as a contiguous run. */
  predicate Includes(hay: string, needle: string) {
    exists i | 0 <= i <= |hay| - |needle| :: OccursAt(hay, needle, i)
  }

  /** Every string includes the empty string. */
  lemma IncludesEmpty(hay: string)
    ensures Includes(hay, "")
  {
    assert OccursAt(hay, "", 0);
  }

  /** `s.startsWith(prefix)`. */
  predicate StartsWith(s: string, prefix: string) {
    |prefix| <= |s| && s[..|prefix|] == prefix
  }

  /** `s.split('/').pop()`: the part of s after its last '/', or all of s when
    * it holds no '/'. */
  function LastSegment(s: string): (r: string)
    ensures |r| <= |s| && r == s[|s| - |r|..]
    ensures '/' !in r
    ensures |r| < |s| ==> s[|s| - |r| - 1] == '/'
    decreases |s|
  {
    if s == [] then ""
    else if s[|s| - 1] == '/' then ""
    else
      var init := s[..|s| - 1];
      var r := LastSegment(init) + [s[|s| - 1]];
      assert s[|s| - |r|..] == init[|init| - |r| + 1..] + [s[|s| - 1]];
      r
  }

  /** Appending a slash-free segment to a string that ends in '/' is undone by
    * LastSegment. */
  lemma LastSegmentAfterSlash(prefix: string, segment: string)
    requires |prefix| > 0 && prefix[|prefix| - 1] == '/'
    requires '/' !in segment
    ensures LastSegment(prefix + segment) == segment
  {
    var s := prefix + segment;
    assert s[|s| - |segment|..] == segment;
  }

  // ---------------------------------------------------------------- arrays

  /** `xs.filter(keep)`. */
  function Filter<T>(xs: seq<T>, keep: T -> bool): (r: seq<T>)
    ensures |r| <= |xs|
  {
    if xs == [] then []
    else (if keep(xs[0]) then [xs[0]] else []) + Filter(xs[1..], keep)
  }

  /** What a filter keeps: exactly the elements that pass the test. */
  lemma {:induction false} FilterMembers<T>(xs: seq<T>, keep: T -> bool)
    ensures forall k :: 0 <= k < |Filter(xs, keep)| ==> Filter(xs, keep)[k] in xs && keep(Filter(xs, keep)[k])
    ensures forall k :: 0 <= k < |xs| && keep(xs[k]) ==> xs[k] in Filter(xs, keep)
  {
    if xs != [] {
      FilterMembers(xs[1..], keep);
      var r := Filter(xs, keep);
      var rest := Filter(xs[1..], keep);
      if keep(xs[0]) {
        assert r == [xs[0]] + rest;
      } else {
        assert r == rest;
      }
      forall k | 0 <= k < |xs| && keep(xs[k]) ensures xs[k] in r {
        if k > 0 {
          assert xs[k] == xs[1..][k - 1];
        }
      }
    }
  }

  /** Filtering keeps the relative order: it distributes over concatenation. */
  lemma {:induction false} FilterAppend<T>(a: seq<T>, b: seq<T>, keep: T -> bool)
    ensures Filter(a + b, keep) == Filter(a, keep) + Filter(b, keep)
  {
    if a == [] {
      assert a + b == b;
    } else {
      var c := a + b;
      assert c[0] == a[0];
      assert c[1..] == a[1..] + b;
      FilterAppend(a[1..], b, keep);
      var head := if keep(a[0]) then [a[0]] else [];
      assert Filter(c, keep) == head + (Filter(a[1..], keep) + Filter(b, keep));
      assert Filter(a, keep) == head + Filter(a[1..], keep);
    }
  }

  /** Filtering the result of a filter again by the same test changes nothing. */
  lemma {:induction false} FilterIdempotent<T>(xs: seq<T>, keep: T -> bool)
    ensures Filter(Filter(xs, keep), keep) == Filter(xs, keep)
  {
    if xs != [] {
      var rest := Filter(xs[1..], keep);
      FilterIdempotent(xs[1..], keep);
      if keep(xs[0]) {
        var head := [xs[0]];
        assert Filter(head, keep) == head by {
          assert head[1..] == [];
        }
        calc {
          Filter(Filter(xs, keep), keep);
          Filter(head + rest, keep);
          { FilterAppend(head, rest, keep); }
          Filter(head, keep) + Filter(rest, keep);
          head + rest;
        }
      } else {
        assert Filter(xs, keep) == [] + rest;
        assert [] + rest == rest;
      }
    }
  }

  /** Two tests that agree on every element of xs filter it alike. */
  lemma {:induction false} FilterCongruent<T>(xs: seq<T>, f: T -> bool, g: T -> bool)
    requires forall k :: 0 <= k < |xs| ==> f(xs[k]) == g(xs[k])
    ensures Filter(xs, f) == Filter(xs, g)
  {
    if xs != [] {
      FilterCongruent(xs[1..], f, g);
    }
  }

  /** A filter every element passes returns its input unchanged. */
  lemma {:induction false} FilterKeepsAll<T>(xs: seq<T>, keep: T -> bool)
    requires forall k :: 0 <= k < |xs| ==> keep(xs[k])
    ensures Filter(xs, keep) == xs
  {
    if xs != [] {
      FilterKeepsAll(xs[1..], keep);
    }
  }

  /** A filter that rejects exactly the element at index i removes that one
    * element and keeps the rest in order. */
  lemma {:induction false} FilterRemovesOne<T>(xs: seq<T>, i: int, keep: T -> bool)
    requires 0 <= i < |xs| && !keep(xs[i])
    requires forall k :: 0 <= k < |xs| && k != i ==> keep(xs[k])
    ensures Filter(xs, keep) == xs[..i] + xs[i + 1..]
  {
    var tail := xs[1..];
    if i == 0 {
      FilterKeepsAll(tail, keep);
      assert Filter(xs, keep) == [] + tail;
    } else {
      FilterRemovesOne(tail, i - 1, keep);
      assert Filter(xs, keep) == [xs[0]] + (tail[..i - 1] + tail[i..]);
      assert [xs[0]] + tail[..i - 1] == xs[..i];
      assert tail[i..] == xs[i + 1..];
    }
  }

  /** `RelativeIndex(k, len)`: how `slice` reads an index argument, counting a
    * negative one from the end and clamping the result to 0..len. */
  function RelativeIndex(k: int, len: nat): (r: nat)
    ensures r <= len
  {
    if k < 0 then (if len + k < 0 then 0 else len + k)
    else if k <= len then k
    else len
  }

  /** `xs.slice(start, end)`. */
  function Slice<T>(xs: seq<T>, start: int, end: int): (r: seq<T>)
    ensures start <= end ==> |r| <= end - start
    ensures 0 <= start <= end ==> r == xs[Min(start, |xs|)..Min(end, |xs|)]
    ensures |r| <= |xs|
  {
    var lo := RelativeIndex(start, |xs|);
    var hi := RelativeIndex(end, |xs|);
    if lo < hi then xs[lo..hi] else []
  }

  /** `Math.ceil(n / d)` for a count n and a positive divisor d. */
  function CeilDiv(n: nat, d: int): (r: nat)
    requires d > 0
    ensures (r - 1) * d < n <= r * d
  {
    var q := (n + d - 1) / d;
    var m := (n + d - 1) % d;
    assert n + d - 1 == q * d + m && 0 <= m < d;
    assert q * d >= n;
    assert (q - 1) * d == q * d - d;
    q
  }

  /** The page count is zero exactly when there is nothing to page. */
  lemma CeilDivZero(n: nat, d: int)
    requires d > 0
    ensures CeilDiv(n, d) == 0 <==> n == 0
  {
    var r := CeilDiv(n, d);
    if r > 0 {
      assert (r - 1) * d >= 0;
    }
  }
}
