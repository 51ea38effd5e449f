/** Literal string operations used by the patcher and the pages: JavaScript's
    `startsWith`, `endsWith`, `includes`, `indexOf`, `String.replace` with a
    string pattern, and `Array.join`. */
module Strings {
  import opened Wrappers

  predicate IsPrefix(p: string, s: string) {
    |p| <= |s| && s[..|p|] == p
  }

  predicate EndsWith(s: string, suffix: string) {
    |suffix| <= |s| && s[|s| - |suffix|..] == suffix
  }

  /** `pat` occurs in `s` starting at index `i`. */
  predicate OccursAt(s: string, pat: string, i: int) {
    0 <= i && i + |pat| <= |s| && s[i..i + |pat|] == pat
  }

  /** A piece placed between two texts occurs right after the first. */
  lemma OccursInMiddle(a: string, p: string, b: string)
    ensures OccursAt(a + p + b, p, |a|)
  {
    assert (a + p + b)[|a|..|a| + |p|] == p;
  }

  /** Each part of a concatenation occurs in it where it was put. */
  lemma OccursInConcat(a: string, b: string)
    ensures OccursAt(a + b, a, 0) && OccursAt(a + b, b, |a|)
  {
    assert (a + b)[..|a|] == a;
    assert (a + b)[|a|..|a| + |b|] == b;
  }

  /** An occurrence inside an occurrence is an occurrence in the whole: `inner`
      at `j` in `outer`, itself at `i`, lies at `k == i + j`. */
  lemma OccursWithin(s: string, outer: string, inner: string, i: int, j: int, k: int)
    requires OccursAt(s, outer, i) && OccursAt(outer, inner, j) && k == i + j
    ensures OccursAt(s, inner, k)
  {
    forall q | 0 <= q < |inner|
      ensures s[k..k + |inner|][q] == inner[q]
    {
      assert s[k + q] == s[i..i + |outer|][j + q];
      assert inner[q] == outer[j..j + |inner|][q];
    }
  }

  /** `s.includes(pat)` */
  predicate Contains(s: string, pat: string) {
    exists i | 0 <= i <= |s| :: OccursAt(s, pat, i)
  }

  /** `i` is the leftmost occurrence of `pat` in `s`. */
  predicate FirstAt(s: string, pat: string, i: int) {
    OccursAt(s, pat, i) && forall j :: 0 <= j < i ==> !OccursAt(s, pat, j)
  }

  /** `s.indexOf(pat, from)`, with `None` for JavaScript's -1. */
  function IndexOf(s: string, pat: string, from: nat): (r: Option<nat>)
    ensures r.Some? ==> from <= r.value && OccursAt(s, pat, r.value)
    ensures r.Some? ==> forall j :: from <= j < r.value ==> !OccursAt(s, pat, j)
    ensures r.None? ==> forall j :: from <= j ==> !OccursAt(s, pat, j)
    decreases |s| - from
  {
    if from + |pat| > |s| then None
    else if s[from..from + |pat|] == pat then Some(from)
    else IndexOf(s, pat, from + 1)
  }

  lemma IndexOfFromZero(s: string, pat: string)
    ensures IndexOf(s, pat, 0).None? <==> !Contains(s, pat)
    ensures IndexOf(s, pat, 0).Some? ==> FirstAt(s, pat, IndexOf(s, pat, 0).value)
  {
    var r := IndexOf(s, pat, 0);
    if r.Some? {
      assert OccursAt(s, pat, r.value);
    }
  }

  /** `s.replace(pat, rep)` with a string pattern: only the leftmost occurrence
      is replaced, and a missing pattern leaves `s` unchanged. */
  function ReplaceFirst(s: string, pat: string, rep: string): (r: string)
    ensures !Contains(s, pat) ==> r == s
    ensures Contains(s, pat) ==>
      exists i :: FirstAt(s, pat, i) && r == s[..i] + rep + s[i + |pat|..]
  {
    IndexOfFromZero(s, pat);
    match IndexOf(s, pat, 0)
    case None => s
    case Some(i) => s[..i] + rep + s[i + |pat|..]
  }

  /** Splicing `rep` over the occurrence of `pat` at `i` keeps every
      occurrence of `x` that ends within the first `k` characters `pat` and
      `rep` have in common. */
  lemma SpliceKeepsBefore(s: string, pat: string, rep: string, i: int, k: int, x: string, q: int)
    requires OccursAt(s, pat, i) && 0 <= k <= |pat| && k <= |rep| && pat[..k] == rep[..k]
    requires OccursAt(s, x, q) && q + |x| <= i + k
    ensures OccursAt(s[..i] + rep + s[i + |pat|..], x, q)
  {
    var t := s[..i] + rep + s[i + |pat|..];
    forall m | 0 <= m < |x|
      ensures t[q + m] == x[m]
    {
      var a := q + m;
      assert s[a] == s[q..q + |x|][m];
      if a >= i {
        assert t[a] == rep[..k][a - i];
        assert s[a] == s[i..i + |pat|][a - i] == pat[..k][a - i];
      }
    }
    assert t[q..q + |x|] == x;
  }

  /** Likewise every occurrence of `x` that starts within the last `k`
      characters `pat` and `rep` have in common survives, moved by the
      difference in length. */
  lemma SpliceKeepsAfter(s: string, pat: string, rep: string, i: int, k: int, x: string, q: int)
    requires OccursAt(s, pat, i) && 0 <= k <= |pat| && k <= |rep|
    requires pat[|pat| - k..] == rep[|rep| - k..]
    requires OccursAt(s, x, q) && i + |pat| - k <= q
    ensures OccursAt(s[..i] + rep + s[i + |pat|..], x, q + |rep| - |pat|)
  {
    var t := s[..i] + rep + s[i + |pat|..];
    var d := |rep| - |pat|;
    forall m | 0 <= m < |x|
      ensures t[q + d + m] == x[m]
    {
      var b := q + m;
      assert s[b] == s[q..q + |x|][m];
      if b < i + |pat| {
        assert t[b + d] == rep[|rep| - k..][b - i - |pat| + k];
        assert s[b] == s[i..i + |pat|][b - i] == pat[|pat| - k..][b - i - |pat| + k];
      }
    }
    assert t[q + d..q + d + |x|] == x;
  }

  /** The characters of an occurrence are those of the pattern. */
  lemma CharOfOccurrence(s: string, x: string, q: int, k: int)
    ensures OccursAt(s, x, q) && 0 <= k < |x| ==> s[q + k] == x[k]
  {
    if OccursAt(s, x, q) && 0 <= k < |x| {
      assert s[q + k] == s[q..q + |x|][k];
    }
  }

  /** A character at an index inside a slice is a character of the slice. */
  lemma CharInSlice(x: string, lo: int, hi: int, k: int)
    ensures 0 <= lo <= k < hi <= |x| ==> x[k] in x[lo..hi]
  {
    if 0 <= lo <= k < hi <= |x| {
      assert x[k] == x[lo..hi][k - lo];
    }
  }

  /** Two words that both start with `e`, each with a letter at index 6 the
      other lacks and no `e` among its six characters before the last, can
      share at most one character where they both occur. */
  lemma OverlapAtMostOne(s: string, x: string, q: int, y: string, p: int)
    requires OccursAt(s, x, q) && OccursAt(s, y, p)
    requires |x| > 6 && |y| > 6 && x[0] == 'e' && y[0] == 'e'
    requires x[6] !in y && y[6] !in x
    requires 'e' !in x[|x| - 6..|x| - 1] && 'e' !in y[|y| - 6..|y| - 1]
    ensures p + |y| <= q + 1 || q + |x| <= p + 1
  {
    if p + |y| > q + 1 && q + |x| > p + 1 {
      CharOfOccurrence(s, x, q, 6);
      CharOfOccurrence(s, y, p, q + 6 - p);
      CharOfOccurrence(s, y, p, 6);
      CharOfOccurrence(s, x, q, p + 6 - q);
      CharOfOccurrence(s, x, q, 0);
      CharOfOccurrence(s, y, p, q - p);
      CharOfOccurrence(s, y, p, 0);
      CharOfOccurrence(s, x, q, p - q);
      CharInSlice(x, |x| - 6, |x| - 1, p - q);
      CharInSlice(y, |y| - 6, |y| - 1, q - p);
      assert false;
    }
  }

  /** Where a present pattern is replaced: at its leftmost occurrence. */
  lemma ReplaceFirstAt(s: string, pat: string, rep: string) returns (i: int)
    requires Contains(s, pat)
    ensures FirstAt(s, pat, i) && ReplaceFirst(s, pat, rep) == s[..i] + rep + s[i + |pat|..]
  {
    var r := ReplaceFirst(s, pat, rep);
    assert exists j :: FirstAt(s, pat, j) && r == s[..j] + rep + s[j + |pat|..];
    i :| FirstAt(s, pat, i) && r == s[..i] + rep + s[i + |pat|..];
  }

  /** A replacement that happens puts `rep` into the result. */
  lemma ReplaceFirstPlaces(s: string, pat: string, rep: string)
    ensures Contains(s, pat) ==> Contains(ReplaceFirst(s, pat, rep), rep)
  {
    if Contains(s, pat) {
      var i := ReplaceFirstAt(s, pat, rep);
      OccursInMiddle(s[..i], rep, s[i + |pat|..]);
      assert OccursAt(ReplaceFirst(s, pat, rep), rep, i);
    }
  }

  /** Replacing `pat` by a text with the same first and last character keeps
      every `x` that overlaps `pat` by one character at most, and so keeps `x`
      in the text when the words meet the conditions of `OverlapAtMostOne`. */
  lemma ReplaceFirstKeeps(s: string, pat: string, rep: string, x: string)
    requires |x| > 6 && |pat| > 6 && x[0] == 'e' && pat[0] == 'e'
    requires x[6] !in pat && pat[6] !in x
    requires 'e' !in x[|x| - 6..|x| - 1] && 'e' !in pat[|pat| - 6..|pat| - 1]
    requires |rep| > 0 && rep[0] == pat[0] && rep[|rep| - 1] == pat[|pat| - 1]
    ensures Contains(s, x) ==> Contains(ReplaceFirst(s, pat, rep), x)
  {
    if Contains(s, x) && Contains(s, pat) {
      var q :| 0 <= q <= |s| && OccursAt(s, x, q);
      var i := ReplaceFirstAt(s, pat, rep);
      OverlapAtMostOne(s, x, q, pat, i);
      SpliceKeepsApart(s, pat, rep, i, x, q);
    }
  }

  /** An occurrence of `x` sharing at most the first or the last character of
      the spliced occurrence of `pat` survives when `rep` has those too. */
  lemma SpliceKeepsApart(s: string, pat: string, rep: string, i: int, x: string, q: int)
    requires OccursAt(s, pat, i) && OccursAt(s, x, q) && |pat| > 0
    requires |rep| > 0 && rep[0] == pat[0] && rep[|rep| - 1] == pat[|pat| - 1]
    requires q + |x| <= i + 1 || i + |pat| <= q + 1
    ensures Contains(s[..i] + rep + s[i + |pat|..], x)
  {
    if q + |x| <= i + 1 {
      assert pat[..1] == rep[..1];
      SpliceKeepsBefore(s, pat, rep, i, 1, x, q);
      assert OccursAt(s[..i] + rep + s[i + |pat|..], x, q);
    } else {
      assert pat[|pat| - 1..] == rep[|rep| - 1..];
      SpliceKeepsAfter(s, pat, rep, i, 1, x, q);
      assert OccursAt(s[..i] + rep + s[i + |pat|..], x, q + |rep| - |pat|);
    }
  }

  /** `xs.join(sep)` */
  function Join(xs: seq<string>, sep: string): (r: string)
    ensures xs == [] ==> r == ""
    ensures |xs| == 1 ==> r == xs[0]
    ensures |xs| > 1 ==> IsPrefix(xs[0] + sep, r)
  {
    if xs == [] then ""
    else if |xs| == 1 then xs[0]
    else xs[0] + sep + Join(xs[1..], sep)
  }
}
