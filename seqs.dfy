/** `Array.prototype.filter` and a few facts about it. */
module Seqs {

  /** The elements of `xs` that satisfy `p`, in their original order. */
  function Filter<T>(xs: seq<T>, p: T -> bool): (r: seq<T>)
    ensures |r| <= |xs|
    ensures forall i :: 0 <= i < |r| ==> p(r[i])
  {
    if xs == [] then []
    else if p(xs[0]) then [xs[0]] + Filter(xs[1..], p)
    else Filter(xs[1..], p)
  }

  /** An element is kept exactly when it is in the input and selected. */
  lemma {:induction false} FilterMembers<T>(xs: seq<T>, p: T -> bool)
    ensures forall i :: 0 <= i < |Filter(xs, p)| ==> Filter(xs, p)[i] in xs
    ensures forall i :: 0 <= i < |xs| && p(xs[i]) ==> xs[i] in Filter(xs, p)
  {
    if xs != [] {
      FilterMembers(xs[1..], p);
      forall i | 0 <= i < |xs| && p(xs[i])
        ensures xs[i] in Filter(xs, p)
      {
        if i > 0 {
          assert xs[i] == xs[1..][i - 1];
        }
      }
    }
  }

  lemma {:induction false} FilterAppend<T>(xs: seq<T>, ys: seq<T>, p: T -> bool)
    ensures Filter(xs + ys, p) == Filter(xs, p) + Filter(ys, p)
  {
    if xs != [] {
      assert (xs + ys)[0] == xs[0];
      assert (xs + ys)[1..] == xs[1..] + ys;
      FilterAppend(xs[1..], ys, p);
    } else {
      assert xs + ys == ys;
    }
  }

  /** A filter keeps every selected element as often as it occurs and drops
      the rest: it is a sub-multiset of its input. */
  lemma {:induction false} FilterMultiset<T>(xs: seq<T>, p: T -> bool)
    ensures forall x :: p(x) ==> multiset(Filter(xs, p))[x] == multiset(xs)[x]
    ensures forall x :: !p(x) ==> multiset(Filter(xs, p))[x] == 0
  {
    if xs != [] {
      FilterMultiset(xs[1..], p);
      assert xs == [xs[0]] + xs[1..];
    }
  }

  /** Filtering by `p` and by its negation splits a list in two. */
  lemma {:induction false} FilterSplit<T>(xs: seq<T>, p: T -> bool, q: T -> bool)
    requires forall x :: q(x) == !p(x)
    ensures multiset(Filter(xs, p)) + multiset(Filter(xs, q)) == multiset(xs)
    ensures |Filter(xs, p)| + |Filter(xs, q)| == |xs|
  {
    if xs != [] {
      FilterSplit(xs[1..], p, q);
      assert xs == [xs[0]] + xs[1..];
    }
  }

  // ---------------------------------------------------------------------------
  // `Array.prototype.sort` with a comparator that orders by a key, largest
  // first. The sort is stable, so it is modelled as an insertion sort that
  // puts each element after every earlier one with a key at least as large.

  predicate SortedDesc<T>(xs: seq<T>, key: T -> int) {
    forall i, j :: 0 <= i < j < |xs| ==> key(xs[i]) >= key(xs[j])
  }

  /** Insert `x` just before the first element with a smaller key. */
  function InsertDesc<T>(x: T, s: seq<T>, key: T -> int): seq<T> {
    if s == [] then [x]
    else if key(x) > key(s[0]) then [x] + s
    else [s[0]] + InsertDesc(x, s[1..], key)
  }

  /** Sort left to right: each element is inserted into the sorted prefix. */
  function SortDesc<T>(xs: seq<T>, key: T -> int): seq<T> {
    if xs == [] then []
    else InsertDesc(xs[|xs| - 1], SortDesc(xs[..|xs| - 1], key), key)
  }

  /** Inserting adds one element, `x`, and keeps the others. */
  lemma {:induction false} InsertDescElements<T>(x: T, s: seq<T>, key: T -> int)
    ensures |InsertDesc(x, s, key)| == |s| + 1
    ensures forall i :: 0 <= i < |InsertDesc(x, s, key)| ==>
      InsertDesc(x, s, key)[i] == x || InsertDesc(x, s, key)[i] in s
  {
    if s != [] && key(x) <= key(s[0]) {
      var rest := InsertDesc(x, s[1..], key);
      InsertDescElements(x, s[1..], key);
      forall i | 0 <= i < |[s[0]] + rest|
        ensures ([s[0]] + rest)[i] == x || ([s[0]] + rest)[i] in s
      {
        if i > 0 && rest[i - 1] != x {
          var k :| 0 <= k < |s[1..]| && s[1..][k] == rest[i - 1];
          assert s[1..][k] == s[k + 1];
        }
      }
    } else if s != [] {
      forall i | 0 <= i < |[x] + s|
        ensures ([x] + s)[i] == x || ([x] + s)[i] in s
      {
        if i > 0 {
          assert ([x] + s)[i] == s[i - 1];
        }
      }
    }
  }

  /** A sorted list stays sorted with an element in front whose key is at
      least every key in it. */
  lemma ConsSorted<T>(y: T, r: seq<T>, key: T -> int)
    requires SortedDesc(r, key)
    requires forall j :: 0 <= j < |r| ==> key(y) >= key(r[j])
    ensures SortedDesc([y] + r, key)
  {
    forall i, j | 0 <= i < j < |[y] + r|
      ensures key(([y] + r)[i]) >= key(([y] + r)[j])
    {
      assert ([y] + r)[j] == r[j - 1];
      if i > 0 {
        assert ([y] + r)[i] == r[i - 1];
      }
    }
  }

  lemma {:induction false} InsertDescSorted<T>(x: T, s: seq<T>, key: T -> int)
    requires SortedDesc(s, key)
    ensures SortedDesc(InsertDesc(x, s, key), key)
  {
    if s != [] && key(x) <= key(s[0]) {
      var rest := InsertDesc(x, s[1..], key);
      assert SortedDesc(s[1..], key) by {
        forall i, j | 0 <= i < j < |s[1..]|
          ensures key(s[1..][i]) >= key(s[1..][j])
        {
          assert s[1..][i] == s[i + 1] && s[1..][j] == s[j + 1];
        }
      }
      InsertDescSorted(x, s[1..], key);
      InsertDescElements(x, s[1..], key);
      forall j | 0 <= j < |rest|
        ensures key(s[0]) >= key(rest[j])
      {
        if rest[j] != x {
          var k :| 0 <= k < |s[1..]| && s[1..][k] == rest[j];
          assert s[1..][k] == s[k + 1];
        }
      }
      ConsSorted(s[0], rest, key);
    } else if s != [] {
      ConsSorted(x, s, key);
    }
  }

  lemma {:induction false} InsertDescMultiset<T>(x: T, s: seq<T>, key: T -> int)
    ensures multiset(InsertDesc(x, s, key)) == multiset(s) + multiset{x}
  {
    if s != [] && key(x) <= key(s[0]) {
      InsertDescMultiset(x, s[1..], key);
      assert s == [s[0]] + s[1..];
    }
  }

  /** The sort yields its input, reordered, largest key first. */
  lemma {:induction false} SortDescSpec<T>(xs: seq<T>, key: T -> int)
    ensures SortedDesc(SortDesc(xs, key), key)
    ensures multiset(SortDesc(xs, key)) == multiset(xs)
  {
    if xs != [] {
      var init := xs[..|xs| - 1];
      SortDescSpec(init, key);
      InsertDescSorted(xs[|xs| - 1], SortDesc(init, key), key);
      InsertDescMultiset(xs[|xs| - 1], SortDesc(init, key), key);
      assert xs == init + [xs[|xs| - 1]];
    }
  }

  // ---------------------------------------------------------------------------
  // Stability: elements with equal keys keep their input order.

  /** Selects the elements whose key is `c`. */
  function KeyIs<T>(key: T -> int, c: int): T -> bool {
    x => key(x) == c
  }

  lemma {:induction false} FilterNoneBelow<T>(s: seq<T>, key: T -> int, c: int)
    requires forall i :: 0 <= i < |s| ==> key(s[i]) < c
    ensures Filter(s, KeyIs(key, c)) == []
  {
    if s != [] {
      FilterNoneBelow(s[1..], key, c);
    }
  }

  /** Inserting `x` into a sorted list puts it after every element with its
      key: among the elements with key `c`, `x` comes last. */
  lemma {:induction false} InsertDescStable<T>(x: T, s: seq<T>, key: T -> int, c: int)
    requires SortedDesc(s, key)
    ensures Filter(InsertDesc(x, s, key), KeyIs(key, c)) == Filter(s, KeyIs(key, c)) + Filter([x], KeyIs(key, c))
  {
    var p := KeyIs(key, c);
    if s == [] {
    } else if key(x) > key(s[0]) {
      if key(x) == c {
        assert forall i :: 0 <= i < |s| ==> key(s[i]) <= key(s[0]);
        FilterNoneBelow(s, key, c);
      }
      FilterAppend([x], s, p);
    } else {
      assert SortedDesc(s[1..], key) by {
        forall i, j | 0 <= i < j < |s[1..]|
          ensures key(s[1..][i]) >= key(s[1..][j])
        {
          assert s[1..][i] == s[i + 1] && s[1..][j] == s[j + 1];
        }
      }
      InsertDescStable(x, s[1..], key, c);
      FilterAppend([s[0]], InsertDesc(x, s[1..], key), p);
      FilterAppend([s[0]], s[1..], p);
      assert [s[0]] + s[1..] == s;
    }
  }

  /** The sort is stable: the elements with any one key appear in the order
      they had in the input. */
  lemma {:induction false} SortDescStable<T>(xs: seq<T>, key: T -> int, c: int)
    ensures Filter(SortDesc(xs, key), KeyIs(key, c)) == Filter(xs, KeyIs(key, c))
  {
    if xs != [] {
      var init := xs[..|xs| - 1];
      SortDescStable(init, key, c);
      SortDescSpec(init, key);
      InsertDescStable(xs[|xs| - 1], SortDesc(init, key), key, c);
      FilterAppend(init, [xs[|xs| - 1]], KeyIs(key, c));
      assert xs == init + [xs[|xs| - 1]];
    }
  }
}
