/** Sequence utilities shared by the outlier detector and the query answerer:
    order-preserving selection by a boolean mask, distinctness, a descending
    sort by a real-valued score, and sums of scores. */
module Seqs {

  /** The smaller of two numbers. */
  function Min(a: int, b: int): (r: int)
    ensures r <= a && r <= b && (r == a || r == b)
  {
    if a <= b then a else b
  }

  /** The larger of two numbers. */
  function Max(a: int, b: int): (r: int)
    ensures a <= r && b <= r && (r == a || r == b)
  {
    if a <= b then b else a
  }

  /** `a` is obtained from `b` by deleting elements; the kept elements are
      unchanged and stay in their original order. */
  predicate IsSubsequence<T(==)>(a: seq<T>, b: seq<T>)
    decreases |b|
  {
    if a == [] then true
    else if b == [] then false
    else (a[0] == b[0] && IsSubsequence(a[1..], b[1..])) || IsSubsequence(a, b[1..])
  }

  /** A subsequence is no longer than the sequence it came from and holds only its elements. */
  lemma {:induction false} SubsequenceBounds<T>(a: seq<T>, b: seq<T>)
    requires IsSubsequence(a, b)
    ensures |a| <= |b|
    ensures forall x :: x in a ==> x in b
    decreases |b|
  {
    if a != [] {
      if a[0] == b[0] && IsSubsequence(a[1..], b[1..]) {
        SubsequenceBounds(a[1..], b[1..]);
        assert forall x :: x in a ==> x == a[0] || x in a[1..];
      } else {
        SubsequenceBounds(a, b[1..]);
      }
    }
  }

  /** The elements after the head are the elements without one copy of the head. */
  lemma MultisetTail<T>(a: seq<T>)
    requires a != []
    ensures multiset(a[1..]) == multiset(a) - multiset{a[0]}
  {
    assert a == [a[0]] + a[1..];
  }

  /** Sequences that agree on the head and on the rest are equal. */
  lemma ConsEqual<T>(a: seq<T>, b: seq<T>)
    requires a != [] && b != [] && a[0] == b[0] && a[1..] == b[1..]
    ensures a == b
  {
    assert a == [a[0]] + a[1..] && b == [b[0]] + b[1..];
  }

  /** Number of `true` entries of a mask. */
  function TrueCount(keep: seq<bool>): nat
  {
    if keep == [] then 0 else (if keep[0] then 1 else 0) + TrueCount(keep[1..])
  }

  /** A mask with no `true` entry counts none. */
  lemma {:induction false} NoneKept(keep: seq<bool>)
    requires forall i :: 0 <= i < |keep| ==> !keep[i]
    ensures TrueCount(keep) == 0
  {
    if keep != [] {
      assert forall i :: 0 <= i < |keep[1..]| ==> keep[1..][i] == keep[i + 1];
      NoneKept(keep[1..]);
    }
  }

  /** Boolean-mask indexing, `xs[keep]`: the elements whose mask entry is true, in order. */
  function Select<T(==)>(xs: seq<T>, keep: seq<bool>): (r: seq<T>)
    requires |keep| == |xs|
    ensures |r| == TrueCount(keep)
    ensures IsSubsequence(r, xs)
    ensures forall i :: 0 <= i < |xs| && keep[i] ==> xs[i] in r
    ensures forall x :: x in r ==> exists i :: 0 <= i < |xs| && keep[i] && xs[i] == x
  {
    if xs == [] then []
    else
      var rest := Select(xs[1..], keep[1..]);
      assert forall i :: 1 <= i < |xs| ==> xs[i] == xs[1..][i - 1] && keep[i] == keep[1..][i - 1];
      if keep[0] then [xs[0]] + rest else rest
  }

  /** Selecting from one element keeps it exactly when its mask entry is true. */
  lemma SelectSingle<T>(x: T, b: bool)
    ensures Select([x], [b]) == (if b then [x] else [])
  {
  }

  /** Selection distributes over concatenation: the kept elements of a
      joined sequence are those of the first part followed by those of the
      second. With `SelectSingle` this fixes the result, order and
      repetitions included. */
  lemma {:induction false} SelectAppend<T>(xs: seq<T>, ys: seq<T>, k1: seq<bool>, k2: seq<bool>)
    requires |k1| == |xs| && |k2| == |ys|
    ensures Select(xs + ys, k1 + k2) == Select(xs, k1) + Select(ys, k2)
  {
    if xs == [] {
      assert xs + ys == ys && k1 + k2 == k2;
    } else {
      assert (xs + ys)[1..] == xs[1..] + ys && (k1 + k2)[1..] == k1[1..] + k2;
      SelectAppend(xs[1..], ys, k1[1..], k2);
      if k1[0] {
        assert Select(xs, k1) == [xs[0]] + Select(xs[1..], k1[1..]);
      }
    }
  }

  /** If every element kept by `keepA` is also kept by `keepB`, the first
      selection is a subsequence of the second. */
  lemma {:induction false} SelectMonotone<T>(xs: seq<T>, keepA: seq<bool>, keepB: seq<bool>)
    requires |keepA| == |xs| && |keepB| == |xs|
    requires forall i :: 0 <= i < |xs| && keepA[i] ==> keepB[i]
    ensures IsSubsequence(Select(xs, keepA), Select(xs, keepB))
  {
    if xs != [] {
      SelectMonotone(xs[1..], keepA[1..], keepB[1..]);
      var a' := Select(xs[1..], keepA[1..]);
      var b' := Select(xs[1..], keepB[1..]);
      if keepA[0] {
        assert Select(xs, keepA) == [xs[0]] + a';
        assert Select(xs, keepB) == [xs[0]] + b';
        assert ([xs[0]] + a')[1..] == a';
        assert ([xs[0]] + b')[1..] == b';
      } else if keepB[0] {
        assert Select(xs, keepB) == [xs[0]] + b';
        assert ([xs[0]] + b')[1..] == b';
      }
    }
  }

  predicate Distinct<T(==)>(s: seq<T>)
  {
    forall i, j :: 0 <= i < j < |s| ==> s[i] != s[j]
  }

  /** Sorted so that `score` never increases from left to right. */
  predicate SortedDesc<T>(s: seq<T>, score: T -> real)
  {
    forall i, j :: 0 <= i < j < |s| ==> score(s[i]) >= score(s[j])
  }

  /** Sum of `score` over the elements of `s`. */
  function SumOf<T>(s: seq<T>, score: T -> real): real
  {
    if s == [] then 0.0 else score(s[0]) + SumOf(s[1..], score)
  }

  /** Inserts `x` into a sequence already sorted by descending score. */
  function Insert<T(==)>(x: T, s: seq<T>, score: T -> real): (r: seq<T>)
    requires SortedDesc(s, score)
    ensures SortedDesc(r, score)
    ensures multiset(r) == multiset(s) + multiset{x}
  {
    if s == [] || score(x) >= score(s[0]) then
      [x] + s
    else
      var rest := Insert(x, s[1..], score);
      assert s == [s[0]] + s[1..];
      BoundedByHead(x, s, rest, score);
      [s[0]] + rest
  }

  /** Every element of `rest`, a permutation of `s[1..]` plus `x`, scores at
      most the head of `s` when `x` does. */
  lemma BoundedByHead<T>(x: T, s: seq<T>, rest: seq<T>, score: T -> real)
    requires SortedDesc(s, score) && s != [] && score(x) < score(s[0])
    requires multiset(rest) == multiset(s[1..]) + multiset{x}
    requires SortedDesc(rest, score)
    ensures SortedDesc([s[0]] + rest, score)
  {
    forall y | y in rest ensures score(s[0]) >= score(y) {
      assert y in multiset(rest);
      if y != x {
        assert y in multiset(s[1..]);
      }
    }
    var r := [s[0]] + rest;
    forall i, j | 0 <= i < j < |r| ensures score(r[i]) >= score(r[j]) {
      if i == 0 {
        assert r[j] == rest[j - 1];
      } else {
        assert r[i] == rest[i - 1] && r[j] == rest[j - 1];
      }
    }
  }

  /** Putting a new element in front keeps a sequence distinct. */
  lemma ConsDistinct<T>(y: T, s: seq<T>)
    requires Distinct(s) && y !in s
    ensures Distinct([y] + s)
  {
    var r := [y] + s;
    forall i, j | 0 <= i < j < |r| ensures r[i] != r[j] {
      assert r[j] == s[j - 1];
      if i > 0 {
        assert r[i] == s[i - 1];
      }
    }
  }

  lemma {:induction false} InsertKeepsDistinct<T>(x: T, s: seq<T>, score: T -> real)
    requires SortedDesc(s, score)
    requires Distinct(s) && x !in s
    ensures Distinct(Insert(x, s, score))
  {
    if s == [] || score(x) >= score(s[0]) {
      ConsDistinct(x, s);
    } else {
      assert s == [s[0]] + s[1..];
      InsertKeepsDistinct(x, s[1..], score);
      var rest := Insert(x, s[1..], score);
      assert s[0] !in rest by {
        assert s[0] != x;
        assert s[0] !in s[1..];
        assert multiset(s[1..])[s[0]] == 0;
        assert multiset(rest)[s[0]] == 0;
      }
      ConsDistinct(s[0], rest);
    }
  }

  lemma {:induction false} InsertAddsScore<T>(x: T, s: seq<T>, score: T -> real)
    requires SortedDesc(s, score)
    ensures SumOf(Insert(x, s, score), score) == score(x) + SumOf(s, score)
  {
    if s == [] || score(x) >= score(s[0]) {
      assert ([x] + s)[1..] == s;
    } else {
      InsertAddsScore(x, s[1..], score);
      var rest := Insert(x, s[1..], score);
      assert ([s[0]] + rest)[1..] == rest;
    }
  }

  /** Insertion sort by descending score: a permutation of `s` that is sorted. */
  function SortDescending<T(==)>(s: seq<T>, score: T -> real): (r: seq<T>)
    ensures multiset(r) == multiset(s)
    ensures |r| == |s|
    ensures SortedDesc(r, score)
  {
    if s == [] then []
    else
      assert s == [s[0]] + s[1..];
      var r := Insert(s[0], SortDescending(s[1..], score), score);
      assert |r| == |multiset(r)|;
      r
  }

  /** Sorting a sequence without repetitions yields one without repetitions. */
  lemma {:induction false} SortKeepsDistinct<T>(s: seq<T>, score: T -> real)
    requires Distinct(s)
    ensures Distinct(SortDescending(s, score))
  {
    if s != [] {
      SortKeepsDistinct(s[1..], score);
      var rest := SortDescending(s[1..], score);
      assert s[0] !in rest by {
        assert s == [s[0]] + s[1..];
        assert s[0] !in s[1..];
        assert multiset(s[1..])[s[0]] == 0;
        assert multiset(rest)[s[0]] == 0;
      }
      InsertKeepsDistinct(s[0], rest, score);
    }
  }

  /** Sorting does not change the total score. */
  lemma {:induction false} SortKeepsSum<T>(s: seq<T>, score: T -> real)
    ensures SumOf(SortDescending(s, score), score) == SumOf(s, score)
  {
    if s != [] {
      SortKeepsSum(s[1..], score);
      InsertAddsScore(s[0], SortDescending(s[1..], score), score);
    }
  }
}
