/** Sequence vocabulary shared by the model: distinctness, boolean-mask
    selection (numpy's `A[mask]`), subsequences, `np.unique` as a sorted
    duplicate-free sequence, ascending sort by a score (`argsort`), and
    row-wise concatenation. */
module Sequences {

  ghost predicate Distinct<T>(s: seq<T>) {
    forall i, j | 0 <= i < j < |s| :: s[i] != s[j]
  }

  /** `r` is obtained from `a` by deleting elements, order kept. */
  ghost predicate IsSubsequence<T>(r: seq<T>, a: seq<T>)
    decreases |a|
  {
    |r| == 0 ||
    (|a| > 0 &&
     ((r[0] == a[0] && IsSubsequence(r[1..], a[1..])) || IsSubsequence(r, a[1..])))
  }

  lemma {:induction false} SubsequenceMembers<T>(r: seq<T>, a: seq<T>)
    requires IsSubsequence(r, a)
    ensures |r| <= |a|
    ensures forall x | x in r :: x in a
    decreases |a|
  {
    if |r| > 0 {
      if r[0] == a[0] && IsSubsequence(r[1..], a[1..]) {
        SubsequenceMembers(r[1..], a[1..]);
        assert r == [r[0]] + r[1..];
      } else {
        SubsequenceMembers(r, a[1..]);
      }
    }
  }

  lemma {:induction false} SubsequenceOfDistinct<T>(r: seq<T>, a: seq<T>)
    requires IsSubsequence(r, a)
    requires Distinct(a)
    ensures Distinct(r)
    decreases |a|
  {
    if |r| > 0 {
      if r[0] == a[0] && IsSubsequence(r[1..], a[1..]) {
        SubsequenceOfDistinct(r[1..], a[1..]);
        SubsequenceMembers(r[1..], a[1..]);
        forall i, j | 0 <= i < j < |r| ensures r[i] != r[j] {
          if i == 0 {
            assert r[j] == r[1..][j - 1];
            assert r[j] in a[1..];
          } else {
            assert r[i] == r[1..][i - 1] && r[j] == r[1..][j - 1];
          }
        }
      } else {
        SubsequenceOfDistinct(r, a[1..]);
      }
    }
  }

  lemma {:induction false} SubsequenceTransitive<T>(r: seq<T>, m: seq<T>, a: seq<T>)
    requires IsSubsequence(r, m) && IsSubsequence(m, a)
    ensures IsSubsequence(r, a)
    decreases |a|
  {
    if |r| > 0 {
      SubsequenceMembers(m, a);
      if m[0] == a[0] && IsSubsequence(m[1..], a[1..]) {
        if r[0] == m[0] && IsSubsequence(r[1..], m[1..]) {
          SubsequenceTransitive(r[1..], m[1..], a[1..]);
        } else {
          SubsequenceTransitive(r, m[1..], a[1..]);
        }
      } else {
        SubsequenceTransitive(r, m, a[1..]);
      }
    }
  }

  lemma DistinctConcat<T>(a: seq<T>, b: seq<T>)
    requires Distinct(a) && Distinct(b)
    requires forall x | x in a :: x !in b
    ensures Distinct(a + b)
  {
    var c := a + b;
    forall i, j | 0 <= i < j < |c| ensures c[i] != c[j] {
      if j >= |a| && i < |a| {
        assert c[i] in a && c[j] == b[j - |a|];
      } else if i >= |a| {
        assert c[i] == b[i - |a|] && c[j] == b[j - |a|];
      }
    }
  }

  /** numpy boolean indexing `a[keep]`: the elements whose flag is set, in order. */
  function Mask<T>(a: seq<T>, keep: seq<bool>): (r: seq<T>)
    requires |keep| == |a|
    ensures |r| <= |a|
    ensures forall x | x in r :: exists i :: 0 <= i < |a| && keep[i] && a[i] == x
    ensures forall i | 0 <= i < |a| && keep[i] :: a[i] in r
    decreases |a|
  {
    if |a| == 0 then []
    else
      var rest := Mask(a[1..], keep[1..]);
      assert forall i | 1 <= i < |a| && keep[i] :: a[i] in rest by {
        forall i | 1 <= i < |a| && keep[i] ensures a[i] in rest {
          assert keep[1..][i - 1] && a[1..][i - 1] == a[i];
        }
      }
      (if keep[0] then [a[0]] else []) + rest
  }

  lemma {:induction false} MaskIsSubsequence<T>(a: seq<T>, keep: seq<bool>)
    requires |keep| == |a|
    ensures IsSubsequence(Mask(a, keep), a)
    decreases |a|
  {
    if |a| > 0 {
      MaskIsSubsequence(a[1..], keep[1..]);
      var r := Mask(a, keep);
      if keep[0] {
        assert r[0] == a[0] && r[1..] == Mask(a[1..], keep[1..]);
      } else {
        assert r == Mask(a[1..], keep[1..]);
      }
    }
  }

  /** A mask that keeps everything selects the whole sequence. */
  lemma {:induction false} MaskAllKept<T>(a: seq<T>, keep: seq<bool>)
    requires |keep| == |a|
    requires forall i | 0 <= i < |keep| :: keep[i]
    ensures Mask(a, keep) == a
    decreases |a|
  {
    if |a| > 0 {
      MaskAllKept(a[1..], keep[1..]);
      assert a == [a[0]] + a[1..];
    }
  }

  /** A mask that keeps nothing selects nothing. */
  lemma {:induction false} MaskNoneKept<T>(a: seq<T>, keep: seq<bool>)
    requires |keep| == |a|
    requires forall i | 0 <= i < |keep| :: !keep[i]
    ensures Mask(a, keep) == []
    decreases |a|
  {
    if |a| > 0 {
      MaskNoneKept(a[1..], keep[1..]);
    }
  }

  // ---------------------------------------------------------------------------
  // np.unique on a one-dimensional integer column

  ghost predicate StrictlyIncreasing(s: seq<int>) {
    forall i, j | 0 <= i < j < |s| :: s[i] < s[j]
  }

  function InsertUnique(x: int, s: seq<int>): (r: seq<int>)
    requires StrictlyIncreasing(s)
    ensures StrictlyIncreasing(r)
    ensures forall y :: y in r <==> y == x || y in s
    decreases |s|
  {
    if |s| == 0 then [x]
    else if x < s[0] then [x] + s
    else if x == s[0] then s
    else
      TailAbove(s);
      var rest := InsertUnique(x, s[1..]);
      ConsIncreasing(s[0], rest);
      assert s == [s[0]] + s[1..];
      [s[0]] + rest
  }

  /** Every element after the head of a strictly increasing sequence exceeds it. */
  lemma TailAbove(s: seq<int>)
    requires StrictlyIncreasing(s) && |s| > 0
    ensures StrictlyIncreasing(s[1..])
    ensures forall y | y in s[1..] :: s[0] < y
  {
    forall y | y in s[1..] ensures s[0] < y {
      var k :| 0 <= k < |s[1..]| && s[1..][k] == y;
      assert s[k + 1] == y;
    }
  }

  /** A value below every element of a strictly increasing sequence can lead it. */
  lemma ConsIncreasing(h: int, rest: seq<int>)
    requires StrictlyIncreasing(rest)
    requires forall y | y in rest :: h < y
    ensures StrictlyIncreasing([h] + rest)
  {
    var r := [h] + rest;
    forall i, j | 0 <= i < j < |r| ensures r[i] < r[j] {
      assert r[j] == rest[j - 1] && rest[j - 1] in rest;
      if i > 0 {
        assert r[i] == rest[i - 1];
      }
    }
  }

  /** `np.unique(xs)`: the distinct values of `xs` in ascending order. */
  function SortedUnique(xs: seq<int>): (r: seq<int>)
    ensures StrictlyIncreasing(r)
    ensures forall y :: y in r <==> y in xs
    decreases |xs|
  {
    if |xs| == 0 then []
    else
      var r := InsertUnique(xs[|xs| - 1], SortedUnique(xs[..|xs| - 1]));
      assert xs == xs[..|xs| - 1] + [xs[|xs| - 1]];
      r
  }

  /** Sorted duplicate-free sequences are determined by their members. */
  lemma {:induction false} StrictlyIncreasingUnique(a: seq<int>, b: seq<int>)
    requires StrictlyIncreasing(a) && StrictlyIncreasing(b)
    requires forall y :: y in a <==> y in b
    ensures a == b
    decreases |a| + |b|
  {
    assert |a| > 0 ==> a[0] in a;
    assert |b| > 0 ==> b[0] in b;
    if |a| > 0 && |b| > 0 {
      assert a[0] in b && b[0] in a;
      assert a[0] == b[0] by {
        var i :| 0 <= i < |b| && b[i] == a[0];
        var j :| 0 <= j < |a| && a[j] == b[0];
        assert a[0] <= a[j] && b[0] <= b[i];
      }
      TailAbove(a);
      TailAbove(b);
      assert a == [a[0]] + a[1..] && b == [b[0]] + b[1..];
      forall y ensures y in a[1..] <==> y in b[1..] {
        assert y in a <==> y == a[0] || y in a[1..];
        assert y in b <==> y == b[0] || y in b[1..];
      }
      StrictlyIncreasingUnique(a[1..], b[1..]);
    }
  }

  // ---------------------------------------------------------------------------
  // Ascending sort by a score (argsort of a score column)

  ghost predicate SortedByScore(s: seq<int>, score: int -> real) {
    forall i, j | 0 <= i < j < |s| :: score(s[i]) <= score(s[j])
  }

  /** Insert `x` after every entity of `s` scoring no higher than it. */
  function InsertByScore(x: int, s: seq<int>, score: int -> real): (r: seq<int>)
    requires SortedByScore(s, score)
    ensures SortedByScore(r, score)
    ensures |r| == |s| + 1
    ensures forall y :: y in r <==> y == x || y in s
    decreases |s|
  {
    if |s| == 0 || score(x) < score(s[0]) then [x] + s
    else
      var rest := InsertByScore(x, s[1..], score);
      assert forall k | 0 <= k < |rest| :: score(s[0]) <= score(rest[k]) by {
        forall k | 0 <= k < |rest| ensures score(s[0]) <= score(rest[k]) {
          if rest[k] != x {
            assert rest[k] in rest && rest[k] in s[1..];
            var m :| 0 <= m < |s[1..]| && s[1..][m] == rest[k];
            assert s[m + 1] == rest[k];
          }
        }
      }
      var r := [s[0]] + rest;
      assert forall i, j | 0 <= i < j < |r| :: score(r[i]) <= score(r[j]) by {
        forall i, j | 0 <= i < j < |r| ensures score(r[i]) <= score(r[j]) {
          if i > 0 {
            assert r[i] == rest[i - 1] && r[j] == rest[j - 1];
          } else {
            assert r[j] == rest[j - 1];
          }
        }
      }
      r
  }

  lemma {:induction false} InsertByScorePermutes(x: int, s: seq<int>, score: int -> real)
    requires SortedByScore(s, score)
    ensures multiset(InsertByScore(x, s, score)) == multiset(s) + multiset{x}
    decreases |s|
  {
    if |s| > 0 && score(x) >= score(s[0]) {
      InsertByScorePermutes(x, s[1..], score);
      assert s == [s[0]] + s[1..];
    }
  }

  lemma {:induction false} InsertByScoreDistinct(x: int, s: seq<int>, score: int -> real)
    requires SortedByScore(s, score)
    requires Distinct(s) && x !in s
    ensures Distinct(InsertByScore(x, s, score))
    decreases |s|
  {
    if |s| > 0 && score(x) >= score(s[0]) {
      assert x !in s[1..] && s[0] !in s[1..];
      InsertByScoreDistinct(x, s[1..], score);
      var rest := InsertByScore(x, s[1..], score);
      assert s[0] != x && s[0] !in rest;
      var r := [s[0]] + rest;
      forall i, j | 0 <= i < j < |r| ensures r[i] != r[j] {
        assert r[j] == rest[j - 1];
        if i > 0 {
          assert r[i] == rest[i - 1];
        }
      }
    }
  }

  /** The entities of `xs` rearranged in ascending order of `score`. Each
      entity is inserted after the equal-scored ones already placed, so ties
      keep their order in `xs` (`SortByScoreKeepsTies` shows the two-entity
      case; the contract itself speaks only of scores). */
  function SortByScore(xs: seq<int>, score: int -> real): (r: seq<int>)
    ensures SortedByScore(r, score)
    ensures |r| == |xs|
    ensures forall y :: y in r <==> y in xs
    decreases |xs|
  {
    if |xs| == 0 then []
    else
      var r := InsertByScore(xs[|xs| - 1], SortByScore(xs[..|xs| - 1], score), score);
      assert xs == xs[..|xs| - 1] + [xs[|xs| - 1]];
      r
  }

  lemma {:induction false} SortByScorePermutes(xs: seq<int>, score: int -> real)
    ensures multiset(SortByScore(xs, score)) == multiset(xs)
    decreases |xs|
  {
    if |xs| > 0 {
      SortByScorePermutes(xs[..|xs| - 1], score);
      InsertByScorePermutes(xs[|xs| - 1], SortByScore(xs[..|xs| - 1], score), score);
      assert xs == xs[..|xs| - 1] + [xs[|xs| - 1]];
    }
  }

  lemma {:induction false} SortByScoreDistinct(xs: seq<int>, score: int -> real)
    requires Distinct(xs)
    ensures Distinct(SortByScore(xs, score))
    decreases |xs|
  {
    if |xs| > 0 {
      var init := xs[..|xs| - 1];
      assert Distinct(init);
      SortByScoreDistinct(init, score);
      assert xs[|xs| - 1] !in init;
      InsertByScoreDistinct(xs[|xs| - 1], SortByScore(init, score), score);
    }
  }

  /** Two equal-scored entities stay in their input order. */
  lemma SortByScoreKeepsTies(a: int, b: int, score: int -> real)
    requires score(a) == score(b)
    ensures SortByScore([a, b], score) == [a, b]
  {
    assert [a, b][..1] == [a];
    assert [a][..0] == [];
    assert SortByScore([a], score) == InsertByScore(a, [], score) == [a];
    assert InsertByScore(b, [a], score) == [a] + InsertByScore(b, [], score);
  }

  // ---------------------------------------------------------------------------
  // Row-wise concatenation

  /** The number of rows of all batches together. */
  function TotalLength<T>(bs: seq<seq<T>>): nat
    decreases |bs|
  {
    if |bs| == 0 then 0 else |bs[0]| + TotalLength(bs[1..])
  }

  /** The rows of the first `i` batches, then those of batch i. */
  lemma PrefixLength<T>(bs: seq<seq<T>>, i: nat)
    requires 0 < i <= |bs|
    ensures TotalLength(bs[..i]) == |bs[0]| + TotalLength(bs[1..][..i - 1])
  {
    assert bs[..i][1..] == bs[1..][..i - 1];
  }

  /** Concatenate a list of batches, first batch first. */
  function Flatten<T>(bs: seq<seq<T>>): (r: seq<T>)
    ensures |r| == TotalLength(bs)
    ensures forall x | x in r :: exists i :: 0 <= i < |bs| && x in bs[i]
    ensures forall i, x | 0 <= i < |bs| && x in bs[i] :: x in r
    decreases |bs|
  {
    if |bs| == 0 then []
    else
      var rest := Flatten(bs[1..]);
      assert forall i, x | 1 <= i < |bs| && x in bs[i] :: x in rest by {
        forall i, x | 1 <= i < |bs| && x in bs[i] ensures x in rest {
          assert bs[1..][i - 1] == bs[i];
        }
      }
      bs[0] + rest
  }

  /** Row j of batch i lands in the join right after every row of the
      batches before it, so the join keeps batch order and row order. */
  lemma {:induction false} FlattenPlaces<T>(bs: seq<seq<T>>, i: nat, j: nat)
    requires i < |bs| && j < |bs[i]|
    ensures TotalLength(bs[..i]) + j < |Flatten(bs)|
    ensures Flatten(bs)[TotalLength(bs[..i]) + j] == bs[i][j]
    decreases i
  {
    if i == 0 {
      assert bs[..0] == [];
    } else {
      PrefixLength(bs, i);
      assert bs[1..][i - 1] == bs[i];
      FlattenPlaces(bs[1..], i - 1, j);
    }
  }

  /** Putting a batch in front of a list of batches puts its elements in front. */
  lemma FlattenCons<T>(a: seq<T>, bs: seq<seq<T>>)
    ensures Flatten([a] + bs) == a + Flatten(bs)
  {
    assert ([a] + bs)[1..] == bs;
  }

  /** Joining two lists of batches joins their concatenations. */
  lemma {:induction false} FlattenAppend<T>(a: seq<seq<T>>, b: seq<seq<T>>)
    ensures Flatten(a + b) == Flatten(a) + Flatten(b)
    decreases |a|
  {
    if |a| > 0 {
      assert (a + b)[1..] == a[1..] + b;
      FlattenAppend(a[1..], b);
    } else {
      assert a + b == b;
    }
  }

  /** Subsequences of two parts make a subsequence of the whole. */
  lemma {:induction false} SubsequenceConcat<T>(r1: seq<T>, a1: seq<T>, r2: seq<T>, a2: seq<T>)
    requires IsSubsequence(r1, a1) && IsSubsequence(r2, a2)
    ensures IsSubsequence(r1 + r2, a1 + a2)
    decreases |a1|
  {
    if |a1| == 0 {
      SubsequenceMembers(r1, a1);
      assert r1 + r2 == r2 && a1 + a2 == a2;
    } else {
      assert (a1 + a2)[1..] == a1[1..] + a2;
      if |r1| > 0 && r1[0] == a1[0] && IsSubsequence(r1[1..], a1[1..]) {
        SubsequenceConcat(r1[1..], a1[1..], r2, a2);
        assert (r1 + r2)[1..] == r1[1..] + r2;
      } else {
        SubsequenceConcat(r1, a1[1..], r2, a2);
      }
    }
  }

  /** Selecting a subsequence of every batch selects a subsequence of the join. */
  lemma {:induction false} FlattenSubsequence<T>(rs: seq<seq<T>>, bs: seq<seq<T>>)
    requires |rs| == |bs|
    requires forall i | 0 <= i < |bs| :: IsSubsequence(rs[i], bs[i])
    ensures IsSubsequence(Flatten(rs), Flatten(bs))
    decreases |bs|
  {
    if |bs| > 0 {
      assert forall i | 0 <= i < |bs| - 1 :: rs[1..][i] == rs[i + 1] && bs[1..][i] == bs[i + 1];
      FlattenSubsequence(rs[1..], bs[1..]);
      SubsequenceConcat(rs[0], bs[0], Flatten(rs[1..]), Flatten(bs[1..]));
    }
  }

  /** Duplicate-free batches that share no row join into a duplicate-free list. */
  lemma {:induction false} FlattenDistinct<T>(bs: seq<seq<T>>)
    requires forall i | 0 <= i < |bs| :: Distinct(bs[i])
    requires forall i, j, x | 0 <= i < j < |bs| && x in bs[i] :: x !in bs[j]
    ensures Distinct(Flatten(bs))
    decreases |bs|
  {
    if |bs| > 0 {
      var tail := bs[1..];
      assert forall i | 0 <= i < |tail| :: tail[i] == bs[i + 1];
      FlattenDistinct(tail);
      forall x | x in bs[0] ensures x !in Flatten(tail) {
        assert forall i | 0 <= i < |tail| :: x !in tail[i];
      }
      DistinctConcat(bs[0], Flatten(tail));
    }
  }

  /** Position i holds the first `false` of `oks`. */
  predicate FirstFalseAt(i: int, oks: seq<bool>) {
    0 <= i < |oks| && !oks[i] && forall k | 0 <= k < i :: oks[k]
  }

  /** A first `false` in the tail, after a `true` head, is the first `false`
      of the whole sequence, one place further on. */
  lemma FirstFalseAfterTrue(i: int, oks: seq<bool>)
    requires |oks| > 0 && oks[0]
    requires FirstFalseAt(i, oks[1..])
    ensures FirstFalseAt(i + 1, oks)
  {
    forall k | 0 <= k < i + 1 ensures oks[k] {
      if k > 0 {
        assert oks[k] == oks[1..][k - 1];
      }
    }
  }
}
