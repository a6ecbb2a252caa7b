/** `_setdiff2d`: row set-difference of two 2-D arrays, modelled step by step
    on the broadcast / cumulative-sum computation of the source, followed by
    the proof of what that computation means.

    Rows are compared as whole values (every column equal), which is what the
    product over the column axis of the element-wise comparison computes. */
module SetDiff {
  import opened Triples
  import opened Sequences

  /** An array as the dimension check sees it: its number of dimensions and,
      for a 2-D array, its rows. */
  datatype NdArray<T> = NdArray(ndim: nat, rows: seq<T>)

  // ---------------------------------------------------------------------------
  // The legacy computation, one numpy intermediate per function

  /** `tmp[i, j]`: 1 when row i of A equals row j of B, else 0. */
  function Tmp<T(==)>(a: seq<T>, b: seq<T>, i: nat, j: nat): (r: int)
    requires i < |a| && j < |b|
    ensures 0 <= r <= 1
    ensures r == 1 <==> a[i] == b[j]
  {
    if a[i] == b[j] then 1 else 0
  }

  /** The cells of a statement row `[s, p, o]`. */
  function Cells(t: Triple): seq<int> {
    [t.s, t.p, t.o]
  }

  /** `np.prod(u == v)` over two rows of equal width: the product of the
      per-column 0/1 equality indicators. */
  function ColumnProduct(u: seq<int>, v: seq<int>): int
    requires |u| == |v|
    decreases |u|
  {
    if |u| == 0 then 1
    else (if u[0] == v[0] then 1 else 0) * ColumnProduct(u[1..], v[1..])
  }

  /** The product over the columns is 1 exactly when the rows are equal, and
      0 otherwise. */
  lemma {:induction false} ColumnProductIsEquality(u: seq<int>, v: seq<int>)
    requires |u| == |v|
    ensures ColumnProduct(u, v) == (if u == v then 1 else 0)
    decreases |u|
  {
    if |u| > 0 {
      ColumnProductIsEquality(u[1..], v[1..]);
      assert u == [u[0]] + u[1..] && v == [v[0]] + v[1..];
    }
  }

  /** `tmp[i, j]`, computed as the source computes it (the element-wise
      comparison of row i of A with row j of B, multiplied over the column
      axis), is the whole-row comparison `Tmp`. */
  lemma TmpIsColumnProduct(a: seq<Triple>, b: seq<Triple>, i: nat, j: nat)
    requires i < |a| && j < |b|
    ensures Tmp(a, b, i, j) == ColumnProduct(Cells(a[i]), Cells(b[j]))
  {
    ColumnProductIsEquality(Cells(a[i]), Cells(b[j]));
    assert Cells(a[i]) == Cells(b[j]) ==> a[i] == b[j] by {
      if Cells(a[i]) == Cells(b[j]) {
        assert Cells(a[i])[0] == Cells(b[j])[0] && Cells(a[i])[1] == Cells(b[j])[1] && Cells(a[i])[2] == Cells(b[j])[2];
      }
    }
  }

  /** `np.cumsum(tmp, axis=0)[i, j]`: how many of rows 0..i of A equal B[j],
      so at most i + 1, and at least 1 once row i itself does. */
  function CumSum<T(==)>(a: seq<T>, b: seq<T>, i: nat, j: nat): (r: int)
    requires i < |a| && j < |b|
    ensures 0 <= r <= i + 1
    ensures a[i] == b[j] ==> r >= 1
    decreases i
  {
    Tmp(a, b, i, j) + (if i == 0 then 0 else CumSum(a, b, i - 1, j))
  }

  /** `np.sum(cumsum * tmp == 1, axis=1)[i]`, summed over the first `n` columns
      of tmp: at most one hit per column, and none for a row of A that repeats
      an earlier one. */
  function FirstHits<T(==)>(a: seq<T>, b: seq<T>, i: nat, n: nat): (r: nat)
    requires i < |a| && n <= |b|
    ensures r <= n
    ensures a[i] in a[..i] ==> r == 0
    decreases n
  {
    if n == 0 then 0
    else
      FirstHitHere(a, b, i, n - 1);
      FirstHits(a, b, i, n - 1) + (if CumSum(a, b, i, n - 1) * Tmp(a, b, i, n - 1) == 1 then 1 else 0)
  }

  /** `~ np.sum(...).astype(bool)`: the rows of A that the legacy code keeps. */
  function KeepMask<T(==)>(a: seq<T>, b: seq<T>): (m: seq<bool>)
    ensures |m| == |a|
  {
    seq(|a|, i requires 0 <= i < |a| => FirstHits(a, b, i, |b|) == 0)
  }

  /** `_setdiff2d(A, B)` on 2-D arrays. The result is a subsequence of A; a
      row equal to some row of B survives only when an earlier copy of it in
      A exists. */
  function SetDiffRows<T(==)>(a: seq<T>, b: seq<T>): (r: seq<T>)
    ensures IsSubsequence(r, a)
    ensures forall x | x in r && x in b :: exists i, j :: 0 <= i < j < |a| && a[i] == x && a[j] == x
  {
    var m := KeepMask(a, b);
    MaskIsSubsequence(a, m);
    var r := Mask(a, m);
    forall x | x in r && x in b
      ensures exists i, j :: 0 <= i < j < |a| && a[i] == x && a[j] == x
    {
      var j :| 0 <= j < |a| && m[j] && a[j] == x;
      KeepMaskMeaning(a, b, j);
      var i :| 0 <= i < j && a[..j][i] == x;
      assert a[i] == x;
    }
    r
  }

  /** `_setdiff2d(A, B)` with its dimension check. */
  function SetDiff2D<T(==)>(a: NdArray<T>, b: NdArray<T>): (r: Result<seq<T>>)
    ensures r.Err? <==> a.ndim != 2 || b.ndim != 2
    ensures r.Err? ==> r.error == NotTwoDimensional
    ensures r.Ok? ==> IsSubsequence(r.value, a.rows)
    ensures r.Ok? ==> forall x | x in r.value && x in b.rows ::
                        exists i, j :: 0 <= i < j < |a.rows| && a.rows[i] == x && a.rows[j] == x
  {
    if a.ndim != 2 || b.ndim != 2 then Err(NotTwoDimensional)
    else Ok(SetDiffRows(a.rows, b.rows))
  }

  // ---------------------------------------------------------------------------
  // What the cumulative-sum trick computes

  /** The running column sum is zero exactly while no row of A so far matches B[j]. */
  lemma {:induction false} CumSumZero<T>(a: seq<T>, b: seq<T>, i: nat, j: nat)
    requires i < |a| && j < |b|
    ensures CumSum(a, b, i, j) >= 0
    ensures CumSum(a, b, i, j) == 0 <==> forall k | 0 <= k <= i :: a[k] != b[j]
    decreases i
  {
    if i > 0 {
      CumSumZero(a, b, i - 1, j);
    }
  }

  /** The entry `cumsum * tmp == 1` holds exactly when row i of A equals B[j]
      and is the first row of A to do so. */
  lemma FirstHitHere<T>(a: seq<T>, b: seq<T>, i: nat, j: nat)
    requires i < |a| && j < |b|
    ensures CumSum(a, b, i, j) * Tmp(a, b, i, j) == 1 <==> a[i] == b[j] && a[i] !in a[..i]
  {
    if a[i] == b[j] && i > 0 {
      CumSumZero(a, b, i - 1, j);
      if a[i] in a[..i] {
        var k :| 0 <= k < i && a[..i][k] == a[i];
        assert a[k] == b[j];
      } else {
        forall k | 0 <= k <= i - 1 ensures a[k] != b[j] {
          assert a[..i][k] == a[k];
        }
      }
    }
  }

  lemma {:induction false} FirstHitsZero<T>(a: seq<T>, b: seq<T>, i: nat, n: nat)
    requires i < |a| && n <= |b|
    ensures FirstHits(a, b, i, n) == 0 <==> a[i] !in b[..n] || a[i] in a[..i]
    decreases n
  {
    if n > 0 {
      FirstHitsZero(a, b, i, n - 1);
      FirstHitHere(a, b, i, n - 1);
      assert b[..n] == b[..n - 1] + [b[n - 1]];
    }
  }

  /** The legacy mask keeps row i of A iff that row is not in B, or an equal
      row occurs earlier in A. For duplicate-free A this is plain "not in B";
      with duplicates, only the first copy of a row of B is removed. */
  lemma KeepMaskMeaning<T>(a: seq<T>, b: seq<T>, i: nat)
    requires i < |a|
    ensures KeepMask(a, b)[i] <==> a[i] !in b || a[i] in a[..i]
  {
    FirstHitsZero(a, b, i, |b|);
    assert b[..|b|] == b;
  }

  // ---------------------------------------------------------------------------
  // Reference definition and agreement

  /** The plain filter: rows of A that are not rows of B, order kept. */
  function Without<T(==)>(a: seq<T>, b: seq<T>): (r: seq<T>)
    decreases |a|
  {
    if |a| == 0 then []
    else (if a[0] in b then [] else [a[0]]) + Without(a[1..], b)
  }

  lemma {:induction false} WithoutMembers<T>(a: seq<T>, b: seq<T>)
    ensures forall x :: x in Without(a, b) <==> x in a && x !in b
    decreases |a|
  {
    if |a| > 0 {
      WithoutMembers(a[1..], b);
      assert a == [a[0]] + a[1..];
    }
  }

  lemma {:induction false} MaskIsWithout<T>(a: seq<T>, m: seq<bool>, b: seq<T>)
    requires |m| == |a|
    requires forall i | 0 <= i < |a| :: m[i] == (a[i] !in b)
    ensures Mask(a, m) == Without(a, b)
    decreases |a|
  {
    if |a| > 0 {
      assert forall i | 0 <= i < |a| - 1 :: m[1..][i] == (a[1..][i] !in b) by {
        forall i | 0 <= i < |a| - 1 ensures m[1..][i] == (a[1..][i] !in b) {
          assert m[1..][i] == m[i + 1] && a[1..][i] == a[i + 1];
        }
      }
      MaskIsWithout(a[1..], m[1..], b);
    }
  }

  /** For duplicate-free A, the legacy set-difference is exactly the plain
      filter "rows of A not in B", in A's order. */
  lemma SetDiffOfDistinct<T>(a: seq<T>, b: seq<T>)
    requires Distinct(a)
    ensures SetDiffRows(a, b) == Without(a, b)
    ensures forall x :: x in SetDiffRows(a, b) <==> x in a && x !in b
  {
    var m := KeepMask(a, b);
    forall i | 0 <= i < |a| ensures m[i] == (a[i] !in b) {
      KeepMaskMeaning(a, b, i);
      assert a[i] !in a[..i];
    }
    MaskIsWithout(a, m, b);
    WithoutMembers(a, b);
  }

  /** When no row of A is in B, nothing is removed, duplicates or not. */
  lemma SetDiffDisjoint<T>(a: seq<T>, b: seq<T>)
    requires forall i | 0 <= i < |a| :: a[i] !in b
    ensures SetDiffRows(a, b) == a
  {
    var m := KeepMask(a, b);
    forall i | 0 <= i < |a| ensures m[i] {
      KeepMaskMeaning(a, b, i);
    }
    MaskAllKept(a, m);
  }

  /** When A is duplicate-free and every row of A is in B (in particular A == B),
      everything is removed. */
  lemma SetDiffCovered<T>(a: seq<T>, b: seq<T>)
    requires Distinct(a)
    requires forall i | 0 <= i < |a| :: a[i] in b
    ensures SetDiffRows(a, b) == []
  {
    var m := KeepMask(a, b);
    forall i | 0 <= i < |a| ensures !m[i] {
      KeepMaskMeaning(a, b, i);
      assert a[i] !in a[..i];
    }
    MaskNoneKept(a, m);
  }

  /** With duplicate rows in A, a later copy of a row of B survives: the
      result is not "rows of A not in B". */
  lemma SetDiffKeepsSecondCopy(t: Triple)
    ensures SetDiffRows([t, t], [t]) == [t]
  {
    var a, b := [t, t], [t];
    KeepMaskMeaning(a, b, 0);
    KeepMaskMeaning(a, b, 1);
    assert a[..1] == [t];
    var m := KeepMask(a, b);
    assert m == [false, true];
    assert Mask(a, m) == [] + Mask(a[1..], m[1..]);
  }
}
