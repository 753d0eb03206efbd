/** The direct multiplier `mul`: the textbook triple loop, used on its own
    and as the base case of both recursive multipliers. */
module DirectMultiplier {
  import opened Matrices

  /** The running total `acc` after the inner loop has added u[k] * v[k] for
      k = 0, 1, ..., |u| - 1 in that order: the sum of the products. */
  function Dot(u: seq<int>, v: seq<int>): (d: int)
    requires |u| == |v|
    decreases |u|
  {
    if |u| == 0 then 0 else Dot(u[..|u| - 1], v[..|v| - 1]) + u[|u| - 1] * v[|v| - 1]
  }

  /** The same sum, taken as u[0] * v[0] plus the sum of the rest: the
      textbook definition, independent of the order `acc` adds in. */
  function FoldFromFront(u: seq<int>, v: seq<int>): (s: int)
    requires |u| == |v|
    decreases |u|
  {
    if |u| == 0 then 0 else u[0] * v[0] + FoldFromFront(u[1..], v[1..])
  }

  /** Peeling the last term off FoldFromFront. */
  lemma {:induction false} FoldFromFrontLast(u: seq<int>, v: seq<int>)
    requires |u| == |v| > 0
    ensures FoldFromFront(u, v) ==
      FoldFromFront(u[..|u| - 1], v[..|v| - 1]) + u[|u| - 1] * v[|v| - 1]
    decreases |u|
  {
    var n := |u|;
    if n > 1 {
      FoldFromFrontLast(u[1..], v[1..]);
      assert u[1..][..n - 2] == u[..n - 1][1..];
      assert v[1..][..n - 2] == v[..n - 1][1..];
    }
  }

  /** Adding the products from k = 0 upward, as `acc` does, gives the
      textbook sum. */
  lemma {:induction false} DotIsFoldFromFront(u: seq<int>, v: seq<int>)
    requires |u| == |v|
    ensures Dot(u, v) == FoldFromFront(u, v)
    decreases |u|
  {
    if |u| > 0 {
      DotIsFoldFromFront(u[..|u| - 1], v[..|v| - 1]);
      FoldFromFrontLast(u, v);
    }
  }

  /** Column j of the first `rows` rows of m. */
  function Column(m: Matrix, j: nat, rows: nat): (c: seq<int>)
    requires Covers(m, rows, j + 1)
    ensures |c| == rows
  {
    seq(rows, k requires 0 <= k < rows => m[k][j])
  }

  /** The matrix product of the top-left n x n blocks of a and b, n = |a|:
      entry (i, j) is the sum over k < n of a[i][k] * b[k][j]. */
  function Product(a: Matrix, b: Matrix): (p: Matrix)
    requires Covers(a, |a|, |a|) && Covers(b, |a|, |a|)
    ensures IsSquare(p, |a|)
  {
    var n := |a|;
    seq(n, i requires 0 <= i < n =>
      seq(n, j requires 0 <= j < n => Dot(a[i][..n], Column(b, j, n))))
  }

  /** One cell of the product, as a dot product of a row and a column. */
  lemma ProductCell(a: Matrix, b: Matrix, i: nat, j: nat)
    requires Covers(a, |a|, |a|) && Covers(b, |a|, |a|) && i < |a| && j < |a|
    ensures Product(a, b)[i][j] == Dot(a[i][..|a|], Column(b, j, |a|))
  {
  }

  /** `mul`: n = |a|; for each cell (i, j) the inner loop accumulates
      a[i][k] * b[k][j] over k in `acc`, which is then stored. */
  method Mul(a: Matrix, b: Matrix) returns (m: Matrix)
    requires Covers(a, |a|, |a|) && Covers(b, |a|, |a|)
    ensures m == Product(a, b)
  {
    var n := |a|;
    m := Zeros(n, n);
    for i := 0 to n
      invariant IsSquare(m, n)
      invariant forall r, c :: 0 <= r < i && 0 <= c < n ==> m[r][c] == Product(a, b)[r][c]
    {
      for j := 0 to n
        invariant IsSquare(m, n)
        invariant forall r, c :: 0 <= r < i && 0 <= c < n ==> m[r][c] == Product(a, b)[r][c]
        invariant forall c :: 0 <= c < j ==> m[i][c] == Product(a, b)[i][c]
      {
        var acc := 0;
        for k := 0 to n
          invariant acc == Dot(a[i][..k], Column(b, j, k))
        {
          assert a[i][..k + 1][..k] == a[i][..k];
          assert Column(b, j, k + 1)[..k] == Column(b, j, k);
          acc := acc + a[i][k] * b[k][j];
        }
        m := m[i := m[i][j := acc]];
      }
    }
    SameEntriesEqual(m, Product(a, b), n, n);
  }

  // ---------------------------------------------------------------------
  // Identity and zero
  // ---------------------------------------------------------------------

  /** The n x n identity matrix. */
  function Identity(n: nat): (e: Matrix)
    ensures IsSquare(e, n)
  {
    seq(n, i => seq(n, j => if i == j then 1 else 0))
  }

  /** The vector of length n with a single 1 at position j. */
  function Unit(n: nat, j: nat): (u: seq<int>)
    ensures |u| == n
  {
    seq(n, k => if k == j then 1 else 0)
  }

  lemma {:induction false} DotZeroRight(u: seq<int>)
    ensures Dot(u, seq(|u|, _ => 0)) == 0
    decreases |u|
  {
    if |u| > 0 {
      assert seq(|u|, _ => 0)[..|u| - 1] == seq(|u| - 1, _ => 0);
      DotZeroRight(u[..|u| - 1]);
    }
  }

  /** Multiplying by a unit vector picks out one entry. */
  lemma {:induction false} DotUnitRight(u: seq<int>, j: nat)
    requires j < |u|
    ensures Dot(u, Unit(|u|, j)) == u[j]
    decreases |u|
  {
    var m := |u| - 1;
    if j == m {
      assert Unit(|u|, j)[..m] == seq(m, _ => 0);
      DotZeroRight(u[..m]);
    } else {
      assert Unit(|u|, j)[..m] == Unit(m, j);
      DotUnitRight(u[..m], j);
    }
  }

  lemma {:induction false} DotUnitLeft(v: seq<int>, i: nat)
    requires i < |v|
    ensures Dot(Unit(|v|, i), v) == v[i]
    decreases |v|
  {
    var m := |v| - 1;
    if i == m {
      assert Unit(|v|, i)[..m] == seq(m, _ => 0);
      DotZeroLeft(v[..m]);
    } else {
      assert Unit(|v|, i)[..m] == Unit(m, i);
      DotUnitLeft(v[..m], i);
    }
  }

  lemma {:induction false} DotZeroLeft(v: seq<int>)
    ensures Dot(seq(|v|, _ => 0), v) == 0
    decreases |v|
  {
    if |v| > 0 {
      assert seq(|v|, _ => 0)[..|v| - 1] == seq(|v| - 1, _ => 0);
      DotZeroLeft(v[..|v| - 1]);
    }
  }

  /** a * I == a. */
  lemma ProductIdentityRight(a: Matrix, n: nat)
    requires IsSquare(a, n)
    ensures Product(a, Identity(n)) == a
  {
    var p := Product(a, Identity(n));
    forall i, j | 0 <= i < n && 0 <= j < n
      ensures p[i][j] == a[i][j]
    {
      assert a[i][..n] == a[i];
      assert Column(Identity(n), j, n) == Unit(n, j);
      DotUnitRight(a[i], j);
    }
    SameEntriesEqual(p, a, n, n);
  }

  /** I * a == a. */
  lemma ProductIdentityLeft(a: Matrix, n: nat)
    requires IsSquare(a, n)
    ensures Product(Identity(n), a) == a
  {
    var p := Product(Identity(n), a);
    forall i, j | 0 <= i < n && 0 <= j < n
      ensures p[i][j] == a[i][j]
    {
      assert Identity(n)[i][..n] == Unit(n, i);
      DotUnitLeft(Column(a, j, n), i);
    }
    SameEntriesEqual(p, a, n, n);
  }

  /** a * 0 == 0. */
  lemma ProductZeroRight(a: Matrix, n: nat)
    requires IsSquare(a, n)
    ensures Product(a, Zeros(n, n)) == Zeros(n, n)
  {
    var p := Product(a, Zeros(n, n));
    forall i, j | 0 <= i < n && 0 <= j < n
      ensures p[i][j] == 0
    {
      assert a[i][..n] == a[i];
      assert Column(Zeros(n, n), j, n) == seq(n, _ => 0);
      DotZeroRight(a[i]);
    }
    SameEntriesEqual(p, Zeros(n, n), n, n);
  }

  /** The worked example: [[1,2],[3,4]] * [[5,6],[7,8]] == [[19,22],[43,50]]. */
  lemma SmallProduct()
    ensures Product([[1, 2], [3, 4]], [[5, 6], [7, 8]]) == [[19, 22], [43, 50]]
  {
    var a: Matrix := [[1, 2], [3, 4]];
    var b: Matrix := [[5, 6], [7, 8]];
    var p := Product(a, b);
    assert Column(b, 0, 2) == [5, 7];
    assert Column(b, 1, 2) == [6, 8];
    assert a[0][..2] == [1, 2] && a[1][..2] == [3, 4];
    assert Dot([1, 2], [5, 7]) == 19 by { assert [1, 2][..1] == [1] && [5, 7][..1] == [5]; }
    assert Dot([1, 2], [6, 8]) == 22 by { assert [1, 2][..1] == [1] && [6, 8][..1] == [6]; }
    assert Dot([3, 4], [5, 7]) == 43 by { assert [3, 4][..1] == [3] && [5, 7][..1] == [5]; }
    assert Dot([3, 4], [6, 8]) == 50 by { assert [3, 4][..1] == [3] && [6, 8][..1] == [6]; }
    SameEntriesEqual(p, [[19, 22], [43, 50]], 2, 2);
  }
}
