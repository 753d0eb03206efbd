/** Block-matrix algebra behind the recursive multipliers: the product of
    two even-sized matrices computed quadrant by quadrant, the bilinearity
    the Strassen formulas rest on, and the size discipline under which the
    recursion only ever cuts a matrix into square halves. */
module BlockAlgebra {
  import opened Matrices
  import opened BlockOps
  import opened DirectMultiplier

  // ---------------------------------------------------------------------
  // Recursion sizes
  // ---------------------------------------------------------------------

  /** The base-case threshold hard-coded in `rmul` and `smul`. */
  const SourceThreshold: nat := 128

  /** n reaches the base case (n <= T) by halving, and is even at every
      step above it, so that `n / 2` never truncates. */
  predicate Halves(n: nat, T: nat)
    decreases n
  {
    n <= T || (n % 2 == 0 && Halves(n / 2, T))
  }

  function Pow2(k: nat): (p: nat)
    ensures p >= 1
  {
    if k == 0 then 1 else 2 * Pow2(k - 1)
  }

  /** Number of halvings from n down to the base case. */
  function Depth(n: nat, T: nat): (d: nat)
    requires Halves(n, T)
    ensures d == 0 <==> n <= T
    decreases n
  {
    if n <= T then 0 else 1 + Depth(n / 2, T)
  }

  /** Size of the blocks the base case multiplies. */
  function BaseSize(n: nat, T: nat): (t: nat)
    requires Halves(n, T)
    ensures t <= T
    decreases n
  {
    if n <= T then n else BaseSize(n / 2, T)
  }

  /** Every size t * 2^k with t <= T halves evenly down to the base case. */
  lemma {:induction false} ScaledPowerOfTwoHalves(t: nat, k: nat, T: nat)
    requires t <= T
    ensures Halves(t * Pow2(k), T)
  {
    if k > 0 {
      ScaledPowerOfTwoHalves(t, k - 1, T);
      var half := t * Pow2(k - 1);
      ScaleNextPower(t, k - 1);
      assert t * Pow2(k) == 2 * half;
      assert (2 * half) / 2 == half;
    }
  }

  /** Conversely, a size that halves evenly is its base size times 2^depth. */
  lemma {:induction false} HalvesIsScaledPowerOfTwo(n: nat, T: nat)
    requires Halves(n, T)
    ensures n == BaseSize(n, T) * Pow2(Depth(n, T))
    decreases n
  {
    if n > T {
      HalvesIsScaledPowerOfTwo(n / 2, T);
      var t, d := BaseSize(n / 2, T), Depth(n / 2, T);
      assert n == 2 * (t * Pow2(d));
      ScaleNextPower(t, d);
    }
  }

  /** One more doubling: t * 2^(k+1) == 2 * (t * 2^k). */
  lemma ScaleNextPower(t: nat, k: nat)
    ensures t * Pow2(k + 1) == 2 * (t * Pow2(k))
  {
    var p := Pow2(k);
    assert Pow2(k + 1) == 2 * p;
    assert t * (2 * p) == 2 * (t * p);
  }

  /** With the source's threshold every power of two is an admissible size. */
  lemma {:induction false} PowersOfTwoHalveAtSourceThreshold(k: nat)
    ensures Halves(Pow2(k), SourceThreshold)
  {
    ScaledPowerOfTwoHalves(1, k, SourceThreshold);
  }

  // ---------------------------------------------------------------------
  // Dot products
  // ---------------------------------------------------------------------

  /** Pointwise sum and difference of equally long vectors. */
  function VSum(u: seq<int>, v: seq<int>): (w: seq<int>)
    requires |u| == |v|
    ensures |w| == |u|
  {
    seq(|u|, k requires 0 <= k < |u| => u[k] + v[k])
  }

  function VDifference(u: seq<int>, v: seq<int>): (w: seq<int>)
    requires |u| == |v|
    ensures |w| == |u|
  {
    seq(|u|, k requires 0 <= k < |u| => u[k] - v[k])
  }

  /** A dot product over a concatenation splits into the two parts. */
  lemma {:induction false} DotAppend(u1: seq<int>, u2: seq<int>, v1: seq<int>, v2: seq<int>)
    requires |u1| == |v1| && |u2| == |v2|
    ensures Dot(u1 + u2, v1 + v2) == Dot(u1, v1) + Dot(u2, v2)
    decreases |u2|
  {
    if |u2| == 0 {
      assert u1 + u2 == u1 && v1 + v2 == v1;
    } else {
      var m := |u2| - 1;
      var u, v := u1 + u2, v1 + v2;
      assert u[..|u| - 1] == u1 + u2[..m];
      assert v[..|v| - 1] == v1 + v2[..m];
      DotAppend(u1, u2[..m], v1, v2[..m]);
    }
  }

  lemma {:induction false} DotSymmetric(u: seq<int>, v: seq<int>)
    requires |u| == |v|
    ensures Dot(u, v) == Dot(v, u)
    decreases |u|
  {
    if |u| > 0 {
      DotSymmetric(u[..|u| - 1], v[..|v| - 1]);
    }
  }

  lemma {:induction false} DotSumLeft(u1: seq<int>, u2: seq<int>, v: seq<int>)
    requires |u1| == |u2| == |v|
    ensures Dot(VSum(u1, u2), v) == Dot(u1, v) + Dot(u2, v)
    decreases |v|
  {
    if |v| > 0 {
      var m := |v| - 1;
      assert VSum(u1, u2)[..m] == VSum(u1[..m], u2[..m]);
      DotSumLeft(u1[..m], u2[..m], v[..m]);
      assert (u1[m] + u2[m]) * v[m] == u1[m] * v[m] + u2[m] * v[m];
    }
  }

  lemma {:induction false} DotDifferenceLeft(u1: seq<int>, u2: seq<int>, v: seq<int>)
    requires |u1| == |u2| == |v|
    ensures Dot(VDifference(u1, u2), v) == Dot(u1, v) - Dot(u2, v)
    decreases |v|
  {
    if |v| > 0 {
      var m := |v| - 1;
      assert VDifference(u1, u2)[..m] == VDifference(u1[..m], u2[..m]);
      DotDifferenceLeft(u1[..m], u2[..m], v[..m]);
      assert (u1[m] - u2[m]) * v[m] == u1[m] * v[m] - u2[m] * v[m];
    }
  }

  // ---------------------------------------------------------------------
  // Bilinearity of the product, cell by cell
  // ---------------------------------------------------------------------

  lemma ProductSumLeft(a: Matrix, b: Matrix, c: Matrix, n: nat, i: nat, j: nat)
    requires IsSquare(a, n) && IsSquare(b, n) && IsSquare(c, n) && i < n && j < n
    ensures Product(Sum(a, b), c)[i][j] == Product(a, c)[i][j] + Product(b, c)[i][j]
  {
    assert Sum(a, b)[i][..n] == VSum(a[i][..n], b[i][..n]);
    DotSumLeft(a[i][..n], b[i][..n], Column(c, j, n));
  }

  lemma ProductDifferenceLeft(a: Matrix, b: Matrix, c: Matrix, n: nat, i: nat, j: nat)
    requires IsSquare(a, n) && IsSquare(b, n) && IsSquare(c, n) && i < n && j < n
    ensures Product(Difference(a, b), c)[i][j] == Product(a, c)[i][j] - Product(b, c)[i][j]
  {
    assert Difference(a, b)[i][..n] == VDifference(a[i][..n], b[i][..n]);
    DotDifferenceLeft(a[i][..n], b[i][..n], Column(c, j, n));
  }

  lemma ProductSumRight(a: Matrix, b: Matrix, c: Matrix, n: nat, i: nat, j: nat)
    requires IsSquare(a, n) && IsSquare(b, n) && IsSquare(c, n) && i < n && j < n
    ensures Product(a, Sum(b, c))[i][j] == Product(a, b)[i][j] + Product(a, c)[i][j]
  {
    var u, v1, v2 := a[i][..n], Column(b, j, n), Column(c, j, n);
    assert Column(Sum(b, c), j, n) == VSum(v1, v2);
    DotSymmetric(u, VSum(v1, v2));
    DotSumLeft(v1, v2, u);
    DotSymmetric(u, v1);
    DotSymmetric(u, v2);
  }

  lemma ProductDifferenceRight(a: Matrix, b: Matrix, c: Matrix, n: nat, i: nat, j: nat)
    requires IsSquare(a, n) && IsSquare(b, n) && IsSquare(c, n) && i < n && j < n
    ensures Product(a, Difference(b, c))[i][j] == Product(a, b)[i][j] - Product(a, c)[i][j]
  {
    var u, v1, v2 := a[i][..n], Column(b, j, n), Column(c, j, n);
    assert Column(Difference(b, c), j, n) == VDifference(v1, v2);
    DotSymmetric(u, VDifference(v1, v2));
    DotDifferenceLeft(v1, v2, u);
    DotSymmetric(u, v1);
    DotSymmetric(u, v2);
  }

  // ---------------------------------------------------------------------
  // The product by blocks
  // ---------------------------------------------------------------------

  /** A dot product cut at position h is the sum of the two partial ones. */
  lemma DotSplitAt(u: seq<int>, v: seq<int>, h: nat)
    requires |u| == |v| && h <= |u|
    ensures Dot(u, v) == Dot(u[..h], v[..h]) + Dot(u[h..], v[h..])
  {
    assert u[..h] + u[h..] == u;
    assert v[..h] + v[h..] == v;
    DotAppend(u[..h], u[h..], v[..h], v[h..]);
  }

  /** Row i of a left or right block is a piece of row r0 + i of x. */
  lemma BlockRow(x: Matrix, r0: nat, h: nat, i: nat)
    requires InBounds(x, r0, r0 + h, 0, 2 * h) && i < h
    ensures SubMatrix(x, r0, r0 + h, 0, h)[i] == x[r0 + i][..h]
    ensures SubMatrix(x, r0, r0 + h, h, 2 * h)[i] == x[r0 + i][h..2 * h]
  {
  }

  /** Column j of a top or bottom block is a piece of column c0 + j of y. */
  lemma BlockColumn(y: Matrix, c0: nat, h: nat, j: nat)
    requires InBounds(y, 0, 2 * h, c0, c0 + h) && j < h
    ensures Column(SubMatrix(y, 0, h, c0, c0 + h), j, h) == Column(y, c0 + j, 2 * h)[..h]
    ensures Column(SubMatrix(y, h, 2 * h, c0, c0 + h), j, h) == Column(y, c0 + j, 2 * h)[h..]
  {
  }

  /** A cell of the product of two h x h blocks. */
  lemma BlockProductCell(p: Matrix, q: Matrix, h: nat, i: nat, j: nat)
    requires IsSquare(p, h) && IsSquare(q, h) && i < h && j < h
    ensures Product(p, q)[i][j] == Dot(p[i], Column(q, j, h))
  {
    assert p[i][..h] == p[i];
    ProductCell(p, q, i, j);
  }

  /** Cell (r, c) of the 2h x 2h product, with the row and the column cut at h. */
  lemma ProductCellSplit(x: Matrix, y: Matrix, h: nat, r: nat, c: nat)
    requires |x| == 2 * h && Covers(x, 2 * h, 2 * h) && Covers(y, 2 * h, 2 * h)
    requires r < 2 * h && c < 2 * h
    ensures Product(x, y)[r][c] ==
      Dot(x[r][..h], Column(y, c, 2 * h)[..h]) + Dot(x[r][h..2 * h], Column(y, c, 2 * h)[h..])
  {
    var u := x[r][..2 * h];
    assert u[..h] == x[r][..h] && u[h..] == x[r][h..2 * h];
    DotSplitAt(u, Column(y, c, 2 * h), h);
    ProductCell(x, y, r, c);
  }

  /** The two half-length dot products of row r0 + i and column c0 + j of
      a 2h x 2h product are row i times column j of the blocks. */
  lemma BlockDots(x: Matrix, y: Matrix, h: nat, r0: nat, c0: nat, i: nat, j: nat,
                  left: Matrix, right: Matrix, top: Matrix, bottom: Matrix)
    requires |x| == 2 * h && Covers(x, 2 * h, 2 * h) && Covers(y, 2 * h, 2 * h)
    requires (r0 == 0 || r0 == h) && (c0 == 0 || c0 == h) && i < h && j < h
    requires left == SubMatrix(x, r0, r0 + h, 0, h) && right == SubMatrix(x, r0, r0 + h, h, 2 * h)
    requires top == SubMatrix(y, 0, h, c0, c0 + h) && bottom == SubMatrix(y, h, 2 * h, c0, c0 + h)
    ensures Dot(x[r0 + i][..h], Column(y, c0 + j, 2 * h)[..h]) == Dot(left[i], Column(top, j, h))
    ensures Dot(x[r0 + i][h..2 * h], Column(y, c0 + j, 2 * h)[h..]) == Dot(right[i], Column(bottom, j, h))
  {
    BlockRow(x, r0, h, i);
    BlockColumn(y, c0, h, j);
  }

  /** Cell (r0 + i, c0 + j) of x * y, for the quadrant whose corner is
      (r0, c0), is the left half of the row block times the top half of the
      column block plus right half times bottom half. */
  lemma ProductBlockCell(x: Matrix, y: Matrix, h: nat, r0: nat, c0: nat, i: nat, j: nat,
                         left: Matrix, right: Matrix, top: Matrix, bottom: Matrix)
    requires |x| == 2 * h && Covers(x, 2 * h, 2 * h) && Covers(y, 2 * h, 2 * h)
    requires (r0 == 0 || r0 == h) && (c0 == 0 || c0 == h) && i < h && j < h
    requires left == SubMatrix(x, r0, r0 + h, 0, h) && right == SubMatrix(x, r0, r0 + h, h, 2 * h)
    requires top == SubMatrix(y, 0, h, c0, c0 + h) && bottom == SubMatrix(y, h, 2 * h, c0, c0 + h)
    ensures Product(x, y)[r0 + i][c0 + j] == Product(left, top)[i][j] + Product(right, bottom)[i][j]
  {
    ProductCellSplit(x, y, h, r0 + i, c0 + j);
    BlockDots(x, y, h, r0, c0, i, j, left, right, top, bottom);
    BlockProductCell(left, top, h, i, j);
    BlockProductCell(right, bottom, h, i, j);
  }

  /** The quadrant of x * y with corner (r0, c0) is the sum of two block
      products: the row blocks left and right of x times the column blocks
      top and bottom of y. */
  lemma ProductQuadrant(x: Matrix, y: Matrix, h: nat, r0: nat, c0: nat,
                        left: Matrix, right: Matrix, top: Matrix, bottom: Matrix)
    requires |x| == 2 * h && Covers(x, 2 * h, 2 * h) && Covers(y, 2 * h, 2 * h)
    requires (r0 == 0 || r0 == h) && (c0 == 0 || c0 == h)
    requires left == SubMatrix(x, r0, r0 + h, 0, h) && right == SubMatrix(x, r0, r0 + h, h, 2 * h)
    requires top == SubMatrix(y, 0, h, c0, c0 + h) && bottom == SubMatrix(y, h, 2 * h, c0, c0 + h)
    ensures SubMatrix(Product(x, y), r0, r0 + h, c0, c0 + h) ==
      Sum(Product(left, top), Product(right, bottom))
  {
    var quadrant := SubMatrix(Product(x, y), r0, r0 + h, c0, c0 + h);
    var blocks := Sum(Product(left, top), Product(right, bottom));
    forall i, j | 0 <= i < h && 0 <= j < h
      ensures quadrant[i][j] == blocks[i][j]
    {
      QuadrantCell(x, y, h, r0, c0, i, j, left, right, top, bottom, quadrant, blocks);
    }
    SameEntriesEqual(quadrant, blocks, h, h);
  }

  /** One cell of ProductQuadrant. */
  lemma QuadrantCell(x: Matrix, y: Matrix, h: nat, r0: nat, c0: nat, i: nat, j: nat,
                     left: Matrix, right: Matrix, top: Matrix, bottom: Matrix,
                     quadrant: Matrix, blocks: Matrix)
    requires |x| == 2 * h && Covers(x, 2 * h, 2 * h) && Covers(y, 2 * h, 2 * h)
    requires (r0 == 0 || r0 == h) && (c0 == 0 || c0 == h) && i < h && j < h
    requires left == SubMatrix(x, r0, r0 + h, 0, h) && right == SubMatrix(x, r0, r0 + h, h, 2 * h)
    requires top == SubMatrix(y, 0, h, c0, c0 + h) && bottom == SubMatrix(y, h, 2 * h, c0, c0 + h)
    requires quadrant == SubMatrix(Product(x, y), r0, r0 + h, c0, c0 + h)
    requires blocks == Sum(Product(left, top), Product(right, bottom))
    ensures quadrant[i][j] == blocks[i][j]
  {
    assert quadrant[i][j] == Product(x, y)[r0 + i][c0 + j];
    ProductBlockCell(x, y, h, r0, c0, i, j, left, right, top, bottom);
  }

  /** Block multiplication: with the quadrants a of x and b of y,
      x * y is the merge of a11 b11 + a12 b21, a11 b12 + a12 b22,
      a21 b11 + a22 b21 and a21 b12 + a22 b22. */
  lemma BlockProduct(x: Matrix, y: Matrix)
    requires Covers(x, |x|, |x|) && Covers(y, |x|, |x|) && |x| % 2 == 0
    ensures var a, b := Split(x, |x|), Split(y, |x|);
      Product(x, y) == Assemble(
        Sum(Product(a.q11, b.q11), Product(a.q12, b.q21)),
        Sum(Product(a.q11, b.q12), Product(a.q12, b.q22)),
        Sum(Product(a.q21, b.q11), Product(a.q22, b.q21)),
        Sum(Product(a.q21, b.q12), Product(a.q22, b.q22)))
  {
    var n, h := |x|, |x| / 2;
    assert n == 2 * h;
    var p := Product(x, y);
    AssembleSplit(p, n);
    var a, b := Split(x, n), Split(y, n);
    ProductQuadrant(x, y, h, 0, 0, a.q11, a.q12, b.q11, b.q21);
    ProductQuadrant(x, y, h, 0, h, a.q11, a.q12, b.q12, b.q22);
    ProductQuadrant(x, y, h, h, 0, a.q21, a.q22, b.q11, b.q21);
    ProductQuadrant(x, y, h, h, h, a.q21, a.q22, b.q12, b.q22);
  }
}
