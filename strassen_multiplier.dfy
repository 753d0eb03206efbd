/** `smul`: divide-and-conquer multiplication with Strassen's seven
    half-size products per level (V. Strassen, "Gaussian elimination is not
    optimal", 1969). Same threshold discipline as `rmul`. */
module StrassenMultiplier {
  import opened Matrices
  import opened BlockOps
  import opened DirectMultiplier
  import opened BlockAlgebra

  /** The merge of the four quadrants Strassen's formula builds from the
      seven products: (m1 + m4) + (m7 - m5), m3 + m5, m2 + m4 and
      (m3 + m6) + (m1 - m2). */
  function Combine(m1: Matrix, m2: Matrix, m3: Matrix, m4: Matrix,
                   m5: Matrix, m6: Matrix, m7: Matrix): (c: Matrix)
    requires IsSquare(m1, |m1|) && IsSquare(m2, |m1|) && IsSquare(m3, |m1|) && IsSquare(m4, |m1|)
    requires IsSquare(m5, |m1|) && IsSquare(m6, |m1|) && IsSquare(m7, |m1|)
    ensures IsSquare(c, 2 * |m1|)
  {
    Assemble(Sum(Sum(m1, m4), Difference(m7, m5)),
             Sum(m3, m5),
             Sum(m2, m4),
             Sum(Sum(m3, m6), Difference(m1, m2)))
  }

  /** `smul`: at or below the threshold the direct product; above it, one
      Strassen step on the quadrants of x and y. */
  function SMul(x: Matrix, y: Matrix, T: nat): (r: Matrix)
    requires Covers(x, |x|, |x|) && Covers(y, |x|, |x|) && Halves(|x|, T)
    ensures IsSquare(r, |x|)
    ensures |x| <= T ==> r == Product(x, y)
    decreases |x|, 0
  {
    var n := |x|;
    if n <= T then Product(x, y)
    else
      var h := n / 2;
      assert n == 2 * h && Halves(h, T);
      StrassenStep(Split(x, n), Split(y, n), h, T)
  }

  /** The seven recursive products of sums and differences of the quadrants
      a and b, and their combination. */
  function StrassenStep(a: Quadrants, b: Quadrants, h: nat, T: nat): (r: Matrix)
    requires SquareQuadrants(a, h) && SquareQuadrants(b, h) && Halves(h, T)
    ensures IsSquare(r, 2 * h)
    decreases h, 2
  {
    var m1 := SMulSquare(Sum(a.q11, a.q22), Sum(b.q11, b.q22), h, T);
    var m2 := SMulSquare(Sum(a.q21, a.q22), b.q11, h, T);
    var m3 := SMulSquare(a.q11, Difference(b.q12, b.q22), h, T);
    var m4 := SMulSquare(a.q22, Difference(b.q21, b.q11), h, T);
    var m5 := SMulSquare(Sum(a.q11, a.q12), b.q22, h, T);
    var m6 := SMulSquare(Difference(a.q21, a.q11), Sum(b.q11, b.q12), h, T);
    var m7 := SMulSquare(Difference(a.q12, a.q22), Sum(b.q21, b.q22), h, T);
    Combine(m1, m2, m3, m4, m5, m6, m7)
  }

  /** `smul` on two h x h operands. */
  function SMulSquare(p: Matrix, q: Matrix, h: nat, T: nat): (s: Matrix)
    requires IsSquare(p, h) && IsSquare(q, h) && Halves(h, T)
    ensures IsSquare(s, h)
    decreases h, 1
  {
    SMul(p, q, T)
  }

  // ---------------------------------------------------------------------
  // Strassen's identities
  // ---------------------------------------------------------------------

  /** Cell (i, j) of (p1 + p2)(q1 + q2), expanded. */
  lemma ProductOfSums(p1: Matrix, p2: Matrix, q1: Matrix, q2: Matrix, h: nat, i: nat, j: nat)
    requires IsSquare(p1, h) && IsSquare(p2, h) && IsSquare(q1, h) && IsSquare(q2, h)
    requires i < h && j < h
    ensures Product(Sum(p1, p2), Sum(q1, q2))[i][j] ==
      Product(p1, q1)[i][j] + Product(p1, q2)[i][j] + Product(p2, q1)[i][j] + Product(p2, q2)[i][j]
  {
    ProductSumLeft(p1, p2, Sum(q1, q2), h, i, j);
    ProductSumRight(p1, q1, q2, h, i, j);
    ProductSumRight(p2, q1, q2, h, i, j);
  }

  /** Cell (i, j) of (p1 - p2)(q1 + q2), expanded. */
  lemma ProductOfDifferenceAndSum(p1: Matrix, p2: Matrix, q1: Matrix, q2: Matrix, h: nat, i: nat, j: nat)
    requires IsSquare(p1, h) && IsSquare(p2, h) && IsSquare(q1, h) && IsSquare(q2, h)
    requires i < h && j < h
    ensures Product(Difference(p1, p2), Sum(q1, q2))[i][j] ==
      Product(p1, q1)[i][j] + Product(p1, q2)[i][j] - Product(p2, q1)[i][j] - Product(p2, q2)[i][j]
  {
    ProductDifferenceLeft(p1, p2, Sum(q1, q2), h, i, j);
    ProductSumRight(p1, q1, q2, h, i, j);
    ProductSumRight(p2, q1, q2, h, i, j);
  }

  /** Top-left quadrant: (m1 + m4) + (m7 - m5) == a11 b11 + a12 b21. */
  lemma StrassenTopLeft(a: Quadrants, b: Quadrants, h: nat, m1: Matrix, m4: Matrix, m5: Matrix, m7: Matrix)
    requires SquareQuadrants(a, h) && SquareQuadrants(b, h)
    requires m1 == Product(Sum(a.q11, a.q22), Sum(b.q11, b.q22))
    requires m4 == Product(a.q22, Difference(b.q21, b.q11))
    requires m5 == Product(Sum(a.q11, a.q12), b.q22)
    requires m7 == Product(Difference(a.q12, a.q22), Sum(b.q21, b.q22))
    ensures Sum(Sum(m1, m4), Difference(m7, m5)) == Sum(Product(a.q11, b.q11), Product(a.q12, b.q21))
  {
    var lhs := Sum(Sum(m1, m4), Difference(m7, m5));
    var rhs := Sum(Product(a.q11, b.q11), Product(a.q12, b.q21));
    forall i, j | 0 <= i < h && 0 <= j < h
      ensures lhs[i][j] == rhs[i][j]
    {
      ProductOfSums(a.q11, a.q22, b.q11, b.q22, h, i, j);
      ProductDifferenceRight(a.q22, b.q21, b.q11, h, i, j);
      ProductSumLeft(a.q11, a.q12, b.q22, h, i, j);
      ProductOfDifferenceAndSum(a.q12, a.q22, b.q21, b.q22, h, i, j);
    }
    SameEntriesEqual(lhs, rhs, h, h);
  }

  /** Top-right quadrant: m3 + m5 == a11 b12 + a12 b22. */
  lemma StrassenTopRight(a: Quadrants, b: Quadrants, h: nat, m3: Matrix, m5: Matrix)
    requires SquareQuadrants(a, h) && SquareQuadrants(b, h)
    requires m3 == Product(a.q11, Difference(b.q12, b.q22))
    requires m5 == Product(Sum(a.q11, a.q12), b.q22)
    ensures Sum(m3, m5) == Sum(Product(a.q11, b.q12), Product(a.q12, b.q22))
  {
    var lhs := Sum(m3, m5);
    var rhs := Sum(Product(a.q11, b.q12), Product(a.q12, b.q22));
    forall i, j | 0 <= i < h && 0 <= j < h
      ensures lhs[i][j] == rhs[i][j]
    {
      ProductDifferenceRight(a.q11, b.q12, b.q22, h, i, j);
      ProductSumLeft(a.q11, a.q12, b.q22, h, i, j);
    }
    SameEntriesEqual(lhs, rhs, h, h);
  }

  /** Bottom-left quadrant: m2 + m4 == a21 b11 + a22 b21. */
  lemma StrassenBottomLeft(a: Quadrants, b: Quadrants, h: nat, m2: Matrix, m4: Matrix)
    requires SquareQuadrants(a, h) && SquareQuadrants(b, h)
    requires m2 == Product(Sum(a.q21, a.q22), b.q11)
    requires m4 == Product(a.q22, Difference(b.q21, b.q11))
    ensures Sum(m2, m4) == Sum(Product(a.q21, b.q11), Product(a.q22, b.q21))
  {
    var lhs := Sum(m2, m4);
    var rhs := Sum(Product(a.q21, b.q11), Product(a.q22, b.q21));
    forall i, j | 0 <= i < h && 0 <= j < h
      ensures lhs[i][j] == rhs[i][j]
    {
      ProductSumLeft(a.q21, a.q22, b.q11, h, i, j);
      ProductDifferenceRight(a.q22, b.q21, b.q11, h, i, j);
    }
    SameEntriesEqual(lhs, rhs, h, h);
  }

  /** Bottom-right quadrant: (m3 + m6) + (m1 - m2) == a21 b12 + a22 b22. */
  lemma StrassenBottomRight(a: Quadrants, b: Quadrants, h: nat, m1: Matrix, m2: Matrix, m3: Matrix, m6: Matrix)
    requires SquareQuadrants(a, h) && SquareQuadrants(b, h)
    requires m1 == Product(Sum(a.q11, a.q22), Sum(b.q11, b.q22))
    requires m2 == Product(Sum(a.q21, a.q22), b.q11)
    requires m3 == Product(a.q11, Difference(b.q12, b.q22))
    requires m6 == Product(Difference(a.q21, a.q11), Sum(b.q11, b.q12))
    ensures Sum(Sum(m3, m6), Difference(m1, m2)) == Sum(Product(a.q21, b.q12), Product(a.q22, b.q22))
  {
    var lhs := Sum(Sum(m3, m6), Difference(m1, m2));
    var rhs := Sum(Product(a.q21, b.q12), Product(a.q22, b.q22));
    forall i, j | 0 <= i < h && 0 <= j < h
      ensures lhs[i][j] == rhs[i][j]
    {
      ProductOfSums(a.q11, a.q22, b.q11, b.q22, h, i, j);
      ProductSumLeft(a.q21, a.q22, b.q11, h, i, j);
      ProductDifferenceRight(a.q11, b.q12, b.q22, h, i, j);
      ProductOfDifferenceAndSum(a.q21, a.q11, b.q11, b.q12, h, i, j);
    }
    SameEntriesEqual(lhs, rhs, h, h);
  }

  /** Strassen's seven products, combined, give the block product. */
  lemma StrassenCombination(a: Quadrants, b: Quadrants, h: nat,
                            m1: Matrix, m2: Matrix, m3: Matrix, m4: Matrix,
                            m5: Matrix, m6: Matrix, m7: Matrix)
    requires SquareQuadrants(a, h) && SquareQuadrants(b, h)
    requires m1 == Product(Sum(a.q11, a.q22), Sum(b.q11, b.q22))
    requires m2 == Product(Sum(a.q21, a.q22), b.q11)
    requires m3 == Product(a.q11, Difference(b.q12, b.q22))
    requires m4 == Product(a.q22, Difference(b.q21, b.q11))
    requires m5 == Product(Sum(a.q11, a.q12), b.q22)
    requires m6 == Product(Difference(a.q21, a.q11), Sum(b.q11, b.q12))
    requires m7 == Product(Difference(a.q12, a.q22), Sum(b.q21, b.q22))
    ensures Combine(m1, m2, m3, m4, m5, m6, m7) == Assemble(
        Sum(Product(a.q11, b.q11), Product(a.q12, b.q21)),
        Sum(Product(a.q11, b.q12), Product(a.q12, b.q22)),
        Sum(Product(a.q21, b.q11), Product(a.q22, b.q21)),
        Sum(Product(a.q21, b.q12), Product(a.q22, b.q22)))
  {
    StrassenTopLeft(a, b, h, m1, m4, m5, m7);
    StrassenTopRight(a, b, h, m3, m5);
    StrassenBottomLeft(a, b, h, m2, m4);
    StrassenBottomRight(a, b, h, m1, m2, m3, m6);
  }

  // ---------------------------------------------------------------------
  // Correctness of `smul`
  // ---------------------------------------------------------------------

  /** `smul` computes the textbook product for every admissible size. */
  lemma {:induction false} SMulIsProduct(x: Matrix, y: Matrix, T: nat)
    requires Covers(x, |x|, |x|) && Covers(y, |x|, |x|) && Halves(|x|, T)
    ensures SMul(x, y, T) == Product(x, y)
    decreases |x|, 0
  {
    var n := |x|;
    if n > T {
      var h := n / 2;
      assert n == 2 * h && Halves(h, T);
      StrassenStepIsBlockProduct(Split(x, n), Split(y, n), h, T);
      BlockProduct(x, y);
    }
  }

  /** One Strassen step on quadrants a and b gives the merge of the four
      block sums a_i1 b_1j + a_i2 b_2j. */
  lemma {:induction false} StrassenStepIsBlockProduct(a: Quadrants, b: Quadrants, h: nat, T: nat)
    requires SquareQuadrants(a, h) && SquareQuadrants(b, h) && Halves(h, T)
    ensures StrassenStep(a, b, h, T) == Assemble(
        Sum(Product(a.q11, b.q11), Product(a.q12, b.q21)),
        Sum(Product(a.q11, b.q12), Product(a.q12, b.q22)),
        Sum(Product(a.q21, b.q11), Product(a.q22, b.q21)),
        Sum(Product(a.q21, b.q12), Product(a.q22, b.q22)))
    decreases h, 1
  {
    SMulIsProduct(Sum(a.q11, a.q22), Sum(b.q11, b.q22), T);
    SMulIsProduct(Sum(a.q21, a.q22), b.q11, T);
    SMulIsProduct(a.q11, Difference(b.q12, b.q22), T);
    SMulIsProduct(a.q22, Difference(b.q21, b.q11), T);
    SMulIsProduct(Sum(a.q11, a.q12), b.q22, T);
    SMulIsProduct(Difference(a.q21, a.q11), Sum(b.q11, b.q12), T);
    SMulIsProduct(Difference(a.q12, a.q22), Sum(b.q21, b.q22), T);
    StrassenCombination(a, b, h,
      Product(Sum(a.q11, a.q22), Sum(b.q11, b.q22)),
      Product(Sum(a.q21, a.q22), b.q11),
      Product(a.q11, Difference(b.q12, b.q22)),
      Product(a.q22, Difference(b.q21, b.q11)),
      Product(Sum(a.q11, a.q12), b.q22),
      Product(Difference(a.q21, a.q11), Sum(b.q11, b.q12)),
      Product(Difference(a.q12, a.q22), Sum(b.q21, b.q22)));
  }
}
