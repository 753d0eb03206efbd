/** `rmul`: divide-and-conquer multiplication with eight half-size products
    per level. The source hard-codes the base-case threshold 128; here it is
    the parameter T, and the source is the instance T = SourceThreshold. */
module BlockRecursiveMultiplier {
  import opened Matrices
  import opened BlockOps
  import opened DirectMultiplier
  import opened BlockAlgebra

  /** `rmul`: at or below the threshold the direct product; above it, the
      quadrants of x and y, four sums of two recursive products each, and
      their merge. The recursion terminates because n strictly halves. */
  function RMul(x: Matrix, y: Matrix, T: nat): (r: Matrix)
    requires Covers(x, |x|, |x|) && Covers(y, |x|, |x|) && Halves(|x|, T)
    ensures IsSquare(r, |x|)
    ensures |x| <= T ==> r == Product(x, y)
    decreases |x|, 0
  {
    var n := |x|;
    if n <= T then Product(x, y)
    else
      var h := n / 2;
      var a := Split(x, n);
      var b := Split(y, n);
      assert Halves(h, T) && SquareQuadrants(a, h) && SquareQuadrants(b, h);
      var m1 := SumOfProducts(a.q11, b.q11, a.q12, b.q21, h, T);
      var m2 := SumOfProducts(a.q11, b.q12, a.q12, b.q22, h, T);
      var m3 := SumOfProducts(a.q21, b.q11, a.q22, b.q21, h, T);
      var m4 := SumOfProducts(a.q21, b.q12, a.q22, b.q22, h, T);
      Assemble(m1, m2, m3, m4)
  }

  /** One quadrant of the result: `rmul(p1, q1) + rmul(p2, q2)`. */
  function SumOfProducts(p1: Matrix, q1: Matrix, p2: Matrix, q2: Matrix, h: nat, T: nat): (s: Matrix)
    requires IsSquare(p1, h) && IsSquare(q1, h) && IsSquare(p2, h) && IsSquare(q2, h) && Halves(h, T)
    ensures IsSquare(s, h)
    decreases h, 1
  {
    Sum(RMul(p1, q1, T), RMul(p2, q2, T))
  }

  /** `rmul` computes the textbook product for every admissible size. */
  lemma {:induction false} RMulIsProduct(x: Matrix, y: Matrix, T: nat)
    requires Covers(x, |x|, |x|) && Covers(y, |x|, |x|) && Halves(|x|, T)
    ensures RMul(x, y, T) == Product(x, y)
    decreases |x|
  {
    var n := |x|;
    if n > T {
      var a := Split(x, n);
      var b := Split(y, n);
      RMulIsProduct(a.q11, b.q11, T);
      RMulIsProduct(a.q12, b.q21, T);
      RMulIsProduct(a.q11, b.q12, T);
      RMulIsProduct(a.q12, b.q22, T);
      RMulIsProduct(a.q21, b.q11, T);
      RMulIsProduct(a.q22, b.q21, T);
      RMulIsProduct(a.q21, b.q12, T);
      RMulIsProduct(a.q22, b.q22, T);
      BlockProduct(x, y);
    }
  }

  /** Why the sizes must halve evenly: for odd n the bottom-left slice
      `slice(x, n/2, n, 0, n/2)` has one row more than it has columns, so
      the recursive call on it, which treats its row count as its size,
      reads past the end of its rows. */
  lemma OddSizeBottomLeftNotSquare(m: Matrix, n: nat)
    requires Covers(m, n, n) && n % 2 == 1
    ensures var q21 := Split(m, n).q21; !Covers(q21, |q21|, |q21|)
  {
    var q21 := Split(m, n).q21;
    assert |q21[0]| == n / 2 < |q21|;
  }
}
