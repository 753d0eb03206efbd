/** `compare`: the cell-by-cell equality test used to check the three
    multipliers against each other. */
module Comparison {
  import opened Matrices
  import opened DirectMultiplier
  import opened BlockAlgebra
  import opened BlockRecursiveMultiplier
  import opened StrassenMultiplier

  /** x and y agree on every cell of their top-left n x n blocks. */
  predicate SameEntries(x: Matrix, y: Matrix, n: nat)
    requires Covers(x, n, n) && Covers(y, n, n)
  {
    forall i, j :: 0 <= i < n && 0 <= j < n ==> x[i][j] == y[i][j]
  }

  /** `compare`: n = |x|; scans the cells row by row and returns -1 at the
      first cell where x and y differ, 0 when there is none. */
  method Compare(x: Matrix, y: Matrix) returns (r: int)
    requires Covers(x, |x|, |x|) && Covers(y, |x|, |x|)
    ensures r == 0 <==> SameEntries(x, y, |x|)
    ensures r == 0 || r == -1
  {
    var n := |x|;
    for i := 0 to n
      invariant forall p, q :: 0 <= p < i && 0 <= q < n ==> x[p][q] == y[p][q]
    {
      for j := 0 to n
        invariant forall p, q :: 0 <= p < i && 0 <= q < n ==> x[p][q] == y[p][q]
        invariant forall q :: 0 <= q < j ==> x[i][q] == y[i][q]
      {
        if x[i][j] != y[i][j] {
          return -1;
        }
      }
    }
    return 0;
  }

  /** On two n x n matrices, `compare` reports equality exactly when the
      matrices are equal. */
  lemma SameEntriesIffEqual(x: Matrix, y: Matrix, n: nat)
    requires IsSquare(x, n) && IsSquare(y, n)
    ensures SameEntries(x, y, n) <==> x == y
  {
    if SameEntries(x, y, n) {
      SameEntriesEqual(x, y, n, n);
    }
  }

  /** The three multipliers agree: for every admissible size the results of
      `mul`, `rmul` and `smul` compare equal. */
  lemma MultipliersAgree(x: Matrix, y: Matrix, T: nat)
    requires Covers(x, |x|, |x|) && Covers(y, |x|, |x|) && Halves(|x|, T)
    ensures SameEntries(Product(x, y), RMul(x, y, T), |x|)
    ensures SameEntries(Product(x, y), SMul(x, y, T), |x|)
  {
    RMulIsProduct(x, y, T);
    SMulIsProduct(x, y, T);
  }
}
