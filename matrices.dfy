/** Integer matrices as values: the representation every component of the
    multiplication engine shares. The source's `Mat` is a vector of row
    vectors, passed by reference, never written through, and returned by
    value, so a matrix here is an immutable sequence of rows. */
module Matrices {

  /** A matrix in row-major order: m[i][j] is the entry in row i, column j. */
  type Matrix = seq<seq<int>>

  /** m has exactly `rows` rows, each of exactly `cols` entries. */
  predicate IsRect(m: Matrix, rows: nat, cols: nat) {
    |m| == rows && forall i :: 0 <= i < rows ==> |m[i]| == cols
  }

  /** m is an n x n matrix. */
  predicate IsSquare(m: Matrix, n: nat) {
    IsRect(m, n, n)
  }

  /** Every cell m[i][j] with m1 <= i < m2 and n1 <= j < n2 exists, so a
      loop over those cells reads only inside the vectors. */
  predicate InBounds(m: Matrix, m1: nat, m2: nat, n1: nat, n2: nat) {
    m1 <= m2 <= |m| && n1 <= n2 && forall i :: m1 <= i < m2 ==> n2 <= |m[i]|
  }

  /** The top-left rows x cols block of m exists. */
  predicate Covers(m: Matrix, rows: nat, cols: nat) {
    InBounds(m, 0, rows, 0, cols)
  }

  /** The zero-filled rows x cols matrix, the value `Mat(rows, Vec(cols, 0))`
      that every operation of the source starts its result from. */
  function Zeros(rows: nat, cols: nat): (z: Matrix)
    ensures IsRect(z, rows, cols)
  {
    seq(rows, _ => seq(cols, _ => 0))
  }

  /** Two matrices of one shape that agree in every cell are the same value. */
  lemma SameEntriesEqual(x: Matrix, y: Matrix, rows: nat, cols: nat)
    requires IsRect(x, rows, cols) && IsRect(y, rows, cols)
    requires forall i, j :: 0 <= i < rows && 0 <= j < cols ==> x[i][j] == y[i][j]
    ensures x == y
  {
    forall i | 0 <= i < rows
      ensures x[i] == y[i]
    {
      assert forall j :: 0 <= j < cols ==> x[i][j] == y[i][j];
    }
  }
}
