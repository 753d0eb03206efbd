/** Block primitives of the multiplication engine: elementwise `operator+`
    and `operator-`, `slice` and `merge`. Each is a specification function
    over matrix values and a method that fills its result cell by cell in
    nested loops, as the source does, proved to return that function's value. */
module BlockOps {
  import opened Matrices

  // ---------------------------------------------------------------------
  // Specification functions
  // ---------------------------------------------------------------------

  /** Elementwise sum of the top-left n x n blocks of a and b, n = |a|. */
  function Sum(a: Matrix, b: Matrix): (s: Matrix)
    requires Covers(a, |a|, |a|) && Covers(b, |a|, |a|)
    ensures IsSquare(s, |a|)
  {
    seq(|a|, i requires 0 <= i < |a| => seq(|a|, j requires 0 <= j < |a| => a[i][j] + b[i][j]))
  }

  /** Elementwise difference of the top-left n x n blocks of a and b, n = |a|. */
  function Difference(a: Matrix, b: Matrix): (d: Matrix)
    requires Covers(a, |a|, |a|) && Covers(b, |a|, |a|)
    ensures IsSquare(d, |a|)
  {
    seq(|a|, i requires 0 <= i < |a| => seq(|a|, j requires 0 <= j < |a| => a[i][j] - b[i][j]))
  }

  /** Rows m1 .. m2-1 and columns n1 .. n2-1 of a, renumbered from zero. */
  function SubMatrix(a: Matrix, m1: nat, m2: nat, n1: nat, n2: nat): (s: Matrix)
    requires InBounds(a, m1, m2, n1, n2)
    ensures IsRect(s, m2 - m1, n2 - n1)
  {
    seq(m2 - m1, i requires 0 <= i < m2 - m1 =>
      seq(n2 - n1, j requires 0 <= j < n2 - n1 => a[m1 + i][n1 + j]))
  }

  /** The 2k x 2k matrix, k = |m1|, with m1 top-left, m2 top-right,
      m3 bottom-left and m4 bottom-right. */
  function Assemble(m1: Matrix, m2: Matrix, m3: Matrix, m4: Matrix): (m: Matrix)
    requires Covers(m1, |m1|, |m1|) && Covers(m2, |m1|, |m1|)
    requires Covers(m3, |m1|, |m1|) && Covers(m4, |m1|, |m1|)
    ensures IsSquare(m, 2 * |m1|)
  {
    var k := |m1|;
    seq(2 * k, i requires 0 <= i < 2 * k =>
      seq(2 * k, j requires 0 <= j < 2 * k =>
        if i < k && j < k then m1[i][j]
        else if i < k then m2[i][j - k]
        else if j < k then m3[i - k][j]
        else m4[i - k][j - k]))
  }

  /** The four blocks a recursive step cuts an n x n matrix into. */
  datatype Quadrants = Quadrants(q11: Matrix, q12: Matrix, q21: Matrix, q22: Matrix)

  /** All four quadrants are h x h. */
  predicate SquareQuadrants(q: Quadrants, h: nat) {
    IsSquare(q.q11, h) && IsSquare(q.q12, h) && IsSquare(q.q21, h) && IsSquare(q.q22, h)
  }

  /** The four slices the recursive multipliers take of an n x n operand,
      cut at row and column n / 2. */
  function Split(m: Matrix, n: nat): (q: Quadrants)
    requires Covers(m, n, n)
    ensures IsRect(q.q11, n / 2, n / 2) && IsRect(q.q12, n / 2, n - n / 2)
    ensures IsRect(q.q21, n - n / 2, n / 2) && IsRect(q.q22, n - n / 2, n - n / 2)
    ensures n % 2 == 0 ==> SquareQuadrants(q, n / 2)
  {
    var h := n / 2;
    Quadrants(SubMatrix(m, 0, h, 0, h), SubMatrix(m, 0, h, h, n),
              SubMatrix(m, h, n, 0, h), SubMatrix(m, h, n, h, n))
  }

  // ---------------------------------------------------------------------
  // The source's loops
  // ---------------------------------------------------------------------

  /** `operator+`: n = |a|, and the sum is written cell by cell. */
  method Add(a: Matrix, b: Matrix) returns (m: Matrix)
    requires Covers(a, |a|, |a|) && Covers(b, |a|, |a|)
    ensures m == Sum(a, b)
  {
    var n := |a|;
    m := Zeros(n, n);
    for i := 0 to n
      invariant IsSquare(m, n)
      invariant forall r, c :: 0 <= r < i && 0 <= c < n ==> m[r][c] == a[r][c] + b[r][c]
    {
      for j := 0 to n
        invariant IsSquare(m, n)
        invariant forall r, c :: 0 <= r < i && 0 <= c < n ==> m[r][c] == a[r][c] + b[r][c]
        invariant forall c :: 0 <= c < j ==> m[i][c] == a[i][c] + b[i][c]
      {
        m := m[i := m[i][j := a[i][j] + b[i][j]]];
      }
    }
    SameEntriesEqual(m, Sum(a, b), n, n);
  }

  /** `operator-`: n = |a|, and the difference is written cell by cell. */
  method Subtract(a: Matrix, b: Matrix) returns (m: Matrix)
    requires Covers(a, |a|, |a|) && Covers(b, |a|, |a|)
    ensures m == Difference(a, b)
  {
    var n := |a|;
    m := Zeros(n, n);
    for i := 0 to n
      invariant IsSquare(m, n)
      invariant forall r, c :: 0 <= r < i && 0 <= c < n ==> m[r][c] == a[r][c] - b[r][c]
    {
      for j := 0 to n
        invariant IsSquare(m, n)
        invariant forall r, c :: 0 <= r < i && 0 <= c < n ==> m[r][c] == a[r][c] - b[r][c]
        invariant forall c :: 0 <= c < j ==> m[i][c] == a[i][c] - b[i][c]
      {
        m := m[i := m[i][j := a[i][j] - b[i][j]]];
      }
    }
    SameEntriesEqual(m, Difference(a, b), n, n);
  }

  /** `slice`: the loops run over the source coordinates i in [m1, m2),
      j in [n1, n2) and write cell (i - m1, j - n1) of the result. */
  method Slice(a: Matrix, m1: nat, m2: nat, n1: nat, n2: nat) returns (m: Matrix)
    requires InBounds(a, m1, m2, n1, n2)
    ensures m == SubMatrix(a, m1, m2, n1, n2)
  {
    m := Zeros(m2 - m1, n2 - n1);
    for i := m1 to m2
      invariant IsRect(m, m2 - m1, n2 - n1)
      invariant forall r, c :: 0 <= r < i - m1 && 0 <= c < n2 - n1 ==> m[r][c] == a[m1 + r][n1 + c]
    {
      var row := i - m1;
      for j := n1 to n2
        invariant IsRect(m, m2 - m1, n2 - n1)
        invariant forall r, c :: 0 <= r < i - m1 && 0 <= c < n2 - n1 ==> m[r][c] == a[m1 + r][n1 + c]
        invariant forall c :: 0 <= c < j - n1 ==> m[row][c] == a[i][n1 + c]
      {
        m := m[row := m[row][j - n1 := a[i][j]]];
      }
    }
    SameEntriesEqual(m, SubMatrix(a, m1, m2, n1, n2), m2 - m1, n2 - n1);
  }

  /** `merge`: k = |m1|; each step (i, j) writes cell (i, j) of all four
      quadrants of the 2k x 2k result. */
  method Merge(m1: Matrix, m2: Matrix, m3: Matrix, m4: Matrix) returns (m: Matrix)
    requires Covers(m1, |m1|, |m1|) && Covers(m2, |m1|, |m1|)
    requires Covers(m3, |m1|, |m1|) && Covers(m4, |m1|, |m1|)
    ensures m == Assemble(m1, m2, m3, m4)
  {
    var k := |m1|;
    m := Zeros(2 * k, 2 * k);
    for i := 0 to k
      invariant IsSquare(m, 2 * k)
      invariant forall r, c :: 0 <= r < i && 0 <= c < k ==> m[r][c] == m1[r][c]
      invariant forall r, c :: 0 <= r < i && 0 <= c < k ==> m[r][c + k] == m2[r][c]
      invariant forall r, c :: 0 <= r < i && 0 <= c < k ==> m[r + k][c] == m3[r][c]
      invariant forall r, c :: 0 <= r < i && 0 <= c < k ==> m[r + k][c + k] == m4[r][c]
    {
      // Rows i and i + k of m, which step (i, j) writes at columns j and j + k.
      var top, bottom := m[i], m[i + k];
      for j := 0 to k
        invariant |top| == 2 * k && |bottom| == 2 * k
        invariant forall c :: 0 <= c < j ==> top[c] == m1[i][c] && top[c + k] == m2[i][c]
        invariant forall c :: 0 <= c < j ==> bottom[c] == m3[i][c] && bottom[c + k] == m4[i][c]
      {
        top := top[j := m1[i][j]][j + k := m2[i][j]];
        bottom := bottom[j := m3[i][j]][j + k := m4[i][j]];
      }
      m := m[i := top][i + k := bottom];
    }
    AssembleFromQuadrantCells(m, m1, m2, m3, m4, k);
  }

  /** A 2k x 2k matrix holding the top-left k x k blocks of m1, m2, m3 and
      m4 cell for cell in its four quadrants is their merge. */
  lemma AssembleFromQuadrantCells(m: Matrix, m1: Matrix, m2: Matrix, m3: Matrix, m4: Matrix, k: nat)
    requires IsSquare(m, 2 * k) && |m1| == k
    requires Covers(m1, k, k) && Covers(m2, k, k) && Covers(m3, k, k) && Covers(m4, k, k)
    requires forall r, c :: 0 <= r < k && 0 <= c < k ==> m[r][c] == m1[r][c]
    requires forall r, c :: 0 <= r < k && 0 <= c < k ==> m[r][c + k] == m2[r][c]
    requires forall r, c :: 0 <= r < k && 0 <= c < k ==> m[r + k][c] == m3[r][c]
    requires forall r, c :: 0 <= r < k && 0 <= c < k ==> m[r + k][c + k] == m4[r][c]
    ensures m == Assemble(m1, m2, m3, m4)
  {
    var whole := Assemble(m1, m2, m3, m4);
    forall r, c | 0 <= r < 2 * k && 0 <= c < 2 * k
      ensures m[r][c] == whole[r][c]
    {
      if r < k && c < k {
      } else if r < k {
        assert m[r][(c - k) + k] == m2[r][c - k];
      } else if c < k {
        assert m[(r - k) + k][c] == m3[r - k][c];
      } else {
        assert m[(r - k) + k][(c - k) + k] == m4[r - k][c - k];
      }
    }
    SameEntriesEqual(m, whole, 2 * k, 2 * k);
  }

  // ---------------------------------------------------------------------
  // Properties of the primitives
  // ---------------------------------------------------------------------

  /** Subtracting b undoes adding it. */
  lemma DifferenceUndoesSum(a: Matrix, b: Matrix, n: nat)
    requires IsSquare(a, n) && IsSquare(b, n)
    ensures Difference(Sum(a, b), b) == a
  {
    SameEntriesEqual(Difference(Sum(a, b), b), a, n, n);
  }

  /** Adding is commutative. */
  lemma SumCommutes(a: Matrix, b: Matrix, n: nat)
    requires IsSquare(a, n) && IsSquare(b, n)
    ensures Sum(a, b) == Sum(b, a)
  {
    SameEntriesEqual(Sum(a, b), Sum(b, a), n, n);
  }

  /** Adding the zero matrix changes nothing, and a matrix minus itself is zero. */
  lemma SumZerosDifferenceSelf(a: Matrix, n: nat)
    requires IsSquare(a, n)
    ensures Sum(a, Zeros(n, n)) == a
    ensures Difference(a, a) == Zeros(n, n)
  {
    SameEntriesEqual(Sum(a, Zeros(n, n)), a, n, n);
    SameEntriesEqual(Difference(a, a), Zeros(n, n), n, n);
  }

  /** Round trip: merging the four half-size slices of an even-sized square
      matrix gives the matrix back. */
  lemma AssembleSplit(m: Matrix, n: nat)
    requires IsSquare(m, n) && n % 2 == 0
    ensures var q := Split(m, n); Assemble(q.q11, q.q12, q.q21, q.q22) == m
  {
    var q := Split(m, n);
    var whole := Assemble(q.q11, q.q12, q.q21, q.q22);
    var h := n / 2;
    forall r, c | 0 <= r < n && 0 <= c < n
      ensures whole[r][c] == m[r][c]
    {
      if r < h && c < h {
      } else if r < h {
        assert q.q12[r][c - h] == m[r][h + (c - h)];
      } else if c < h {
        assert q.q21[r - h][c] == m[h + (r - h)][c];
      } else {
        assert q.q22[r - h][c - h] == m[h + (r - h)][h + (c - h)];
      }
    }
    SameEntriesEqual(whole, m, n, n);
  }

  /** The other round trip: slicing a merged matrix gives back its four parts. */
  lemma SplitAssemble(m1: Matrix, m2: Matrix, m3: Matrix, m4: Matrix, k: nat)
    requires IsSquare(m1, k) && IsSquare(m2, k) && IsSquare(m3, k) && IsSquare(m4, k)
    ensures Split(Assemble(m1, m2, m3, m4), 2 * k) == Quadrants(m1, m2, m3, m4)
  {
    var m := Assemble(m1, m2, m3, m4);
    assert (2 * k) / 2 == k;
    var q := Split(m, 2 * k);
    forall i, j | 0 <= i < k && 0 <= j < k
      ensures q.q11[i][j] == m1[i][j] && q.q12[i][j] == m2[i][j]
      ensures q.q21[i][j] == m3[i][j] && q.q22[i][j] == m4[i][j]
    {
      assert q.q11[i][j] == m[i][j];
      assert q.q12[i][j] == m[i][k + j];
      assert q.q21[i][j] == m[k + i][j];
      assert q.q22[i][j] == m[k + i][k + j];
    }
    SameEntriesEqual(q.q11, m1, k, k);
    SameEntriesEqual(q.q12, m2, k, k);
    SameEntriesEqual(q.q21, m3, k, k);
    SameEntriesEqual(q.q22, m4, k, k);
  }

  /** The cell of the 2k x 2k result that `merge` writes from cell (i, j) of
      its input number q (1 = m1, 2 = m2, 3 = m3, 4 = m4). */
  function Target(q: nat, i: nat, j: nat, k: nat): (t: (nat, nat))
    requires 1 <= q <= 4 && i < k && j < k
    ensures t.0 < 2 * k && t.1 < 2 * k
    ensures (t.0 < k <==> q == 1 || q == 2) && (t.1 < k <==> q == 1 || q == 3)
  {
    (if q <= 2 then i else i + k, if q % 2 == 1 then j else j + k)
  }

  /** Input number q and cell (i, j) of it that output cell (r, c) comes from. */
  function Owner(r: nat, c: nat, k: nat): (o: (nat, nat, nat))
    requires r < 2 * k && c < 2 * k
    ensures 1 <= o.0 <= 4 && o.1 < k && o.2 < k
    ensures Target(o.0, o.1, o.2, k) == (r, c)
  {
    if r < k && c < k then (1, r, c)
    else if r < k then (2, r, c - k)
    else if c < k then (3, r - k, c)
    else (4, r - k, c - k)
  }

  /** No two input cells of `merge` land on the same output cell; with
      Owner, every output cell is written from exactly one input cell. */
  lemma TargetsDistinct(q1: nat, i1: nat, j1: nat, q2: nat, i2: nat, j2: nat, k: nat)
    requires 1 <= q1 <= 4 && 1 <= q2 <= 4 && i1 < k && j1 < k && i2 < k && j2 < k
    requires Target(q1, i1, j1, k) == Target(q2, i2, j2, k)
    ensures q1 == q2 && i1 == i2 && j1 == j2
  {
  }

  /** The value `merge` writes at Target(q, i, j, k) is cell (i, j) of input q. */
  lemma AssembleAtTarget(m1: Matrix, m2: Matrix, m3: Matrix, m4: Matrix, k: nat, q: nat, i: nat, j: nat)
    requires IsSquare(m1, k) && IsSquare(m2, k) && IsSquare(m3, k) && IsSquare(m4, k)
    requires 1 <= q <= 4 && i < k && j < k
    ensures var t := Target(q, i, j, k);
      Assemble(m1, m2, m3, m4)[t.0][t.1] ==
        (if q == 1 then m1 else if q == 2 then m2 else if q == 3 then m3 else m4)[i][j]
  {
  }
}
