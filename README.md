# Verified model of the rmatrix multiplication engine

`cpp/rmatrix.cpp` multiplies square integer matrices three ways and checks
that the answers agree:

- `mul`, the direct triple loop;
- `rmul`, recursive block multiplication with eight half-size products per
  level;
- `smul`, recursive multiplication with Strassen's seven half-size products
  per level;

built on the block primitives `operator+`, `operator-`, `slice` and `merge`,
with `compare` as the equality test. A `Mat` is a vector of row vectors,
passed by reference (by const reference everywhere except `compare`) and
returned by value. No operation writes to its operands.

This Dafny project models that engine and proves that all three multipliers
compute the textbook product.

- `matrices.dfy` (module `Matrices`) holds the value representation
  `seq<seq<int>>` and the shape predicates. `Covers(m, rows, cols)` says
  that every cell a loop reads exists.
- `block_ops.dfy` (module `BlockOps`) holds the specification functions
  `Sum`, `Difference`, `SubMatrix` and `Assemble`, and the loop methods
  `Add`, `Subtract`, `Slice` and `Merge`. Each method fills its result cell
  by cell as the source does and is proved to return its function's value.
- `direct_multiplier.dfy` (module `DirectMultiplier`) holds `Product`, the
  sum over k of a[i][k] * b[k][j], and `Mul`. The loop invariant of `Mul`
  states that `acc` holds the partial sum over the first k terms.
- `block_algebra.dfy` (module `BlockAlgebra`) holds the size predicate
  `Halves`, bilinearity of the product, and `BlockProduct`: the product of
  two even-sized matrices computed quadrant by quadrant.
- `recursive_multiplier.dfy` (module `BlockRecursiveMultiplier`) holds
  `rmul` as the function `RMul`.
- `strassen_multiplier.dfy` (module `StrassenMultiplier`) holds `smul` as
  the function `SMul`, together with Strassen's identities.
- `comparison.dfy` (module `Comparison`) holds `compare` and the agreement
  of the three multipliers.

The base-case threshold, hard-coded as 128 in `rmul` and `smul`, is a
parameter `T` here. The source is the instance `T = SourceThreshold = 128`.
A size is admissible when `Halves(n, T)` holds: n is at most T, or n is
even and n / 2 is admissible. These are exactly the sizes t * 2^k with
t <= T.

The model follows the code in what it checks and returns:

- The code checks no dimension. Dimension mismatches, slice bounds that
  leave the matrix and sizes that do not halve are not reported as errors;
  they read past the end of a vector. The model therefore has no error
  results. Instead, every operation requires every cell its loops would
  read when they run to completion, so the requires clauses state what the
  code assumes of its callers. Two operations can stop early and then read
  less; see `Compare` and `Slice` under "Left out". `Slice` also requires
  ordered, non-negative ranges that end inside the matrix
  (`0 <= m1 <= m2 <= |a|` and `0 <= n1 <= n2`), which excludes more calls
  than those reads do. The one error the code does raise, the
  `std::length_error` thrown when `slice` is given a reversed range, is not
  modelled; the `- Slice:` line under "Left out" lists these calls.
- `slice` accepts empty ranges (`m1 == m2` or `n1 == n2`) inside the
  matrix, and so does `Slice`.
- `compare` returns the integers `0` and `-1` rather than a boolean, and
  so does `Compare`.
- Every operation except `slice` reads only the top-left n x n block of
  its operands, with n the row count of the first operand. Larger second
  operands are accepted, as in the code. `slice` reads rows m1 .. m2-1 and
  columns n1 .. n2-1.

## Model

| member | source | states |
|---|---|---|
| DirectMultiplier.Mul | cpp/rmatrix.cpp:34-51 | `mul` returns the textbook product `Product(a, b)` of the n x n blocks, n = rows of a; `acc` is the partial dot product over the first k terms |
| Matrices.Zeros | cpp/rmatrix.cpp:37 | `Mat(rows, Vec(cols, 0))`, the zero matrix every operation starts its result from (also :55, :66, :76, :89), has `rows` rows of `cols` cells |
| DirectMultiplier.Dot | cpp/rmatrix.cpp:43-46 | the value of `acc` after adding u[k] * v[k] for k = 0 upward; its meaning is stated by DotIsFoldFromFront |
| DirectMultiplier.DotIsFoldFromFront | cpp/rmatrix.cpp:43-46 | the running total `acc` ends as the textbook sum of the products, u[0] * v[0] plus the sum of the rest |
| DirectMultiplier.Column | cpp/rmatrix.cpp:44-46 | column j of the first rows of b, the operand `b[k][j]` the inner loop walks |
| DirectMultiplier.Product | cpp/rmatrix.cpp:34-51 | the product of two n x n blocks is an n x n matrix |
| DirectMultiplier.ProductIdentityRight | cpp/rmatrix.cpp:34-51 | a * I == a |
| DirectMultiplier.ProductIdentityLeft | cpp/rmatrix.cpp:34-51 | I * a == a |
| DirectMultiplier.ProductZeroRight | cpp/rmatrix.cpp:34-51 | a * 0 == 0 |
| DirectMultiplier.SmallProduct | cpp/rmatrix.cpp:34-51 | [[1,2],[3,4]] * [[5,6],[7,8]] == [[19,22],[43,50]] |
| DirectMultiplier.DotUnitRight | cpp/rmatrix.cpp:43-46 | the accumulated dot product with a unit vector picks out one entry |
| DirectMultiplier.DotUnitLeft | cpp/rmatrix.cpp:43-46 | the same with the unit vector on the left |
| DirectMultiplier.DotZeroRight | cpp/rmatrix.cpp:43-46 | the accumulated dot product with a zero vector is 0 |
| DirectMultiplier.DotZeroLeft | cpp/rmatrix.cpp:43-46 | the same with the zero vector on the left |
| BlockOps.Add | cpp/rmatrix.cpp:53-62 | `operator+` returns `Sum(a, b)`: n x n with cell (i, j) equal to a[i][j] + b[i][j] |
| BlockOps.Subtract | cpp/rmatrix.cpp:64-73 | `operator-` returns `Difference(a, b)`: n x n with cell (i, j) equal to a[i][j] - b[i][j] |
| BlockOps.Slice | cpp/rmatrix.cpp:75-84 | `slice` returns `SubMatrix`: (m2-m1) x (n2-n1) with cell (i, j) equal to a[m1+i][n1+j], for any in-bounds ranges, empty ones included |
| BlockOps.Merge | cpp/rmatrix.cpp:86-102 | `merge` returns `Assemble`: 2k x 2k with m1, m2, m3, m4 in the top-left, top-right, bottom-left and bottom-right quadrants |
| BlockOps.Sum | cpp/rmatrix.cpp:53-62 | the sum of two n x n blocks is n x n |
| BlockOps.Difference | cpp/rmatrix.cpp:64-73 | the difference of two n x n blocks is n x n |
| BlockOps.SubMatrix | cpp/rmatrix.cpp:75-84 | a slice has m2 - m1 rows of n2 - n1 cells |
| BlockOps.Assemble | cpp/rmatrix.cpp:86-102 | the merge of four k x k blocks is 2k x 2k |
| BlockOps.Split | cpp/rmatrix.cpp:126-134 | the four slices cut at n / 2 have the shapes the code produces, and are h x h squares when n = 2h |
| BlockOps.DifferenceUndoesSum | cpp/rmatrix.cpp:53-73 | (a + b) - b == a |
| BlockOps.SumCommutes | cpp/rmatrix.cpp:53-62 | a + b == b + a |
| BlockOps.SumZerosDifferenceSelf | cpp/rmatrix.cpp:53-73 | a + 0 == a and a - a == 0 |
| BlockOps.AssembleSplit | cpp/rmatrix.cpp:75-102 | merging the four half-size slices of an even-sized square matrix gives it back |
| BlockOps.SplitAssemble | cpp/rmatrix.cpp:75-102 | slicing a merged matrix at k gives back its four parts |
| BlockOps.Owner | cpp/rmatrix.cpp:91-100 | every output cell of `merge` is written from some input cell |
| BlockOps.Target | cpp/rmatrix.cpp:95-98 | the cell step (i, j) of `merge` writes from input q lies inside the 2k x 2k result, in the top half exactly for m1 and m2 and in the left half exactly for m1 and m3 |
| BlockOps.TargetsDistinct | cpp/rmatrix.cpp:95-98 | no two input cells of `merge` are written to the same output cell (follows by unfolding Target) |
| BlockOps.AssembleAtTarget | cpp/rmatrix.cpp:95-98 | the value written at each target cell is the corresponding input cell (follows by unfolding Target and Assemble) |
| BlockAlgebra.Depth | cpp/rmatrix.cpp:122-134 | the number of halvings before the base case is zero exactly when n <= T |
| BlockAlgebra.BaseSize | cpp/rmatrix.cpp:122-123 | halving an admissible size ends at a size at most T |
| BlockAlgebra.ScaledPowerOfTwoHalves | cpp/rmatrix.cpp:122-134 | every size t * 2^k with t <= T halves evenly down to the base case |
| BlockAlgebra.HalvesIsScaledPowerOfTwo | cpp/rmatrix.cpp:122-134 | every admissible size is its base size times a power of two |
| BlockAlgebra.PowersOfTwoHalveAtSourceThreshold | cpp/rmatrix.cpp:122 | with the threshold `SourceThreshold` = 128 of `rmul` (and of `smul` at :148), every power of two is admissible |
| BlockAlgebra.DotAppend | cpp/rmatrix.cpp:44-46 | the dot product of concatenations is the sum of the dot products |
| BlockAlgebra.DotSymmetric | cpp/rmatrix.cpp:44-46 | the dot product is symmetric |
| BlockAlgebra.DotSumLeft | cpp/rmatrix.cpp:44-46 | the dot product distributes over a sum of vectors |
| BlockAlgebra.DotDifferenceLeft | cpp/rmatrix.cpp:44-46 | the dot product distributes over a difference of vectors |
| BlockAlgebra.ProductSumLeft | cpp/rmatrix.cpp:34-62 | (a + b) c == a c + b c, cell by cell |
| BlockAlgebra.ProductDifferenceLeft | cpp/rmatrix.cpp:34-73 | (a - b) c == a c - b c, cell by cell |
| BlockAlgebra.ProductSumRight | cpp/rmatrix.cpp:34-62 | a (b + c) == a b + a c, cell by cell |
| BlockAlgebra.ProductDifferenceRight | cpp/rmatrix.cpp:34-73 | a (b - c) == a b - a c, cell by cell |
| BlockAlgebra.DotSplitAt | cpp/rmatrix.cpp:44-46 | a dot product splits at any index into two partial dot products |
| BlockAlgebra.BlockProductCell | cpp/rmatrix.cpp:34-51 | on an h x h block the product cell is a full-row dot product |
| BlockAlgebra.ProductCellSplit | cpp/rmatrix.cpp:34-51 | a cell of a 2h x 2h product splits into the dot products of the first and second halves |
| BlockAlgebra.ProductBlockCell | cpp/rmatrix.cpp:126-139 | a cell of one quadrant of x y is the same cell of left*top + right*bottom |
| BlockAlgebra.ProductQuadrant | cpp/rmatrix.cpp:126-139 | each quadrant of x y equals left*top + right*bottom over the slices |
| BlockAlgebra.BlockProduct | cpp/rmatrix.cpp:126-141 | x y is the merge of a11 b11 + a12 b21, a11 b12 + a12 b22, a21 b11 + a22 b21 and a21 b12 + a22 b22 |
| BlockRecursiveMultiplier.RMul | cpp/rmatrix.cpp:119-142 | `rmul` returns an n x n matrix, and exactly `mul(x, y)` when n <= T; it terminates because n strictly halves |
| BlockRecursiveMultiplier.SumOfProducts | cpp/rmatrix.cpp:136-139 | each quadrant rmul(p1, q1) + rmul(p2, q2) is h x h |
| BlockRecursiveMultiplier.RMulIsProduct | cpp/rmatrix.cpp:119-142 | `rmul` equals the textbook product for every admissible size |
| BlockRecursiveMultiplier.OddSizeBottomLeftNotSquare | cpp/rmatrix.cpp:126-134 | for odd n the slice a21 has more rows than columns, so the recursive call on it reads past its rows |
| StrassenMultiplier.Combine | cpp/rmatrix.cpp:170-174 | the merge of Strassen's four combinations of m1..m7 is 2k x 2k |
| StrassenMultiplier.SMul | cpp/rmatrix.cpp:145-175 | `smul` returns an n x n matrix, and exactly `mul(x, y)` when n <= T |
| StrassenMultiplier.StrassenStep | cpp/rmatrix.cpp:162-174 | the seven products and their combination give a 2h x 2h matrix |
| StrassenMultiplier.SMulSquare | cpp/rmatrix.cpp:162-168 | `smul` of two h x h operands is h x h |
| StrassenMultiplier.ProductOfSums | cpp/rmatrix.cpp:162 | (p1 + p2)(q1 + q2) expands into four products, cell by cell |
| StrassenMultiplier.ProductOfDifferenceAndSum | cpp/rmatrix.cpp:167-168 | (p1 - p2)(q1 + q2) expands into four signed products, cell by cell |
| StrassenMultiplier.StrassenTopLeft | cpp/rmatrix.cpp:171 | (m1 + m4) + (m7 - m5) == a11 b11 + a12 b21 |
| StrassenMultiplier.StrassenTopRight | cpp/rmatrix.cpp:172 | m3 + m5 == a11 b12 + a12 b22 |
| StrassenMultiplier.StrassenBottomLeft | cpp/rmatrix.cpp:173 | m2 + m4 == a21 b11 + a22 b21 |
| StrassenMultiplier.StrassenBottomRight | cpp/rmatrix.cpp:174 | (m3 + m6) + (m1 - m2) == a21 b12 + a22 b22 |
| StrassenMultiplier.StrassenCombination | cpp/rmatrix.cpp:162-174 | the merge of Strassen's combinations of the seven products is the block product |
| StrassenMultiplier.StrassenStepIsBlockProduct | cpp/rmatrix.cpp:162-174 | one Strassen step on the quadrants gives the merge of the four block sums |
| StrassenMultiplier.SMulIsProduct | cpp/rmatrix.cpp:145-175 | `smul` equals the textbook product for every admissible size |
| Comparison.Compare | cpp/rmatrix.cpp:104-116 | `compare` returns 0 exactly when the n x n blocks agree in every cell, and -1 otherwise |
| Comparison.SameEntriesIffEqual | cpp/rmatrix.cpp:104-116 | on two n x n matrices, agreeing in every cell is the same as being equal |
| Comparison.MultipliersAgree | cpp/rmatrix.cpp:119-175 | the results of `mul`, `rmul` and `smul` compare equal for every admissible size |

## Left out

- `init` fills a matrix from `rand()`, which is hidden global state. It is not modelled.
- `show` only prints to the console. It is not modelled.
- `test_1` and `main` are a timing and reporting driver built on `chrono` and floating-point arithmetic. They are not modelled. Their use of `compare` on the three results is stated by `MultipliersAgree`.
- The commented-out OpenMP pragma and thread print do not change behaviour and are not modelled.
- Mul: does not model 32-bit `int` overflow of `acc`, because overflow of a signed `int` is undefined behaviour in C++. Entries are unbounded integers.
- Add: does not model 32-bit overflow of `a[i][j] + b[i][j]`, for the same reason.
- Subtract: does not model 32-bit overflow of `a[i][j] - b[i][j]`, for the same reason.
- RMul: requires an admissible size (`Halves`) and the threshold as a parameter. The code accepts any size, and for odd sizes above 128 it reads past the end of a row, which is undefined behaviour (see Findings).
- SMul: has the same size precondition as `RMul`, for the same reason.
- Compare: requires both n x n blocks to exist. `compare` returns -1 at the first mismatch, so it also accepts a shorter y whose missing cells lie after that mismatch, for example x = [[1,2],[3,4]] and y = [[0]]. Those inputs are not modelled. Every call in the source compares two results of the same size.
- Slice: requires `InBounds(a, m1, m2, n1, n2)`: natural bounds with m1 <= m2 <= |a| and n1 <= n2, and rows m1 .. m2-1 holding at least n2 cells each. This is more than the cells the loops read, and three kinds of call the source accepts are not modelled. (1) When n1 == n2 the loops read no cell, so `slice` accepts missing rows, for example `slice(a, 0, 3, 0, 0)` on an empty a. (2) When m1 == m2 the loops read no cell either, so `slice` returns the empty matrix even for a start past the end or below zero, for example `slice(a, 5, 5, 0, 3)` on an empty a. (3) When m2 < m1 or n2 < n1, the size `m2-m1` or `n2-n1` is negative. Converted to the vector's unsigned size type it becomes huge, and the `Vec` or `Mat` constructor throws `std::length_error`, for example `slice(a, 2, 1, 0, 0)`. The model has no exceptions, so this error result is not modelled. Every call in the source slices inside an n x n operand, with ordered ranges.
- The inputs of every operation are left unchanged. This holds because matrices are values here, so it is not stated separately.

## Findings

| source | as written | input that shows it | evidently intended | confidence | as-written member | corrected member |
|---|---|---|---|---|---|---|
| cpp/rmatrix.cpp:119-142 | `rmul` and `smul` cut at `n/2` without checking that n is even | any x of odd size n > 128, such as n = 129: the slice a21 is 65 x 64, and `rmul(a21, b12)` calls `mul`, which reads a21[i][64] | sizes that halve evenly down to the base case; the note at cpp/rmatrix.cpp:35 asks for powers of two, and the code is correct on the wider set t * 2^k with t <= 128 | not executed; medium | BlockRecursiveMultiplier.OddSizeBottomLeftNotSquare | BlockRecursiveMultiplier.RMulIsProduct |
