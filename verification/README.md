# Dense matrices and Markov-chain powers, in Dafny

This project models a small C library for dense matrices and Markov chains.
It covers two files:

- `code/matrix.c` holds a row-major `Matrix`: a row count, a column count and
  a flat buffer in which entry (i, j) sits at offset `i * cols + j`. The file
  provides zero-filled creation, unchecked get and set, and the textbook
  triple-loop product.
- `code/markov.c` builds on it with a deep copy, a row-stochastic test with
  tolerance `eps`, and the k-th power of a square matrix by exponentiation by
  squaring.

Modelling choices:

- Entries are mathematical reals, not doubles. This makes the algebraic laws
  provable: identity, associativity, and the power laws that the squaring
  loop rests on.
- A matrix is a value of the subset type `Dense.Matrix`. Its invariant is that
  the buffer holds exactly `rows * cols` entries.
- A NULL `Matrix *` argument is `None` of `Wrappers.Option`.
- Functions that write through a pointer return the updated value instead. So
  `const` operands and the source of a copy are unchanged by construction.

Modules:

- `Arith` holds the non-linear facts about `i * cols + j` and about halving a
  binary exponent.
- `Dense` models `matrix.c`:
  - `IndexOf`, `Get`, `Set`, `Create` and the method `Multiply`;
  - the reference product `MatMul`, whose entry (i, j) is the dot product
    `Dot` of row i and column j;
  - the identity `Identity`.
- `Algebra` proves the laws of `MatMul`:
  - the identity is a unit on both sides;
  - the product is associative, by exchanging the order of a double sum;
  - an empty inner dimension gives the zero matrix.
- `Markov` models `markov.c`:
  - `Copy` and `IsMarkovChain`, the latter against the reference predicate
    `IsChain`;
  - `MarkovPower`, against the reference definitions `Pow` (with `M^0` the
    identity) and `Product` (the k-fold product `M * ... * M`);
  - the power laws the squaring loop needs.
- `Demo` restates the two scenarios of `code/main.c` as lemmas over exact
  reals.

## Model

| member | source | states |
|---|---|---|
| Dense.IndexOf | code/matrix.c:33-36 | the row-major offset of an in-range (i, j) lies inside the rows * cols buffer |
| Dense.IndexOfInverse | code/matrix.c:33-36 | dividing the offset by cols gives back i, and the remainder gives back j |
| Dense.IndexOfInjective | code/matrix.c:33-36 | two in-range pairs share an offset if and only if they are the same pair |
| Dense.Extensionality | code/matrix.h:23-31 | the buffer is determined by the entries: two matrices of the same shape that agree on every (i, j) are equal |
| Dense.Create | code/matrix.c:43-65 | the new matrix has the requested rows and cols and every entry reads as 0 |
| Dense.Set | code/matrix.c:89-102 | after a set, reading (i, j) gives the stored value, every other in-range entry reads as before, and the shape is unchanged |
| Dense.MatMul | code/matrix.c:126-129 | the product of an m x n and an n x p matrix is m x p, with entry (i, j) the sum over k of a[i][k] * b[k][j] |
| Dense.Multiply | code/matrix.c:109-143 | fails exactly when an operand is missing or A.cols != B.rows; otherwise the result is A.rows x B.cols, each entry is the dot product accumulated from k = 0, and the result equals MatMul(A, B) |
| Algebra.MulEmptyInner | code/matrix.c:132-138 | with A.cols == 0 every dot product is the empty sum, so the product is the zero A.rows x B.cols matrix |
| Algebra.MulRightIdentity | code/markov.c:120-126 | multiplying by the identity on the right changes nothing |
| Algebra.MulLeftIdentity | code/markov.c:120-126 | multiplying by the identity on the left changes nothing, which is why the result can start as the identity |
| Algebra.MulAssociative | code/markov.c:93-101 | (a * b) * c == a * (b * c), the law that lets the squaring loop regroup factors |
| Markov.Copy | code/markov.c:35-51 | the copy has the same rows, cols and entries as the source, and so equals it |
| Markov.IsMarkovChain | code/markov.c:58-86 | false for a missing matrix, false if any entry is below -eps, false if any row sum is more than eps away from 1; true exactly when every row has all entries >= -eps and a sum within eps of 1, whatever the shape |
| Markov.StochasticIsChain | code/markov.h:25-37 | a matrix with non-negative entries and rows summing exactly to 1 passes the test for every eps >= 0 |
| Markov.PerturbationBreaksChain | code/markov.c:79-82 | moving one entry of such a matrix by more than eps, up or down, pushes its row sum out of tolerance, so the test fails |
| Markov.InitIdentity | code/markov.c:120-126 | filling a fresh n x n matrix with 1 on the diagonal and 0 elsewhere yields the identity |
| Markov.PowIsProduct | code/markov.c:174-175 | for k >= 1 the power M^k, which starts from the identity, is the k-fold product M * ... * M |
| Markov.PowAdd | code/markov.c:93-101 | M^p * M^q == M^(p + q) |
| Markov.PowPow | code/markov.c:97-99 | squaring the base repeatedly gives powers of powers: (M^p)^q == M^(p * q) |
| Markov.ProductAdd | code/markov.h:39-51 | the k-fold products form a semigroup: Product(M, p) * Product(M, q) == Product(M, p + q) for p, q >= 1 |
| Markov.LoopInvariant | code/markov.c:139-169 | with result == M^done and base == M^step, result * base^exp == M^(done + step * exp) |
| Markov.MarkovPower | code/markov.c:103-176 | fails exactly when M is missing, k == 0 or M is not square; otherwise it returns an n x n matrix equal to the k-fold product of M, so M itself when k == 1; the loop keeps result * base^exp == M^k while exp halves to 0 |
| Demo.MultiplyScenario | code/main.c:52-84 | [[1, 2, 3], [4, 5, 6]] * [[7, 8], [9, 10], [11, 12]] == [[58, 64], [139, 154]] |
| Demo.ChainIsValid | code/main.c:125-135 | the chain [[0.9, 0.1], [0.5, 0.5]] passes the test with eps = 1e-9 |
| Demo.ChainPowers | code/main.c:140-141 | its square is [[0.86, 0.14], [0.70, 0.30]] and its cube [[0.844, 0.156], [0.78, 0.22]] over exact reals |

## Left out

- `matrix_print` and every `printf` of `code/main.c`: formatted output only.
- `matrix_free`: values are not freed. Freeing, and the frees on the cleanup
  paths of `markov_power`, do nothing observable in a value model.
- Allocation failure is not modelled. `Dense.Create` always succeeds. So the
  NULL returns of `matrix_create` after a failed `malloc` or `calloc` are
  unreachable, and so are the NULL returns of `matrix_copy`, of
  `matrix_multiply` after a failed create, and of `markov_power` after a
  failed create, copy or inner multiply.
- IEEE-754 `double` rounding and `fabs`. Entries are exact reals, so effects
  of summation order in `sum` and `row_sum` are out of scope.
- `size_t` overflow of `rows * cols` and of `i * cols + j`: dimensions and
  indices are unbounded naturals.
- Markov.MarkovPower: `k` is an unbounded natural rather than a 32-bit
  `unsigned int`. `exp & 1U` is written `exp % 2` and `exp >>= 1U` is written
  `exp / 2`; the two agree on naturals.
- Out-of-range indices given to `matrix_get` and `matrix_set`. These are
  undefined behaviour in C; here they are excluded by a precondition.
- `matrix_copy` on a NULL source dereferences it in C. `Markov.Copy` takes a
  present matrix.
