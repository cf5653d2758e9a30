/** Non-linear facts about row-major index arithmetic `i * cols + j`. */
module Arith {

  lemma {:induction false} MulMono(a: nat, b: nat, n: nat)
    requires a <= b
    ensures a * n <= b * n
  {
  }

  /** Division and remainder by `n` recover the row and the column. */
  lemma {:induction false} MulDivMod(i: nat, j: nat, n: nat)
    requires j < n
    ensures (i * n + j) / n == i && (i * n + j) % n == j
  {
    var x := i * n + j;
    var q, r := x / n, x % n;
    assert x == q * n + r;
    if q > i {
      MulMono(i + 1, q, n);
      assert false;
    } else if q < i {
      MulMono(q + 1, i, n);
      assert false;
    }
  }

  /** An in-range (row, column) pair lands inside a `rows * cols` buffer. */
  lemma {:induction false} IndexBound(i: nat, j: nat, rows: nat, cols: nat)
    requires i < rows && j < cols
    ensures i * cols + j < rows * cols
  {
    MulMono(i + 1, rows, cols);
  }

  /** Every offset of a `rows * cols` buffer splits into an in-range pair. */
  lemma {:induction false} DivBound(p: nat, rows: nat, cols: nat)
    requires p < rows * cols
    ensures cols > 0 && p / cols < rows && p == (p / cols) * cols + p % cols
  {
  }

  /** One halving step of a binary exponent: the low bit goes to the
      accumulated part and the rest to a doubled step. */
  lemma {:induction false} HalveOdd(step: nat, exp: nat)
    requires exp % 2 == 1
    ensures step * exp == step + (step + step) * (exp / 2)
  {
  }

  lemma {:induction false} HalveEven(step: nat, exp: nat)
    requires exp % 2 == 0
    ensures step * exp == (step + step) * (exp / 2)
  {
  }
}
