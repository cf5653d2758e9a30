/** The Markov-chain helpers of `code/markov.c`, built on the dense matrix:
    a deep copy, the row-stochastic test with tolerance `eps`, and the k-th
    power of a square matrix by exponentiation by squaring. */
module Markov {
  import opened Wrappers
  import opened Dense
  import Algebra
  import Arith

  /** `matrix_copy`: a fresh matrix of the same shape, filled entry by entry
      from `src`. */
  method Copy(src: Matrix) returns (dst: Matrix)
    ensures dst.rows == src.rows && dst.cols == src.cols
    ensures forall i: nat, j: nat :: i < src.rows && j < src.cols ==> Get(dst, i, j) == Get(src, i, j)
    ensures dst == src
  {
    dst := Create(src.rows, src.cols);
    var i := 0;
    while i < src.rows
      invariant i <= src.rows
      invariant dst.rows == src.rows && dst.cols == src.cols
      invariant forall i': nat, j': nat :: i' < i && j' < src.cols ==> Get(dst, i', j') == Get(src, i', j')
    {
      var j := 0;
      while j < src.cols
        invariant j <= src.cols
        invariant dst.rows == src.rows && dst.cols == src.cols
        invariant forall i': nat, j': nat :: i' < i && j' < src.cols ==> Get(dst, i', j') == Get(src, i', j')
        invariant forall j': nat :: j' < j ==> Get(dst, i, j') == Get(src, i, j')
      {
        var value := Get(src, i, j);
        dst := Set(dst, i, j, value);
        j := j + 1;
      }
      i := i + 1;
    }
    Extensionality(dst, src);
  }

  function Abs(x: real): real
  {
    if x < 0.0 then -x else x
  }

  /** The sum of the first n entries of row i, accumulated from column 0. */
  function RowSum(m: Matrix, i: nat, n: nat): real
    requires i < m.rows && n <= m.cols
  {
    if n == 0 then 0.0 else RowSum(m, i, n - 1) + Get(m, i, n - 1)
  }

  /** Row i is a probability distribution up to `eps`: no entry below -eps
      and a sum within eps of 1. */
  ghost predicate RowWithin(m: Matrix, i: nat, eps: real)
    requires i < m.rows
  {
    (forall j: nat :: j < m.cols ==> Get(m, i, j) >= -eps) &&
    Abs(RowSum(m, i, m.cols) - 1.0) <= eps
  }

  /** A present matrix every row of which is a distribution up to `eps`.
      Squareness is not part of it. */
  ghost predicate IsChain(m: Option<Matrix>, eps: real)
  {
    m.Some? && forall i: nat :: i < m.value.rows ==> RowWithin(m.value, i, eps)
  }

  /** `markov_is_chain`: scans the rows in order, rejecting at the first entry
      below -eps or the first row whose sum is more than eps away from 1. */
  method IsMarkovChain(m: Option<Matrix>, eps: real) returns (ok: bool)
    ensures m.None? ==> !ok
    ensures m.Some? && (exists i: nat, j: nat :: i < m.value.rows && j < m.value.cols && Get(m.value, i, j) < -eps) ==> !ok
    ensures m.Some? && (exists i: nat :: i < m.value.rows && Abs(RowSum(m.value, i, m.value.cols) - 1.0) > eps) ==> !ok
    ensures ok <==> IsChain(m, eps)
  {
    if m.None? {
      return false;
    }
    var M := m.value;
    var i := 0;
    while i < M.rows
      invariant i <= M.rows
      invariant forall i': nat :: i' < i ==> RowWithin(M, i', eps)
    {
      var rowSum := 0.0;
      var j := 0;
      while j < M.cols
        invariant j <= M.cols
        invariant rowSum == RowSum(M, i, j)
        invariant forall j': nat :: j' < j ==> Get(M, i, j') >= -eps
      {
        var val := Get(M, i, j);
        if val < -eps {
          assert !RowWithin(M, i, eps);
          return false;
        }
        rowSum := rowSum + val;
        j := j + 1;
      }
      if Abs(rowSum - 1.0) > eps {
        assert !RowWithin(M, i, eps);
        return false;
      }
      i := i + 1;
    }
    forall i: nat, j: nat | i < M.rows && j < M.cols
      ensures Get(M, i, j) >= -eps
    {
      assert RowWithin(M, i, eps);
    }
    forall i: nat | i < M.rows
      ensures Abs(RowSum(M, i, M.cols) - 1.0) <= eps
    {
      assert RowWithin(M, i, eps);
    }
    return true;
  }

  /** Every entry non-negative and every row summing to exactly 1. */
  ghost predicate RowStochastic(m: Matrix)
  {
    (forall i: nat, j: nat :: i < m.rows && j < m.cols ==> Get(m, i, j) >= 0.0) &&
    (forall i: nat :: i < m.rows ==> RowSum(m, i, m.cols) == 1.0)
  }

  /** An exactly row-stochastic matrix passes the test for every eps >= 0. */
  lemma StochasticIsChain(m: Matrix, eps: real)
    requires RowStochastic(m) && eps >= 0.0
    ensures IsChain(Some(m), eps)
  {
  }

  /** Writing `v` at (i, j) shifts the sum of the first n entries of row i by
      v - m[i][j] when column j is among them, and leaves other rows alone. */
  lemma {:induction false} RowSumAfterSet(m: Matrix, i: nat, j: nat, v: real, r: nat, n: nat)
    requires i < m.rows && j < m.cols && r < m.rows && n <= m.cols
    ensures RowSum(Set(m, i, j, v), r, n)
         == RowSum(m, r, n) + (if r == i && j < n then v - Get(m, i, j) else 0.0)
  {
    if n > 0 {
      RowSumAfterSet(m, i, j, v, r, n - 1);
    }
  }

  /** Moving one entry of a row-stochastic matrix by more than eps, in either
      direction, makes the test fail: its row sum leaves the tolerance. */
  lemma {:induction false} PerturbationBreaksChain(m: Matrix, i: nat, j: nat, d: real, eps: real)
    requires RowStochastic(m) && i < m.rows && j < m.cols
    requires Abs(d) > eps
    ensures !IsChain(Some(Set(m, i, j, Get(m, i, j) + d)), eps)
  {
    var p := Set(m, i, j, Get(m, i, j) + d);
    RowSumAfterSet(m, i, j, Get(m, i, j) + d, i, m.cols);
    assert !RowWithin(p, i, eps);
  }

  /** M^k for a square M, with M^0 the identity: the reference definition. */
  ghost function Pow(m: Matrix, k: nat): (r: Matrix)
    requires m.rows == m.cols
    ensures r.rows == m.rows && r.cols == m.cols
  {
    if k == 0 then Identity(m.rows) else MatMul(Pow(m, k - 1), m)
  }

  /** The k-fold product M * M * ... * M for k >= 1, with no identity involved. */
  ghost function Product(m: Matrix, k: nat): (r: Matrix)
    requires m.rows == m.cols && k >= 1
    ensures r.rows == m.rows && r.cols == m.cols
  {
    if k == 1 then m else MatMul(Product(m, k - 1), m)
  }

  /** For k >= 1 the power is the k-fold product. */
  lemma {:induction false} PowIsProduct(m: Matrix, k: nat)
    requires m.rows == m.cols && k >= 1
    ensures Pow(m, k) == Product(m, k)
  {
    if k == 1 {
      Algebra.MulLeftIdentity(m);
    } else {
      PowIsProduct(m, k - 1);
    }
  }

  /** M^p * M^q == M^(p + q). */
  lemma {:induction false} PowAdd(m: Matrix, p: nat, q: nat)
    requires m.rows == m.cols
    ensures MatMul(Pow(m, p), Pow(m, q)) == Pow(m, p + q)
  {
    if q == 0 {
      Algebra.MulRightIdentity(Pow(m, p));
    } else {
      PowAdd(m, p, q - 1);
      Algebra.MulAssociative(Pow(m, p), Pow(m, q - 1), m);
    }
  }

  /** (M^p)^q == M^(p * q). */
  lemma {:induction false} PowPow(m: Matrix, p: nat, q: nat)
    requires m.rows == m.cols
    ensures Pow(Pow(m, p), q) == Pow(m, p * q)
  {
    if q > 0 {
      PowPow(m, p, q - 1);
      PowAdd(m, p * (q - 1), p);
      assert p * (q - 1) + p == p * q;
    }
  }

  /** The semigroup law of positive powers: M^p * M^q == M^(p + q) for p, q >= 1,
      stated on k-fold products. */
  lemma {:induction false} ProductAdd(m: Matrix, p: nat, q: nat)
    requires m.rows == m.cols && p >= 1 && q >= 1
    ensures MatMul(Product(m, p), Product(m, q)) == Product(m, p + q)
  {
    PowIsProduct(m, p);
    PowIsProduct(m, q);
    PowIsProduct(m, p + q);
    PowAdd(m, p, q);
  }

  /** The identity-initialisation loop of `markov_power`: every (i, j) of a
      fresh n x n matrix is set to 1 on the diagonal and 0 elsewhere. */
  method InitIdentity(n: nat) returns (result: Matrix)
    ensures result == Identity(n)
  {
    result := Create(n, n);
    var i := 0;
    while i < n
      invariant i <= n
      invariant result.rows == n && result.cols == n
      invariant forall i': nat, j': nat :: i' < i && j' < n ==> Get(result, i', j') == if i' == j' then 1.0 else 0.0
    {
      var j := 0;
      while j < n
        invariant j <= n
        invariant result.rows == n && result.cols == n
        invariant forall i': nat, j': nat :: i' < i && j' < n ==> Get(result, i', j') == if i' == j' then 1.0 else 0.0
        invariant forall j': nat :: j' < j ==> Get(result, i, j') == if i == j' then 1.0 else 0.0
      {
        var value := if i == j then 1.0 else 0.0;
        result := Set(result, i, j, value);
        j := j + 1;
      }
      i := i + 1;
    }
    Extensionality(result, Identity(n));
  }

  /** The squaring loop's invariant in terms of its ghost exponents: when
      result == M^done and base == M^step, result * base^exp == M^(done + step * exp). */
  lemma {:induction false} LoopInvariant(m: Matrix, done: nat, step: nat, exp: nat)
    requires m.rows == m.cols
    ensures MatMul(Pow(m, done), Pow(Pow(m, step), exp)) == Pow(m, done + step * exp)
  {
    PowPow(m, step, exp);
    PowAdd(m, done, step * exp);
  }

  /** `markov_power`: M^k by exponentiation by squaring. It fails on a missing
      matrix, on k == 0 and on a non-square matrix; otherwise it returns the
      k-fold product of M with itself. The loop keeps
      result * base^exp == M^k while exp halves down to 0. */
  method MarkovPower(m: Option<Matrix>, k: nat) returns (r: Option<Matrix>)
    ensures r.None? <==> m.None? || k == 0 || m.value.rows != m.value.cols
    ensures r.Some? ==> r.value.rows == m.value.rows && r.value.cols == m.value.cols
    ensures r.Some? ==> r.value == Product(m.value, k)
    ensures r.Some? && k == 1 ==> r.value == m.value
  {
    if m.None? || k == 0 {
      return None;
    }
    var M := m.value;
    if M.rows != M.cols {
      return None;
    }
    var result := InitIdentity(M.rows);
    var base := Copy(M);
    var exp := k;
    ghost var done: nat := 0;
    ghost var step: nat := 1;
    Algebra.MulLeftIdentity(M);
    LoopInvariant(M, 0, 1, k);
    while exp > 0
      invariant result == Pow(M, done) && base == Pow(M, step)
      invariant done + step * exp == k
      invariant MatMul(result, Pow(base, exp)) == Pow(M, k)
      decreases exp
    {
      if exp % 2 == 1 {
        var tmp := Multiply(Some(result), Some(base));
        result := tmp.value;
        PowAdd(M, done, step);
        Arith.HalveOdd(step, exp);
        done := done + step;
      } else {
        Arith.HalveEven(step, exp);
      }
      exp := exp / 2;
      if exp > 0 {
        var tmp := Multiply(Some(base), Some(base));
        base := tmp.value;
        PowAdd(M, step, step);
        step := step + step;
      }
      LoopInvariant(M, done, step, exp);
    }
    PowIsProduct(M, k);
    return Some(result);
  }
}
