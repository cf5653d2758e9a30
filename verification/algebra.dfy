/** Algebraic laws of the modelled product: the identity matrix is a two-sided
    unit, the product is associative, and an empty inner dimension gives the
    zero matrix. Exponentiation by squaring rests on these. */
module Algebra {
  import opened Dense

  /** Multiplying row i of `a` by the identity keeps exactly the entries of
      that row among the first n columns. */
  lemma {:induction false} DotRightIdentity(a: Matrix, i: nat, j: nat, n: nat)
    requires i < a.rows && j < a.cols && n <= a.cols
    ensures Dot(a, Identity(a.cols), i, j, n) == if j < n then Get(a, i, j) else 0.0
  {
    if n > 0 {
      DotRightIdentity(a, i, j, n - 1);
    }
  }

  /** Multiplying the identity by column j of `a` keeps exactly the entries of
      that column among the first n rows. */
  lemma {:induction false} DotLeftIdentity(a: Matrix, i: nat, j: nat, n: nat)
    requires i < a.rows && j < a.cols && n <= a.rows
    ensures Dot(Identity(a.rows), a, i, j, n) == if i < n then Get(a, i, j) else 0.0
  {
    if n > 0 {
      DotLeftIdentity(a, i, j, n - 1);
    }
  }

  /** a * I == a. */
  lemma MulRightIdentity(a: Matrix)
    ensures MatMul(a, Identity(a.cols)) == a
  {
    forall i: nat, j: nat | i < a.rows && j < a.cols
      ensures Get(MatMul(a, Identity(a.cols)), i, j) == Get(a, i, j)
    {
      DotRightIdentity(a, i, j, a.cols);
    }
    Extensionality(MatMul(a, Identity(a.cols)), a);
  }

  /** I * a == a. */
  lemma MulLeftIdentity(a: Matrix)
    ensures MatMul(Identity(a.rows), a) == a
  {
    forall i: nat, j: nat | i < a.rows && j < a.cols
      ensures Get(MatMul(Identity(a.rows), a), i, j) == Get(a, i, j)
    {
      DotLeftIdentity(a, i, j, a.rows);
    }
    Extensionality(MatMul(Identity(a.rows), a), a);
  }

  /** One term a[i][k] * b[k][l] * c[l][j] of entry (i, j) of a triple
      product. */
  function Term(a: Matrix, b: Matrix, c: Matrix, i: nat, j: nat, k: nat, l: nat): real
    requires a.cols == b.rows && b.cols == c.rows && i < a.rows && j < c.cols
    requires k < a.cols && l < b.cols
  {
    Get(a, i, k) * Get(b, k, l) * Get(c, l, j)
  }

  /** The sum over k < N of the terms with middle column l. */
  function ColumnTerms(a: Matrix, b: Matrix, c: Matrix, i: nat, j: nat, l: nat, N: nat): real
    requires a.cols == b.rows && b.cols == c.rows && i < a.rows && j < c.cols
    requires l < b.cols && N <= a.cols
  {
    if N == 0 then 0.0 else ColumnTerms(a, b, c, i, j, l, N - 1) + Term(a, b, c, i, j, N - 1, l)
  }

  /** The sum over l < L of the terms with inner index k. */
  function RowTerms(a: Matrix, b: Matrix, c: Matrix, i: nat, j: nat, k: nat, L: nat): real
    requires a.cols == b.rows && b.cols == c.rows && i < a.rows && j < c.cols
    requires k < a.cols && L <= b.cols
  {
    if L == 0 then 0.0 else RowTerms(a, b, c, i, j, k, L - 1) + Term(a, b, c, i, j, k, L - 1)
  }

  /** The double sum over l < L, then k < N: entry (i, j) of (a * b) * c with
      both sums cut short. */
  function LeftNested(a: Matrix, b: Matrix, c: Matrix, i: nat, j: nat, L: nat, N: nat): real
    requires a.cols == b.rows && b.cols == c.rows && i < a.rows && j < c.cols
    requires L <= b.cols && N <= a.cols
  {
    if L == 0 then 0.0 else LeftNested(a, b, c, i, j, L - 1, N) + ColumnTerms(a, b, c, i, j, L - 1, N)
  }

  /** The double sum over k < N, then l < L: entry (i, j) of a * (b * c) with
      both sums cut short. */
  function RightNested(a: Matrix, b: Matrix, c: Matrix, i: nat, j: nat, N: nat, L: nat): real
    requires a.cols == b.rows && b.cols == c.rows && i < a.rows && j < c.cols
    requires N <= a.cols && L <= b.cols
  {
    if N == 0 then 0.0 else RightNested(a, b, c, i, j, N - 1, L) + RowTerms(a, b, c, i, j, N - 1, L)
  }

  /** Factoring c[l][j] out of a column of terms leaves a partial dot product
      of a and b. */
  lemma {:induction false} ColumnTermsFactor(a: Matrix, b: Matrix, c: Matrix, i: nat, j: nat, l: nat, N: nat)
    requires a.cols == b.rows && b.cols == c.rows && i < a.rows && j < c.cols
    requires l < b.cols && N <= a.cols
    ensures ColumnTerms(a, b, c, i, j, l, N) == Dot(a, b, i, l, N) * Get(c, l, j)
  {
    if N > 0 {
      ColumnTermsFactor(a, b, c, i, j, l, N - 1);
    }
  }

  /** Factoring a[i][k] out of a row of terms leaves a partial dot product
      of b and c. */
  lemma {:induction false} RowTermsFactor(a: Matrix, b: Matrix, c: Matrix, i: nat, j: nat, k: nat, L: nat)
    requires a.cols == b.rows && b.cols == c.rows && i < a.rows && j < c.cols
    requires k < a.cols && L <= b.cols
    ensures RowTerms(a, b, c, i, j, k, L) == Get(a, i, k) * Dot(b, c, k, j, L)
  {
    if L > 0 {
      RowTermsFactor(a, b, c, i, j, k, L - 1);
    }
  }

  /** With no inner terms the left nesting is zero. */
  lemma {:induction false} LeftNestedEmpty(a: Matrix, b: Matrix, c: Matrix, i: nat, j: nat, L: nat)
    requires a.cols == b.rows && b.cols == c.rows && i < a.rows && j < c.cols
    requires L <= b.cols
    ensures LeftNested(a, b, c, i, j, L, 0) == 0.0
  {
    if L > 0 {
      LeftNestedEmpty(a, b, c, i, j, L - 1);
    }
  }

  /** Extending the inner sum of the left nesting by k = N adds the row of
      terms with inner index N. */
  lemma {:induction false} LeftNestedStep(a: Matrix, b: Matrix, c: Matrix, i: nat, j: nat, L: nat, N: nat)
    requires a.cols == b.rows && b.cols == c.rows && i < a.rows && j < c.cols
    requires L <= b.cols && N < a.cols
    ensures LeftNested(a, b, c, i, j, L, N + 1)
         == LeftNested(a, b, c, i, j, L, N) + RowTerms(a, b, c, i, j, N, L)
  {
    if L > 0 {
      LeftNestedStep(a, b, c, i, j, L - 1, N);
    }
  }

  /** The two nestings are the same double sum, taken in either order. */
  lemma {:induction false} NestedSwap(a: Matrix, b: Matrix, c: Matrix, i: nat, j: nat, L: nat, N: nat)
    requires a.cols == b.rows && b.cols == c.rows && i < a.rows && j < c.cols
    requires L <= b.cols && N <= a.cols
    ensures LeftNested(a, b, c, i, j, L, N) == RightNested(a, b, c, i, j, N, L)
  {
    if N == 0 {
      LeftNestedEmpty(a, b, c, i, j, L);
    } else {
      NestedSwap(a, b, c, i, j, L, N - 1);
      LeftNestedStep(a, b, c, i, j, L, N - 1);
    }
  }

  /** The l-th term of entry (i, j) of p * c, where entry (i, l) of p is
      row i of a dotted with column l of b, is a column of terms: taking it
      into the dot product adds that column. */
  lemma {:induction false} LeftProductTerm(a: Matrix, b: Matrix, c: Matrix, p: Matrix, i: nat, j: nat, l: nat)
    requires a.cols == b.rows && b.cols == c.rows && i < a.rows && j < c.cols
    requires p.rows == a.rows && p.cols == b.cols && l < b.cols
    requires Get(p, i, l) == Dot(a, b, i, l, a.cols)
    ensures Dot(p, c, i, j, l + 1) == Dot(p, c, i, j, l) + ColumnTerms(a, b, c, i, j, l, a.cols)
  {
    ColumnTermsFactor(a, b, c, i, j, l, a.cols);
  }

  /** The k-th term of entry (i, j) of a * q, where entry (k, j) of q is
      row k of b dotted with column j of c, is a row of terms: taking it
      into the dot product adds that row. */
  lemma {:induction false} RightProductTerm(a: Matrix, b: Matrix, c: Matrix, q: Matrix, i: nat, j: nat, k: nat)
    requires a.cols == b.rows && b.cols == c.rows && i < a.rows && j < c.cols
    requires q.rows == b.rows && q.cols == c.cols && k < a.cols
    requires Get(q, k, j) == Dot(b, c, k, j, b.cols)
    ensures Dot(a, q, i, j, k + 1) == Dot(a, q, i, j, k) + RowTerms(a, b, c, i, j, k, b.cols)
  {
    RowTermsFactor(a, b, c, i, j, k, b.cols);
  }

  /** Entry (i, j) of p * c, where p is the product a * b, cut after L terms,
      is the left nesting. */
  lemma {:induction false} DotOfLeftProduct(a: Matrix, b: Matrix, c: Matrix, p: Matrix, i: nat, j: nat, L: nat)
    requires a.cols == b.rows && b.cols == c.rows && i < a.rows && j < c.cols
    requires IsProduct(a, b, p) && L <= b.cols
    ensures Dot(p, c, i, j, L) == LeftNested(a, b, c, i, j, L, a.cols)
  {
    if L > 0 {
      DotOfLeftProduct(a, b, c, p, i, j, L - 1);
      LeftProductTerm(a, b, c, p, i, j, L - 1);
    }
  }

  /** Entry (i, j) of a * q, where q is the product b * c, cut after N terms,
      is the right nesting. */
  lemma {:induction false} DotOfRightProduct(a: Matrix, b: Matrix, c: Matrix, q: Matrix, i: nat, j: nat, N: nat)
    requires a.cols == b.rows && b.cols == c.rows && i < a.rows && j < c.cols
    requires IsProduct(b, c, q) && N <= a.cols
    ensures Dot(a, q, i, j, N) == RightNested(a, b, c, i, j, N, b.cols)
  {
    if N > 0 {
      DotOfRightProduct(a, b, c, q, i, j, N - 1);
      RightProductTerm(a, b, c, q, i, j, N - 1);
    }
  }

  /** (a * b) * c == a * (b * c). */
  lemma MulAssociative(a: Matrix, b: Matrix, c: Matrix)
    requires a.cols == b.rows && b.cols == c.rows
    ensures MatMul(MatMul(a, b), c) == MatMul(a, MatMul(b, c))
  {
    var p, q := MatMul(a, b), MatMul(b, c);
    var left, right := MatMul(p, c), MatMul(a, q);
    forall i: nat, j: nat | i < a.rows && j < c.cols
      ensures Get(left, i, j) == Get(right, i, j)
    {
      DotOfLeftProduct(a, b, c, p, i, j, b.cols);
      DotOfRightProduct(a, b, c, q, i, j, a.cols);
      NestedSwap(a, b, c, i, j, b.cols, a.cols);
    }
    Extensionality(left, right);
  }

  /** With no inner dimension every dot product is empty, so the product is
      the zero a.rows x b.cols matrix. */
  lemma MulEmptyInner(a: Matrix, b: Matrix)
    requires a.cols == 0 && b.rows == 0
    ensures MatMul(a, b) == Create(a.rows, b.cols)
  {
    Extensionality(MatMul(a, b), Create(a.rows, b.cols));
  }
}
