/** The dense row-major matrix of `code/matrix.c`: a flat buffer of
    `rows * cols` entries in which entry (i, j) sits at offset `i * cols + j`.
    Entries are mathematical reals; a NULL `Matrix *` is `None`. */
module Dense {
  import opened Wrappers
  import Arith

  datatype RawMatrix = RawMatrix(rows: nat, cols: nat, data: seq<real>)

  /** The representation invariant: the buffer holds exactly rows * cols entries. */
  type Matrix = m: RawMatrix | |m.data| == m.rows * m.cols witness RawMatrix(0, 0, [])

  /** Row-major offset of entry (i, j); it always lies inside the buffer. */
  function IndexOf(m: Matrix, i: nat, j: nat): (p: nat)
    requires i < m.rows && j < m.cols
    ensures p < |m.data|
  {
    Arith.IndexBound(i, j, m.rows, m.cols);
    i * m.cols + j
  }

  /** Row and column are recovered from the offset by division and remainder. */
  lemma {:induction false} IndexOfInverse(m: Matrix, i: nat, j: nat)
    requires i < m.rows && j < m.cols
    ensures IndexOf(m, i, j) / m.cols == i && IndexOf(m, i, j) % m.cols == j
  {
    Arith.MulDivMod(i, j, m.cols);
  }

  /** Distinct in-range pairs never share a buffer slot. */
  lemma {:induction false} IndexOfInjective(m: Matrix, i: nat, j: nat, i': nat, j': nat)
    requires i < m.rows && j < m.cols && i' < m.rows && j' < m.cols
    ensures IndexOf(m, i, j) == IndexOf(m, i', j') <==> i == i' && j == j'
  {
    IndexOfInverse(m, i, j);
    IndexOfInverse(m, i', j');
  }

  /** Reads entry (i, j); the caller keeps the indices in range. */
  function Get(m: Matrix, i: nat, j: nat): real
    requires i < m.rows && j < m.cols
  {
    m.data[IndexOf(m, i, j)]
  }

  /** Two matrices of the same shape that agree on every entry are equal. */
  lemma Extensionality(a: Matrix, b: Matrix)
    requires a.rows == b.rows && a.cols == b.cols
    requires forall i: nat, j: nat :: i < a.rows && j < a.cols ==> Get(a, i, j) == Get(b, i, j)
    ensures a == b
  {
    forall p | 0 <= p < |a.data|
      ensures a.data[p] == b.data[p]
    {
      Arith.DivBound(p, a.rows, a.cols);
      var i, j := p / a.cols, p % a.cols;
      assert IndexOf(a, i, j) == p;
      assert Get(a, i, j) == Get(b, i, j);
    }
  }

  /** A rows x cols matrix whose every entry is 0. */
  function Create(rows: nat, cols: nat): (m: Matrix)
    ensures m.rows == rows && m.cols == cols
    ensures forall i: nat, j: nat :: i < rows && j < cols ==> Get(m, i, j) == 0.0
  {
    RawMatrix(rows, cols, seq(rows * cols, _ => 0.0))
  }

  /** Writes `v` at (i, j): that entry reads back as `v`, every other entry and
      the shape are unchanged. */
  function Set(m: Matrix, i: nat, j: nat, v: real): (r: Matrix)
    requires i < m.rows && j < m.cols
    ensures r.rows == m.rows && r.cols == m.cols
    ensures Get(r, i, j) == v
    ensures forall i': nat, j': nat :: i' < m.rows && j' < m.cols && (i' != i || j' != j) ==>
              Get(r, i', j') == Get(m, i', j')
  {
    forall i': nat, j': nat | i' < m.rows && j' < m.cols
      ensures IndexOf(m, i', j') == IndexOf(m, i, j) ==> i' == i && j' == j
    {
      IndexOfInjective(m, i, j, i', j');
    }
    m.(data := m.data[IndexOf(m, i, j) := v])
  }

  /** The first n terms of the dot product of row i of `a` with column j of
      `b`: the sum over k < n of a[i][k] * b[k][j], accumulated from k = 0
      upward. The full dot product takes n = a.cols. */
  function Dot(a: Matrix, b: Matrix, i: nat, j: nat, n: nat): real
    requires a.cols == b.rows && i < a.rows && j < b.cols && n <= a.cols
  {
    if n == 0 then 0.0 else Dot(a, b, i, j, n - 1) + Get(a, i, n - 1) * Get(b, n - 1, j)
  }

  /** The rows x cols matrix whose entry (i, j) is f(i, j), laid out row by
      row: the first rows - 1 rows followed by the last one. */
  function Tabulate(rows: nat, cols: nat, f: (nat, nat) -> real): (m: Matrix)
    ensures m.rows == rows && m.cols == cols
    ensures forall i: nat, j: nat :: i < rows && j < cols ==> Get(m, i, j) == f(i, j)
    decreases rows
  {
    if rows == 0 then RawMatrix(0, cols, [])
    else
      var top := Tabulate(rows - 1, cols, f);
      var last := seq(cols, (j: int) requires 0 <= j < cols => f(rows - 1, j));
      assert |top.data + last| == rows * cols;
      var m := RawMatrix(rows, cols, top.data + last);
      assert forall i: nat, j: nat :: i < rows && j < cols ==> Get(m, i, j) == f(i, j) by {
        forall i: nat, j: nat | i < rows && j < cols
          ensures Get(m, i, j) == f(i, j)
        {
          if i < rows - 1 {
            assert IndexOf(m, i, j) == IndexOf(top, i, j);
          } else {
            assert IndexOf(m, i, j) == |top.data| + j;
          }
        }
      }
      m
  }

  /** `c` is the product of `a` and `b`: it has a.rows rows and b.cols
      columns, and entry (i, j) is the full dot product of row i of `a` with
      column j of `b`. */
  ghost predicate IsProduct(a: Matrix, b: Matrix, c: Matrix)
    requires a.cols == b.rows
  {
    c.rows == a.rows && c.cols == b.cols &&
    forall i: nat, j: nat :: i < c.rows && j < c.cols ==> Get(c, i, j) == Dot(a, b, i, j, a.cols)
  }

  /** The mathematical product of an m x n and an n x p matrix, characterised
      by its shape and entries only (its buffer is the one `Tabulate` lays out,
      and `Extensionality` makes it unique). */
  ghost function MatMul(a: Matrix, b: Matrix): (c: Matrix)
    requires a.cols == b.rows
    ensures c.rows == a.rows && c.cols == b.cols
    ensures forall i: nat, j: nat :: i < c.rows && j < c.cols ==> Get(c, i, j) == Dot(a, b, i, j, a.cols)
  {
    assert IsProduct(a, b, Tabulate(a.rows, b.cols, (i: nat, j: nat) => if i < a.rows && j < b.cols then Dot(a, b, i, j, a.cols) else 0.0));
    var c :| IsProduct(a, b, c); c
  }

  /** The n x n identity matrix: ones on the diagonal, zeros elsewhere. */
  ghost function Identity(n: nat): (m: Matrix)
    ensures m.rows == n && m.cols == n
    ensures forall i: nat, j: nat :: i < n && j < n ==> Get(m, i, j) == if i == j then 1.0 else 0.0
  {
    var t := Tabulate(n, n, (i: nat, j: nat) => if i == j then 1.0 else 0.0);
    assert t.rows == n && t.cols == n && forall i: nat, j: nat :: i < n && j < n ==> Get(t, i, j) == if i == j then 1.0 else 0.0;
    var m: Matrix :| m.rows == n && m.cols == n && forall i: nat, j: nat :: i < n && j < n ==> Get(m, i, j) == if i == j then 1.0 else 0.0;
    m
  }

  /** `matrix_multiply`: the triple loop. It fails on a missing operand or when
      the inner dimensions disagree; otherwise it returns the a.rows x b.cols
      product, each entry the dot product accumulated from k = 0 upward. */
  method Multiply(a: Option<Matrix>, b: Option<Matrix>) returns (c: Option<Matrix>)
    ensures c.None? <==> a.None? || b.None? || a.value.cols != b.value.rows
    ensures c.Some? ==> c.value.rows == a.value.rows && c.value.cols == b.value.cols
    ensures c.Some? ==> forall i: nat, j: nat :: i < c.value.rows && j < c.value.cols ==>
              Get(c.value, i, j) == Dot(a.value, b.value, i, j, a.value.cols)
    ensures c.Some? ==> c.value == MatMul(a.value, b.value)
  {
    if a.None? || b.None? {
      return None;
    }
    var A, B := a.value, b.value;
    if A.cols != B.rows {
      return None;
    }
    var C := Create(A.rows, B.cols);
    var i := 0;
    while i < A.rows
      invariant i <= A.rows
      invariant C.rows == A.rows && C.cols == B.cols
      invariant forall i': nat, j': nat :: i' < i && j' < B.cols ==> Get(C, i', j') == Dot(A, B, i', j', A.cols)
    {
      var j := 0;
      while j < B.cols
        invariant j <= B.cols
        invariant C.rows == A.rows && C.cols == B.cols
        invariant forall i': nat, j': nat :: i' < i && j' < B.cols ==> Get(C, i', j') == Dot(A, B, i', j', A.cols)
        invariant forall j': nat :: j' < j ==> Get(C, i, j') == Dot(A, B, i, j', A.cols)
      {
        var sum := 0.0;
        var k := 0;
        while k < A.cols
          invariant k <= A.cols
          invariant sum == Dot(A, B, i, j, k)
        {
          var x := Get(A, i, k);
          var y := Get(B, k, j);
          sum := sum + x * y;
          k := k + 1;
        }
        C := Set(C, i, j, sum);
        j := j + 1;
      }
      i := i + 1;
    }
    Extensionality(C, MatMul(A, B));
    return Some(C);
  }
}
