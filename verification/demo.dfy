/** The two scenarios of the demo driver `code/main.c`, stated over exact
    reals: the 2 x 3 by 3 x 2 product, and the 2-state chain with its
    second and third powers. */
module Demo {
  import opened Wrappers
  import opened Dense
  import opened Markov

  /** The product of a 2 x 3 and a 3 x 2 matrix, written out. */
  lemma Mul2x3x2(p: Matrix, q: Matrix)
    requires p.rows == 2 && p.cols == 3 && q.rows == 3 && q.cols == 2
    ensures MatMul(p, q) == RawMatrix(2, 2, [
              p.data[0] * q.data[0] + p.data[1] * q.data[2] + p.data[2] * q.data[4],
              p.data[0] * q.data[1] + p.data[1] * q.data[3] + p.data[2] * q.data[5],
              p.data[3] * q.data[0] + p.data[4] * q.data[2] + p.data[5] * q.data[4],
              p.data[3] * q.data[1] + p.data[4] * q.data[3] + p.data[5] * q.data[5]])
  {
    var c: Matrix := RawMatrix(2, 2, [
      p.data[0] * q.data[0] + p.data[1] * q.data[2] + p.data[2] * q.data[4],
      p.data[0] * q.data[1] + p.data[1] * q.data[3] + p.data[2] * q.data[5],
      p.data[3] * q.data[0] + p.data[4] * q.data[2] + p.data[5] * q.data[4],
      p.data[3] * q.data[1] + p.data[4] * q.data[3] + p.data[5] * q.data[5]]);
    forall i: nat, j: nat | i < 2 && j < 2
      ensures Get(MatMul(p, q), i, j) == Get(c, i, j)
    {
      assert Dot(p, q, i, j, 1) == Get(p, i, 0) * Get(q, 0, j);
      assert Dot(p, q, i, j, 2) == Get(p, i, 0) * Get(q, 0, j) + Get(p, i, 1) * Get(q, 1, j);
      assert Dot(p, q, i, j, 3) == Get(p, i, 0) * Get(q, 0, j) + Get(p, i, 1) * Get(q, 1, j) + Get(p, i, 2) * Get(q, 2, j);
      assert Get(p, i, 0) == p.data[3 * i] && Get(p, i, 1) == p.data[3 * i + 1] && Get(p, i, 2) == p.data[3 * i + 2];
      assert Get(q, 0, j) == q.data[j] && Get(q, 1, j) == q.data[2 + j] && Get(q, 2, j) == q.data[4 + j];
      assert Get(c, i, j) == c.data[2 * i + j];
    }
    Extensionality(MatMul(p, q), c);
  }

  /** [[1, 2, 3], [4, 5, 6]] * [[7, 8], [9, 10], [11, 12]] == [[58, 64], [139, 154]]. */
  lemma MultiplyScenario()
    ensures MatMul(RawMatrix(2, 3, [1.0, 2.0, 3.0, 4.0, 5.0, 6.0]),
                   RawMatrix(3, 2, [7.0, 8.0, 9.0, 10.0, 11.0, 12.0]))
         == RawMatrix(2, 2, [58.0, 64.0, 139.0, 154.0])
  {
    Mul2x3x2(RawMatrix(2, 3, [1.0, 2.0, 3.0, 4.0, 5.0, 6.0]), RawMatrix(3, 2, [7.0, 8.0, 9.0, 10.0, 11.0, 12.0]));
  }

  /** The transition matrix [[0.9, 0.1], [0.5, 0.5]]. */
  function Chain(): Matrix
  {
    RawMatrix(2, 2, [0.9, 0.1, 0.5, 0.5])
  }

  /** It passes the test with eps = 1e-9. */
  lemma ChainIsValid()
    ensures IsChain(Some(Chain()), 0.000000001)
  {
  }

  /** The product of two 2 x 2 matrices, written out. */
  lemma Mul2x2(p: Matrix, q: Matrix)
    requires p.rows == 2 && p.cols == 2 && q.rows == 2 && q.cols == 2
    ensures MatMul(p, q) == RawMatrix(2, 2, [
              p.data[0] * q.data[0] + p.data[1] * q.data[2], p.data[0] * q.data[1] + p.data[1] * q.data[3],
              p.data[2] * q.data[0] + p.data[3] * q.data[2], p.data[2] * q.data[1] + p.data[3] * q.data[3]])
  {
    var c: Matrix := RawMatrix(2, 2, [
      p.data[0] * q.data[0] + p.data[1] * q.data[2], p.data[0] * q.data[1] + p.data[1] * q.data[3],
      p.data[2] * q.data[0] + p.data[3] * q.data[2], p.data[2] * q.data[1] + p.data[3] * q.data[3]]);
    forall i: nat, j: nat | i < 2 && j < 2
      ensures Get(MatMul(p, q), i, j) == Get(c, i, j)
    {
      assert Dot(p, q, i, j, 1) == Get(p, i, 0) * Get(q, 0, j);
      assert Dot(p, q, i, j, 2) == Get(p, i, 0) * Get(q, 0, j) + Get(p, i, 1) * Get(q, 1, j);
      assert Get(p, i, 0) == p.data[2 * i] && Get(p, i, 1) == p.data[2 * i + 1];
      assert Get(q, 0, j) == q.data[j] && Get(q, 1, j) == q.data[2 + j];
      assert Get(c, i, j) == c.data[2 * i + j];
    }
    Extensionality(MatMul(p, q), c);
  }

  /** Its square is [[0.86, 0.14], [0.70, 0.30]] and its cube
      [[0.844, 0.156], [0.78, 0.22]], exactly. */
  lemma ChainPowers()
    ensures Product(Chain(), 2) == RawMatrix(2, 2, [0.86, 0.14, 0.70, 0.30])
    ensures Product(Chain(), 3) == RawMatrix(2, 2, [0.844, 0.156, 0.78, 0.22])
  {
    var m := Chain();
    var m2: Matrix := RawMatrix(2, 2, [0.86, 0.14, 0.70, 0.30]);
    Mul2x2(m, m);
    Mul2x2(m2, m);
  }
}
