/** Exact real linear algebra over explicit finite sums: the tensor primitives
    (`torch.mm`, `torch.sparse.mm`, `einsum`) that the convolution engine
    orchestrates, stated as sums rather than as floating-point kernels. */
module LinAlg {

  /** A dense matrix, row-major: `A[i][j]` is row i, column j. */
  type Matrix = seq<seq<real>>

  /** f(0) + f(1) + ... + f(n-1). */
  function Sum(n: nat, f: int -> real): real
  {
    if n == 0 then 0.0 else Sum(n - 1, f) + f(n - 1)
  }

  lemma {:induction false} SumExt(n: nat, f: int -> real, g: int -> real)
    requires forall i :: 0 <= i < n ==> f(i) == g(i)
    ensures Sum(n, f) == Sum(n, g)
  {
    if n > 0 {
      SumExt(n - 1, f, g);
    }
  }

  lemma {:induction false} SumZero(n: nat, f: int -> real)
    requires forall i :: 0 <= i < n ==> f(i) == 0.0
    ensures Sum(n, f) == 0.0
  {
    if n > 0 {
      SumZero(n - 1, f);
    }
  }

  lemma {:induction false} SumAdd(n: nat, f: int -> real, g: int -> real, h: int -> real)
    requires forall i :: 0 <= i < n ==> h(i) == f(i) + g(i)
    ensures Sum(n, h) == Sum(n, f) + Sum(n, g)
  {
    if n > 0 {
      SumAdd(n - 1, f, g, h);
    }
  }

  lemma {:induction false} SumSub(n: nat, f: int -> real, g: int -> real, h: int -> real)
    requires forall i :: 0 <= i < n ==> h(i) == f(i) - g(i)
    ensures Sum(n, h) == Sum(n, f) - Sum(n, g)
  {
    if n > 0 {
      SumSub(n - 1, f, g, h);
    }
  }

  lemma {:induction false} SumScale(n: nat, c: real, f: int -> real, h: int -> real)
    requires forall i :: 0 <= i < n ==> h(i) == c * f(i)
    ensures Sum(n, h) == c * Sum(n, f)
  {
    if n > 0 {
      SumScale(n - 1, c, f, h);
    }
  }

  /** A sum whose only non-zero term is at index j. */
  lemma {:induction false} SumDelta(n: nat, j: nat, c: real, f: int -> real)
    requires forall i :: 0 <= i < n ==> f(i) == (if i == j then c else 0.0)
    ensures Sum(n, f) == if j < n then c else 0.0
  {
    if n > 0 {
      SumDelta(n - 1, j, c, f);
    }
  }

  /** Splitting the index range [0, a+b) at a. */
  lemma {:induction false} SumConcat(a: nat, b: nat, f: int -> real)
    ensures Sum(a + b, f) == Sum(a, f) + Sum(b, j => f(a + j))
  {
    if b > 0 {
      SumConcat(a, b - 1, f);
    }
  }

  /** The sum up to base + m splits at base, the tail read through r. */
  lemma {:induction false} SumBlock(base: nat, m: nat, h: int -> real, r: int -> real)
    requires forall j :: 0 <= j < m ==> h(base + j) == r(j)
    ensures Sum(base + m, h) == Sum(base, h) + Sum(m, r)
  {
    if m > 0 {
      SumBlock(base, m - 1, h, r);
    }
  }

  /** A double sum, the outer index below n, the inner below m. */
  function Sum2(n: nat, m: nat, R: (int, int) -> real): real
  {
    Sum(n, i => Inner(m, R, i))
  }

  /** The inner sum of row i. */
  function Inner(m: nat, R: (int, int) -> real, i: int): real
  {
    Sum(m, j => R(i, j))
  }

  /** A sum over a flattened n x m axis is the double sum of the terms it unflattens to. */
  lemma {:induction false} SumRows(n: nat, m: nat, h: int -> real, R: (int, int) -> real)
    requires forall i, j :: 0 <= i < n && 0 <= j < m ==> h(i * m + j) == R(i, j)
    ensures Sum(n * m, h) == Sum2(n, m, R)
  {
    if n > 0 {
      SumRows(n - 1, m, h, R);
      SumBlock((n - 1) * m, m, h, j => R(n - 1, j));
      assert (n - 1) * m + m == n * m;
    }
  }

  lemma {:induction false} SumSwap(n: nat, m: nat, F: (int, int) -> real)
    ensures Sum(n, i => Sum(m, j => F(i, j))) == Sum(m, j => Sum(n, i => F(i, j)))
  {
    if n > 0 {
      SumSwap(n - 1, m, F);
      SumAdd(m, j => Sum(n - 1, i => F(i, j)), j => F(n - 1, j), j => Sum(n, i => F(i, j)));
    } else {
      SumZero(m, j => Sum(n, i => F(i, j)));
    }
  }

  /** A double sum may run over its two indices in either order. */
  lemma Sum2Swap(n: nat, m: nat, R: (int, int) -> real, Q: (int, int) -> real)
    requires forall i, j :: 0 <= i < n && 0 <= j < m ==> Q(j, i) == R(i, j)
    ensures Sum2(n, m, R) == Sum2(m, n, Q)
  {
    SumSwap(n, m, R);
    SumExt(n, i => Inner(m, R, i), i => Sum(m, j => R(i, j)));
    forall j | 0 <= j < m
      ensures Sum(n, i => R(i, j)) == Inner(n, Q, j)
    {
      SumExt(n, i => R(i, j), i => Q(j, i));
    }
    SumExt(m, j => Sum(n, i => R(i, j)), j => Inner(n, Q, j));
  }

  /** Every row of A has c entries and there are r rows. */
  predicate IsMatrix(A: Matrix, r: nat, c: nat)
  {
    |A| == r && forall i :: 0 <= i < r ==> |A[i]| == c
  }

  /** Column count, read off the first row. */
  function Cols(A: Matrix): nat
  {
    if |A| == 0 then 0 else |A[0]|
  }

  /** Entry access that reads zero outside the matrix. */
  function At(A: Matrix, i: int, j: int): real
  {
    if 0 <= i < |A| && 0 <= j < |A[i]| then A[i][j] else 0.0
  }

  function Zeros(r: nat, c: nat): (Z: Matrix)
    ensures IsMatrix(Z, r, c)
  {
    seq(r, i => seq(c, j => 0.0))
  }

  function Identity(n: nat): (I: Matrix)
    ensures IsMatrix(I, n, n)
  {
    seq(n, i => seq(n, j => if i == j then 1.0 else 0.0))
  }

  /** The matrix product, `torch.mm`. */
  function MatMul(A: Matrix, B: Matrix): (C: Matrix)
  {
    seq(|A|, i => seq(Cols(B), j => Sum(|B|, k => At(A, i, k) * At(B, k, j))))
  }

  function Sub(A: Matrix, B: Matrix): (C: Matrix)
  {
    seq(|A|, i requires 0 <= i < |A| => seq(|A[i]|, j => At(A, i, j) - At(B, i, j)))
  }

  function Scale(c: real, A: Matrix): (C: Matrix)
  {
    seq(|A|, i requires 0 <= i < |A| => seq(|A[i]|, j => c * At(A, i, j)))
  }

  function Transpose(A: Matrix): (T: Matrix)
    ensures IsMatrix(T, Cols(A), |A|)
  {
    seq(Cols(A), j => seq(|A|, i => At(A, i, j)))
  }

  predicate IsSymmetric(A: Matrix)
  {
    IsMatrix(A, |A|, |A|) && forall i, j :: 0 <= i < |A| && 0 <= j < |A| ==> A[i][j] == A[j][i]
  }

  /** Two matrices of one shape are equal when their entries are. */
  lemma MatrixExt(A: Matrix, B: Matrix, r: nat, c: nat)
    requires IsMatrix(A, r, c) && IsMatrix(B, r, c)
    requires forall i, j :: 0 <= i < r && 0 <= j < c ==> A[i][j] == B[i][j]
    ensures A == B
  {
    forall i | 0 <= i < r
      ensures A[i] == B[i]
    {
    }
  }

  lemma ColsOf(A: Matrix, r: nat, c: nat)
    requires IsMatrix(A, r, c) && r > 0
    ensures Cols(A) == c
  {
  }

  lemma {:induction false} MatMulShape(A: Matrix, B: Matrix, n: nat, m: nat, p: nat)
    requires IsMatrix(A, n, m) && IsMatrix(B, m, p) && (n == 0 || m > 0)
    ensures IsMatrix(MatMul(A, B), n, p) || n == 0
    ensures n == 0 || Cols(MatMul(A, B)) == p
  {
    if n > 0 {
      ColsOf(B, m, p);
    }
  }

  lemma {:induction false} SubShape(A: Matrix, B: Matrix, r: nat, c: nat)
    requires IsMatrix(A, r, c)
    ensures IsMatrix(Sub(A, B), r, c)
  {
  }

  lemma {:induction false} ScaleShape(x: real, A: Matrix, r: nat, c: nat)
    requires IsMatrix(A, r, c)
    ensures IsMatrix(Scale(x, A), r, c)
  {
  }

  /** The identity is neutral on the left of a product. */
  lemma {:induction false} IdentityLeft(X: Matrix, n: nat, d: nat)
    requires IsMatrix(X, n, d)
    ensures MatMul(Identity(n), X) == X
  {
    var P := MatMul(Identity(n), X);
    if n > 0 {
      ColsOf(X, n, d);
      forall i | 0 <= i < n
        ensures P[i] == X[i]
      {
        forall j | 0 <= j < d
          ensures P[i][j] == X[i][j]
        {
          SumDelta(n, i, X[i][j], k => At(Identity(n), i, k) * At(X, k, j));
        }
      }
    }
  }

  /** The identity is neutral on the right of a product. */
  lemma {:induction false} IdentityRight(X: Matrix, n: nat, d: nat)
    requires IsMatrix(X, n, d)
    ensures MatMul(X, Identity(d)) == X
  {
    var P := MatMul(X, Identity(d));
    if n > 0 && d > 0 {
      forall i | 0 <= i < n
        ensures P[i] == X[i]
      {
        forall j | 0 <= j < d
          ensures P[i][j] == X[i][j]
        {
          SumDelta(d, j, X[i][j], k => At(X, i, k) * At(Identity(d), k, j));
        }
      }
    }
  }

  /** The (i, l) entry of (AB)C as a double sum over the two inner indices. */
  lemma {:induction false} AssocLeft(A: Matrix, B: Matrix, C: Matrix, m: nat, p: nat, i: int, l: int)
    requires |B| == m && |C| == p && 0 <= i < |A| && 0 <= l < Cols(C)
    requires Cols(B) == p
    ensures MatMul(MatMul(A, B), C)[i][l]
         == Sum(p, j => Sum(m, k => At(A, i, k) * At(B, k, j) * At(C, j, l)))
  {
    var AB := MatMul(A, B);
    forall j | 0 <= j < p
      ensures At(AB, i, j) * At(C, j, l) == Sum(m, k => At(A, i, k) * At(B, k, j) * At(C, j, l))
    {
      SumScale(m, At(C, j, l), k => At(A, i, k) * At(B, k, j), k => At(A, i, k) * At(B, k, j) * At(C, j, l));
    }
    SumExt(p, j => At(AB, i, j) * At(C, j, l), j => Sum(m, k => At(A, i, k) * At(B, k, j) * At(C, j, l)));
  }

  /** The (i, l) entry of A(BC) as a double sum over the two inner indices. */
  lemma {:induction false} AssocRight(A: Matrix, B: Matrix, C: Matrix, m: nat, p: nat, i: int, l: int)
    requires |B| == m && |C| == p && 0 <= i < |A| && 0 <= l < Cols(C) && m > 0
    ensures MatMul(A, MatMul(B, C))[i][l]
         == Sum(m, k => Sum(p, j => At(A, i, k) * At(B, k, j) * At(C, j, l)))
  {
    var BC := MatMul(B, C);
    assert Cols(BC) == Cols(C);
    forall k | 0 <= k < m
      ensures At(A, i, k) * At(BC, k, l) == Sum(p, j => At(A, i, k) * At(B, k, j) * At(C, j, l))
    {
      SumScale(p, At(A, i, k), j => At(B, k, j) * At(C, j, l), j => At(A, i, k) * At(B, k, j) * At(C, j, l));
    }
    SumExt(m, k => At(A, i, k) * At(BC, k, l), k => Sum(p, j => At(A, i, k) * At(B, k, j) * At(C, j, l)));
  }

  /** The triple-product double sum taken in either order. */
  lemma {:induction false} AssocSwap(A: Matrix, B: Matrix, C: Matrix, m: nat, p: nat, i: int, l: int)
    ensures Sum(p, j => Sum(m, k => At(A, i, k) * At(B, k, j) * At(C, j, l)))
         == Sum(m, k => Sum(p, j => At(A, i, k) * At(B, k, j) * At(C, j, l)))
  {
    var F := (j, k) => At(A, i, k) * At(B, k, j) * At(C, j, l);
    SumSwap(p, m, F);
    forall j | 0 <= j < p
      ensures Sum(m, k => F(j, k)) == Sum(m, k => At(A, i, k) * At(B, k, j) * At(C, j, l))
    {
      SumExt(m, k => F(j, k), k => At(A, i, k) * At(B, k, j) * At(C, j, l));
    }
    SumExt(p, j => Sum(m, k => F(j, k)), j => Sum(m, k => At(A, i, k) * At(B, k, j) * At(C, j, l)));
    forall k | 0 <= k < m
      ensures Sum(p, j => F(j, k)) == Sum(p, j => At(A, i, k) * At(B, k, j) * At(C, j, l))
    {
      SumExt(p, j => F(j, k), j => At(A, i, k) * At(B, k, j) * At(C, j, l));
    }
    SumExt(m, k => Sum(p, j => F(j, k)), k => Sum(p, j => At(A, i, k) * At(B, k, j) * At(C, j, l)));
  }

  lemma {:induction false} AssocEntry(A: Matrix, B: Matrix, C: Matrix, m: nat, p: nat, i: int, l: int)
    requires |B| == m && |C| == p && 0 <= i < |A| && 0 <= l < Cols(C) && m > 0
    requires Cols(B) == p
    ensures MatMul(MatMul(A, B), C)[i][l] == MatMul(A, MatMul(B, C))[i][l]
  {
    AssocLeft(A, B, C, m, p, i, l);
    AssocRight(A, B, C, m, p, i, l);
    AssocSwap(A, B, C, m, p, i, l);
  }

  /** The matrix product is associative. */
  lemma {:induction false} MatMulAssoc(A: Matrix, B: Matrix, C: Matrix, n: nat, m: nat, p: nat, q: nat)
    requires IsMatrix(A, n, m) && IsMatrix(B, m, p) && IsMatrix(C, p, q)
    requires n == 0 || m > 0
    ensures MatMul(MatMul(A, B), C) == MatMul(A, MatMul(B, C))
  {
    var L := MatMul(MatMul(A, B), C);
    var R := MatMul(A, MatMul(B, C));
    if n > 0 {
      if p == 0 {
        assert C == [];
        MatrixExt(L, R, n, 0);
      } else {
        ColsOf(C, p, q);
        assert Cols(MatMul(B, C)) == q;
        forall i, l | 0 <= i < n && 0 <= l < q
          ensures L[i][l] == R[i][l]
        {
          ColsOf(B, m, p);
          AssocEntry(A, B, C, m, p, i, l);
        }
        MatrixExt(L, R, n, q);
      }
    }
  }

  /** Left multiplication distributes over subtraction. */
  lemma {:induction false} MatMulSubLeft(A: Matrix, X: Matrix, Y: Matrix, n: nat, m: nat, d: nat)
    requires IsMatrix(A, n, m) && IsMatrix(X, m, d) && IsMatrix(Y, m, d) && (n == 0 || m > 0)
    ensures MatMul(A, Sub(X, Y)) == Sub(MatMul(A, X), MatMul(A, Y))
  {
    var L := MatMul(A, Sub(X, Y));
    var R := Sub(MatMul(A, X), MatMul(A, Y));
    if n > 0 {
      SubShape(X, Y, m, d);
      ColsOf(X, m, d);
      ColsOf(Sub(X, Y), m, d);
      forall i, j | 0 <= i < n && 0 <= j < d
        ensures L[i][j] == R[i][j]
      {
        SumSub(m, k => At(A, i, k) * At(X, k, j), k => At(A, i, k) * At(Y, k, j),
               k => At(A, i, k) * At(Sub(X, Y), k, j));
      }
      MatrixExt(L, R, n, d);
    }
  }

  /** Left multiplication commutes with scaling. */
  lemma {:induction false} MatMulScaleLeft(A: Matrix, c: real, X: Matrix, n: nat, m: nat, d: nat)
    requires IsMatrix(A, n, m) && IsMatrix(X, m, d) && (n == 0 || m > 0)
    ensures MatMul(A, Scale(c, X)) == Scale(c, MatMul(A, X))
  {
    var L := MatMul(A, Scale(c, X));
    var R := Scale(c, MatMul(A, X));
    if n > 0 {
      ScaleShape(c, X, m, d);
      ColsOf(X, m, d);
      ColsOf(Scale(c, X), m, d);
      forall i, j | 0 <= i < n && 0 <= j < d
        ensures L[i][j] == R[i][j]
      {
        SumScale(m, c, k => At(A, i, k) * At(X, k, j), k => At(A, i, k) * At(Scale(c, X), k, j));
      }
      MatrixExt(L, R, n, d);
    }
  }

  /** Right multiplication distributes over subtraction. */
  lemma {:induction false} MatMulSubRight(X: Matrix, Y: Matrix, B: Matrix, n: nat, m: nat, d: nat)
    requires IsMatrix(X, n, m) && IsMatrix(Y, n, m) && IsMatrix(B, m, d)
    ensures MatMul(Sub(X, Y), B) == Sub(MatMul(X, B), MatMul(Y, B))
  {
    var L := MatMul(Sub(X, Y), B);
    var R := Sub(MatMul(X, B), MatMul(Y, B));
    SubShape(X, Y, n, m);
    forall i, j | 0 <= i < n && 0 <= j < Cols(B)
      ensures L[i][j] == R[i][j]
    {
      SumSub(m, k => At(X, i, k) * At(B, k, j), k => At(Y, i, k) * At(B, k, j),
             k => At(Sub(X, Y), i, k) * At(B, k, j));
    }
    MatrixExt(L, R, n, Cols(B));
  }

  /** Right multiplication commutes with scaling. */
  lemma {:induction false} MatMulScaleRight(c: real, X: Matrix, B: Matrix, n: nat, m: nat, d: nat)
    requires IsMatrix(X, n, m) && IsMatrix(B, m, d)
    ensures MatMul(Scale(c, X), B) == Scale(c, MatMul(X, B))
  {
    var L := MatMul(Scale(c, X), B);
    var R := Scale(c, MatMul(X, B));
    ScaleShape(c, X, n, m);
    forall i, j | 0 <= i < n && 0 <= j < Cols(B)
      ensures L[i][j] == R[i][j]
    {
      SumScale(m, c, k => At(X, i, k) * At(B, k, j), k => At(Scale(c, X), i, k) * At(B, k, j));
    }
    MatrixExt(L, R, n, Cols(B));
  }
}
