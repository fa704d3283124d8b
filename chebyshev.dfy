/** Chebyshev projection of graph signals (graphconv.py): the three-term
    recurrence applied to a signal (`project_cheb_basis`, sparse and dense)
    and to matrices (`precompute_projection`), and the precomputed projector
    layouts used by `cheb_conv`. A signal is a V x D matrix: one row per
    vertex, the columns flatten the input channel, batch and spatial axes. */
module Chebyshev {
  import opened LinAlg
  import opened SparseCoo
  import opened Outcomes
  import opened FlatIndex

  /** One step of the recurrence, `2 * mm(L, x1) - x0`. */
  function ChebStep(L: Matrix, x1: Matrix, x0: Matrix): Matrix
  {
    Sub(Scale(2.0, MatMul(L, x1)), x0)
  }

  /** The step keeps the V x D shape. */
  lemma StepShape(L: Matrix, x1: Matrix, x0: Matrix, v: nat, d: nat)
    requires IsMatrix(L, v, v) && IsMatrix(x1, v, d) && IsMatrix(x0, v, d)
    ensures IsMatrix(ChebStep(L, x1, x0), v, d)
  {
    MatMulShape(L, x1, v, v, d);
    ScaleShape(2.0, MatMul(L, x1), v, d);
    SubShape(Scale(2.0, MatMul(L, x1)), x0, v, d);
  }

  /** The step entry by entry. */
  lemma StepEntry(L: Matrix, x1: Matrix, x0: Matrix, v: nat, d: nat, i: nat, j: nat)
    requires IsMatrix(L, v, v) && IsMatrix(x1, v, d) && IsMatrix(x0, v, d) && i < v && j < d
    ensures ChebStep(L, x1, x0)[i][j] == 2.0 * MatMul(L, x1)[i][j] - x0[i][j]
  {
    MatMulShape(L, x1, v, v, d);
  }

  /** The k-th Chebyshev projection of x0: x0, L x0, then 2 L x(k-1) - x(k-2). */
  function Cheb(L: Matrix, x0: Matrix, k: nat): Matrix
    decreases k
  {
    if k == 0 then x0
    else if k == 1 then MatMul(L, x0)
    else ChebStep(L, Cheb(L, x0, k - 1), Cheb(L, x0, k - 2))
  }

  /** The k-th Chebyshev polynomial of L: I, L, then 2 L P(k-1) - P(k-2). */
  function ChebPoly(L: Matrix, k: nat): Matrix
    decreases k
  {
    if k == 0 then Identity(|L|)
    else if k == 1 then L
    else ChebStep(L, ChebPoly(L, k - 1), ChebPoly(L, k - 2))
  }

  /** The recurrence, read off the definition of the projections. */
  lemma ChebUnfold(L: Matrix, x0: Matrix, i: nat)
    requires i >= 2
    ensures Cheb(L, x0, i) == ChebStep(L, Cheb(L, x0, i - 1), Cheb(L, x0, i - 2))
  {
  }

  /** The first n projections, in order. */
  function ChebSeq(L: Matrix, x0: Matrix, n: nat): seq<Matrix>
  {
    if n == 0 then [] else ChebSeq(L, x0, n - 1) + [Cheb(L, x0, n - 1)]
  }

  lemma {:induction false} ChebSeqIndex(L: Matrix, x0: Matrix, n: nat)
    ensures |ChebSeq(L, x0, n)| == n
    ensures forall k :: 0 <= k < n ==> ChebSeq(L, x0, n)[k] == Cheb(L, x0, k)
  {
    if n > 0 {
      ChebSeqIndex(L, x0, n - 1);
    }
  }

  /** The matrix recurrence, read off the definition of the polynomials. */
  lemma ChebPolyUnfold(L: Matrix, k: nat)
    requires k >= 2
    ensures ChebPoly(L, k) == ChebStep(L, ChebPoly(L, k - 1), ChebPoly(L, k - 2))
  {
  }

  /** Every projection keeps the V x D shape of the signal. */
  lemma {:induction false} ChebShape(L: Matrix, x0: Matrix, k: nat, v: nat, d: nat)
    requires IsMatrix(L, v, v) && IsMatrix(x0, v, d)
    ensures IsMatrix(Cheb(L, x0, k), v, d)
  {
    if k == 1 {
      MatMulShape(L, x0, v, v, d);
    } else if k >= 2 {
      ChebShape(L, x0, k - 1, v, d);
      ChebShape(L, x0, k - 2, v, d);
      StepShape(L, Cheb(L, x0, k - 1), Cheb(L, x0, k - 2), v, d);
    }
  }

  /** Every polynomial of a V x V matrix is V x V. */
  lemma {:induction false} ChebPolyShape(L: Matrix, k: nat, v: nat)
    requires IsMatrix(L, v, v)
    ensures IsMatrix(ChebPoly(L, k), v, v)
  {
    if k >= 2 {
      ChebPolyShape(L, k - 1, v);
      ChebPolyShape(L, k - 2, v);
      StepShape(L, ChebPoly(L, k - 1), ChebPoly(L, k - 2), v, v);
    }
  }

  /** The first K polynomials, as `precompute_projection` stacks them. */
  function ChebPolys(L: Matrix, K: nat): (P: seq<Matrix>)
    ensures |P| == K && forall k :: 0 <= k < K ==> P[k] == ChebPoly(L, k)
  {
    seq(K, k requires 0 <= k < K => ChebPoly(L, k))
  }

  /** `project_cheb_basis_dense`: the slices x0, L x0, ..., one per order below K
      (a single slice when K <= 1), rolling the last two slices along. */
  method ProjectChebBasisDense(L: Matrix, x0: Matrix, K: int) returns (inputs: seq<Matrix>)
    requires IsMatrix(L, |L|, |L|) && IsMatrix(x0, |L|, Cols(x0))
    ensures |inputs| == if K > 1 then K else 1
    ensures forall k :: 0 <= k < |inputs| ==> inputs[k] == Cheb(L, x0, k)
  {
    inputs := [x0];
    assert inputs == ChebSeq(L, x0, 1);
    if K > 1 {
      var prev := x0;
      var x1 := MatMul(L, x0);
      inputs := inputs + [x1];
      assert inputs == ChebSeq(L, x0, 2);
      var i := 2;
      while i < K
        invariant 2 <= i <= K && inputs == ChebSeq(L, x0, i) && |inputs| == i
        invariant prev == Cheb(L, x0, i - 2) && x1 == Cheb(L, x0, i - 1)
      {
        var x2 := ChebStep(L, x1, prev);
        ChebUnfold(L, x0, i);
        inputs := inputs + [x2];
        prev, x1 := x1, x2;
        i := i + 1;
      }
    }
    ChebSeqIndex(L, x0, if K > 1 then K else 1);
  }

  /** `project_cheb_basis`: the same recurrence with `torch.sparse.mm`; its slices
      are the Chebyshev projections under the dense form of the Laplacian, so the
      sparse and dense variants return the same sequence. */
  method ProjectChebBasis(S: SparseMatrix, x0: Matrix, K: int) returns (inputs: seq<Matrix>)
    requires Valid(S) && S.rows == S.cols && IsMatrix(x0, S.cols, Cols(x0))
    ensures |inputs| == if K > 1 then K else 1
    ensures forall k :: 0 <= k < |inputs| ==> inputs[k] == Cheb(ToDense(S), x0, k)
  {
    ghost var L := ToDense(S);
    ghost var d := Cols(x0);
    inputs := [x0];
    assert inputs == ChebSeq(L, x0, 1);
    if K > 1 {
      var prev := x0;
      SparseMMIsDense(S, x0, d);
      var x1 := SparseMM(S, x0);
      inputs := inputs + [x1];
      assert inputs == ChebSeq(L, x0, 2);
      var i := 2;
      while i < K
        invariant 2 <= i <= K && inputs == ChebSeq(L, x0, i) && |inputs| == i
        invariant prev == Cheb(L, x0, i - 2) && x1 == Cheb(L, x0, i - 1)
      {
        SparseChebStep(S, x0, i);
        ChebUnfold(L, x0, i);
        var x2 := Sub(Scale(2.0, SparseMM(S, x1)), prev);
        inputs := inputs + [x2];
        prev, x1 := x1, x2;
        i := i + 1;
      }
    }
    ChebSeqIndex(L, x0, if K > 1 then K else 1);
  }

  /** One sparse step of the recurrence is the dense step. */
  lemma SparseChebStep(S: SparseMatrix, x0: Matrix, i: nat)
    requires Valid(S) && S.rows == S.cols && IsMatrix(x0, S.cols, Cols(x0)) && i >= 2
    ensures Sub(Scale(2.0, SparseMM(S, Cheb(ToDense(S), x0, i - 1))), Cheb(ToDense(S), x0, i - 2))
         == ChebStep(ToDense(S), Cheb(ToDense(S), x0, i - 1), Cheb(ToDense(S), x0, i - 2))
  {
    ChebShape(ToDense(S), x0, i - 1, S.rows, Cols(x0));
    SparseMMIsDense(S, Cheb(ToDense(S), x0, i - 1), Cols(x0));
  }

  /** `precompute_projection`: fills a K-slot buffer with I, L and the recurrence;
      K = 0 fails on the assignment to slot 0. */
  method PrecomputeProjection(L: Matrix, K: nat) returns (r: Result<seq<Matrix>>)
    requires IsMatrix(L, |L|, |L|)
    ensures r.Ok? <==> K > 0
    ensures r.Ok? ==> |r.value| == K && forall k :: 0 <= k < K ==> r.value[k] == ChebPoly(L, k)
  {
    var v := |L|;
    var projector := new Matrix[K](_ => Zeros(v, v));
    if K == 0 {
      return Err(IndexError);
    }
    projector[0] := Identity(v);
    if K > 1 {
      projector[1] := L;
      var i := 2;
      while i < K
        invariant 2 <= i <= K
        invariant forall k :: 0 <= k < i ==> projector[..][k] == ChebPoly(L, k)
      {
        var next := ChebStep(L, projector[i - 1], projector[i - 2]);
        ChebPolyUnfold(L, i);
        ghost var before := projector[..];
        projector[i] := next;
        assert projector[..] == before[i := next];
        i := i + 1;
      }
    }
    return Ok(projector[..]);
  }

  /** Applying a step of matrices to x0 is the step of the applied matrices. */
  lemma StepApply(L: Matrix, P1: Matrix, P2: Matrix, x0: Matrix, v: nat, d: nat)
    requires IsMatrix(L, v, v) && IsMatrix(P1, v, v) && IsMatrix(P2, v, v) && IsMatrix(x0, v, d)
    ensures MatMul(ChebStep(L, P1, P2), x0) == ChebStep(L, MatMul(P1, x0), MatMul(P2, x0))
  {
    MatMulShape(L, P1, v, v, v);
    ScaleShape(2.0, MatMul(L, P1), v, v);
    MatMulSubRight(Scale(2.0, MatMul(L, P1)), P2, x0, v, v, d);
    MatMulScaleRight(2.0, MatMul(L, P1), x0, v, v, d);
    MatMulAssoc(L, P1, x0, v, v, v, d);
  }

  /** A step built from matrices commuting with L commutes with L. */
  lemma StepCommutes(L: Matrix, P1: Matrix, P2: Matrix, v: nat)
    requires IsMatrix(L, v, v) && IsMatrix(P1, v, v) && IsMatrix(P2, v, v)
    requires MatMul(L, P1) == MatMul(P1, L) && MatMul(L, P2) == MatMul(P2, L)
    ensures MatMul(L, ChebStep(L, P1, P2)) == MatMul(ChebStep(L, P1, P2), L)
  {
    var LP1 := MatMul(L, P1);
    MatMulShape(L, P1, v, v, v);
    ScaleShape(2.0, LP1, v, v);
    MatMulSubLeft(L, Scale(2.0, LP1), P2, v, v, v);
    MatMulScaleLeft(L, 2.0, LP1, v, v, v);
    MatMulSubRight(Scale(2.0, LP1), P2, L, v, v, v);
    MatMulScaleRight(2.0, LP1, L, v, v, v);
    MatMulAssoc(L, P1, L, v, v, v, v);
  }

  /** For symmetric A and B, (AB)^T = BA entry by entry. */
  lemma ProductTransposed(A: Matrix, B: Matrix, v: nat, i: nat, j: nat)
    requires IsSymmetric(A) && IsSymmetric(B) && |A| == v && |B| == v && i < v && j < v
    ensures MatMul(A, B)[j][i] == MatMul(B, A)[i][j]
  {
    ColsOf(A, v, v);
    ColsOf(B, v, v);
    SumExt(v, m => At(A, j, m) * At(B, m, i), m => At(B, i, m) * At(A, m, j));
  }

  /** A step built from symmetric matrices, the first commuting with L, is symmetric. */
  lemma StepSymmetric(L: Matrix, P1: Matrix, P2: Matrix)
    requires IsSymmetric(L) && IsSymmetric(P1) && IsSymmetric(P2) && |P1| == |L| && |P2| == |L|
    requires MatMul(L, P1) == MatMul(P1, L)
    ensures IsSymmetric(ChebStep(L, P1, P2))
  {
    var v := |L|;
    var P := ChebStep(L, P1, P2);
    StepShape(L, P1, P2, v, v);
    forall i, j | 0 <= i < v && 0 <= j < v
      ensures P[i][j] == P[j][i]
    {
      StepEntry(L, P1, P2, v, v, i, j);
      StepEntry(L, P1, P2, v, v, j, i);
      ProductTransposed(L, P1, v, i, j);
    }
  }

  /** The induction step of ChebPolyApply. */
  lemma ApplyStep(L: Matrix, x0: Matrix, k: nat, v: nat, d: nat)
    requires IsMatrix(L, v, v) && IsMatrix(x0, v, d) && k >= 2
    requires MatMul(ChebPoly(L, k - 1), x0) == Cheb(L, x0, k - 1)
    requires MatMul(ChebPoly(L, k - 2), x0) == Cheb(L, x0, k - 2)
    ensures MatMul(ChebPoly(L, k), x0) == Cheb(L, x0, k)
  {
    var P1 := ChebPoly(L, k - 1);
    var P2 := ChebPoly(L, k - 2);
    ChebPolyShape(L, k - 1, v);
    ChebPolyShape(L, k - 2, v);
    calc {
      MatMul(ChebPoly(L, k), x0);
      { ChebPolyUnfold(L, k); }
      MatMul(ChebStep(L, P1, P2), x0);
      { StepApply(L, P1, P2, x0, v, d); }
      ChebStep(L, MatMul(P1, x0), MatMul(P2, x0));
      ChebStep(L, Cheb(L, x0, k - 1), Cheb(L, x0, k - 2));
      { ChebUnfold(L, x0, k); }
      Cheb(L, x0, k);
    }
  }

  /** The k-th polynomial applied to x0 is the k-th projection of x0, so the
      precomputed projector and the on-the-fly recurrence agree. */
  lemma {:induction false} ChebPolyApply(L: Matrix, x0: Matrix, k: nat, v: nat, d: nat)
    requires IsMatrix(L, v, v) && IsMatrix(x0, v, d)
    ensures MatMul(ChebPoly(L, k), x0) == Cheb(L, x0, k)
  {
    if k == 0 {
      IdentityLeft(x0, v, d);
    } else if k >= 2 {
      ChebPolyApply(L, x0, k - 1, v, d);
      ChebPolyApply(L, x0, k - 2, v, d);
      ApplyStep(L, x0, k, v, d);
    }
  }

  /** Every Chebyshev polynomial of L commutes with L. */
  lemma {:induction false} ChebPolyCommutes(L: Matrix, k: nat, v: nat)
    requires IsMatrix(L, v, v)
    ensures MatMul(L, ChebPoly(L, k)) == MatMul(ChebPoly(L, k), L)
  {
    if k == 0 {
      IdentityLeft(L, v, v);
      IdentityRight(L, v, v);
    } else if k >= 2 {
      ChebPolyShape(L, k - 1, v);
      ChebPolyShape(L, k - 2, v);
      ChebPolyCommutes(L, k - 1, v);
      ChebPolyCommutes(L, k - 2, v);
      StepCommutes(L, ChebPoly(L, k - 1), ChebPoly(L, k - 2), v);
      ChebPolyUnfold(L, k);
    }
  }

  /** A symmetric Laplacian has symmetric Chebyshev polynomials. */
  lemma {:induction false} ChebPolySymmetric(L: Matrix, k: nat)
    requires IsSymmetric(L)
    ensures IsSymmetric(ChebPoly(L, k))
  {
    var v := |L|;
    if k == 0 {
      assert IsMatrix(Identity(v), v, v);
    } else if k >= 2 {
      ChebPolySymmetric(L, k - 1);
      ChebPolySymmetric(L, k - 2);
      SymmetricPolyStep(L, k);
    }
  }

  /** The induction step of ChebPolySymmetric. */
  lemma SymmetricPolyStep(L: Matrix, k: nat)
    requires IsSymmetric(L) && k >= 2
    requires IsSymmetric(ChebPoly(L, k - 1)) && IsSymmetric(ChebPoly(L, k - 2))
    ensures IsSymmetric(ChebPoly(L, k))
  {
    var v := |L|;
    ChebPolyShape(L, k - 1, v);
    ChebPolyShape(L, k - 2, v);
    ChebPolyCommutes(L, k - 1, v);
    StepSymmetric(L, ChebPoly(L, k - 1), ChebPoly(L, k - 2));
    ChebPolyUnfold(L, k);
  }

  /** A symmetric matrix is its own transpose. */
  lemma SymmetricTranspose(A: Matrix)
    requires IsSymmetric(A)
    ensures Transpose(A) == A
  {
    var v := |A|;
    if v > 0 {
      ColsOf(A, v, v);
      MatrixExt(Transpose(A), A, v, v);
    }
  }

  /** Entry (r, u) of the flattened projector: P[r / V][u][r % V]. */
  function FlatEntry(P: seq<Matrix>, v: nat, r: int, u: int): real
  {
    if v > 0 && 0 <= r && r / v < |P| then At(P[r / v], u, r % v) else 0.0
  }

  /** The precomputed projector flattened for `torch.mm` (graphconv.py, `Conv`):
      permute(0, 2, 1) then view(K*V, V), so row k*V + w, column u holds P[k][u][w]. */
  function FlatProjector(P: seq<Matrix>, v: nat): (F: Matrix)
    ensures IsMatrix(F, |P| * v, v)
  {
    seq(|P| * v, r => seq(v, u => FlatEntry(P, v, r, u)))
  }

  /** The k-th [V, D] block of a [K*V, D] product, as the reshape to [K, V, ...] reads it. */
  function Block(F: Matrix, k: nat, v: nat): Matrix
  {
    seq(v, w requires 0 <= w < v => if k * v + w < |F| then F[k * v + w] else [])
  }

  /** The precompute einsum 'bfvxyz,kvw->bfkwxyz': slice k, vertex w sums x0[u] P[k][u][w] over u. */
  function EinsumProject(P: seq<Matrix>, x0: Matrix, k: nat): Matrix
    requires k < |P|
  {
    seq(|x0|, w => seq(Cols(x0), j => Sum(|x0|, u => At(x0, u, j) * At(P[k], u, w))))
  }

  /** Block k of the flattened product is the transposed k-th projector applied to x0. */
  lemma FlatBlockIsTransposed(P: seq<Matrix>, x0: Matrix, v: nat, d: nat, k: nat)
    requires IsMatrix(x0, v, d) && k < |P| && IsMatrix(P[k], v, v) && v > 0
    ensures Block(MatMul(FlatProjector(P, v), x0), k, v) == MatMul(Transpose(P[k]), x0)
  {
    var F := FlatProjector(P, v);
    var M := MatMul(F, x0);
    var B := Block(M, k, v);
    var T := MatMul(Transpose(P[k]), x0);
    ColsOf(x0, v, d);
    ColsOf(P[k], v, v);
    MatMulShape(F, x0, |P| * v, v, d);
    MatMulShape(Transpose(P[k]), x0, v, v, d);
    forall w | 0 <= w < v
      ensures B[w] == T[w]
    {
      FlatBound(k, w, |P|, v);
      forall j | 0 <= j < d
        ensures M[k * v + w][j] == T[w][j]
      {
        FlatRowEntry(P, x0, v, d, k, w, j);
      }
    }
  }

  /** One entry of FlatBlockIsTransposed. */
  lemma FlatRowEntry(P: seq<Matrix>, x0: Matrix, v: nat, d: nat, k: nat, w: nat, j: nat)
    requires IsMatrix(x0, v, d) && k < |P| && IsMatrix(P[k], v, v) && w < v && j < d
    ensures k * v + w < |P| * v
    ensures MatMul(FlatProjector(P, v), x0)[k * v + w][j] == MatMul(Transpose(P[k]), x0)[w][j]
  {
    var F := FlatProjector(P, v);
    var r := k * v + w;
    FlatDivMod(k, w, v);
    FlatBound(k, w, |P|, v);
    ColsOf(x0, v, d);
    SumExt(v, u => At(F, r, u) * At(x0, u, j), u => At(Transpose(P[k]), w, u) * At(x0, u, j));
  }

  /** The precompute einsum is the transposed k-th projector applied to x0. */
  lemma EinsumIsTransposed(P: seq<Matrix>, x0: Matrix, v: nat, d: nat, k: nat)
    requires IsMatrix(x0, v, d) && k < |P| && IsMatrix(P[k], v, v) && v > 0
    ensures EinsumProject(P, x0, k) == MatMul(Transpose(P[k]), x0)
  {
    var E := EinsumProject(P, x0, k);
    var T := MatMul(Transpose(P[k]), x0);
    ColsOf(x0, v, d);
    ColsOf(P[k], v, v);
    forall w, j | 0 <= w < v && 0 <= j < d
      ensures E[w][j] == T[w][j]
    {
      SumExt(v, u => At(x0, u, j) * At(P[k], u, w), u => At(Transpose(P[k]), w, u) * At(x0, u, j));
    }
    MatrixExt(E, T, v, d);
  }

  /** With a symmetric Laplacian, the flattened transposed projector of the `torch.mm`
      path of `cheb_conv` and the precompute einsum both yield exactly the Chebyshev
      projections: the transposition is harmless. */
  lemma PrecomputedPathsAreCheb(L: Matrix, x0: Matrix, K: nat, d: nat, k: nat)
    requires IsSymmetric(L) && |L| > 0 && IsMatrix(x0, |L|, d) && k < K
    ensures Block(MatMul(FlatProjector(ChebPolys(L, K), |L|), x0), k, |L|) == Cheb(L, x0, k)
    ensures EinsumProject(ChebPolys(L, K), x0, k) == Cheb(L, x0, k)
  {
    var v := |L|;
    var P := ChebPolys(L, K);
    ChebPolyShape(L, k, v);
    ChebPolySymmetric(L, k);
    SymmetricTranspose(P[k]);
    ChebPolyApply(L, x0, k, v, d);
    FlatBlockIsTransposed(P, x0, v, d, k);
    EinsumIsTransposed(P, x0, v, d, k);
  }

  /** The slices both precomputed paths produce, for any L: T_k(L) transposed, applied to x0. */
  function TransposedSlices(L: Matrix, x0: Matrix, K: nat): seq<Matrix>
  {
    seq(K, k requires 0 <= k < K => MatMul(Transpose(ChebPoly(L, k)), x0))
  }

  /** For a symmetric L the precomputed slices are the recurrence's projections. */
  lemma TransposedSlicesAreCheb(L: Matrix, x0: Matrix, K: nat, d: nat)
    requires IsSymmetric(L) && IsMatrix(x0, |L|, d)
    ensures TransposedSlices(L, x0, K) == ChebSeq(L, x0, K)
  {
    var v := |L|;
    ChebSeqIndex(L, x0, K);
    forall k | 0 <= k < K
      ensures TransposedSlices(L, x0, K)[k] == ChebSeq(L, x0, K)[k]
    {
      ChebPolyShape(L, k, v);
      ChebPolySymmetric(L, k);
      SymmetricTranspose(ChebPoly(L, k));
      ChebPolyApply(L, x0, k, v, d);
    }
  }
}
