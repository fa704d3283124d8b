/** The channel pairing of `cheb_conv` and `cheb_conv_dense` (graphconv.py):
    how the K Chebyshev slices of a [B, Fin, V, X, Y, Z] input are laid out,
    reshaped and contracted with a [K, Fin, Fout] weight. A reshape keeps the
    row-major order of the elements, so every layout below is an index map.
    The three spatial axes X, Y, Z stay adjacent and in this order in every
    layout, so they are flattened into one spatial axis of extent S = X*Y*Z. */
module ChannelLayout {
  import opened LinAlg
  import opened SparseCoo
  import opened FlatIndex
  import opened Chebyshev

  /** Extents: batch B, input channels Fin, vertices V, spatial S, orders K, output channels Fout. */
  datatype Dims = Dims(batch: nat, fin: nat, verts: nat, space: nat, order: nat, fout: nat)

  /** A [K, Fin, Fout] weight. */
  type Weight = seq<seq<seq<real>>>

  /** A [B, Fout, V, S] output. */
  type Tensor4 = seq<seq<seq<seq<real>>>>

  function WAt(W: Weight, k: int, f: int, g: int): real
  {
    if 0 <= k < |W| && 0 <= f < |W[k]| && 0 <= g < |W[k][f]| then W[k][f][g] else 0.0
  }

  /** Entry (v, col) of slice k. */
  function Slice(T: seq<Matrix>, k: int, v: int, col: int): real
  {
    if 0 <= k < |T| then At(T[k], v, col) else 0.0
  }

  /** Element (b, f, v, s) of the flat [B, Fin, V, S] input. */
  function InputAt(x: seq<real>, d: Dims, b: int, f: int, v: int, s: int): real
  {
    var i := ((b * d.fin + f) * d.verts + v) * d.space + s;
    if 0 <= i < |x| then x[i] else 0.0
  }

  /** The column of x0 that carries input channel f, batch b, position s. */
  function Column(d: Dims, b: int, f: int, s: int): int
  {
    (f * d.batch + b) * d.space + s
  }

  /** x0 = `inputs.permute(2, 1, 0, 3, 4, 5).view([V, Fin*B*X*Y*Z])`: column
      (f*B + b)*S + s of row v is input element (b, f, v, s). */
  function X0(x: seq<real>, d: Dims): Matrix
  {
    seq(d.verts, v => seq(d.fin * d.batch * d.space, col =>
      if d.batch > 0 && d.space > 0
      then InputAt(x, d, (col / d.space) % d.batch, col / d.space / d.batch, v, col % d.space)
      else 0.0))
  }

  lemma X0Shape(x: seq<real>, d: Dims)
    ensures IsMatrix(X0(x, d), d.verts, d.fin * d.batch * d.space)
  {
  }

  /** The view pairs each column with the channel, batch and position it is named after. */
  lemma X0At(x: seq<real>, d: Dims, b: nat, f: nat, v: nat, s: nat)
    requires b < d.batch && f < d.fin && v < d.verts && s < d.space
    ensures Column(d, b, f, s) < d.fin * d.batch * d.space
    ensures X0(x, d)[v][Column(d, b, f, s)] == InputAt(x, d, b, f, v, s)
  {
    FlatBound(f, b, d.fin, d.batch);
    FlatBound(f * d.batch + b, s, d.fin * d.batch, d.space);
    FlatDivMod(f * d.batch + b, s, d.space);
    FlatDivMod(f, b, d.batch);
  }

  /** The ChebNet output: channel g at (b, v, s) sums, over every order k and input
      channel f, slice k of channel f weighted by W[k][f][g]. */
  function Reference(T: seq<Matrix>, W: Weight, d: Dims, b: int, g: int, v: int, s: int): real
  {
    Sum2(d.order, d.fin, (k, f) => RefTerm(T, W, d, b, g, v, s, k, f))
  }

  function RefTerm(T: seq<Matrix>, W: Weight, d: Dims, b: int, g: int, v: int, s: int, k: int, f: int): real
  {
    Slice(T, k, v, Column(d, b, f, s)) * WAt(W, k, f, g)
  }

  /** Row of the [B*V*S, K*Fin] view that holds batch b, vertex v, position s. */
  function Row(d: Dims, b: int, v: int, s: int): int
  {
    (b * d.verts + v) * d.space + s
  }

  /** Offset of element (b, v, s, k, f) in the contiguous [B, V, S, K, Fin] tensor
      that `view([K, V, Fin, B, ...]).permute(3, 1, 4, 5, 6, 0, 2)` produces. */
  function StackIndex(d: Dims, b: int, v: int, s: int, k: int, f: int): int
  {
    (Row(d, b, v, s) * d.order + k) * d.fin + f
  }

  /** The element at offset i of that [B, V, S, K, Fin] tensor. */
  function StackedAt(T: seq<Matrix>, d: Dims, i: int): real
  {
    if d.fin == 0 || d.order == 0 || d.space == 0 || d.verts == 0 then 0.0
    else
      var f := i % d.fin;
      var k := (i / d.fin) % d.order;
      var r := i / d.fin / d.order;
      var s := r % d.space;
      var v := (r / d.space) % d.verts;
      var b := r / d.space / d.verts;
      Slice(T, k, v, Column(d, b, f, s))
  }

  /** Reading the stacked tensor at StackIndex finds the element named by it. */
  lemma StackedAtIndex(T: seq<Matrix>, d: Dims, b: nat, v: nat, s: nat, k: nat, f: nat)
    requires v < d.verts && s < d.space && k < d.order && f < d.fin
    ensures StackedAt(T, d, StackIndex(d, b, v, s, k, f)) == Slice(T, k, v, Column(d, b, f, s))
  {
    var r := Row(d, b, v, s);
    FlatDivMod(r * d.order + k, f, d.fin);
    FlatDivMod(r, k, d.order);
    FlatDivMod(b * d.verts + v, s, d.space);
    FlatDivMod(b, v, d.verts);
  }

  /** Term c of the `torch.mm` contraction: row Row(b, v, s), column c of the
      [B*V*S, K*Fin] view, times row c of `weight.view(K*Fin, Fout)`. */
  function MatmulTerm(T: seq<Matrix>, W: Weight, d: Dims, b: int, g: int, v: int, s: int, c: int): real
  {
    if d.fin == 0 then 0.0
    else StackedAt(T, d, Row(d, b, v, s) * (d.order * d.fin) + c) * WAt(W, c / d.fin, c % d.fin, g)
  }

  /** Output (b, g, v, s) of the `torch.mm` path (graphconv.py:171-174). */
  function MatmulEntry(T: seq<Matrix>, W: Weight, d: Dims, b: int, g: int, v: int, s: int): real
  {
    Sum(d.order * d.fin, c => MatmulTerm(T, W, d, b, g, v, s, c))
  }

  /** Column k*Fin + f of the view's row Row(b, v, s) is offset StackIndex(b, v, s, k, f). */
  lemma MatmulOffset(d: Dims, r: int, k: int, f: int)
    ensures r * (d.order * d.fin) + (k * d.fin + f) == (r * d.order + k) * d.fin + f
  {
    assert r * (d.order * d.fin) == (r * d.order) * d.fin;
  }

  lemma MatmulTermAt(T: seq<Matrix>, W: Weight, d: Dims, b: nat, g: int, v: nat, s: nat, k: nat, f: nat)
    requires v < d.verts && s < d.space && k < d.order && f < d.fin
    ensures MatmulTerm(T, W, d, b, g, v, s, k * d.fin + f) == RefTerm(T, W, d, b, g, v, s, k, f)
  {
    var c := k * d.fin + f;
    MatmulOffset(d, Row(d, b, v, s), k, f);
    assert Row(d, b, v, s) * (d.order * d.fin) + c == StackIndex(d, b, v, s, k, f);
    StackedAtIndex(T, d, b, v, s, k, f);
    FlatDivMod(k, f, d.fin);
    MatmulTermParts(T, W, d, b, g, v, s, c, k, f);
  }

  /** Term c of the `torch.mm` contraction is RefTerm(k, f) once c names (k, f)
      and the stacked tensor holds slice k of channel f at c's offset. */
  lemma MatmulTermParts(T: seq<Matrix>, W: Weight, d: Dims, b: int, g: int, v: int, s: int, c: int, k: int, f: int)
    requires d.fin > 0 && c / d.fin == k && c % d.fin == f
    requires StackedAt(T, d, Row(d, b, v, s) * (d.order * d.fin) + c) == Slice(T, k, v, Column(d, b, f, s))
    ensures MatmulTerm(T, W, d, b, g, v, s, c) == RefTerm(T, W, d, b, g, v, s, k, f)
  {
  }

  /** The `torch.mm` path pairs column k*Fin + f of the inputs with weight row
      k*Fin + f, both standing for (order k, channel f): it computes the reference. */
  lemma MatmulIsReference(T: seq<Matrix>, W: Weight, d: Dims, b: nat, g: int, v: nat, s: nat)
    requires v < d.verts && s < d.space
    ensures MatmulEntry(T, W, d, b, g, v, s) == Reference(T, W, d, b, g, v, s)
  {
    forall k, f | 0 <= k < d.order && 0 <= f < d.fin
      ensures MatmulTerm(T, W, d, b, g, v, s, k * d.fin + f) == RefTerm(T, W, d, b, g, v, s, k, f)
    {
      MatmulTermAt(T, W, d, b, g, v, s, k, f);
    }
    SumRows(d.order, d.fin, c => MatmulTerm(T, W, d, b, g, v, s, c),
            (k, f) => RefTerm(T, W, d, b, g, v, s, k, f));
  }

  /** Term c of the einsum contraction over the [B, Fin*K, V, S] reshape of the
      precompute einsum output [B, Fin, K, V, S]: channel c is (f, k) = (c / K, c % K),
      and row c of `weight.permute(1, 0, 2).view(K*Fin, Fout)` is W[c % K][c / K]. */
  function EinsumTerm(T: seq<Matrix>, W: Weight, d: Dims, b: int, g: int, v: int, s: int, c: int): real
  {
    if d.order == 0 then 0.0
    else Slice(T, c % d.order, v, Column(d, b, c / d.order, s)) * WAt(W, c % d.order, c / d.order, g)
  }

  /** Output (b, g, v, s) of the einsum path after the precompute einsum (graphconv.py:144, 161-164). */
  function EinsumEntry(T: seq<Matrix>, W: Weight, d: Dims, b: int, g: int, v: int, s: int): real
  {
    Sum(d.fin * d.order, c => EinsumTerm(T, W, d, b, g, v, s, c))
  }

  lemma EinsumTermAt(T: seq<Matrix>, W: Weight, d: Dims, b: int, g: int, v: int, s: int, f: nat, k: nat)
    requires k < d.order
    ensures EinsumTerm(T, W, d, b, g, v, s, f * d.order + k) == RefTerm(T, W, d, b, g, v, s, k, f)
  {
    FlatDivMod(f, k, d.order);
  }

  /** The einsum path after the precompute einsum pairs channel f*K + k of the
      inputs with weight row f*K + k, both standing for (order k, channel f). */
  lemma EinsumIsReference(T: seq<Matrix>, W: Weight, d: Dims, b: int, g: int, v: int, s: int)
    ensures EinsumEntry(T, W, d, b, g, v, s) == Reference(T, W, d, b, g, v, s)
  {
    forall f, k | 0 <= f < d.fin && 0 <= k < d.order
      ensures EinsumTerm(T, W, d, b, g, v, s, f * d.order + k) == RefTerm(T, W, d, b, g, v, s, k, f)
    {
      EinsumTermAt(T, W, d, b, g, v, s, f, k);
    }
    SumRows(d.fin, d.order, c => EinsumTerm(T, W, d, b, g, v, s, c),
            (f, k) => RefTerm(T, W, d, b, g, v, s, k, f));
    Sum2Swap(d.fin, d.order, (f, k) => RefTerm(T, W, d, b, g, v, s, k, f),
             (k, f) => RefTerm(T, W, d, b, g, v, s, k, f));
  }

  /** Term c of the einsum contraction when the slices come from the recurrence
      (graphconv.py:155-159, 161-164) as written: the [B, V, S, K, Fin] tensor is
      reshaped straight to [B, Fin*K, V, S], so channel c, vertex v, position s
      reads offset ((b*Fin*K + c)*V + v)*S + s of the stacked tensor. */
  function AsWrittenTerm(T: seq<Matrix>, W: Weight, d: Dims, b: int, g: int, v: int, s: int, c: int): real
  {
    if d.order == 0 then 0.0
    else StackedAt(T, d, ((b * (d.fin * d.order) + c) * d.verts + v) * d.space + s)
         * WAt(W, c % d.order, c / d.order, g)
  }

  function AsWrittenEntry(T: seq<Matrix>, W: Weight, d: Dims, b: int, g: int, v: int, s: int): real
  {
    Sum(d.fin * d.order, c => AsWrittenTerm(T, W, d, b, g, v, s, c))
  }

  /** The same contraction with the stacked tensor permuted to [B, Fin, K, V, S]
      before the reshape: channel c reads element (b, v, s, c % K, c / K). */
  function CorrectedTerm(T: seq<Matrix>, W: Weight, d: Dims, b: int, g: int, v: int, s: int, c: int): real
  {
    if d.order == 0 then 0.0
    else StackedAt(T, d, StackIndex(d, b, v, s, c % d.order, c / d.order))
         * WAt(W, c % d.order, c / d.order, g)
  }

  function CorrectedEntry(T: seq<Matrix>, W: Weight, d: Dims, b: int, g: int, v: int, s: int): real
  {
    Sum(d.fin * d.order, c => CorrectedTerm(T, W, d, b, g, v, s, c))
  }

  /** With the permute, the recurrence's einsum path computes the reference. */
  lemma CorrectedIsReference(T: seq<Matrix>, W: Weight, d: Dims, b: nat, g: int, v: nat, s: nat)
    requires v < d.verts && s < d.space
    ensures CorrectedEntry(T, W, d, b, g, v, s) == Reference(T, W, d, b, g, v, s)
  {
    forall c | 0 <= c < d.fin * d.order
      ensures CorrectedTerm(T, W, d, b, g, v, s, c) == EinsumTerm(T, W, d, b, g, v, s, c)
    {
      FlatSplit(c, d.fin, d.order);
      StackedAtIndex(T, d, b, v, s, c % d.order, c / d.order);
    }
    SumExt(d.fin * d.order, c => CorrectedTerm(T, W, d, b, g, v, s, c),
                            c => EinsumTerm(T, W, d, b, g, v, s, c));
    EinsumIsReference(T, W, d, b, g, v, s);
  }

  /** The contraction stage of `cheb_conv` as written, picked by the two flags. */
  function Contract(T: seq<Matrix>, W: Weight, d: Dims, precompute: bool, einsum: bool,
                    b: int, g: int, v: int, s: int): real
  {
    if !einsum then MatmulEntry(T, W, d, b, g, v, s)
    else if precompute then EinsumEntry(T, W, d, b, g, v, s)
    else AsWrittenEntry(T, W, d, b, g, v, s)
  }

  /** The contraction stage with the recurrence's einsum path corrected. */
  function ContractCorrected(T: seq<Matrix>, W: Weight, d: Dims, precompute: bool, einsum: bool,
                             b: int, g: int, v: int, s: int): real
  {
    if !einsum then MatmulEntry(T, W, d, b, g, v, s)
    else if precompute then EinsumEntry(T, W, d, b, g, v, s)
    else CorrectedEntry(T, W, d, b, g, v, s)
  }

  /** Three of the four flag combinations compute the reference as written. */
  lemma ContractIsReference(T: seq<Matrix>, W: Weight, d: Dims, precompute: bool, einsum: bool,
                            b: nat, g: int, v: nat, s: nat)
    requires v < d.verts && s < d.space && (precompute || !einsum)
    ensures Contract(T, W, d, precompute, einsum, b, g, v, s) == Reference(T, W, d, b, g, v, s)
  {
    if !einsum {
      MatmulIsReference(T, W, d, b, g, v, s);
    } else {
      EinsumIsReference(T, W, d, b, g, v, s);
    }
  }

  /** The corrected stage computes the reference for every flag combination. */
  lemma ContractCorrectedIsReference(T: seq<Matrix>, W: Weight, d: Dims, precompute: bool, einsum: bool,
                                     b: nat, g: int, v: nat, s: nat)
    requires v < d.verts && s < d.space
    ensures ContractCorrected(T, W, d, precompute, einsum, b, g, v, s) == Reference(T, W, d, b, g, v, s)
  {
    if !einsum {
      MatmulIsReference(T, W, d, b, g, v, s);
    } else if precompute {
      EinsumIsReference(T, W, d, b, g, v, s);
    } else {
      CorrectedIsReference(T, W, d, b, g, v, s);
    }
  }

  /** Term c of the contraction that the einsum path as written computes in the
      case below: slice v at vertex c, weighted by order c. */
  function SwappedTerm(T: seq<Matrix>, W: Weight, g: int, v: int, c: int): real
  {
    Slice(T, v, c, 0) * WAt(W, c, 0, g)
  }

  /** With one batch, one channel, one position and as many orders as vertices, the
      recurrence's einsum path as written swaps the order and vertex axes: output
      vertex v sums slice v over the vertices c, each weighted by order c, where the
      reference sums slice c at vertex v. */
  lemma AsWrittenSwapsAxes(T: seq<Matrix>, W: Weight, d: Dims, g: int, v: nat)
    requires d.batch == 1 && d.fin == 1 && d.space == 1 && d.order == d.verts && v < d.verts
    ensures Contract(T, W, d, false, true, 0, g, v, 0) == Sum(d.order, c => SwappedTerm(T, W, g, v, c))
  {
    forall c | 0 <= c < d.order
      ensures AsWrittenTerm(T, W, d, 0, g, v, 0, c) == SwappedTerm(T, W, g, v, c)
    {
      assert ((0 * (d.fin * d.order) + c) * d.verts + v) * d.space + 0 == StackIndex(d, 0, c, 0, v, 0);
      StackedAtIndex(T, d, 0, c, 0, v, 0);
      FlatDivMod(0, c, d.order);
    }
    SumExt(d.order, c => AsWrittenTerm(T, W, d, 0, g, v, 0, c), c => SwappedTerm(T, W, g, v, c));
  }

  /** The example: two vertices, two orders, one channel, L = I and input x = (1, 0),
      so x0 = [[1], [0]] and the slices are x0 and L x0. */
  lemma ExampleSlices(x: seq<real>, d: Dims)
    requires x == [1.0, 0.0] && d == Dims(1, 1, 2, 1, 2, 1)
    ensures X0(x, d) == [[1.0], [0.0]]
    ensures ChebSeq(Identity(2), X0(x, d), 2) == [[[1.0], [0.0]], [[1.0], [0.0]]]
  {
    var x0 := X0(x, d);
    X0Shape(x, d);
    X0At(x, d, 0, 0, 0, 0);
    X0At(x, d, 0, 0, 1, 0);
    MatrixExt(x0, [[1.0], [0.0]], 2, 1);
    IdentityLeft(x0, 2, 1);
  }

  /** With W weighing order 1 only, the reference output at vertex 0 is 1. */
  lemma ExampleReference(T: seq<Matrix>, W: Weight, d: Dims)
    requires T == [[[1.0], [0.0]], [[1.0], [0.0]]] && W == [[[0.0]], [[1.0]]] && d == Dims(1, 1, 2, 1, 2, 1)
    ensures Reference(T, W, d, 0, 0, 0, 0) == 1.0
  {
    assert Inner(1, (k, f) => RefTerm(T, W, d, 0, 0, 0, 0, k, f), 0) == 0.0 by {
      assert RefTerm(T, W, d, 0, 0, 0, 0, 0, 0) == 0.0;
    }
    assert Inner(1, (k, f) => RefTerm(T, W, d, 0, 0, 0, 0, k, f), 1) == 1.0 by {
      assert RefTerm(T, W, d, 0, 0, 0, 0, 1, 0) == 1.0;
    }
  }

  /** The recurrence's einsum path as written gives 0 there. */
  lemma AsWrittenDiffers(T: seq<Matrix>, W: Weight, d: Dims)
    requires T == [[[1.0], [0.0]], [[1.0], [0.0]]] && W == [[[0.0]], [[1.0]]] && d == Dims(1, 1, 2, 1, 2, 1)
    ensures Contract(T, W, d, false, true, 0, 0, 0, 0) == 0.0
  {
    AsWrittenSwapsAxes(T, W, d, 0, 0);
    assert SwappedTerm(T, W, 0, 0, 0) == 0.0;
    assert SwappedTerm(T, W, 0, 0, 1) == 0.0;
  }

  /** `cheb_conv` with einsum and without precompute, on the example: output 0 where
      the reference over the Chebyshev projections of the input is 1. */
  lemma ChebConvEinsumDiffers(x: seq<real>, W: Weight, d: Dims)
    requires x == [1.0, 0.0] && W == [[[0.0]], [[1.0]]] && d == Dims(1, 1, 2, 1, 2, 1)
    ensures Output(ChebSeq(Identity(2), X0(x, d), 2), W, d, false, true)[0][0][0][0] == 0.0
    ensures Reference(ChebSeq(Identity(2), X0(x, d), 2), W, d, 0, 0, 0, 0) == 1.0
  {
    ExampleSlices(x, d);
    ExampleReference(ChebSeq(Identity(2), X0(x, d), 2), W, d);
    AsWrittenDiffers(ChebSeq(Identity(2), X0(x, d), 2), W, d);
  }

  /** The slices `cheb_conv` contracts: the recurrence's projections of x0, or, on
      the precomputed paths, T_k(L) transposed applied to x0. */
  function Slices(L: Matrix, x0: Matrix, K: nat, precompute: bool): seq<Matrix>
  {
    if precompute then TransposedSlices(L, x0, K) else ChebSeq(L, x0, K)
  }

  /** The slices are the Chebyshev projections of x0 on the recurrence paths, and
      on the precomputed paths whenever L is symmetric. */
  lemma SlicesAreCheb(L: Matrix, x0: Matrix, K: nat, precompute: bool, d: nat)
    requires IsMatrix(x0, |L|, d) && (precompute ==> IsSymmetric(L))
    ensures Slices(L, x0, K, precompute) == ChebSeq(L, x0, K)
  {
    if precompute {
      TransposedSlicesAreCheb(L, x0, K, d);
    }
  }

  /** SlicesAreCheb for the x0 view of a flat input. */
  lemma X0SlicesAreCheb(L: Matrix, x: seq<real>, d: Dims, precompute: bool)
    requires |L| == d.verts && (precompute ==> IsSymmetric(L))
    ensures Slices(L, X0(x, d), d.order, precompute) == ChebSeq(L, X0(x, d), d.order)
  {
    var x0 := X0(x, d);
    X0Shape(x, d);
    assert IsMatrix(x0, |L|, Cols(x0));
    SlicesAreCheb(L, x0, d.order, precompute, Cols(x0));
  }

  /** The Chebyshev slices of x0, as `cheb_conv` (sparse, `project_cheb_basis`) or
      `cheb_conv_dense` (`project_cheb_basis_dense`) obtains them: from the
      recurrence, or from the precomputed projector through the einsum or through
      `torch.mm` with the flattened transposed projector (graphconv.py:30-34, 141-159).
      The precomputed routes apply the transposed polynomials, which are the
      polynomials themselves for a symmetric Laplacian. */
  method ChebSlices(S: SparseMatrix, x0: Matrix, K: nat, dense: bool, precompute: bool, einsum: bool)
    returns (T: seq<Matrix>)
    requires Valid(S) && S.rows == S.cols && S.rows > 0 && IsMatrix(x0, S.rows, Cols(x0)) && K > 0
    ensures T == Slices(ToDense(S), x0, K, precompute)
    ensures !precompute || IsSymmetric(ToDense(S)) ==> T == ChebSeq(ToDense(S), x0, K)
  {
    var L := ToDense(S);
    var v := S.rows;
    ChebSeqIndex(L, x0, K);
    if precompute {
      var r := PrecomputeProjection(L, K);
      var P := r.value;
      assert P == ChebPolys(L, K);
      if einsum {
        T := seq(K, k requires 0 <= k < K => EinsumProject(P, x0, k));
      } else {
        var M := MatMul(FlatProjector(P, v), x0);
        T := seq(K, k requires 0 <= k < K => Block(M, k, v));
      }
      forall k | 0 <= k < K
        ensures T[k] == TransposedSlices(L, x0, K)[k]
      {
        ChebPolyShape(L, k, v);
        FlatBlockIsTransposed(P, x0, v, Cols(x0), k);
        EinsumIsTransposed(P, x0, v, Cols(x0), k);
      }
    } else if dense {
      T := ProjectChebBasisDense(L, x0, K);
    } else {
      T := ProjectChebBasis(S, x0, K);
    }
    if !precompute || IsSymmetric(L) {
      SlicesAreCheb(L, x0, K, precompute, Cols(x0));
    }
  }

  /** The [B, Fout, V, S] output whose entries the contraction stage gives. */
  function Output(T: seq<Matrix>, W: Weight, d: Dims, precompute: bool, einsum: bool): Tensor4
  {
    seq(d.batch, b => seq(d.fout, g => seq(d.verts, v => seq(d.space, s =>
      Contract(T, W, d, precompute, einsum, b, g, v, s)))))
  }

  lemma OutputAt(T: seq<Matrix>, W: Weight, d: Dims, precompute: bool, einsum: bool, b: nat, g: nat, v: nat, s: nat)
    requires b < d.batch && g < d.fout && v < d.verts && s < d.space
    ensures Output(T, W, d, precompute, einsum)[b][g][v][s] == Contract(T, W, d, precompute, einsum, b, g, v, s)
  {
  }

  /** `cheb_conv` / `cheb_conv_dense` on a flat [B, Fin, V, S] input with Laplacian S
      and a [K, Fin, Fout] weight; the bias is added by the caller. */
  method ChebConv(S: SparseMatrix, x: seq<real>, W: Weight, d: Dims, dense: bool, precompute: bool, einsum: bool)
    returns (out: Tensor4)
    requires Valid(S) && S.rows == S.cols && S.rows == d.verts > 0 && d.order > 0
    ensures out == Output(Slices(ToDense(S), X0(x, d), d.order, precompute), W, d, precompute, einsum)
  {
    var x0 := X0(x, d);
    X0Shape(x, d);
    ColsOf(x0, d.verts, d.fin * d.batch * d.space);
    var T := ChebSlices(S, x0, d.order, dense, precompute, einsum);
    out := Output(T, W, d, precompute, einsum);
  }

  /** Output entry (b, g, v, s) of `cheb_conv` is the reference contraction of the
      slices it computes, in every flag combination but einsum without precompute;
      for the recurrence paths, and for a symmetric Laplacian on the precomputed
      paths, that is the reference over the Chebyshev projections of the input. */
  lemma ChebConvIsReference(L: Matrix, x: seq<real>, W: Weight, d: Dims, precompute: bool, einsum: bool,
                            b: nat, g: nat, v: nat, s: nat)
    requires b < d.batch && g < d.fout && v < d.verts && s < d.space && (precompute || !einsum)
    ensures Output(Slices(L, X0(x, d), d.order, precompute), W, d, precompute, einsum)[b][g][v][s]
         == Reference(Slices(L, X0(x, d), d.order, precompute), W, d, b, g, v, s)
    ensures |L| == d.verts && (precompute ==> IsSymmetric(L)) ==>
              (Output(Slices(L, X0(x, d), d.order, precompute), W, d, precompute, einsum)[b][g][v][s]
               == Reference(ChebSeq(L, X0(x, d), d.order), W, d, b, g, v, s))
  {
    var T := Slices(L, X0(x, d), d.order, precompute);
    OutputAt(T, W, d, precompute, einsum, b, g, v, s);
    ContractIsReference(T, W, d, precompute, einsum, b, g, v, s);
    if |L| == d.verts && (precompute ==> IsSymmetric(L)) {
      X0SlicesAreCheb(L, x, d, precompute);
    }
  }

  /** The output with the recurrence's einsum path corrected. */
  function OutputCorrected(T: seq<Matrix>, W: Weight, d: Dims, precompute: bool, einsum: bool): Tensor4
  {
    seq(d.batch, b => seq(d.fout, g => seq(d.verts, v => seq(d.space, s =>
      ContractCorrected(T, W, d, precompute, einsum, b, g, v, s)))))
  }

  lemma OutputCorrectedAt(T: seq<Matrix>, W: Weight, d: Dims, precompute: bool, einsum: bool, b: nat, g: nat, v: nat, s: nat)
    requires b < d.batch && g < d.fout && v < d.verts && s < d.space
    ensures OutputCorrected(T, W, d, precompute, einsum)[b][g][v][s] == ContractCorrected(T, W, d, precompute, einsum, b, g, v, s)
  {
  }

  /** `cheb_conv` with the stacked slices permuted to [B, Fin, K, V, S] before the
      reshape of the einsum path. */
  method ChebConvCorrected(S: SparseMatrix, x: seq<real>, W: Weight, d: Dims, dense: bool, precompute: bool, einsum: bool)
    returns (out: Tensor4)
    requires Valid(S) && S.rows == S.cols && S.rows == d.verts > 0 && d.order > 0
    ensures out == OutputCorrected(Slices(ToDense(S), X0(x, d), d.order, precompute), W, d, precompute, einsum)
  {
    var x0 := X0(x, d);
    X0Shape(x, d);
    ColsOf(x0, d.verts, d.fin * d.batch * d.space);
    var T := ChebSlices(S, x0, d.order, dense, precompute, einsum);
    out := OutputCorrected(T, W, d, precompute, einsum);
  }

  /** Every entry of the corrected output is the reference contraction of the slices,
      whatever the flags; over the Chebyshev projections of the input on the
      recurrence paths, and for a symmetric Laplacian on the precomputed paths. */
  lemma ChebConvCorrectedIsReference(L: Matrix, x: seq<real>, W: Weight, d: Dims, precompute: bool, einsum: bool,
                                     b: nat, g: nat, v: nat, s: nat)
    requires b < d.batch && g < d.fout && v < d.verts && s < d.space
    ensures OutputCorrected(Slices(L, X0(x, d), d.order, precompute), W, d, precompute, einsum)[b][g][v][s]
         == Reference(Slices(L, X0(x, d), d.order, precompute), W, d, b, g, v, s)
    ensures |L| == d.verts && (precompute ==> IsSymmetric(L)) ==>
              (OutputCorrected(Slices(L, X0(x, d), d.order, precompute), W, d, precompute, einsum)[b][g][v][s]
               == Reference(ChebSeq(L, X0(x, d), d.order), W, d, b, g, v, s))
  {
    var T := Slices(L, X0(x, d), d.order, precompute);
    OutputCorrectedAt(T, W, d, precompute, einsum, b, g, v, s);
    ContractCorrectedIsReference(T, W, d, precompute, einsum, b, g, v, s);
    if |L| == d.verts && (precompute ==> IsSymmetric(L)) {
      X0SlicesAreCheb(L, x, d, precompute);
    }
  }
}
