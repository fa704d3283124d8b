/** A sparse graph Laplacian in coordinate (COO) form, as `torch.sparse`
    stores it: a list of (row, column, value) triples in which a repeated
    coordinate contributes the sum of its values. */
module SparseCoo {
  import opened LinAlg

  datatype Entry = Entry(row: nat, col: nat, val: real)

  datatype SparseMatrix = SparseMatrix(rows: nat, cols: nat, entries: seq<Entry>)

  /** Every stored coordinate lies inside the declared shape. */
  predicate Valid(S: SparseMatrix)
  {
    forall t :: 0 <= t < |S.entries| ==> S.entries[t].row < S.rows && S.entries[t].col < S.cols
  }

  /** The value one triple contributes at (i, j). */
  function Contribution(e: Entry, i: int, j: int): real
  {
    if e.row == i && e.col == j then e.val else 0.0
  }

  /** The dense value at (i, j) from the first m triples: the sum of the values stored there. */
  function EntrySum(es: seq<Entry>, m: nat, i: int, j: int): real
    requires m <= |es|
  {
    if m == 0 then 0.0 else EntrySum(es, m - 1, i, j) + Contribution(es[m - 1], i, j)
  }

  /** `Tensor.to_dense()`. */
  function ToDense(S: SparseMatrix): (D: Matrix)
    ensures IsMatrix(D, S.rows, S.cols)
  {
    seq(S.rows, i => seq(S.cols, j => EntrySum(S.entries, |S.entries|, i, j)))
  }

  /** The term one triple adds to entry (i, j) of `S X`. */
  function ProductTerm(e: Entry, X: Matrix, i: int, j: int): real
  {
    if e.row == i then e.val * At(X, e.col, j) else 0.0
  }

  /** Entry (i, j) of `torch.sparse.mm(S, X)` from the first m triples. */
  function ProductEntry(es: seq<Entry>, m: nat, X: Matrix, i: int, j: int): real
    requires m <= |es|
  {
    if m == 0 then 0.0 else ProductEntry(es, m - 1, X, i, j) + ProductTerm(es[m - 1], X, i, j)
  }

  /** `torch.sparse.mm(S, X)`, evaluated by walking the stored triples. */
  function SparseMM(S: SparseMatrix, X: Matrix): (P: Matrix)
    ensures IsMatrix(P, S.rows, Cols(X))
  {
    seq(S.rows, i => seq(Cols(X), j => ProductEntry(S.entries, |S.entries|, X, i, j)))
  }

  /** Taking in one more triple adds its weighted value at its own column. */
  lemma WeightedStep(es: seq<Entry>, m: nat, X: Matrix, i: int, j: int, k: int)
    requires 0 < m <= |es|
    ensures EntrySum(es, m, i, k) * At(X, k, j)
         == EntrySum(es, m - 1, i, k) * At(X, k, j) + Contribution(es[m - 1], i, k) * At(X, k, j)
  {
    var a := EntrySum(es, m - 1, i, k);
    var b := Contribution(es[m - 1], i, k);
    var x := At(X, k, j);
    assert (a + b) * x == a * x + b * x;
  }

  /** WeightedStep at every column below n. */
  lemma WeightedSteps(es: seq<Entry>, m: nat, X: Matrix, n: nat, i: int, j: int)
    requires 0 < m <= |es|
    ensures forall k :: 0 <= k < n ==>
      EntrySum(es, m, i, k) * At(X, k, j)
      == EntrySum(es, m - 1, i, k) * At(X, k, j) + Contribution(es[m - 1], i, k) * At(X, k, j)
  {
    forall k | 0 <= k < n
      ensures EntrySum(es, m, i, k) * At(X, k, j)
           == EntrySum(es, m - 1, i, k) * At(X, k, j) + Contribution(es[m - 1], i, k) * At(X, k, j)
    {
      WeightedStep(es, m, X, i, j, k);
    }
  }

  /** One triple's contributions, weighted by a column of X, add up to its product term. */
  lemma TermIsDelta(e: Entry, X: Matrix, n: nat, i: int, j: int)
    requires e.col < n
    ensures Sum(n, k => Contribution(e, i, k) * At(X, k, j)) == ProductTerm(e, X, i, j)
  {
    SumDelta(n, e.col, ProductTerm(e, X, i, j), k => Contribution(e, i, k) * At(X, k, j));
  }

  /** One more triple adds its own term to both sides. */
  lemma ProductEntryStep(es: seq<Entry>, m: nat, X: Matrix, n: nat, i: int, j: int)
    requires 0 < m <= |es| && es[m - 1].col < n
    requires ProductEntry(es, m - 1, X, i, j) == Sum(n, k => EntrySum(es, m - 1, i, k) * At(X, k, j))
    ensures ProductEntry(es, m, X, i, j) == Sum(n, k => EntrySum(es, m, i, k) * At(X, k, j))
  {
    var e := es[m - 1];
    WeightedSteps(es, m, X, n, i, j);
    SumAdd(n, k => EntrySum(es, m - 1, i, k) * At(X, k, j), k => Contribution(e, i, k) * At(X, k, j),
           k => EntrySum(es, m, i, k) * At(X, k, j));
    TermIsDelta(e, X, n, i, j);
  }

  /** Walking the first m triples gives the dense row-times-column sum. */
  lemma {:induction false} ProductEntryIsSum(es: seq<Entry>, m: nat, X: Matrix, n: nat, i: int, j: int)
    requires m <= |es|
    requires forall t :: 0 <= t < |es| ==> es[t].col < n
    ensures ProductEntry(es, m, X, i, j) == Sum(n, k => EntrySum(es, m, i, k) * At(X, k, j))
  {
    if m == 0 {
      SumZero(n, k => EntrySum(es, m, i, k) * At(X, k, j));
    } else {
      ProductEntryIsSum(es, m - 1, X, n, i, j);
      ProductEntryStep(es, m, X, n, i, j);
    }
  }

  /** `torch.sparse.mm` agrees with the dense product of `to_dense()`. */
  lemma {:induction false} SparseMMIsDense(S: SparseMatrix, X: Matrix, d: nat)
    requires Valid(S) && IsMatrix(X, S.cols, d)
    ensures SparseMM(S, X) == MatMul(ToDense(S), X)
  {
    var P := SparseMM(S, X);
    var Q := MatMul(ToDense(S), X);
    var D := ToDense(S);
    var es := S.entries;
    if S.rows > 0 && S.cols > 0 {
      ColsOf(X, S.cols, d);
      forall i, j | 0 <= i < S.rows && 0 <= j < d
        ensures P[i][j] == Q[i][j]
      {
        ProductEntryIsSum(es, |es|, X, S.cols, i, j);
        SumExt(S.cols, k => EntrySum(es, |es|, i, k) * At(X, k, j), k => At(D, i, k) * At(X, k, j));
      }
      MatrixExt(P, Q, S.rows, d);
    } else if S.rows > 0 {
      assert X == [];
      MatrixExt(P, Q, S.rows, 0);
    }
  }
}
