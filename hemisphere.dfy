/** The north-hemisphere selection of sampling.py and the antipodal fold of a
    HEALPix Laplacian onto the kept vertices: a vertex is kept when z > eps, or
    z is within eps of 0 and y > eps, or y and z are both within eps of 0 and
    x > eps; column j of the folded Laplacian adds the column of kept vertex j
    and the column of its antipode. */
module Hemisphere {
  import opened LinAlg

  type Point = (real, real, real)

  function Neg(p: Point): Point
  {
    (-p.0, -p.1, -p.2)
  }

  /** The boolean mask `index_north_hemi` at one vertex (`+` and `*` on boolean
      arrays are `or` and `and`). */
  predicate North(p: Point, eps: real)
  {
    p.2 > eps
    || (p.2 < eps && p.2 > -eps && p.1 > eps)
    || (p.2 < eps && p.2 > -eps && p.1 < eps && p.1 > -eps && p.0 > eps)
  }

  /** No coordinate sits exactly on one of the thresholds. */
  predicate OffThreshold(p: Point, eps: real)
  {
    p.0 != eps && p.0 != -eps && p.1 != eps && p.1 != -eps && p.2 != eps && p.2 != -eps
  }

  /** Every coordinate is within eps of 0. */
  predicate NearOrigin(p: Point, eps: real)
  {
    -eps < p.0 < eps && -eps < p.1 < eps && -eps < p.2 < eps
  }

  /** Away from the thresholds, exactly one of p and -p is kept, unless p is
      within eps of the origin, when neither is. */
  lemma ExactlyOneHemisphere(p: Point, eps: real)
    requires eps > 0.0 && OffThreshold(p, eps)
    ensures !NearOrigin(p, eps) ==> (North(p, eps) <==> !North(Neg(p), eps))
    ensures NearOrigin(p, eps) ==> !North(p, eps) && !North(Neg(p), eps)
  {
  }

  /** A point whose z is exactly eps (and so -p, whose z is exactly -eps) is in
      neither hemisphere, whatever its other coordinates. */
  lemma OnThresholdInNeither(p: Point, eps: real)
    requires eps > 0.0 && p.2 == eps
    ensures !North(p, eps) && !North(Neg(p), eps)
  {
  }

  /** `np.arange(n)[mask]` over the first k vertices: the kept indices, increasing. */
  function NorthUpTo(pts: seq<Point>, eps: real, k: nat): seq<nat>
    requires k <= |pts|
  {
    if k == 0 then []
    else NorthUpTo(pts, eps, k - 1) + (if North(pts[k - 1], eps) then [k - 1] else [])
  }

  function NorthIndices(pts: seq<Point>, eps: real): seq<nat>
  {
    NorthUpTo(pts, eps, |pts|)
  }

  predicate StrictlyIncreasing(s: seq<nat>)
  {
    forall a, b :: 0 <= a < b < |s| ==> s[a] < s[b]
  }

  /** The kept indices are exactly the vertices the mask selects, in increasing order. */
  lemma {:induction false} NorthUpToProps(pts: seq<Point>, eps: real, k: nat)
    requires k <= |pts|
    ensures StrictlyIncreasing(NorthUpTo(pts, eps, k))
    ensures forall j :: 0 <= j < |NorthUpTo(pts, eps, k)| ==> NorthUpTo(pts, eps, k)[j] < k
    ensures forall v :: 0 <= v < k ==> (v in NorthUpTo(pts, eps, k) <==> North(pts[v], eps))
  {
    if k > 0 {
      NorthUpToProps(pts, eps, k - 1);
    }
  }

  lemma NorthIndicesProps(pts: seq<Point>, eps: real)
    ensures StrictlyIncreasing(NorthIndices(pts, eps))
    ensures forall j :: 0 <= j < |NorthIndices(pts, eps)| ==> NorthIndices(pts, eps)[j] < |pts|
    ensures forall v :: 0 <= v < |pts| ==> (v in NorthIndices(pts, eps) <==> North(pts[v], eps))
  {
    NorthUpToProps(pts, eps, |pts|);
  }

  /** `match_sel[north[j]]` for every kept vertex: its antipode. */
  function Antipodes(north: seq<nat>, mt: seq<nat>): (b: seq<nat>)
    ensures |b| == |north|
  {
    seq(|north|, j requires 0 <= j < |north| => if north[j] < |mt| then mt[north[j]] else 0)
  }

  /** `L[north][:, north] + L[north][:, match_sel][:, north]`. */
  function Fold(l: Matrix, north: seq<nat>, mt: seq<nat>): (f: Matrix)
    ensures IsMatrix(f, |north|, |north|)
  {
    seq(|north|, i requires 0 <= i < |north| => seq(|north|, j requires 0 <= j < |north| =>
      At(l, north[i], north[j]) + At(l, north[i], Antipodes(north, mt)[j])))
  }

  /** The vertex data the fold relies on: mt is an involution sending every
      vertex to its antipode, and no vertex is near a threshold or the origin. */
  predicate AntipodalSampling(pts: seq<Point>, mt: seq<nat>, eps: real)
  {
    eps > 0.0 && |mt| == |pts|
    && (forall v :: 0 <= v < |pts| ==> OffThreshold(pts[v], eps) && !NearOrigin(pts[v], eps))
    && (forall v :: 0 <= v < |pts| ==> mt[v] < |pts|)
    && (forall v :: 0 <= v < |pts| ==> mt[mt[v]] == v && pts[mt[v]] == Neg(pts[v]))
  }

  /** The kept vertices and their antipodes split the sphere: each vertex is
      exactly one kept vertex or the antipode of exactly one. */
  predicate Splits(n: nat, a: seq<nat>, b: seq<nat>)
  {
    |a| == |b|
    && (forall j :: 0 <= j < |a| ==> a[j] < n && b[j] < n)
    && (forall j, k :: 0 <= j < |a| && 0 <= k < |a| && j != k ==> a[j] != a[k] && b[j] != b[k])
    && (forall j, k :: 0 <= j < |a| && 0 <= k < |a| ==> a[j] != b[k])
    && (forall v :: 0 <= v < n ==> v in a || v in b)
  }

  /** The mask and the antipode map split the sphere into kept vertices and their antipodes. */
  lemma NorthSplits(pts: seq<Point>, mt: seq<nat>, eps: real)
    requires AntipodalSampling(pts, mt, eps)
    ensures Splits(|pts|, NorthIndices(pts, eps), Antipodes(NorthIndices(pts, eps), mt))
  {
    var a := NorthIndices(pts, eps);
    var b := Antipodes(a, mt);
    KeptInRange(pts, mt, eps, a);
    KeptDistinct(pts, mt, eps, a);
    forall v | 0 <= v < |pts|
      ensures v in a || v in b
    {
      Covered(pts, mt, eps, a, v);
    }
  }

  /** Kept vertices and their antipodes are vertices, and no kept vertex is an antipode. */
  lemma KeptInRange(pts: seq<Point>, mt: seq<nat>, eps: real, a: seq<nat>)
    requires AntipodalSampling(pts, mt, eps) && a == NorthIndices(pts, eps)
    ensures |Antipodes(a, mt)| == |a|
    ensures forall j :: 0 <= j < |a| ==> a[j] < |pts| && Antipodes(a, mt)[j] < |pts|
    ensures forall j, k :: 0 <= j < |a| && 0 <= k < |a| ==> a[j] != Antipodes(a, mt)[k]
  {
    var b := Antipodes(a, mt);
    NorthIndicesProps(pts, eps);
    forall j | 0 <= j < |a|
      ensures a[j] < |pts| && b[j] < |pts| && North(pts[a[j]], eps) && !North(pts[b[j]], eps)
    {
      KeptAntipode(pts, mt, eps, a, j);
    }
  }

  /** Distinct kept vertices have distinct antipodes. */
  lemma KeptDistinct(pts: seq<Point>, mt: seq<nat>, eps: real, a: seq<nat>)
    requires AntipodalSampling(pts, mt, eps) && a == NorthIndices(pts, eps)
    ensures |Antipodes(a, mt)| == |a|
    ensures forall j, k :: 0 <= j < |a| && 0 <= k < |a| && j != k ==> a[j] != a[k] && Antipodes(a, mt)[j] != Antipodes(a, mt)[k]
  {
    var b := Antipodes(a, mt);
    NorthIndicesProps(pts, eps);
    forall j, k | 0 <= j < |a| && 0 <= k < |a| && j != k
      ensures a[j] != a[k] && b[j] != b[k]
    {
      KeptAntipode(pts, mt, eps, a, j);
      KeptAntipode(pts, mt, eps, a, k);
      if j < k {
        assert a[j] < a[k];
      } else {
        assert a[k] < a[j];
      }
      assert mt[b[j]] == a[j] && mt[b[k]] == a[k];
    }
  }

  lemma KeptAntipode(pts: seq<Point>, mt: seq<nat>, eps: real, a: seq<nat>, j: nat)
    requires AntipodalSampling(pts, mt, eps) && a == NorthIndices(pts, eps) && j < |a|
    ensures a[j] < |pts| && North(pts[a[j]], eps)
    ensures Antipodes(a, mt)[j] == mt[a[j]] && !North(pts[mt[a[j]]], eps)
  {
    NorthIndicesProps(pts, eps);
    assert a[j] in a;
    ExactlyOneHemisphere(pts[a[j]], eps);
  }

  lemma Covered(pts: seq<Point>, mt: seq<nat>, eps: real, a: seq<nat>, v: nat)
    requires AntipodalSampling(pts, mt, eps) && a == NorthIndices(pts, eps) && v < |pts|
    ensures v in a || v in Antipodes(a, mt)
  {
    NorthIndicesProps(pts, eps);
    if !North(pts[v], eps) {
      ExactlyOneHemisphere(pts[v], eps);
      assert mt[v] in a;
      var j :| 0 <= j < |a| && a[j] == mt[v];
      assert Antipodes(a, mt)[j] == v;
    }
  }

  function Hit(f: int -> real, c: int, v: int): real
  {
    if c == v then f(v) else 0.0
  }

  function PairHit(f: int -> real, a: seq<nat>, b: seq<nat>, v: int, j: int): real
    requires |a| == |b|
  {
    if 0 <= j < |a| then Hit(f, a[j], v) + Hit(f, b[j], v) else 0.0
  }

  /** f at kept vertex j plus f at its antipode. */
  function PairSum(f: int -> real, a: seq<nat>, b: seq<nat>, j: int): real
    requires |a| == |b|
  {
    if 0 <= j < |a| then f(a[j]) + f(b[j]) else 0.0
  }

  /** PairHit as a grid over (vertex, pair) and over (pair, vertex). */
  function PairGrid(f: int -> real, a: seq<nat>, b: seq<nat>): (int, int) -> real
    requires |a| == |b|
  {
    (v, j) => PairHit(f, a, b, v, j)
  }

  function PairGridT(f: int -> real, a: seq<nat>, b: seq<nat>): (int, int) -> real
    requires |a| == |b|
  {
    (j, v) => PairHit(f, a, b, v, j)
  }

  /** Vertex v is met by exactly one pair. */
  lemma VertexOwned(n: nat, f: int -> real, a: seq<nat>, b: seq<nat>, v: nat)
    requires Splits(n, a, b) && v < n
    ensures Inner(|a|, PairGrid(f, a, b), v) == f(v)
  {
    var o: nat;
    if v in a {
      o :| o < |a| && a[o] == v;
    } else {
      o :| o < |b| && b[o] == v;
    }
    forall j | 0 <= j < |a|
      ensures PairGrid(f, a, b)(v, j) == if j == o then f(v) else 0.0
    {
      assert PairGrid(f, a, b)(v, j) == PairHit(f, a, b, v, j);
    }
    SumDelta(|a|, o, f(v), j => PairGrid(f, a, b)(v, j));
  }

  /** Pair j meets exactly its two vertices. */
  lemma PairOwns(n: nat, f: int -> real, a: seq<nat>, b: seq<nat>, j: nat)
    requires Splits(n, a, b) && j < |a|
    ensures Inner(n, PairGridT(f, a, b), j) == PairSum(f, a, b, j)
  {
    SumDelta(n, a[j], f(a[j]), v => Hit(f, a[j], v));
    SumDelta(n, b[j], f(b[j]), v => Hit(f, b[j], v));
    forall v | 0 <= v < n
      ensures PairGridT(f, a, b)(j, v) == Hit(f, a[j], v) + Hit(f, b[j], v)
    {
      assert PairGridT(f, a, b)(j, v) == PairHit(f, a, b, v, j);
    }
    SumAdd(n, v => Hit(f, a[j], v), v => Hit(f, b[j], v), v => PairGridT(f, a, b)(j, v));
  }

  /** A sum over the whole sphere regrouped as a sum over kept vertices and their antipodes. */
  lemma SumOverPairs(n: nat, f: int -> real, a: seq<nat>, b: seq<nat>)
    requires Splits(n, a, b)
    ensures Sum(n, f) == Sum(|a|, j => PairSum(f, a, b, j))
  {
    var m := |a|;
    forall v | 0 <= v < n
      ensures Inner(m, PairGrid(f, a, b), v) == f(v)
    {
      VertexOwned(n, f, a, b, v);
    }
    SumExt(n, f, i => Inner(m, PairGrid(f, a, b), i));
    Sum2Swap(n, m, PairGrid(f, a, b), PairGridT(f, a, b));
    forall j | 0 <= j < m
      ensures Inner(n, PairGridT(f, a, b), j) == PairSum(f, a, b, j)
    {
      PairOwns(n, f, a, b, j);
    }
    SumExt(m, j => Inner(n, PairGridT(f, a, b), j), j => PairSum(f, a, b, j));
  }

  function Entry(x: seq<real>, k: int): real
  {
    if 0 <= k < |x| then x[k] else 0.0
  }

  function RowTerm(l: Matrix, x: seq<real>, r: int, v: int): real
  {
    At(l, r, v) * Entry(x, v)
  }

  /** Row r of the matrix-vector product l x. */
  function Apply(l: Matrix, x: seq<real>, r: int): real
  {
    Sum(|x|, v => RowTerm(l, x, r, v))
  }

  /** A signal on the kept vertices. */
  function Restrict(x: seq<real>, north: seq<nat>): (y: seq<real>)
    ensures |y| == |north|
  {
    seq(|north|, j requires 0 <= j < |north| => Entry(x, north[j]))
  }

  /** On a signal with equal values at antipodes, the folded Laplacian on the
      kept vertices acts as the full Laplacian does at those vertices. */
  lemma FoldActsOnEvenSignals(l: Matrix, pts: seq<Point>, mt: seq<nat>, eps: real, x: seq<real>, i: nat)
    requires AntipodalSampling(pts, mt, eps) && IsMatrix(l, |pts|, |pts|) && |x| == |pts|
    requires forall v :: 0 <= v < |pts| ==> x[mt[v]] == x[v]
    requires i < |NorthIndices(pts, eps)|
    ensures Apply(Fold(l, NorthIndices(pts, eps), mt), Restrict(x, NorthIndices(pts, eps)), i)
         == Apply(l, x, NorthIndices(pts, eps)[i])
  {
    var north := NorthIndices(pts, eps);
    var b := Antipodes(north, mt);
    var r := north[i];
    var y := Restrict(x, north);
    NorthSplits(pts, mt, eps);
    SumOverPairs(|pts|, v => RowTerm(l, x, r, v), north, b);
    forall j | 0 <= j < |north|
      ensures RowTerm(Fold(l, north, mt), y, i, j) == PairSum(v => RowTerm(l, x, r, v), north, b, j)
    {
      assert x[b[j]] == x[north[j]];
    }
    SumExt(|north|, v => RowTerm(Fold(l, north, mt), y, i, v), j => PairSum(v => RowTerm(l, x, r, v), north, b, j));
  }

  function One(v: int): real
  {
    1.0
  }

  lemma {:induction false} SumOnes(n: nat)
    ensures Sum(n, One) == n as real
  {
    if n > 0 {
      SumOnes(n - 1);
    }
  }

  /** A split sphere has twice as many vertices as pairs. */
  lemma SplitsCount(n: nat, a: seq<nat>, b: seq<nat>)
    requires Splits(n, a, b)
    ensures n == 2 * |a|
  {
    SumOverPairs(n, One, a, b);
    SumOnes(n);
    SumPairsOfOnes(|a|, a, b);
  }

  lemma {:induction false} SumPairsOfOnes(k: nat, a: seq<nat>, b: seq<nat>)
    requires |a| == |b| && k <= |a|
    ensures Sum(k, j => PairSum(One, a, b, j)) == (2 * k) as real
  {
    if k > 0 {
      SumPairsOfOnes(k - 1, a, b);
    }
  }

  /** Exactly half of the vertices are kept, as the `shape[0] // 2` assertion expects. */
  lemma HalfKept(pts: seq<Point>, mt: seq<nat>, eps: real)
    requires AntipodalSampling(pts, mt, eps)
    ensures 2 * |NorthIndices(pts, eps)| == |pts|
  {
    NorthSplits(pts, mt, eps);
    SplitsCount(|pts|, NorthIndices(pts, eps), Antipodes(NorthIndices(pts, eps), mt));
  }
}
