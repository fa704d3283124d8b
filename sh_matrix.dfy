/** `_sh_matrix` (sampling.py): the real spherical-harmonic matrix b, one row per
    (degree, order) pair and one column per sampling direction, filled with a
    running row counter; degrees run over range(0, L + 1, 2) in symmetric mode,
    orders over -d..d with order and 0..0 without. The complex harmonic values
    are a parameter; the pseudo-inverse giving S2SH is not part of this model. */
module ShMatrix {
  import opened Outcomes
  import opened LinAlg
  import opened ShDegree

  /** `sph_harm(|m|, d, theta_g, phi_g)` as (real part, imaginary part). */
  type Harmonic = (nat, nat, nat) -> (real, real)

  /** The degree step: `int(symmetric + 1)`. */
  function Step(symmetric: bool): nat
  {
    if symmetric then 2 else 1
  }

  /** Degree j of range(0, L + 1, step). */
  function DegreeOf(j: nat, symmetric: bool): nat
  {
    if symmetric then 2 * j else j
  }

  /** The number of degrees in range(0, L + 1, step). */
  function DegreeCount(l: nat, symmetric: bool): nat
  {
    if symmetric then l / 2 + 1 else l + 1
  }

  /** The largest order of degree d: `d * with_order` for a flag of 0 or 1. */
  function Half(d: nat, wo: nat): nat
  {
    if wo == 1 then d else 0
  }

  /** The (degree, order) pairs of degree d, orders -Half .. Half in increasing order. */
  function Block(d: nat, wo: nat): seq<(nat, int)>
  {
    seq(2 * Half(d, wo) + 1, i => (d, i - Half(d, wo)))
  }

  /** The pairs of the first n degrees, in the order the loops visit them. */
  function PairsUpTo(n: nat, symmetric: bool, wo: nat): seq<(nat, int)>
  {
    if n == 0 then [] else PairsUpTo(n - 1, symmetric, wo) + Block(DegreeOf(n - 1, symmetric), wo)
  }

  /** All row labels of b. */
  function Pairs(l: nat, symmetric: bool, wo: nat): seq<(nat, int)>
  {
    PairsUpTo(DegreeCount(l, symmetric), symmetric, wo)
  }

  /** `num_coefficients` as the source computes it. */
  function NumCoefficients(l: nat, wo: nat, symmetric: bool): nat
  {
    if symmetric then (if wo == 1 then CoeffCount(l) else l / 2 + 1)
    else (if wo == 1 then (l + 1) * (l + 1) else l + 1)
  }

  /** Entry (d, m) of b at direction g: imaginary part times sqrt 2 for negative
      orders, real part for order 0, real part times sqrt 2 for positive orders. */
  function BasisValue(y: Harmonic, sqrt2: real, pair: (nat, int), g: nat): real
  {
    var (d, m) := pair;
    var h := y(if m < 0 then -m else m, d, g);
    if m < 0 then h.1 * sqrt2 else if m == 0 then h.0 else h.0 * sqrt2
  }

  /** What `_sh_matrix` yields for its SH2S matrix b: a ValueError for an order flag
      other than 0 or 1 or for an odd degree in symmetric mode, else one row per pair. */
  function ShMatrixSpec(l: nat, g: nat, wo: int, symmetric: bool, y: Harmonic, sqrt2: real): Result<Matrix>
  {
    if wo != 0 && wo != 1 then Err(ValueError)
    else if symmetric && l % 2 != 0 then Err(ValueError)
    else
      var p := Pairs(l, symmetric, wo);
      Ok(seq(|p|, c requires 0 <= c < |p| => seq(g, k requires 0 <= k < g => BasisValue(y, sqrt2, p[c], k))))
  }

  /** The number of pairs among the first n degrees. */
  function PairsLen(n: nat, symmetric: bool, wo: nat): nat
  {
    if wo != 1 then n else if symmetric then n * (2 * n - 1) else n * n
  }

  lemma {:induction false} PairsLength(n: nat, symmetric: bool, wo: nat)
    ensures |PairsUpTo(n, symmetric, wo)| == PairsLen(n, symmetric, wo)
  {
    if n > 0 {
      PairsLength(n - 1, symmetric, wo);
      if wo == 1 {
        var k := n - 1;
        if symmetric {
          assert k * (2 * k - 1) + (4 * k + 1) == n * (2 * n - 1) by {
            assert n * (2 * n - 1) == 2 * n * n - n;
            assert k * (2 * k - 1) == 2 * k * k - k;
            assert n * n == k * k + 2 * k + 1;
          }
        } else {
          assert k * k + (2 * k + 1) == n * n;
        }
      }
    }
  }

  /** The loops visit exactly `num_coefficients` pairs in every valid mode. */
  lemma PairsCount(l: nat, wo: nat, symmetric: bool)
    requires wo <= 1 && (symmetric ==> l % 2 == 0)
    ensures |Pairs(l, symmetric, wo)| == NumCoefficients(l, wo, symmetric)
  {
    var n := DegreeCount(l, symmetric);
    PairsLength(n, symmetric, wo);
    if symmetric && wo == 1 {
      var h := l / 2;
      assert l == 2 * h;
      assert n == h + 1;
      assert n * (2 * n - 1) == (l + 1) * (l / 2 + 1) by {
        assert 2 * n - 1 == l + 1;
      }
    }
  }

  lemma {:induction false} PairsPrefix(j: nat, n: nat, symmetric: bool, wo: nat, k: nat)
    requires j <= n && k < |PairsUpTo(j, symmetric, wo)|
    ensures |PairsUpTo(j, symmetric, wo)| <= |PairsUpTo(n, symmetric, wo)|
    ensures PairsUpTo(n, symmetric, wo)[k] == PairsUpTo(j, symmetric, wo)[k]
  {
    if j < n {
      PairsPrefix(j, n - 1, symmetric, wo, k);
    }
  }

  /** Slot i of degree index j sits at |PairsUpTo(j)| + i and holds (d, i - Half(d)). */
  lemma {:induction false} PairAt(j: nat, n: nat, symmetric: bool, wo: nat, i: nat)
    requires j < n && i < 2 * Half(DegreeOf(j, symmetric), wo) + 1
    ensures |PairsUpTo(j, symmetric, wo)| + i < |PairsUpTo(n, symmetric, wo)|
    ensures PairsUpTo(n, symmetric, wo)[|PairsUpTo(j, symmetric, wo)| + i]
         == (DegreeOf(j, symmetric), i - Half(DegreeOf(j, symmetric), wo))
  {
    if n == j + 1 {
      LastBlockAt(j, symmetric, wo, i);
    } else {
      PairAt(j, n - 1, symmetric, wo, i);
      var pre := PairsUpTo(n - 1, symmetric, wo);
      var k := |PairsUpTo(j, symmetric, wo)| + i;
      assert PairsUpTo(n, symmetric, wo) == pre + Block(DegreeOf(n - 1, symmetric), wo);
      assert (pre + Block(DegreeOf(n - 1, symmetric), wo))[k] == pre[k];
    }
  }

  lemma LastBlockAt(j: nat, symmetric: bool, wo: nat, i: nat)
    requires i < 2 * Half(DegreeOf(j, symmetric), wo) + 1
    ensures |PairsUpTo(j, symmetric, wo)| + i < |PairsUpTo(j + 1, symmetric, wo)|
    ensures PairsUpTo(j + 1, symmetric, wo)[|PairsUpTo(j, symmetric, wo)| + i]
         == (DegreeOf(j, symmetric), i - Half(DegreeOf(j, symmetric), wo))
  {
    var d := DegreeOf(j, symmetric);
    var pre := PairsUpTo(j, symmetric, wo);
    assert PairsUpTo(j + 1, symmetric, wo) == pre + Block(d, wo);
    assert (pre + Block(d, wo))[|pre| + i] == Block(d, wo)[i];
  }

  /** Degree j is visited by `range(0, L + 1, step)` iff j is below the degree count. */
  lemma DegreeInRange(j: nat, l: nat, symmetric: bool)
    requires symmetric ==> l % 2 == 0
    ensures DegreeOf(j, symmetric) < l + 1 <==> j < DegreeCount(l, symmetric)
  {
  }

  /** Degree j's block sits in the pairs list right after the pairs of the degrees before it. */
  lemma BlockInPairs(j: nat, n: nat, symmetric: bool, wo: nat)
    requires j < n
    ensures |PairsUpTo(j + 1, symmetric, wo)| == |PairsUpTo(j, symmetric, wo)| + |Block(DegreeOf(j, symmetric), wo)|
    ensures |PairsUpTo(j + 1, symmetric, wo)| <= |PairsUpTo(n, symmetric, wo)|
    ensures forall i :: 0 <= i < |Block(DegreeOf(j, symmetric), wo)| ==>
      PairsUpTo(n, symmetric, wo)[|PairsUpTo(j, symmetric, wo)| + i] == Block(DegreeOf(j, symmetric), wo)[i]
  {
    var start := |PairsUpTo(j, symmetric, wo)|;
    PairsPrefix(j + 1, n, symmetric, wo, start);
    forall i | 0 <= i < |Block(DegreeOf(j, symmetric), wo)|
      ensures PairsUpTo(n, symmetric, wo)[start + i] == Block(DegreeOf(j, symmetric), wo)[i]
    {
      PairAt(j, n, symmetric, wo, i);
    }
  }

  /** The orders of one degree for one direction: rows `column` onwards of
      column `gradient`, one per pair of the degree's block, nothing else touched;
      p is the list of row labels, which holds that block from row `column` on. */
  method FillDegree(b: array2<real>, gradient: nat, column: nat, degree: nat, wo: nat,
                    ghost p: seq<(nat, int)>, y: Harmonic, sqrt2: real)
      returns (next: nat)
    requires wo <= 1 && column + |Block(degree, wo)| <= b.Length0 && gradient < b.Length1
    requires column + |Block(degree, wo)| <= |p|
    requires forall i :: 0 <= i < |Block(degree, wo)| ==> p[column + i] == Block(degree, wo)[i]
    modifies b
    ensures next == column + |Block(degree, wo)|
    ensures forall c, k :: 0 <= c < b.Length0 && 0 <= k < b.Length1 && k != gradient ==> b[c, k] == old(b[c, k])
    ensures forall c :: 0 <= c < b.Length0 && !(column <= c < next) ==> b[c, gradient] == old(b[c, gradient])
    ensures forall c :: column <= c < next ==> b[c, gradient] == BasisValue(y, sqrt2, p[c], gradient)
  {
    assert degree * wo == Half(degree, wo);
    next := column;
    var order: int := -(degree * wo);
    while order < degree * wo + 1
      invariant -(Half(degree, wo) as int) <= order <= Half(degree, wo) + 1
      invariant next == column + (order + Half(degree, wo))
      invariant forall c, k :: 0 <= c < b.Length0 && 0 <= k < b.Length1 && k != gradient ==> b[c, k] == old(b[c, k])
      invariant forall c :: 0 <= c < b.Length0 && !(column <= c < next) ==> b[c, gradient] == old(b[c, gradient])
      invariant forall c :: column <= c < next ==> b[c, gradient] == BasisValue(y, sqrt2, p[c], gradient)
    {
      assert Block(degree, wo)[next - column] == (degree, order);
      assert p[column + (next - column)] == (degree, order);
      b[next, gradient] := BasisValue(y, sqrt2, (degree, order), gradient);
      next := next + 1;
      order := order + 1;
    }
  }

  /** All degrees for one direction: the whole of column `gradient`, nothing else touched. */
  method FillColumn(b: array2<real>, gradient: nat, l: nat, wo: nat, symmetric: bool, y: Harmonic, sqrt2: real)
    requires wo <= 1 && (symmetric ==> l % 2 == 0)
    requires b.Length0 == |Pairs(l, symmetric, wo)| && gradient < b.Length1
    modifies b
    ensures forall c, k :: 0 <= c < b.Length0 && 0 <= k < b.Length1 && k != gradient ==> b[c, k] == old(b[c, k])
    ensures forall c :: 0 <= c < b.Length0 ==> b[c, gradient] == BasisValue(y, sqrt2, Pairs(l, symmetric, wo)[c], gradient)
  {
    ghost var n := DegreeCount(l, symmetric);
    ghost var p := PairsUpTo(n, symmetric, wo);
    var step := Step(symmetric);
    var column := 0;
    var degree := 0;
    ghost var j := 0;
    while degree < l + 1
      invariant 0 <= j <= n && degree == DegreeOf(j, symmetric)
      invariant column == |PairsUpTo(j, symmetric, wo)|
      invariant forall c, k :: 0 <= c < b.Length0 && 0 <= k < b.Length1 && k != gradient ==> b[c, k] == old(b[c, k])
      invariant forall c :: 0 <= c < column && c < b.Length0 ==> b[c, gradient] == BasisValue(y, sqrt2, p[c], gradient)
    {
      DegreeInRange(j, l, symmetric);
      BlockInPairs(j, n, symmetric, wo);
      column := FillDegree(b, gradient, column, degree, wo, p, y, sqrt2);
      degree := degree + step;
      j := j + 1;
    }
    DegreeInRange(j, l, symmetric);
  }

  /** `_sh_matrix`'s SH2S matrix: b starts at zero and every direction g walks the
      degrees and orders, writing row `id_column` and advancing it. */
  method ShMatrixFill(l: nat, g: nat, wo: int, symmetric: bool, y: Harmonic, sqrt2: real) returns (r: Result<Matrix>)
    ensures r == ShMatrixSpec(l, g, wo, symmetric, y, sqrt2)
  {
    if wo != 0 && wo != 1 {
      return Err(ValueError);
    }
    if symmetric && l % 2 != 0 {
      return Err(ValueError);
    }
    var nc := NumCoefficients(l, wo, symmetric);
    ghost var p := Pairs(l, symmetric, wo);
    PairsCount(l, wo, symmetric);
    var b := new real[nc, g]((i, k) => 0.0);
    var gradient := 0;
    while gradient < g
      invariant 0 <= gradient <= g
      invariant forall c, k :: 0 <= c < nc && 0 <= k < gradient ==> b[c, k] == BasisValue(y, sqrt2, p[c], k)
    {
      FillColumn(b, gradient, l, wo, symmetric, y, sqrt2);
      gradient := gradient + 1;
    }
    var rows := seq(nc, c requires 0 <= c < nc reads b => seq(g, k requires 0 <= k < g reads b => b[c, k]));
    ghost var spec := seq(|p|, c requires 0 <= c < |p| => seq(g, k requires 0 <= k < g => BasisValue(y, sqrt2, p[c], k)));
    forall c | 0 <= c < nc
      ensures rows[c] == spec[c]
    {
    }
    assert rows == spec;
    r := Ok(rows);
  }

  /** The two ValueError cases, and the shape otherwise. */
  lemma ShMatrixOutcome(l: nat, g: nat, wo: int, symmetric: bool, y: Harmonic, sqrt2: real)
    ensures ShMatrixSpec(l, g, wo, symmetric, y, sqrt2).Err?
        <==> (wo != 0 && wo != 1) || (symmetric && l % 2 != 0)
    ensures ShMatrixSpec(l, g, wo, symmetric, y, sqrt2).Err?
        ==> ShMatrixSpec(l, g, wo, symmetric, y, sqrt2).error == ValueError
    ensures ShMatrixSpec(l, g, wo, symmetric, y, sqrt2).Ok?
        ==> IsMatrix(ShMatrixSpec(l, g, wo, symmetric, y, sqrt2).value, NumCoefficients(l, wo, symmetric), g)
  {
    if (wo == 0 || wo == 1) && !(symmetric && l % 2 != 0) {
      PairsCount(l, wo, symmetric);
    }
  }

  /** Every row is labelled by a valid pair: a degree below the n-th (even in
      symmetric mode) and an order within the degree (zero without order). */
  lemma {:induction false} PairsValid(n: nat, symmetric: bool, wo: nat, c: nat)
    requires c < |PairsUpTo(n, symmetric, wo)|
    ensures var (d, m) := PairsUpTo(n, symmetric, wo)[c];
      (exists i :: 0 <= i < n && d == DegreeOf(i, symmetric)) && -(Half(d, wo) as int) <= m <= Half(d, wo)
  {
    if c < |PairsUpTo(n - 1, symmetric, wo)| {
      PairsValid(n - 1, symmetric, wo, c);
    } else {
      assert 0 <= n - 1 < n;
    }
  }

  /** Symmetric mode with order: (degree d, order m) sits in row d(d+1)/2 + m. */
  lemma SymmetricRow(l: nat, d: nat, m: int)
    requires l % 2 == 0 && d % 2 == 0 && d <= l && -(d as int) <= m <= d
    ensures |Pairs(l, true, 1)| == CoeffCount(l)
    ensures 0 <= d * (d + 1) / 2 + m < |Pairs(l, true, 1)|
    ensures Pairs(l, true, 1)[d * (d + 1) / 2 + m] == (d, m)
  {
    var j := d / 2;
    assert d == 2 * j;
    PairsLength(j, true, 1);
    assert d * (d + 1) / 2 == j * (2 * j - 1) + d by {
      assert d * (d + 1) == 2 * (j * (2 * j - 1) + d);
    }
    PairAt(j, DegreeCount(l, true), true, 1, m + d);
    PairsCount(l, 1, true);
  }
}
