/** The spherical-harmonic degrees of `Sampling.__init__` (sampling.py): the
    degree derived from the vertex count, its capping by an optional maximum,
    the degree of the signal-to-coefficient matrix, and the constant-shell
    matrices used for the b = 0 shell. */
module ShDegree {
  import opened Outcomes
  import opened LinAlg

  /** Floor of the square root. */
  function ISqrt(n: nat): (r: nat)
    ensures r * r <= n < (r + 1) * (r + 1)
  {
    if n == 0 then 0
    else
      var s := ISqrt(n - 1);
      if (s + 1) * (s + 1) <= n then s + 1 else s
  }

  /** Number of real symmetric spherical-harmonic coefficients up to degree l
      (even degrees, every order): `(l + 1) * (l // 2 + 1)`. */
  function CoeffCount(l: nat): nat
  {
    (l + 1) * (l / 2 + 1)
  }

  /** `2 * int((sqrt(8 N - 7) - 3) / 4)`: `int` truncates towards zero, so a single
      vertex gives degree 0; no vertex makes `int(nan)` raise ValueError. */
  function DerivedDegree(n: nat): Result<nat>
  {
    if n == 0 then Err(ValueError)
    else
      var r := ISqrt(8 * n - 7);
      Ok(if r < 3 then 0 else 2 * ((r - 3) / 4))
  }

  /** Eight coefficient counts plus one is a perfect square. */
  lemma CountSquare(h: nat)
    ensures 8 * CoeffCount(2 * h) + 1 == (4 * h + 3) * (4 * h + 3)
  {
    assert (2 * h) / 2 == h;
  }

  lemma SquareMono(a: nat, b: nat)
    requires a <= b
    ensures a * a <= b * b
  {
  }

  lemma SquareLess(a: nat, b: nat)
    requires a * a < b * b
    ensures a < b
  {
  }

  /** With two vertices or more the derived degree is even, keeps the coefficient
      count strictly below the vertex count, and is the largest even degree that
      does. */
  lemma DerivedDegreeIsLargest(n: nat)
    requires n >= 2
    ensures DerivedDegree(n).Ok?
    ensures DerivedDegree(n).value % 2 == 0
    ensures CoeffCount(DerivedDegree(n).value) <= n - 1
    ensures CoeffCount(DerivedDegree(n).value + 2) > n - 1
  {
    var r := ISqrt(8 * n - 7);
    SquareLess(3, r + 1);
    var h := (r - 3) / 4;
    assert DerivedDegree(n).value == 2 * h;
    Double(h);
    CountSquare(h);
    CountSquare(h + 1);
    assert 2 * h + 2 == 2 * (h + 1);
    QuarterBounds(r, 8 * n - 7);
  }

  lemma Double(h: nat)
    ensures (2 * h) % 2 == 0 && (2 * h) / 2 == h
  {
  }

  /** h = (r - 3) / 4 is the largest h with (4h + 3)^2 <= m, where r = floor(sqrt(m)). */
  lemma QuarterBounds(r: nat, m: nat)
    requires r >= 3 && r * r <= m < (r + 1) * (r + 1)
    ensures (4 * ((r - 3) / 4) + 3) * (4 * ((r - 3) / 4) + 3) <= m
    ensures (4 * ((r - 3) / 4) + 7) * (4 * ((r - 3) / 4) + 7) > m
  {
    var h := (r - 3) / 4;
    assert 4 * h + 3 <= r < 4 * h + 7;
    SquareMono(4 * h + 3, r);
    SquareMono(r + 1, 4 * h + 7);
  }

  /** A single vertex gives degree 0, whose single coefficient equals the vertex count. */
  lemma SingleVertexDegree()
    ensures DerivedDegree(1) == Ok(0) && CoeffCount(0) == 1
  {
    assert ISqrt(1) == 1;
  }

  function Min(a: nat, b: nat): nat
  {
    if a <= b then a else b
  }

  /** `min(l, max_sh_degree)` when a maximum is given. */
  function Cap(l: nat, maxDegree: Option<nat>): nat
  {
    match maxDegree
    case None => l
    case Some(m) => Min(l, m)
  }

  /** The degree of SH2S: the given degree, or the derived one capped by the maximum. */
  function SH2SDegree(n: nat, shDegree: Option<nat>, maxDegree: Option<nat>): Result<nat>
  {
    match shDegree
    case Some(d) => Ok(d)
    case None =>
      match DerivedDegree(n)
      case Err(e) => Err(e)
      case Ok(l) => Ok(Cap(l, maxDegree))
  }

  /** The degree of S2SH: the derived degree, capped by the SH2S degree and by the maximum. */
  function S2SHDegree(n: nat, sh2sDegree: nat, maxDegree: Option<nat>): Result<nat>
  {
    match DerivedDegree(n)
    case Err(e) => Err(e)
    case Ok(l) => Ok(Cap(Min(l, sh2sDegree), maxDegree))
  }

  /** S2SH never has a higher degree than SH2S, never more than the derived one,
      and never above the maximum. */
  lemma S2SHWithinSH2S(n: nat, shDegree: Option<nat>, maxDegree: Option<nat>)
    requires n >= 1 && SH2SDegree(n, shDegree, maxDegree).Ok?
    ensures S2SHDegree(n, SH2SDegree(n, shDegree, maxDegree).value, maxDegree).Ok?
    ensures var l := S2SHDegree(n, SH2SDegree(n, shDegree, maxDegree).value, maxDegree).value;
      l <= SH2SDegree(n, shDegree, maxDegree).value && l <= DerivedDegree(n).value
      && (maxDegree.Some? ==> l <= maxDegree.value)
  {
  }

  lemma {:induction false} CoeffCountMono(a: nat, b: nat)
    requires a <= b
    ensures CoeffCount(a) <= CoeffCount(b)
  {
    assert a / 2 <= b / 2;
    assert (a + 1) * (a / 2 + 1) <= (b + 1) * (a / 2 + 1);
    assert (b + 1) * (a / 2 + 1) <= (b + 1) * (b / 2 + 1);
  }

  /** With two vertices or more, S2SH has fewer coefficients than vertices. */
  lemma S2SHBelowVertexCount(n: nat, sh2sDegree: nat, maxDegree: Option<nat>)
    requires n >= 2
    ensures S2SHDegree(n, sh2sDegree, maxDegree).Ok?
    ensures CoeffCount(S2SHDegree(n, sh2sDegree, maxDegree).value) < n
  {
    DerivedDegreeIsLargest(n);
    CoeffCountMono(S2SHDegree(n, sh2sDegree, maxDegree).value, DerivedDegree(n).value);
  }

  // ----- the constant shell -----

  /** S2SH of the constant shell: V x 1, every entry sqrt(4 pi) / V (`root` is sqrt(4 pi)). */
  function ConstS2SH(v: nat, root: real): (m: Matrix)
    ensures IsMatrix(m, v, 1)
  {
    seq(v, i requires 0 <= i < v => [root / v as real])
  }

  /** SH2S of the constant shell: (L+1)(L/2+1) x V, zero but for row 0, which is 1/sqrt(4 pi). */
  function ConstSH2S(l: nat, v: nat, root: real): (m: Matrix)
    requires root > 0.0
    ensures IsMatrix(m, CoeffCount(l), v)
  {
    seq(CoeffCount(l), p requires 0 <= p < CoeffCount(l) => seq(v, i requires 0 <= i < v => if p == 0 then 1.0 / root else 0.0))
  }

  /** Entry k of a signal, zero outside it. */
  function Entry(x: seq<real>, k: int): real
  {
    if 0 <= k < |x| then x[k] else 0.0
  }

  /** The mean of a signal on V vertices. */
  function Mean(x: seq<real>): real
    requires |x| > 0
  {
    Sum(|x|, k => Entry(x, k)) / |x| as real
  }

  function AnalyseTerm(x: seq<real>, s2sh: Matrix, p: int, k: int): real
  {
    Entry(x, k) * At(s2sh, k, p)
  }

  /** Coefficient p of signal x through S2SH (`einsum('...k..,kp->...p..')`). */
  function Analyse(x: seq<real>, s2sh: Matrix, p: int): real
  {
    Sum(|x|, k => AnalyseTerm(x, s2sh, p, k))
  }

  function SynthesiseTerm(c: seq<real>, sh2s: Matrix, v: int, k: int): real
  {
    Entry(c, k) * At(sh2s, k, v)
  }

  /** Vertex v of coefficients c through SH2S. */
  function Synthesise(c: seq<real>, sh2s: Matrix, v: int): real
  {
    Sum(|c|, k => SynthesiseTerm(c, sh2s, v, k))
  }

  /** The single coefficient of the constant shell is sqrt(4 pi) times the mean. */
  lemma ConstantAnalyse(x: seq<real>, root: real)
    requires |x| > 0
    ensures Analyse(x, ConstS2SH(|x|, root), 0) == root * Mean(x)
  {
    var n := |x|;
    var s2sh := ConstS2SH(n, root);
    var w := root / n as real;
    forall k | 0 <= k < n
      ensures AnalyseTerm(x, s2sh, 0, k) == w * Entry(x, k)
    {
      ConstS2SHEntry(n, root, k);
    }
    SumScale(n, w, k => Entry(x, k), k => AnalyseTerm(x, s2sh, 0, k));
    DivMul(root, Sum(n, k => Entry(x, k)), n as real);
  }

  lemma ConstS2SHEntry(n: nat, root: real, k: nat)
    requires k < n
    ensures At(ConstS2SH(n, root), k, 0) == root / n as real
  {
  }

  lemma DivMul(a: real, b: real, c: real)
    requires c != 0.0
    ensures a / c * b == a * (b / c)
  {
  }

  /** The constant shell's SH2S reads coefficient 0 alone, divided by sqrt(4 pi). */
  lemma ConstantSynthesise(c: seq<real>, l: nat, n: nat, root: real, v: nat)
    requires root > 0.0 && v < n && |c| == CoeffCount(l)
    ensures Synthesise(c, ConstSH2S(l, n, root), v) == c[0] / root
  {
    var sh2s := ConstSH2S(l, n, root);
    SumDelta(|c|, 0, c[0] / root, k => SynthesiseTerm(c, sh2s, v, k));
  }

  /** On the constant shell, SH2S after S2SH sends every signal to its mean at every
      vertex, whatever the other coefficient slots hold. */
  lemma ConstantShellMean(x: seq<real>, l: nat, root: real, c: seq<real>, v: nat)
    requires |x| > 0 && root > 0.0 && v < |x|
    requires |c| == CoeffCount(l) && c[0] == Analyse(x, ConstS2SH(|x|, root), 0)
    ensures Synthesise(c, ConstSH2S(l, |x|, root), v) == Mean(x)
  {
    ConstantAnalyse(x, root);
    ConstantSynthesise(c, l, |x|, root, v);
  }
}
