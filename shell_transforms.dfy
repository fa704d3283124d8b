/** The spherical-harmonic transforms of model/shutils.py. A signal is held per
    batch-and-channel index as a matrix with one row per voxel and one column
    per vertex (or per coefficient); the einsum 'ijklmn,kp->ijplmn' contracts
    the vertex axis with a V x C matrix and leaves every other axis alone. The
    multi-shell variants scatter per-shell results to the vertices of each shell
    (`shell_inverse == i`) and gather them back. */
module ShellTransforms {
  import opened Outcomes
  import opened LinAlg
  import opened ShDegree

  /** [batch x channel] of (voxel x vertex) or (voxel x coefficient) matrices. */
  type Field = seq<Matrix>

  /** [batch x channel] of [shell] of (voxel x coefficient) matrices. */
  type ShellField = seq<seq<Matrix>>

  predicate IsField(x: Field, n: nat, p: nat, v: nat)
  {
    |x| == n && forall b :: 0 <= b < n ==> IsMatrix(x[b], p, v)
  }

  predicate IsShellField(x: ShellField, n: nat, s: nat, p: nat, c: nat)
  {
    |x| == n && forall b :: 0 <= b < n ==> |x[b]| == s && forall i :: 0 <= i < s ==> IsMatrix(x[b][i], p, c)
  }

  // ----- ComputeSHC and ComputeSignal -----

  /** `torch.einsum('ijklmn,kp->ijplmn', x, M)`: both ComputeSHC (M = S2SH) and
      ComputeSignal (M = SH2S) are this contraction. */
  function Contract(x: Field, m: Matrix): Field
  {
    seq(|x|, b requires 0 <= b < |x| => MatMul(x[b], m))
  }

  /** The contraction keeps the batch, channel and voxel axes and replaces the
      vertex axis by the columns of M: entry [b][q][k] is sum_v x[b][q][v] M[v][k]. */
  lemma ContractEntry(x: Field, m: Matrix, n: nat, p: nat, v: nat, c: nat, b: nat, q: nat, k: nat)
    requires IsField(x, n, p, v) && IsMatrix(m, v, c) && v > 0
    requires b < n && q < p && k < c
    ensures IsField(Contract(x, m), n, p, c)
    ensures Contract(x, m)[b][q][k] == Sum(v, u => At(x[b], q, u) * At(m, u, k))
  {
    ContractShape(x, m, n, p, v, c);
  }

  lemma ContractShape(x: Field, m: Matrix, n: nat, p: nat, v: nat, c: nat)
    requires IsField(x, n, p, v) && IsMatrix(m, v, c) && v > 0
    ensures IsField(Contract(x, m), n, p, c)
  {
    forall b | 0 <= b < n
      ensures IsMatrix(Contract(x, m)[b], p, c)
    {
      MatMulShape(x[b], m, p, v, c);
    }
  }

  /** ComputeSignal after ComputeSHC is one contraction with S2SH SH2S. */
  lemma ContractRoundTrip(x: Field, s2sh: Matrix, sh2s: Matrix, n: nat, p: nat, v: nat, c: nat)
    requires IsField(x, n, p, v) && IsMatrix(s2sh, v, c) && IsMatrix(sh2s, c, v) && v > 0
    ensures Contract(Contract(x, s2sh), sh2s) == Contract(x, MatMul(s2sh, sh2s))
  {
    forall b | 0 <= b < n
      ensures MatMul(MatMul(x[b], s2sh), sh2s) == MatMul(x[b], MatMul(s2sh, sh2s))
    {
      MatMulAssoc(x[b], s2sh, sh2s, p, v, c, v);
    }
  }

  /** One contraction entry is the coefficient `Analyse` of the voxel's fiber. */
  lemma ContractIsAnalyse(xb: Matrix, m: Matrix, p: nat, v: nat, q: nat, k: nat)
    requires IsMatrix(xb, p, v) && q < p && |m| == v
    ensures At(MatMul(xb, m), q, k) == Analyse(xb[q], m, k) || k >= Cols(m)
  {
    if k < Cols(m) {
      SumExt(v, u => At(xb, q, u) * At(m, u, k), u => AnalyseTerm(xb[q], m, k, u));
    }
  }

  /** On the constant shell (b = 0), ComputeSignal after ComputeSHC gives every
      vertex the mean of its voxel's fiber, whatever the coefficient slots
      other than the first hold. */
  lemma ConstantShellRoundTrip(x: Field, z: Field, n: nat, p: nat, v: nat, l: nat, root: real, b: nat, q: nat, w: nat)
    requires IsField(x, n, p, v) && IsField(z, n, p, CoeffCount(l)) && v > 0 && root > 0.0
    requires b < n && q < p && w < v
    requires z[b][q][0] == Contract(x, ConstS2SH(v, root))[b][q][0]
    ensures Contract(z, ConstSH2S(l, v, root))[b][q][w] == Mean(x[b][q])
  {
    var s2sh := ConstS2SH(v, root);
    var sh2s := ConstSH2S(l, v, root);
    MatMulShape(x[b], s2sh, p, v, 1);
    ContractIsAnalyse(x[b], s2sh, p, v, q, 0);
    var c := z[b][q];
    assert c[0] == Analyse(x[b][q], s2sh, 0);
    ConstantShellMean(x[b][q], l, root, c, w);
    MatMulShape(z[b], sh2s, p, CoeffCount(l), v);
    SumExt(CoeffCount(l), k => At(z[b], q, k) * At(sh2s, k, w), k => SynthesiseTerm(c, sh2s, w, k));
  }

  // ----- shells: membership, rank, gather -----

  /** The vertices among the first k whose shell is i, in increasing order
      (`np.arange(V)[shell_inverse == i]`). */
  function ShellUpTo(inv: seq<nat>, i: nat, k: nat): seq<nat>
    requires k <= |inv|
  {
    if k == 0 then [] else ShellUpTo(inv, i, k - 1) + (if inv[k - 1] == i then [k - 1] else [])
  }

  function Members(inv: seq<nat>, i: nat): seq<nat>
  {
    ShellUpTo(inv, i, |inv|)
  }

  /** The position of vertex v within its shell: how many earlier vertices share it. */
  function Rank(inv: seq<nat>, v: nat): nat
    requires v < |inv|
  {
    |ShellUpTo(inv, inv[v], v)|
  }

  predicate Increasing(s: seq<nat>)
  {
    forall a, b :: 0 <= a < b < |s| ==> s[a] < s[b]
  }

  lemma {:induction false} ShellUpToProps(inv: seq<nat>, i: nat, k: nat)
    requires k <= |inv|
    ensures Increasing(ShellUpTo(inv, i, k))
    ensures forall r :: 0 <= r < |ShellUpTo(inv, i, k)| ==> ShellUpTo(inv, i, k)[r] < k
    ensures forall u :: 0 <= u < k ==> (u in ShellUpTo(inv, i, k) <==> inv[u] == i)
  {
    if k > 0 {
      ShellUpToProps(inv, i, k - 1);
    }
  }

  /** Vertex v sits at position Rank(v) of its shell's vertex list. */
  lemma {:induction false} MemberAtRank(inv: seq<nat>, v: nat, k: nat)
    requires v < k <= |inv|
    ensures Rank(inv, v) < |ShellUpTo(inv, inv[v], k)|
    ensures ShellUpTo(inv, inv[v], k)[Rank(inv, v)] == v
  {
    if k > v + 1 {
      MemberAtRank(inv, v, k - 1);
    }
  }

  /** Scatter and gather are inverse: entry r of shell i's vertex list is a
      vertex of shell i whose rank is r. */
  lemma RankOfMember(inv: seq<nat>, i: nat, r: nat)
    requires r < |Members(inv, i)|
    ensures Members(inv, i)[r] < |inv|
    ensures inv[Members(inv, i)[r]] == i && Rank(inv, Members(inv, i)[r]) == r
  {
    var s := Members(inv, i);
    ShellUpToProps(inv, i, |inv|);
    var v := s[r];
    assert v in s;
    MemberAtRank(inv, v, |inv|);
    IncreasingInjective(s, Rank(inv, v), r);
  }

  lemma IncreasingInjective(s: seq<nat>, a: nat, b: nat)
    requires Increasing(s) && a < |s| && b < |s| && s[a] == s[b]
    ensures a == b
  {
  }

  /** `x[:, :, shell_inverse == i]` for one batch-and-channel index: the columns of
      the shell's vertices, in order. */
  function Gather(xb: Matrix, idx: seq<nat>): Matrix
  {
    seq(|xb|, q requires 0 <= q < |xb| => seq(|idx|, r requires 0 <= r < |idx| => At(xb, q, idx[r])))
  }

  /** A gathered shell reads only the vertices of that shell. */
  lemma GatherReadsOnlyShell(xb: Matrix, xb': Matrix, inv: seq<nat>, i: nat, p: nat)
    requires |xb| == p && |xb'| == p
    requires forall q, u :: 0 <= q < p && 0 <= u < |inv| && inv[u] == i ==> At(xb, q, u) == At(xb', q, u)
    ensures Gather(xb, Members(inv, i)) == Gather(xb', Members(inv, i))
  {
    var s := Members(inv, i);
    var g, g' := Gather(xb, s), Gather(xb', s);
    forall q, r | 0 <= q < p && 0 <= r < |s|
      ensures g[q][r] == g'[q][r]
    {
      RankOfMember(inv, i, r);
    }
    MatrixExt(g, g', p, |s|);
  }

  // ----- the multi-shell sampling -----

  /** One shell's `Sampling`: its S2SH (V_i x C_i) and SH2S (rows x V_i). */
  datatype Shell = Shell(s2sh: Matrix, sh2s: Matrix)

  /** `ShellSampling`: the shell index of every vertex and one Sampling per shell. */
  datatype ShellSampling = ShellSampling(shellInverse: seq<nat>, sampling: seq<Shell>)

  /** What the ShellSampling constructor guarantees: `np.unique` gives shell
      indices below the shell count and no empty shell, and each shell's
      Sampling is built from exactly that shell's vertices. */
  predicate WellFormed(ss: ShellSampling)
  {
    (forall v :: 0 <= v < |ss.shellInverse| ==> ss.shellInverse[v] < |ss.sampling|)
    && forall i :: 0 <= i < |ss.sampling| ==>
         |Members(ss.shellInverse, i)| >= 1
         && IsMatrix(ss.sampling[i].s2sh, |Members(ss.shellInverse, i)|, Cols(ss.sampling[i].s2sh))
         && IsMatrix(ss.sampling[i].sh2s, |ss.sampling[i].sh2s|, |Members(ss.shellInverse, i)|)
  }

  /** `M[:C]`: at most the first c rows. */
  function Take(m: Matrix, c: nat): (t: Matrix)
    ensures |t| == if c <= |m| then c else |m|
  {
    if c <= |m| then m[..c] else m
  }

  function ZeroField(n: nat, p: nat, v: nat): (y: Field)
    ensures IsField(y, n, p, v)
  {
    seq(n, _ => Zeros(p, v))
  }

  // ----- ShellComputeSignal -----

  /** `x[:, :, i]`. */
  function ShellSlice(x: ShellField, i: nat): Field
  {
    seq(|x|, b requires 0 <= b < |x| => if i < |x[b]| then x[b][i] else [])
  }

  /** `M[:C]` as the einsum 'ijklmn,kp->ijplmn' contracts it with C coefficients on
      the axis k. The einsum broadcasts an axis of size 1 against the other
      operand's: a single row of M stands for all C rows, and a single coefficient
      against an M with no rows contracts over nothing (a zero row of width v). */
  function EinsumRows(m: Matrix, c: nat, v: nat): Matrix
  {
    var t := Take(m, c);
    if |t| == c then t
    else if |t| == 1 then seq(c, _ => t[0])
    else Zeros(1, v)
  }

  /** Whenever the axis k broadcasts, the contracted matrix has C rows of width v. */
  lemma EinsumRowsShape(m: Matrix, c: nat, v: nat)
    requires IsMatrix(m, |m|, v) && (|m| >= c || |m| == 1 || c == 1)
    ensures IsMatrix(EinsumRows(m, c, v), c, v)
  {
  }

  /** A single row of M is read for every one of the C coefficients. */
  lemma EinsumRowsBroadcast(m: Matrix, c: nat, v: nat)
    requires |m| == 1 && c >= 1
    ensures |EinsumRows(m, c, v)| == c && forall k :: 0 <= k < c ==> EinsumRows(m, c, v)[k] == m[0]
  {
  }

  /** Assigning z to a place c wide, as `y[..] = z` does: a z of one column is
      broadcast to all c. */
  function Broadcast(z: Matrix, c: nat): Matrix
  {
    if Cols(z) == c then z else seq(|z|, q requires 0 <= q < |z| => seq(c, _ => At(z, q, 0)))
  }

  /** Broadcast for every batch-and-channel index. */
  function Assign(z: Field, v: nat): Field
  {
    seq(|z|, b requires 0 <= b < |z| => Broadcast(z[b], v))
  }

  /** A one-column z is repeated across the place, a z of the right width is kept. */
  lemma BroadcastEntry(z: Matrix, p: nat, w: nat, c: nat, q: nat, j: nat)
    requires IsMatrix(z, p, w) && (w == c || w == 1) && q < p && j < c
    ensures IsMatrix(Broadcast(z, c), p, c)
    ensures Broadcast(z, c)[q][j] == if w == c then z[q][j] else z[q][0]
  {
  }

  lemma BroadcastShape(z: Matrix, p: nat, w: nat, c: nat)
    requires IsMatrix(z, p, w) && (w == c || w == 1)
    ensures IsMatrix(Broadcast(z, c), p, c)
  {
  }

  /** Shell i's signal: its C coefficients through the first C rows of its SH2S,
      assigned to the shell's V_i vertices, so that a result of one column is
      broadcast to all of them. */
  function ShellSignal(x: ShellField, ss: ShellSampling, c: nat, i: nat): Field
    requires i < |ss.sampling|
  {
    var v := |Members(ss.shellInverse, i)|;
    Assign(Contract(ShellSlice(x, i), EinsumRows(ss.sampling[i].sh2s, c, v)), v)
  }

  /** With a one-row SH2S, vertex w of shell i receives the sum of the C
      coefficients times SH2S[0][w]. */
  lemma ShellSignalBroadcast(x: ShellField, ss: ShellSampling, n: nat, p: nat, c: nat, i: nat, b: nat, q: nat, w: nat)
    requires WellFormed(ss) && IsShellField(x, n, |ss.sampling|, p, c) && i < |ss.sampling|
    requires |ss.sampling[i].sh2s| == 1 && c >= 1 && b < n && q < p && w < |Members(ss.shellInverse, i)|
    ensures ShellSignal(x, ss, c, i)[b][q][w]
         == ss.sampling[i].sh2s[0][w] * Sum(c, u => At(x[b][i], q, u))
  {
    var sh2s := ss.sampling[i].sh2s;
    var v := |Members(ss.shellInverse, i)|;
    var m := EinsumRows(sh2s, c, v);
    var xs := ShellSlice(x, i);
    assert IsField(xs, n, p, c);
    EinsumRowsShape(sh2s, c, v);
    EinsumRowsBroadcast(sh2s, c, v);
    ContractEntry(xs, m, n, p, c, v, b, q, w);
    BroadcastEntry(Contract(xs, m)[b], p, v, v, q, w);
    SumScale(c, sh2s[0][w], u => At(x[b][i], q, u), u => At(xs[b], q, u) * At(m, u, w));
  }

  /** With a one-column SH2S, the assignment broadcasts the single result column:
      every vertex of shell i receives the same value, the C coefficients against
      that column. */
  lemma ShellSignalColumnBroadcast(x: ShellField, ss: ShellSampling, n: nat, p: nat, c: nat, i: nat, b: nat, q: nat, r: nat)
    requires IsShellField(x, n, |ss.sampling|, p, c) && i < |ss.sampling|
    requires IsMatrix(ss.sampling[i].sh2s, |ss.sampling[i].sh2s|, 1) && |ss.sampling[i].sh2s| >= c >= 1
    requires b < n && q < p && r < |Members(ss.shellInverse, i)|
    ensures ShellSignal(x, ss, c, i)[b][q][r] == Sum(c, u => At(x[b][i], q, u) * At(ss.sampling[i].sh2s, u, 0))
  {
    var sh2s := ss.sampling[i].sh2s;
    var v := |Members(ss.shellInverse, i)|;
    var m := EinsumRows(sh2s, c, v);
    var xs := ShellSlice(x, i);
    assert IsField(xs, n, p, c);
    assert m == sh2s[..c];
    assert IsMatrix(m, c, 1);
    ContractEntry(xs, m, n, p, c, 1, b, q, 0);
    BroadcastEntry(Contract(xs, m)[b], p, 1, v, q, r);
    SumExt(c, u => At(xs[b], q, u) * At(m, u, 0), u => At(x[b][i], q, u) * At(sh2s, u, 0));
  }

  /** `y[:, :, shell_inverse == i] = z`: the vertices of shell i take z's columns in order. */
  function Scatter(y: Field, z: Field, inv: seq<nat>, i: nat): Field
  {
    seq(|y|, b requires 0 <= b < |y| => seq(|y[b]|, q requires 0 <= q < |y[b]| =>
      seq(|y[b][q]|, v requires 0 <= v < |y[b][q]| =>
        if v < |inv| && inv[v] == i then At(if b < |z| then z[b] else [], q, Rank(inv, v)) else y[b][q][v])))
  }

  /** The einsum needs C rows of shell i's SH2S, or one of the two sizes on the
      contracted axis to be 1; the assignment needs one column of SH2S per vertex
      of the shell, or a single column it broadcasts. An SH2S with no rows carries
      no width here and is taken to fit. */
  predicate SignalFits(ss: ShellSampling, c: nat, i: nat)
    requires i < |ss.sampling|
  {
    var sh2s := ss.sampling[i].sh2s;
    var w := Cols(sh2s);
    (|sh2s| >= c || |sh2s| == 1 || c == 1) && IsMatrix(sh2s, |sh2s|, w)
    && (|sh2s| == 0 || w == |Members(ss.shellInverse, i)| || w == 1)
  }

  /** The outcome of ShellComputeSignal's loop after its first k shells: x has
      `sx` shells; a shell beyond them is an IndexError, and an SH2S whose row
      count neither reaches C nor broadcasts makes the einsum fail. */
  function SignalAfter(x: ShellField, ss: ShellSampling, sx: nat, n: nat, p: nat, c: nat, k: nat): Result<Field>
    requires k <= |ss.sampling|
  {
    if k == 0 then Ok(ZeroField(n, p, |ss.shellInverse|))
    else match SignalAfter(x, ss, sx, n, p, c, k - 1)
      case Err(e) => Err(e)
      case Ok(y) =>
        if k - 1 >= sx then Err(IndexError)
        else if !SignalFits(ss, c, k - 1) then Err(RuntimeError)
        else Ok(Scatter(y, ShellSignal(x, ss, c, k - 1), ss.shellInverse, k - 1))
  }

  /** Once the loop has failed, later shells do not change the outcome. */
  lemma SignalErrSticks(x: ShellField, ss: ShellSampling, sx: nat, n: nat, p: nat, c: nat, k: nat, k': nat)
    requires k <= k' <= |ss.sampling| && SignalAfter(x, ss, sx, n, p, c, k).Err?
    ensures SignalAfter(x, ss, sx, n, p, c, k') == SignalAfter(x, ss, sx, n, p, c, k)
    decreases k' - k
  {
    if k' > k {
      SignalErrSticks(x, ss, sx, n, p, c, k, k' - 1);
    }
  }

  /** `ShellComputeSignal.forward`. */
  method ShellComputeSignal(x: ShellField, ss: ShellSampling, n: nat, sx: nat, p: nat, c: nat) returns (r: Result<Field>)
    requires IsShellField(x, n, sx, p, c)
    ensures r == SignalAfter(x, ss, sx, n, p, c, |ss.sampling|)
  {
    var y := ZeroField(n, p, |ss.shellInverse|);
    var i := 0;
    while i < |ss.sampling|
      invariant 0 <= i <= |ss.sampling|
      invariant SignalAfter(x, ss, sx, n, p, c, i) == Ok(y)
    {
      if i >= sx {
        SignalErrSticks(x, ss, sx, n, p, c, i + 1, |ss.sampling|);
        return Err(IndexError);
      }
      var sh2s := ss.sampling[i].sh2s;
      var v := |Members(ss.shellInverse, i)|;
      var m := Take(sh2s, c);
      if (|m| != c && |m| != 1 && c != 1) || !IsMatrix(sh2s, |sh2s|, Cols(sh2s))
         || (|sh2s| != 0 && Cols(sh2s) != v && Cols(sh2s) != 1) {
        SignalErrSticks(x, ss, sx, n, p, c, i + 1, |ss.sampling|);
        return Err(RuntimeError);
      }
      var z := Contract(ShellSlice(x, i), EinsumRows(sh2s, c, v));
      y := Scatter(y, Assign(z, v), ss.shellInverse, i);
      i := i + 1;
    }
    return Ok(y);
  }

  /** What every vertex holds once the first k shells are written: the column of
      its rank in its own shell's signal, or zero if its shell is not written yet. */
  function SignalClosed(x: ShellField, ss: ShellSampling, p: nat, c: nat, k: nat): Field
    requires k <= |ss.sampling|
  {
    var inv := ss.shellInverse;
    seq(|x|, b requires 0 <= b < |x| => seq(p, q requires 0 <= q < p => seq(|inv|, v requires 0 <= v < |inv| =>
      if inv[v] < k then At(ShellSignal(x, ss, c, inv[v])[b], q, Rank(inv, v)) else 0.0)))
  }

  /** ShellComputeSignal fails exactly when x has fewer shells than the sampling
      or some shell's SH2S has fewer than C rows without either size on the
      contracted axis being 1; otherwise every vertex is written once, from its
      own shell, at its rank. */
  lemma {:induction false} SignalOutcome(x: ShellField, ss: ShellSampling, n: nat, sx: nat, p: nat, c: nat, k: nat)
    requires IsShellField(x, n, sx, p, c) && k <= |ss.sampling|
    ensures SignalAfter(x, ss, sx, n, p, c, k).Ok?
        <==> k <= sx && forall j :: 0 <= j < k ==> SignalFits(ss, c, j)
    ensures SignalAfter(x, ss, sx, n, p, c, k).Ok?
        ==> SignalAfter(x, ss, sx, n, p, c, k).value == SignalClosed(x, ss, p, c, k)
  {
    if k == 0 {
      var z := ZeroField(n, p, |ss.shellInverse|);
      var t := SignalClosed(x, ss, p, c, 0);
      forall b | 0 <= b < n
        ensures z[b] == t[b]
      {
        MatrixExt(z[b], t[b], p, |ss.shellInverse|);
      }
    } else {
      SignalOutcome(x, ss, n, sx, p, c, k - 1);
      var prev := SignalAfter(x, ss, sx, n, p, c, k - 1);
      if prev.Ok? && k - 1 < sx && SignalFits(ss, c, k - 1) {
        ScatterStep(x, ss, p, c, k);
      }
    }
  }

  lemma ScatterStep(x: ShellField, ss: ShellSampling, p: nat, c: nat, k: nat)
    requires 1 <= k <= |ss.sampling|
    ensures Scatter(SignalClosed(x, ss, p, c, k - 1), ShellSignal(x, ss, c, k - 1), ss.shellInverse, k - 1)
         == SignalClosed(x, ss, p, c, k)
  {
    var inv := ss.shellInverse;
    var y := SignalClosed(x, ss, p, c, k - 1);
    var z := ShellSignal(x, ss, c, k - 1);
    var s := Scatter(y, z, inv, k - 1);
    var t := SignalClosed(x, ss, p, c, k);
    assert |s| == |t| == |x|;
    forall b | 0 <= b < |x|
      ensures s[b] == t[b]
    {
      assert |s[b]| == |t[b]| == p;
      forall q | 0 <= q < p
        ensures s[b][q] == t[b][q]
      {
        ScatterRow(x, ss, p, c, k, b, q);
      }
    }
  }

  lemma ScatterRow(x: ShellField, ss: ShellSampling, p: nat, c: nat, k: nat, b: nat, q: nat)
    requires 1 <= k <= |ss.sampling| && b < |x| && q < p
    ensures Scatter(SignalClosed(x, ss, p, c, k - 1), ShellSignal(x, ss, c, k - 1), ss.shellInverse, k - 1)[b][q]
         == SignalClosed(x, ss, p, c, k)[b][q]
  {
    var inv := ss.shellInverse;
    var y := SignalClosed(x, ss, p, c, k - 1)[b][q];
    var z := ShellSignal(x, ss, c, k - 1)[b];
    var s := Scatter(SignalClosed(x, ss, p, c, k - 1), ShellSignal(x, ss, c, k - 1), inv, k - 1)[b][q];
    var t := SignalClosed(x, ss, p, c, k)[b][q];
    assert |s| == |t| == |inv|;
    forall v | 0 <= v < |inv|
      ensures s[v] == t[v]
    {
      assert t[v] == if inv[v] < k then At(ShellSignal(x, ss, c, inv[v])[b], q, Rank(inv, v)) else 0.0;
      if inv[v] == k - 1 {
        assert s[v] == At(z, q, Rank(inv, v));
      } else {
        assert y[v] == if inv[v] < k - 1 then At(ShellSignal(x, ss, c, inv[v])[b], q, Rank(inv, v)) else 0.0;
        assert s[v] == y[v];
      }
    }
  }

  /** Gathering shell i from ShellComputeSignal's output gives back exactly shell
      i's signal: no vertex of another shell leaks in. */
  lemma ScatterThenGather(x: ShellField, ss: ShellSampling, n: nat, p: nat, c: nat, i: nat, b: nat)
    requires WellFormed(ss) && IsShellField(x, n, |ss.sampling|, p, c) && i < |ss.sampling| && b < n
    requires SignalFits(ss, c, i) && c > 0
    ensures Gather(SignalClosed(x, ss, p, c, |ss.sampling|)[b], Members(ss.shellInverse, i))
         == ShellSignal(x, ss, c, i)[b]
  {
    var inv := ss.shellInverse;
    var s := Members(inv, i);
    var y := SignalClosed(x, ss, p, c, |ss.sampling|)[b];
    var m := EinsumRows(ss.sampling[i].sh2s, c, |s|);
    EinsumRowsShape(ss.sampling[i].sh2s, c, |s|);
    MatMulShape(x[b][i], m, p, c, |s|);
    var zc := MatMul(x[b][i], m);
    assert ShellSlice(x, i)[b] == x[b][i];
    assert Contract(ShellSlice(x, i), m)[b] == zc;
    assert Broadcast(zc, |s|) == zc by {
      if p == 0 { assert zc == []; }
    }
    var z := ShellSignal(x, ss, c, i)[b];
    assert z == zc;
    forall q, r | 0 <= q < p && 0 <= r < |s|
      ensures Gather(y, s)[q][r] == z[q][r]
    {
      RankOfMember(inv, i, r);
    }
    MatrixExt(Gather(y, s), z, p, |s|);
  }

  // ----- ShellComputeSHC -----

  /** What the constructor is handed: a ShellSampling object, or a plain list of
      Samplings. */
  datatype ShellArg = ShellObject(ss: ShellSampling) | SamplingList(list: seq<Shell>)

  /** The module's fields: what it was given, the shell count S and coefficient count C. */
  datatype ShcModule = ShcModule(shellSampling: ShellArg, s: nat, c: nat)

  /** `ShellComputeSHC.__init__` as written: `len()` and iteration of the argument
      itself. A ShellSampling object has neither (TypeError); a list with no
      element leaves the loop variable unbound; otherwise C is the last shell's. */
  function ShcInitAsWritten(arg: ShellArg): Result<ShcModule>
  {
    match arg
    case ShellObject(_) => Err(TypeError)
    case SamplingList(l) =>
      if |l| == 0 then Err(UnboundLocalError)
      else Ok(ShcModule(arg, |l|, Cols(l[|l| - 1].s2sh)))
  }

  /** The constructor reading `shellSampling.sampling`, as ShellComputeSignal does. */
  function ShcInit(ss: ShellSampling): Result<ShcModule>
  {
    if |ss.sampling| == 0 then Err(UnboundLocalError)
    else Ok(ShcModule(ShellObject(ss), |ss.sampling|, Cols(ss.sampling[|ss.sampling| - 1].s2sh)))
  }

  /** The einsum contracts shell i's V_i gathered vertices with the rows of its
      S2SH; the two sizes must agree unless one of them is 1, which broadcasts. */
  predicate ShcFits(ss: ShellSampling, i: nat)
    requires i < |ss.sampling|
  {
    var r := |ss.sampling[i].s2sh|;
    var v := |Members(ss.shellInverse, i)|;
    r == v || r == 1 || v == 1
  }

  /** The contracted axis once broadcast: S2SH's row count against one vertex,
      the vertex count otherwise. */
  function AxisSize(r: nat, v: nat): nat
  {
    if v == 1 then r else v
  }

  /** An axis of size 1 stretched to k; any other size is left alone. */
  function Spread<T>(s: seq<T>, k: nat): seq<T>
  {
    if |s| == 1 then seq(k, _ => s[0]) else s
  }

  /** Every row of a matrix with its one column stretched to k. */
  function SpreadCols(g: Matrix, k: nat): Matrix
  {
    seq(|g|, q requires 0 <= q < |g| => Spread(g[q], k))
  }

  /** Shell i's coefficients: its gathered vertices through its S2SH, with a
      one-vertex shell or a one-row S2SH broadcast along the contracted axis. */
  function ShellCoefficients(x: Field, ss: ShellSampling, i: nat): Field
    requires i < |ss.sampling|
  {
    var s2sh := ss.sampling[i].s2sh;
    var mem := Members(ss.shellInverse, i);
    var k := AxisSize(|s2sh|, |mem|);
    seq(|x|, b requires 0 <= b < |x| => MatMul(SpreadCols(Gather(x[b], mem), k), Spread(s2sh, k)))
  }

  /** A one-row matrix broadcast along the contracted axis scales the row sum. */
  lemma SpreadRowEntry(g: Matrix, m: Matrix, p: nat, v: nat, cs: nat, q: nat, j: nat)
    requires IsMatrix(g, p, v) && IsMatrix(m, 1, cs) && v >= 1 && q < p && j < cs
    ensures MatMul(SpreadCols(g, v), Spread(m, v))[q][j] == m[0][j] * Sum(v, u => At(g, q, u))
  {
    var a := SpreadCols(g, v);
    var s := Spread(m, v);
    assert a[q] == g[q];
    assert |s| == v && Cols(s) == cs;
    SumScale(v, m[0][j], u => At(g, q, u), u => At(a, q, u) * At(s, u, j));
  }

  /** A one-column matrix broadcast along the contracted axis scales the column sum. */
  lemma SpreadColEntry(g: Matrix, m: Matrix, p: nat, r: nat, cs: nat, q: nat, j: nat)
    requires IsMatrix(g, p, 1) && IsMatrix(m, r, cs) && r >= 1 && q < p && j < cs
    ensures MatMul(SpreadCols(g, r), Spread(m, r))[q][j] == g[q][0] * Sum(r, u => At(m, u, j))
  {
    var a := SpreadCols(g, r);
    var s := Spread(m, r);
    assert s == m;
    assert |a[q]| == r && forall u :: 0 <= u < r ==> a[q][u] == g[q][0];
    SumScale(r, g[q][0], u => At(m, u, j), u => At(a, q, u) * At(s, u, j));
  }

  /** With a one-row S2SH, coefficient j of shell i is S2SH[0][j] times the sum
      of the shell's gathered vertices. */
  lemma ShcRowBroadcast(x: Field, ss: ShellSampling, i: nat, n: nat, p: nat, cs: nat, b: nat, q: nat, j: nat)
    requires i < |ss.sampling| && IsField(x, n, p, |ss.shellInverse|)
    requires IsMatrix(ss.sampling[i].s2sh, 1, cs) && |Members(ss.shellInverse, i)| >= 1
    requires b < n && q < p && j < cs
    ensures ShellCoefficients(x, ss, i)[b][q][j]
         == ss.sampling[i].s2sh[0][j] * Sum(|Members(ss.shellInverse, i)|, u => At(Gather(x[b], Members(ss.shellInverse, i)), q, u))
  {
    var mem := Members(ss.shellInverse, i);
    var g := Gather(x[b], mem);
    assert AxisSize(1, |mem|) == |mem|;
    assert ShellCoefficients(x, ss, i)[b] == MatMul(SpreadCols(g, |mem|), Spread(ss.sampling[i].s2sh, |mem|));
    SpreadRowEntry(g, ss.sampling[i].s2sh, p, |mem|, cs, q, j);
  }

  /** With a one-vertex shell, coefficient j is that vertex's value times the sum
      of S2SH's column j. */
  lemma ShcVertexBroadcast(x: Field, ss: ShellSampling, i: nat, n: nat, p: nat, r: nat, cs: nat, b: nat, q: nat, j: nat)
    requires i < |ss.sampling| && IsField(x, n, p, |ss.shellInverse|)
    requires IsMatrix(ss.sampling[i].s2sh, r, cs) && r >= 1 && |Members(ss.shellInverse, i)| == 1
    requires b < n && q < p && j < cs
    ensures ShellCoefficients(x, ss, i)[b][q][j]
         == At(x[b], q, Members(ss.shellInverse, i)[0]) * Sum(r, u => At(ss.sampling[i].s2sh, u, j))
  {
    var mem := Members(ss.shellInverse, i);
    var g := Gather(x[b], mem);
    assert AxisSize(r, 1) == r;
    assert ShellCoefficients(x, ss, i)[b] == MatMul(SpreadCols(g, r), Spread(ss.sampling[i].s2sh, r));
    assert IsMatrix(g, p, 1) && g[q][0] == At(x[b], q, mem[0]);
    SpreadColEntry(g, ss.sampling[i].s2sh, p, r, cs, q, j);
  }

  /** Shell i's coefficients depend only on the vertices of shell i. */
  lemma ShellCoefficientsIsolated(x: Field, x': Field, ss: ShellSampling, i: nat, n: nat, p: nat)
    requires i < |ss.sampling| && |x| == n && |x'| == n
    requires forall b :: 0 <= b < n ==> |x[b]| == p && |x'[b]| == p
    requires forall b, q, u :: 0 <= b < n && 0 <= q < p && 0 <= u < |ss.shellInverse| && ss.shellInverse[u] == i ==>
      At(x[b], q, u) == At(x'[b], q, u)
    ensures ShellCoefficients(x, ss, i) == ShellCoefficients(x', ss, i)
  {
    forall b | 0 <= b < n
      ensures Gather(x[b], Members(ss.shellInverse, i)) == Gather(x'[b], Members(ss.shellInverse, i))
    {
      GatherReadsOnlyShell(x[b], x'[b], ss.shellInverse, i, p);
    }
  }

  /** What `y[:, :, i] = z` stores for batch-and-channel index b. */
  function ShellSlot(x: Field, ss: ShellSampling, c: nat, i: nat, b: nat): Matrix
    requires i < |ss.sampling|
  {
    Broadcast(if b < |x| then ShellCoefficients(x, ss, i)[b] else [], c)
  }

  function SetShell(y: ShellField, i: nat, z: seq<Matrix>): ShellField
  {
    seq(|y|, b requires 0 <= b < |y| =>
      if i < |y[b]| && b < |z| then y[b][i := z[b]] else y[b])
  }

  function ZeroShellField(n: nat, s: nat, p: nat, c: nat): ShellField
  {
    seq(n, _ => seq(s, _ => Zeros(p, c)))
  }

  /** The outcome of the forward loop after its first k shells, for x with v
      vertices: a mask of the wrong length is an IndexError, a shell beyond S is
      an IndexError, an S2SH whose rows neither match the shell's vertices nor
      broadcast against them fails the einsum, and coefficients neither C nor 1
      wide do not fit the slot. */
  function ShcAfter(m: ShcModule, ss: ShellSampling, x: Field, n: nat, p: nat, v: nat, k: nat): Result<ShellField>
    requires k <= |ss.sampling|
  {
    if k == 0 then Ok(ZeroShellField(n, m.s, p, m.c))
    else match ShcAfter(m, ss, x, n, p, v, k - 1)
      case Err(e) => Err(e)
      case Ok(y) =>
        var i := k - 1;
        if |ss.shellInverse| != v then Err(IndexError)
        else if !ShcFits(ss, i) then Err(RuntimeError)
        else if i >= m.s then Err(IndexError)
        else
          var ci := Cols(ss.sampling[i].s2sh);
          if ci != m.c && ci != 1 then Err(RuntimeError)
          else Ok(SetShell(y, i, seq(n, b requires 0 <= b < n =>
                   ShellSlot(x, ss, m.c, i, b))))
  }

  /** Once the loop has failed, later shells do not change the outcome. */
  lemma ShcErrSticks(m: ShcModule, ss: ShellSampling, x: Field, n: nat, p: nat, v: nat, k: nat, k': nat)
    requires k <= k' <= |ss.sampling| && ShcAfter(m, ss, x, n, p, v, k).Err?
    ensures ShcAfter(m, ss, x, n, p, v, k') == ShcAfter(m, ss, x, n, p, v, k)
    decreases k' - k
  {
    if k' > k {
      ShcErrSticks(m, ss, x, n, p, v, k, k' - 1);
    }
  }

  /** `ShellComputeSHC.forward`: it reads `.sampling` and `.shell_inverse` of
      what the constructor stored, which a plain list does not have. */
  function ShcForwardSpec(m: ShcModule, x: Field, n: nat, p: nat, v: nat): Result<ShellField>
  {
    match m.shellSampling
    case SamplingList(_) => Err(AttributeError)
    case ShellObject(ss) => ShcAfter(m, ss, x, n, p, v, |ss.sampling|)
  }

  method ShellComputeSHC(m: ShcModule, x: Field, n: nat, p: nat, v: nat) returns (r: Result<ShellField>)
    requires IsField(x, n, p, v)
    ensures r == ShcForwardSpec(m, x, n, p, v)
  {
    if m.shellSampling.SamplingList? {
      return Err(AttributeError);
    }
    var ss := m.shellSampling.ss;
    var y := ZeroShellField(n, m.s, p, m.c);
    var i := 0;
    while i < |ss.sampling|
      invariant 0 <= i <= |ss.sampling|
      invariant ShcAfter(m, ss, x, n, p, v, i) == Ok(y)
    {
      if |ss.shellInverse| != v {
        ShcErrSticks(m, ss, x, n, p, v, i + 1, |ss.sampling|);
        return Err(IndexError);
      }
      var r, vi := |ss.sampling[i].s2sh|, |Members(ss.shellInverse, i)|;
      if r != vi && r != 1 && vi != 1 {
        ShcErrSticks(m, ss, x, n, p, v, i + 1, |ss.sampling|);
        return Err(RuntimeError);
      }
      if i >= m.s {
        ShcErrSticks(m, ss, x, n, p, v, i + 1, |ss.sampling|);
        return Err(IndexError);
      }
      var ci := Cols(ss.sampling[i].s2sh);
      if ci != m.c && ci != 1 {
        ShcErrSticks(m, ss, x, n, p, v, i + 1, |ss.sampling|);
        return Err(RuntimeError);
      }
      y := SetShell(y, i, seq(n, b requires 0 <= b < n => ShellSlot(x, ss, m.c, i, b)));
      i := i + 1;
    }
    return Ok(y);
  }

  /** As written, no argument gets through both the constructor and the forward pass. */
  lemma ShcAsWrittenNeverRuns(arg: ShellArg, x: Field, n: nat, p: nat, v: nat)
    ensures ShcInitAsWritten(arg).Err? || ShcForwardSpec(ShcInitAsWritten(arg).value, x, n, p, v).Err?
    ensures arg.ShellObject? ==> ShcInitAsWritten(arg) == Err(TypeError)
    ensures arg.SamplingList? && |arg.list| > 0 ==> ShcForwardSpec(ShcInitAsWritten(arg).value, x, n, p, v) == Err(AttributeError)
  {
  }

  /** The shell slots filled so far: slot i < k holds shell i's coefficients,
      broadcast to C when the shell has a single one. */
  function ShcClosed(ss: ShellSampling, x: Field, n: nat, p: nat, c: nat, k: nat): ShellField
    requires k <= |ss.sampling|
  {
    seq(n, b requires 0 <= b < n => seq(|ss.sampling|, i requires 0 <= i < |ss.sampling| =>
      if i < k then ShellSlot(x, ss, c, i, b) else Zeros(p, c)))
  }

  /** With the corrected constructor, the forward pass succeeds whenever every
      shell has C or a single coefficient, and slot i holds shell i's gathered
      vertices through its S2SH. */
  lemma {:induction false} ShcCorrectedRuns(ss: ShellSampling, x: Field, n: nat, p: nat, k: nat)
    requires WellFormed(ss) && |ss.sampling| >= 1 && k <= |ss.sampling| && IsField(x, n, p, |ss.shellInverse|)
    requires forall i :: 0 <= i < |ss.sampling| ==>
      Cols(ss.sampling[i].s2sh) == ShcInit(ss).value.c || Cols(ss.sampling[i].s2sh) == 1
    ensures ShcAfter(ShcInit(ss).value, ss, x, n, p, |ss.shellInverse|, k)
         == Ok(ShcClosed(ss, x, n, p, ShcInit(ss).value.c, k))
  {
    var m := ShcInit(ss).value;
    if k == 0 {
      ShcClosedZero(ss, x, n, p, m.c);
    } else {
      ShcCorrectedRuns(ss, x, n, p, k - 1);
      ShcClosedStep(ss, x, n, p, m.c, k);
    }
  }

  lemma ShcClosedZero(ss: ShellSampling, x: Field, n: nat, p: nat, c: nat)
    ensures ZeroShellField(n, |ss.sampling|, p, c) == ShcClosed(ss, x, n, p, c, 0)
  {
    var z := ZeroShellField(n, |ss.sampling|, p, c);
    var t := ShcClosed(ss, x, n, p, c, 0);
    forall b | 0 <= b < n
      ensures z[b] == t[b]
    {
      assert |z[b]| == |t[b]|;
    }
  }

  lemma ShcClosedStep(ss: ShellSampling, x: Field, n: nat, p: nat, c: nat, k: nat)
    requires 1 <= k <= |ss.sampling|
    ensures SetShell(ShcClosed(ss, x, n, p, c, k - 1), k - 1, seq(n, b requires 0 <= b < n => ShellSlot(x, ss, c, k - 1, b)))
         == ShcClosed(ss, x, n, p, c, k)
  {
    var y := ShcClosed(ss, x, n, p, c, k - 1);
    var z := seq(n, b requires 0 <= b < n => ShellSlot(x, ss, c, k - 1, b));
    var t := ShcClosed(ss, x, n, p, c, k);
    forall b | 0 <= b < n
      ensures SetShell(y, k - 1, z)[b] == t[b]
    {
      assert |SetShell(y, k - 1, z)[b]| == |t[b]|;
    }
  }

  /** The corrected module's forward pass: slot i depends only on shell i's vertices. */
  lemma ShcCorrectedForward(ss: ShellSampling, x: Field, n: nat, p: nat)
    requires WellFormed(ss) && |ss.sampling| >= 1 && IsField(x, n, p, |ss.shellInverse|)
    requires forall i :: 0 <= i < |ss.sampling| ==>
      Cols(ss.sampling[i].s2sh) == ShcInit(ss).value.c || Cols(ss.sampling[i].s2sh) == 1
    ensures ShcInit(ss).Ok? && ShcInit(ss).value.s == |ss.sampling|
    ensures ShcForwardSpec(ShcInit(ss).value, x, n, p, |ss.shellInverse|)
         == Ok(ShcClosed(ss, x, n, p, ShcInit(ss).value.c, |ss.sampling|))
  {
    ShcCorrectedRuns(ss, x, n, p, |ss.sampling|);
  }
}
