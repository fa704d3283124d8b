/** Configuration helpers of graphconv.py: the convolution-variant dispatch of
    `Conv` and `ConvPrecomputed`, the `state_dict` filter that drops the large
    Laplacian/projector buffers, the `PolynomialFeatures` expansion feeding the
    fiber-bundle MLPs, and the Bekkers kernel grid with its centre voxel. */
module ConvConfig {
  import opened Outcomes
  import opened FlatIndex

  /** The layer classes a convolution name can select. */
  datatype Layer =
    | ChebConv | SO3SE3Conv | SpatialConv
    | ChebConvPrecomputed | SO3SE3ConvPrecomputer | SpatialConvPrecomputed
    | FiberBundleConvFixedGraph | FiberBundleConvFixedGraphMLP

  /** `Conv.__init__`: the layer for a convolution name. */
  function ConvLayer(name: string): (r: Result<Layer>)
    ensures r.Err? ==> r.error == NotImplementedError
  {
    if name == "spherical" then Ok(ChebConv)
    else if name == "mixed" then Ok(SO3SE3Conv)
    else if name in ["spatial", "spatial_vec", "spatial_sh"] then Ok(SpatialConv)
    else Err(NotImplementedError)
  }

  /** `ConvPrecomputed.__init__`: the precomputed layer for a convolution name. */
  function ConvPrecomputedLayer(name: string): (r: Result<Layer>)
    ensures r.Err? ==> r.error == NotImplementedError
  {
    if name == "spherical" then Ok(ChebConvPrecomputed)
    else if name == "mixed" then Ok(SO3SE3ConvPrecomputer)
    else if name in ["spatial", "spatial_vec", "spatial_sh"] then Ok(SpatialConvPrecomputed)
    else if name == "bekkers" then Ok(FiberBundleConvFixedGraph)
    else if name == "bekkers2" then Ok(FiberBundleConvFixedGraphMLP)
    else Err(NotImplementedError)
  }

  /** The precomputed counterpart of a `Conv` layer. */
  function Precomputed(l: Layer): Layer
  {
    match l
    case ChebConv => ChebConvPrecomputed
    case SO3SE3Conv => SO3SE3ConvPrecomputer
    case SpatialConv => SpatialConvPrecomputed
    case _ => l
  }

  /** The names `Conv` accepts. */
  const ConvNames: set<string> := {"spherical", "mixed", "spatial", "spatial_vec", "spatial_sh"}

  /** `Conv` accepts exactly its five names and raises NotImplementedError for any other;
      `ConvPrecomputed` accepts the same names and the two Bekkers variants, and on the
      shared names selects the precomputed counterpart of the `Conv` layer. */
  lemma DispatchAgrees(name: string)
    ensures ConvLayer(name).Ok? <==> name in ConvNames
    ensures ConvPrecomputedLayer(name).Ok? <==> name in ConvNames || name == "bekkers" || name == "bekkers2"
    ensures ConvLayer(name).Ok? ==> ConvPrecomputedLayer(name) == Ok(Precomputed(ConvLayer(name).value))
  {
  }

  // ----- state_dict -----

  /** A state dict, its entries in insertion order. */
  type StateDict<V> = seq<(string, V)>

  predicate EndsWith(s: string, suffix: string)
  {
    |suffix| <= |s| && s[|s| - |suffix|..] == suffix
  }

  /** The entries whose key does not end with suffix, in their order. */
  function Kept<V>(d: StateDict<V>, suffix: string): StateDict<V>
  {
    if |d| == 0 then []
    else (if EndsWith(d[0].0, suffix) then [] else [d[0]]) + Kept(d[1..], suffix)
  }

  /** Keys ending with suffix among the first n entries: the `del_keys` list. */
  function KeysEnding<V>(d: StateDict<V>, suffix: string, n: nat): seq<string>
    requires n <= |d|
  {
    if n == 0 then []
    else KeysEnding(d, suffix, n - 1) + (if EndsWith(d[n - 1].0, suffix) then [d[n - 1].0] else [])
  }

  /** `del state_dict[key]`. */
  function Delete<V>(d: StateDict<V>, key: string): StateDict<V>
  {
    if |d| == 0 then [] else (if d[0].0 == key then [] else [d[0]]) + Delete(d[1..], key)
  }

  /** The entries whose key is not among keys. */
  function WithoutKeys<V>(d: StateDict<V>, keys: seq<string>): StateDict<V>
  {
    if |d| == 0 then [] else (if d[0].0 in keys then [] else [d[0]]) + WithoutKeys(d[1..], keys)
  }

  lemma {:induction false} KeysEndingMember<V>(d: StateDict<V>, suffix: string, n: nat, k: string)
    requires n <= |d|
    ensures k in KeysEnding(d, suffix, n) <==> exists i :: 0 <= i < n && d[i].0 == k && EndsWith(k, suffix)
  {
    if n > 0 {
      KeysEndingMember(d, suffix, n - 1, k);
      if d[n - 1].0 == k && EndsWith(k, suffix) {
        assert k in KeysEnding(d, suffix, n);
      }
    }
  }

  lemma {:induction false} DeleteOneMore<V>(d: StateDict<V>, keys: seq<string>, k: string)
    ensures Delete(WithoutKeys(d, keys), k) == WithoutKeys(d, keys + [k])
  {
    if |d| > 0 {
      DeleteOneMore(d[1..], keys, k);
      assert d[0].0 in keys + [k] <==> d[0].0 in keys || d[0].0 == k;
      var rest := WithoutKeys(d[1..], keys);
      if d[0].0 !in keys {
        var s := [d[0]] + rest;
        assert s[0] == d[0] && s[1..] == rest;
        assert Delete(s, k) == (if d[0].0 == k then [] else [d[0]]) + Delete(rest, k);
      } else {
        assert WithoutKeys(d, keys) == rest;
      }
    }
  }

  lemma {:induction false} WithoutKeysIsKept<V>(d: StateDict<V>, keys: seq<string>, suffix: string)
    requires forall e :: e in d ==> (e.0 in keys <==> EndsWith(e.0, suffix))
    ensures WithoutKeys(d, keys) == Kept(d, suffix)
  {
    if |d| > 0 {
      assert d[0] in d;
      assert forall e :: e in d[1..] ==> e in d;
      WithoutKeysIsKept(d[1..], keys, suffix);
    }
  }

  /** `state_dict`: collects the keys ending with suffix ("laplacian" in `Conv`
      and `ConvPrecomputed`, "projector" in the precomputed layers), then deletes them. */
  method FilterStateDict<V>(sd: StateDict<V>, suffix: string) returns (out: StateDict<V>)
    ensures out == Kept(sd, suffix)
  {
    var delKeys: seq<string> := [];
    var i := 0;
    while i < |sd|
      invariant 0 <= i <= |sd|
      invariant delKeys == KeysEnding(sd, suffix, i)
    {
      if EndsWith(sd[i].0, suffix) {
        delKeys := delKeys + [sd[i].0];
      }
      i := i + 1;
    }
    out := sd;
    assert WithoutKeys(sd, []) == sd by {
      WithoutNothing(sd);
    }
    var j := 0;
    while j < |delKeys|
      invariant 0 <= j <= |delKeys|
      invariant out == WithoutKeys(sd, delKeys[..j])
    {
      DeleteOneMore(sd, delKeys[..j], delKeys[j]);
      assert delKeys[..j] + [delKeys[j]] == delKeys[..j + 1];
      out := Delete(out, delKeys[j]);
      j := j + 1;
    }
    assert delKeys[..j] == delKeys;
    forall e | e in sd
      ensures e.0 in delKeys <==> EndsWith(e.0, suffix)
    {
      KeysEndingMember(sd, suffix, |sd|, e.0);
      var n :| 0 <= n < |sd| && sd[n] == e;
    }
    WithoutKeysIsKept(sd, delKeys, suffix);
  }

  lemma {:induction false} WithoutNothing<V>(d: StateDict<V>)
    ensures WithoutKeys(d, []) == d
  {
    if |d| > 0 {
      WithoutNothing(d[1..]);
    }
  }

  /** The filter keeps exactly the entries whose key does not end with the suffix,
      values unchanged. */
  lemma {:induction false} KeptMember<V>(d: StateDict<V>, suffix: string, e: (string, V))
    ensures e in Kept(d, suffix) <==> e in d && !EndsWith(e.0, suffix)
  {
    if |d| > 0 {
      KeptMember(d[1..], suffix, e);
      assert e in d <==> e == d[0] || e in d[1..];
    }
  }

  /** A string ending with a suffix ends with the suffix's last character. */
  lemma LastChar(s: string, suffix: string)
    ensures EndsWith(s, suffix) && |suffix| > 0 ==> s[|s| - 1] == suffix[|suffix| - 1]
  {
    if EndsWith(s, suffix) && |suffix| > 0 {
      assert s[|s| - |suffix|..][|suffix| - 1] == s[|s| - 1];
    }
  }

  /** Keys ending in "weight_tmp" (the isotropic mask buffer) survive both filters. */
  lemma WeightTmpKept<V>(d: StateDict<V>, e: (string, V))
    requires e in d && EndsWith(e.0, "weight_tmp")
    ensures e in Kept(d, "laplacian") && e in Kept(d, "projector")
  {
    LastChar(e.0, "weight_tmp");
    LastChar(e.0, "laplacian");
    LastChar(e.0, "projector");
    KeptMember(d, "laplacian", e);
    KeptMember(d, "projector", e);
  }

  // ----- PolynomialFeatures -----

  /** `torch.einsum('...i,...j->...ij', a, b).flatten(-2, -1)` on one vector. */
  function Outer(a: seq<real>, b: seq<real>): (r: seq<real>)
    ensures |r| == |a| * |b|
  {
    seq(|a| * |b|, n requires 0 <= n < |a| * |b| => FlatSplit(n, |a|, |b|); a[n / |b|] * b[n % |b|])
  }

  /** Entry (i, j) of the outer product sits at i*|b| + j. */
  lemma OuterEntry(a: seq<real>, b: seq<real>, i: nat, j: nat)
    requires i < |a| && j < |b|
    ensures i * |b| + j < |Outer(a, b)| && Outer(a, b)[i * |b| + j] == a[i] * b[j]
  {
    FlatBound(i, j, |a|, |b|);
    FlatDivMod(i, j, |b|);
  }

  /** The m-th tensor power of x, flattened (m >= 1). */
  function Power(x: seq<real>, m: nat): seq<real>
    requires m >= 1
  {
    if m == 1 then x else Outer(Power(x, m - 1), x)
  }

  function Pow(d: nat, m: nat): nat
  {
    if m == 0 then 1 else d * Pow(d, m - 1)
  }

  lemma {:induction false} PowerLength(x: seq<real>, m: nat)
    requires m >= 1
    ensures |Power(x, m)| == Pow(|x|, m)
  {
    if m > 1 {
      PowerLength(x, m - 1);
    }
  }

  /** `torch.cat` of a list of vectors. */
  function Cat(l: seq<seq<real>>): seq<real>
  {
    if |l| == 0 then [] else Cat(l[..|l| - 1]) + l[|l| - 1]
  }

  /** x, x⊗x, ..., the first n powers concatenated. */
  function PowersUpTo(x: seq<real>, n: nat): seq<real>
    requires n >= 1
  {
    if n == 1 then x else PowersUpTo(x, n - 1) + Power(x, n)
  }

  /** Polynomial features of a given degree; degree 0 returns x alone, as the empty loop does. */
  function Features(x: seq<real>, degree: nat): seq<real>
  {
    PowersUpTo(x, if degree == 0 then 1 else degree)
  }

  /** `PolynomialFeatures.forward` on one vector: the list of powers grows one
      outer product at a time, then is concatenated. */
  method PolynomialFeatures(x: seq<real>, degree: nat) returns (r: seq<real>)
    ensures r == Features(x, degree)
  {
    var list: seq<seq<real>> := [x];
    var it := 1;
    while it < degree
      invariant 1 <= it && (degree == 0 ==> it == 1) && (degree > 0 ==> it <= degree)
      invariant |list| == it && list[it - 1] == Power(x, it)
      invariant Cat(list) == PowersUpTo(x, it)
    {
      var next := Outer(list[|list| - 1], x);
      PowersStep(x, it, list, next);
      list := list + [next];
      it := it + 1;
    }
    r := Cat(list);
  }

  /** Appending the next outer product to the list of powers appends the next power. */
  lemma PowersStep(x: seq<real>, it: nat, list: seq<seq<real>>, next: seq<real>)
    requires it >= 1 && |list| == it && list[it - 1] == Power(x, it)
    requires Cat(list) == PowersUpTo(x, it) && next == Outer(list[it - 1], x)
    ensures next == Power(x, it + 1)
    ensures Cat(list + [next]) == PowersUpTo(x, it + 1)
  {
    assert (list + [next])[..|list|] == list;
  }

  /** The number of features: d + d^2 + ... + d^n. */
  function FeatureCount(d: nat, n: nat): nat
  {
    if n == 0 then 0 else FeatureCount(d, n - 1) + Pow(d, n)
  }

  lemma {:induction false} FeaturesLength(x: seq<real>, n: nat)
    requires n >= 1
    ensures |PowersUpTo(x, n)| == FeatureCount(|x|, n)
  {
    PowerLength(x, n);
    if n > 1 {
      FeaturesLength(x, n - 1);
    } else {
      assert Pow(|x|, 1) == |x|;
    }
  }

  /** Two invariants give 2(2^D - 1) features, one invariant gives D: the input sizes
      of the first `Linear` layers of the spatial and spherical bases (degree 3). */
  lemma {:induction false} FeatureCountClosedForms(n: nat)
    ensures FeatureCount(2, n) == 2 * (Pow(2, n) - 1)
    ensures FeatureCount(1, n) == n
  {
    if n > 0 {
      FeatureCountClosedForms(n - 1);
      OnePow(n);
    }
  }

  lemma {:induction false} OnePow(n: nat)
    ensures Pow(1, n) == 1
  {
    if n > 0 {
      OnePow(n - 1);
    }
  }

  lemma LinearSizesMatch(spatial: seq<real>, spherical: seq<real>)
    requires |spatial| == 2 && |spherical| == 1
    ensures |Features(spatial, 3)| == 2 * (Pow(2, 3) - 1)
    ensures |Features(spherical, 3)| == 3
  {
    FeaturesLength(spatial, 3);
    FeaturesLength(spherical, 3);
    FeatureCountClosedForms(3);
  }

  // ----- Bekkers kernel grid -----

  /** `np.arange(k) - k//2 + ((k+1)%2)*0.5` at position i. */
  function GridCoord(k: nat, i: int): real
  {
    i as real - (k / 2) as real + ((k + 1) % 2) as real * 0.5
  }

  /** The grid is symmetric about zero for every kernel size. */
  lemma GridSymmetric(k: nat, i: int)
    ensures GridCoord(k, k - 1 - i) == -GridCoord(k, i)
  {
    if k % 2 == 0 {
      assert k == 2 * (k / 2);
    } else {
      assert k == 2 * (k / 2) + 1;
    }
  }

  /** `pos[t]` of the meshgrid flattened in 'ij' order: t = (i*k + j)*k + l. */
  function GridPos(k: nat, t: nat): (real, real, real)
    requires k > 0
  {
    (GridCoord(k, t / (k * k)), GridCoord(k, (t / k) % k), GridCoord(k, t % k))
  }

  /** The centre voxel, the sending end `edge_index[0]` of every edge: `(k**3) // 2`. */
  function CentreIndex(k: nat): nat
  {
    (k * k * k) / 2
  }

  lemma FlatTriple(k: nat, i: nat, j: nat, l: nat)
    requires 0 < k && i < k && j < k && l < k
    ensures ((i * k + j) * k + l) / (k * k) == i
    ensures (((i * k + j) * k + l) / k) % k == j
    ensures ((i * k + j) * k + l) % k == l
  {
    FlatDivMod(i * k + j, l, k);
    FlatDivMod(i, j, k);
    assert (i * k + j) * k + l == i * (k * k) + (j * k + l);
    FlatBound(j, l, k, k);
    FlatDivMod(i, j * k + l, k * k);
  }

  /** For an odd kernel the centre voxel `(k**3) // 2` sits at the origin. */
  lemma OddCentreIsOrigin(k: nat)
    requires k % 2 == 1
    ensures CentreIndex(k) < k * k * k
    ensures GridPos(k, CentreIndex(k)) == (0.0, 0.0, 0.0)
  {
    var m := k / 2;
    assert k == 2 * m + 1;
    assert k * k * k == 2 * (m * (4 * m * m + 6 * m + 3)) + 1;
    assert (m * k + m) * k + m == m * (4 * m * m + 6 * m + 3);
    FlatTriple(k, m, m, m);
    FlatBound(m * k + m, m, k * k, k) by {
      FlatBound(m, m, k, k);
    }
  }

  /** For an even kernel no voxel sits at the origin, and the middle voxel `(k**3) // 2` is
      (1/2, 1/2 - k/2, 1/2 - k/2), off the centre. */
  lemma EvenCentreIsOffCentre(k: nat)
    requires k % 2 == 0 && k > 0
    ensures CentreIndex(k) < k * k * k
    ensures GridPos(k, CentreIndex(k)) == (0.5, 0.5 - (k / 2) as real, 0.5 - (k / 2) as real)
    ensures forall i: int :: GridCoord(k, i) != 0.0
  {
    var m := k / 2;
    assert k == 2 * m;
    assert k * k * k == 2 * (m * k * k);
    assert (m * k + 0) * k + 0 == m * k * k;
    FlatTriple(k, m, 0, 0);
  }
}
