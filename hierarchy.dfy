/** The resolution hierarchy of the HEALPix U-Net (sampling.py): the pooling
    schedule of `get_healpix_poolings`, which walks the depths updating the
    spatial patch size and the HEALPix `n_side`, and the Laplacian list of
    `get_healpix_laplacians`, one graph per depth at `starting // 2**i`. Both
    lists come back reversed, coarsest first. The graphs and pooling layers
    themselves are built by external code and appear here as their parameters. */
module Hierarchy {
  import opened Outcomes

  datatype PoolingName = Mixed | Bekkers | Spherical | Spatial | SpatialVec | SpatialSh | Muller | Unknown

  /** The pooling layer chosen at one depth, with the spatial window it is given. */
  datatype Pooling =
    | IdentityPooling
    | HealpixPooling
    | MixedPooling(kernel: nat, stride: nat)
    | SpatialPooling(window: Option<(nat, nat)>)

  /** `[::-1]`. */
  function Reverse<T>(s: seq<T>): (r: seq<T>)
    ensures |r| == |s|
  {
    seq(|s|, i requires 0 <= i < |s| => s[|s| - 1 - i])
  }

  function Pow2(i: nat): (r: nat)
    ensures r >= 1
  {
    if i == 0 then 1 else 2 * Pow2(i - 1)
  }

  // ----- the patch-size step -----

  /** Python `int(x)`: truncation towards zero. */
  function Trunc(x: real): int
  {
    if x >= 0.0 then x.Floor else -((-x).Floor)
  }

  /** `((p - 2) / 2) * (p % 2) + p / 2` with true (float) division. */
  function PatchReal(p: nat): real
  {
    ((p as real - 2.0) / 2.0) * ((p % 2) as real) + p as real / 2.0
  }

  lemma PatchRealValue(p: nat)
    ensures p % 2 == 1 ==> PatchReal(p) == (p - 1) as real
    ensures p % 2 == 0 ==> PatchReal(p) == (p / 2) as real
  {
    if p % 2 == 0 {
      assert p == 2 * (p / 2);
    }
  }

  /** The patch size after a spatial pooling. */
  function NextPatch(p: nat): nat
  {
    PatchRealValue(p);
    Trunc(PatchReal(p))
  }

  /** `kernel_size_spa`: 2 once the patch is wider than one voxel. */
  function Kernel(p: nat): nat
  {
    (if p > 1 then 1 else 0) + 1
  }

  /** `stride`: 1 for an odd patch, 2 for an even one. */
  function Stride(p: nat): nat
  {
    2 - p % 2
  }

  /** The step takes an odd patch to p - 1 and an even one to p / 2: the number
      of windows of the pooling's kernel and stride, at least one and never more
      than the patch itself. */
  lemma NextPatchIsWindowCount(p: nat)
    ensures p % 2 == 1 ==> NextPatch(p) == p - 1
    ensures p % 2 == 0 ==> NextPatch(p) == p / 2
    ensures p >= 2 ==> NextPatch(p) == (p - Kernel(p)) / Stride(p) + 1
    ensures p >= 2 ==> 1 <= NextPatch(p) < p
    ensures NextPatch(p) <= p
  {
    PatchRealValue(p);
    if p % 2 == 0 && p >= 2 {
      assert p - 2 == 2 * (p / 2 - 1);
    }
  }

  // ----- one depth of the pooling loop -----

  /** Where the loop stands: the lists so far, the patch size and `n_side`. */
  datatype Sched = Sched(pools: seq<Pooling>, patches: seq<nat>, patch: nat, nSide: nat)

  predicate Looping(name: PoolingName)
  {
    name != Muller && name != Unknown
  }

  /** The pooling chosen at one depth and the patch size and `n_side` after it. */
  function PoolStep(name: PoolingName, p: nat, ns: nat): (Pooling, nat, nat)
  {
    match name
    case Mixed | Bekkers =>
      if p == 1 && ns == 1 then (IdentityPooling, p, ns)
      else if p != 1 && ns != 1 then (MixedPooling(Kernel(p), Stride(p)), NextPatch(p), ns / 2)
      else if p == 1 then (HealpixPooling, p, ns / 2)
      else (SpatialPooling(None), NextPatch(p), ns)
    case Spherical =>
      if ns != 1 then (HealpixPooling, p, ns / 2) else (IdentityPooling, p, ns)
    case _ =>
      if p != 1 then (SpatialPooling(Some((Kernel(p), Stride(p)))), NextPatch(p), ns)
      else (IdentityPooling, p, ns)
  }

  /** The loop state after k depths, in the order the loop visits them. */
  function Run(name: PoolingName, k: nat, p: nat, ns: nat): Sched
  {
    if k == 0 then Sched([], [], p, ns)
    else
      var s := Run(name, k - 1, p, ns);
      var (pool, p', ns') := PoolStep(name, s.patch, s.nSide);
      Sched(s.pools + [pool], s.patches + [s.patch], p', ns')
  }

  /** `range(depth - 1)` has no element for a depth of 0. */
  function Rounds(depth: nat): nat
  {
    if depth >= 1 then depth - 1 else 0
  }

  /** What `get_healpix_poolings` returns: the poolings and the patch sizes, coarsest first. */
  function Schedule(name: PoolingName, depth: nat, p: nat, ns: nat): (seq<Pooling>, seq<nat>)
  {
    if name == Muller then (seq(Rounds(depth), _ => IdentityPooling), [p, p])
    else if name == Unknown then ([], [p])
    else
      var s := Run(name, Rounds(depth), p, ns);
      (Reverse(s.pools), Reverse(s.patches + [s.patch]))
  }

  /** `get_healpix_poolings`. */
  method HealpixPoolings(depth: nat, name: PoolingName, patchSize: nat, nSide: nat)
      returns (pools: seq<Pooling>, patchSizes: seq<nat>)
    ensures (pools, patchSizes) == Schedule(name, depth, patchSize, nSide)
  {
    var poolings: seq<Pooling> := [];
    var patchList: seq<nat> := [];
    var p := patchSize;
    var ns := nSide;
    if Looping(name) {
      var i := 0;
      while i < depth - 1
        invariant 0 <= i <= Rounds(depth)
        invariant Run(name, i, patchSize, nSide) == Sched(poolings, patchList, p, ns)
      {
        patchList := patchList + [p];
        var pool;
        if name == Mixed || name == Bekkers {
          if p == 1 && ns == 1 {
            pool := IdentityPooling;
          } else if p != 1 && ns != 1 {
            pool := MixedPooling(Kernel(p), Stride(p));
            p := NextPatch(p);
            ns := ns / 2;
          } else if p == 1 {
            pool := HealpixPooling;
            ns := ns / 2;
          } else {
            pool := SpatialPooling(None);
            p := NextPatch(p);
          }
        } else if name == Spherical {
          if ns != 1 {
            pool := HealpixPooling;
            ns := ns / 2;
          } else {
            pool := IdentityPooling;
          }
        } else {
          if p != 1 {
            pool := SpatialPooling(Some((Kernel(p), Stride(p))));
            p := NextPatch(p);
          } else {
            pool := IdentityPooling;
          }
        }
        poolings := poolings + [pool];
        i := i + 1;
      }
    } else if name == Muller {
      patchList := patchList + [p];
      var i := 0;
      while i < depth - 1
        invariant 0 <= i <= Rounds(depth)
        invariant poolings == seq(i, _ => IdentityPooling)
      {
        poolings := poolings + [IdentityPooling];
        i := i + 1;
      }
    }
    patchList := patchList + [p];
    pools := Reverse(poolings);
    if name == Muller {
      assert pools == seq(Rounds(depth), _ => IdentityPooling);
    }
    patchSizes := Reverse(patchList);
    if name == Muller {
      assert patchSizes == [patchSize, patchSize];
    } else if name == Unknown {
      assert pools == [] && patchSizes == [patchSize];
    }
  }

  // ----- properties of the schedule -----

  /** One depth changes the patch size only when it is not 1, and then by the
      step; it halves `n_side` only when it is not 1, and changes it no other way. */
  lemma PoolStepChanges(name: PoolingName, p: nat, ns: nat)
    requires Looping(name)
    ensures var (_, p', ns') := PoolStep(name, p, ns);
      (p' == p || (p != 1 && p' == NextPatch(p)))
      && (ns' == ns || (ns != 1 && ns' == ns / 2))
  {
  }

  /** The loop records one patch size and one pooling per depth. */
  lemma {:induction false} RunLengths(name: PoolingName, k: nat, p: nat, ns: nat)
    ensures |Run(name, k, p, ns).pools| == k && |Run(name, k, p, ns).patches| == k
  {
    if k > 0 {
      RunLengths(name, k - 1, p, ns);
    }
  }

  /** In the looping modes there are depth - 1 poolings and depth patch sizes. */
  lemma ScheduleLengths(name: PoolingName, depth: nat, p: nat, ns: nat)
    requires Looping(name) && depth >= 1
    ensures |Schedule(name, depth, p, ns).0| == depth - 1
    ensures |Schedule(name, depth, p, ns).1| == depth
  {
    RunLengths(name, depth - 1, p, ns);
  }

  /** Recorded patch sizes never grow along the loop and never fall below the
      current one, and all stay positive when the first one is. */
  predicate PatchesDescend(s: Sched)
  {
    (forall i, j :: 0 <= i < j < |s.patches| ==> s.patches[j] <= s.patches[i])
    && (forall i :: 0 <= i < |s.patches| ==> s.patch <= s.patches[i])
  }

  lemma {:induction false} RunPatches(name: PoolingName, k: nat, p: nat, ns: nat)
    requires Looping(name)
    ensures PatchesDescend(Run(name, k, p, ns))
    ensures Run(name, k, p, ns).patch <= p
    ensures p >= 1 ==> Run(name, k, p, ns).patch >= 1
  {
    if k > 0 {
      var s := Run(name, k - 1, p, ns);
      RunPatches(name, k - 1, p, ns);
      PoolStepChanges(name, s.patch, s.nSide);
      NextPatchIsWindowCount(s.patch);
    }
  }

  /** In the looping modes the returned patch sizes grow from coarse to fine,
      end at the starting patch, and stay at least 1 when it is. */
  lemma SchedulePatchesAscend(name: PoolingName, depth: nat, p: nat, ns: nat)
    requires Looping(name)
    ensures var ps := Schedule(name, depth, p, ns).1;
      |ps| >= 1 && ps[|ps| - 1] == p
      && (forall i, j :: 0 <= i < j < |ps| ==> ps[i] <= ps[j])
      && (p >= 1 ==> forall i :: 0 <= i < |ps| ==> ps[i] >= 1)
  {
    var s := Run(name, Rounds(depth), p, ns);
    RunPatches(name, Rounds(depth), p, ns);
    RunLengths(name, Rounds(depth), p, ns);
    var fwd := s.patches + [s.patch];
    assert fwd[0] == p by {
      if Rounds(depth) > 0 {
        RunFirstPatch(name, Rounds(depth), p, ns);
      }
    }
    forall i, j | 0 <= i < j < |fwd|
      ensures fwd[j] <= fwd[i]
    {
    }
    if p >= 1 {
      forall i | 0 <= i < |fwd|
        ensures fwd[i] >= 1
      {
      }
    }
  }

  lemma {:induction false} RunFirstPatch(name: PoolingName, k: nat, p: nat, ns: nat)
    requires k >= 1
    ensures |Run(name, k, p, ns).patches| >= 1 && Run(name, k, p, ns).patches[0] == p
  {
    if k > 1 {
      RunFirstPatch(name, k - 1, p, ns);
    }
  }

  /** In spherical mode, starting from `n_side` = 2^e with at most e poolings,
      the resolution after k poolings is 2^(e - k). */
  lemma {:induction false} SphericalResolution(k: nat, p: nat, e: nat)
    requires k <= e
    ensures Run(Spherical, k, p, Pow2(e)).nSide == Pow2(e - k)
  {
    if k > 0 {
      SphericalResolution(k - 1, p, e);
      assert Pow2(e - (k - 1)) == 2 * Pow2(e - k);
    }
  }

  // ----- the Laplacian list -----

  predicate SpatialName(name: PoolingName)
  {
    name == Spatial || name == SpatialVec || name == SpatialSh
  }

  /** `starting // 2**i`, written as i floor halvings (the same natural number). */
  function Halvings(starting: nat, i: nat): nat
  {
    if i == 0 then starting else Halvings(starting, i - 1) / 2
  }

  /** The resolution of the graph built at depth i. */
  function Resolution(name: PoolingName, starting: nat, i: nat): nat
  {
    if SpatialName(name) then starting else Halvings(starting, i)
  }

  /** `get_healpix_laplacians`: `graph` stands for the external construction of
      the Laplacian and vertex coordinates at one resolution. */
  method HealpixLaplacians<G>(starting: nat, depth: nat, name: PoolingName, graph: nat -> G)
      returns (laps: seq<G>)
    ensures laps == Reverse(seq(depth, i requires 0 <= i < depth => graph(Resolution(name, starting, i))))
  {
    var built: seq<G> := [];
    if !SpatialName(name) {
      var i := 0;
      while i < depth
        invariant 0 <= i <= depth
        invariant built == seq(i, k requires 0 <= k < i => graph(Resolution(name, starting, k)))
      {
        var nSide := Halvings(starting, i);
        built := built + [graph(nSide)];
        assert built[i] == graph(Resolution(name, starting, i));
        i := i + 1;
      }
    } else {
      var g := graph(starting);
      var i := 0;
      while i < depth
        invariant 0 <= i <= depth
        invariant built == seq(i, k requires 0 <= k < i => graph(Resolution(name, starting, k)))
      {
        built := built + [g];
        assert built[i] == graph(Resolution(name, starting, i));
        i := i + 1;
      }
    }
    laps := Reverse(built);
  }

  lemma {:induction false} HalvingsMono(starting: nat, i: nat, j: nat)
    requires i <= j
    ensures Halvings(starting, j) <= Halvings(starting, i)
  {
    if i < j {
      HalvingsMono(starting, i, j - 1);
    }
  }

  lemma {:induction false} HalvingsOfPow2(e: nat, k: nat)
    requires k <= e
    ensures Halvings(Pow2(e), k) == Pow2(e - k)
  {
    if k > 0 {
      HalvingsOfPow2(e, k - 1);
      assert Pow2(e - (k - 1)) == 2 * Pow2(e - k);
    }
  }

  /** The list has one graph per depth, coarsest first: the last entry is at the
      starting resolution and resolutions never decrease along the list. */
  lemma LaplacianOrder(name: PoolingName, starting: nat, depth: nat, i: nat, j: nat)
    requires i <= j < depth
    ensures Resolution(name, starting, depth - 1 - j) >= Resolution(name, starting, depth - 1 - i)
    ensures Resolution(name, starting, 0) == starting
  {
    HalvingsMono(starting, depth - 1 - j, depth - 1 - i);
  }

  /** In spherical mode with `n_side` = 2^e and at most e poolings, the graph at
      each depth has the resolution the pooling schedule has reached there. */
  lemma LaplaciansMatchPoolings(depth: nat, p: nat, e: nat, i: nat)
    requires Rounds(depth) <= e && i <= Rounds(depth)
    ensures Resolution(Spherical, Pow2(e), i) == Run(Spherical, i, p, Pow2(e)).nSide
  {
    SphericalResolution(i, p, e);
    HalvingsOfPow2(e, i);
  }
}
