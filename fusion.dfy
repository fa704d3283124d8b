/** The mixed spherical x spatial kernel of `se3so3_conv` (graphconv.py) and of
    `SO3SE3ConvPrecomputer.se3so3_conv`: the spherical weight [Fout, Fin, K]
    and the spatial weight [Fout, Fin, P] (P voxels, the kX x kY x kZ axes
    flattened) are fused into one [Fout, Fin*K, P] kernel whose channel
    f*K + k pairs input channel f with Chebyshev order k. */
module Fusion {
  import opened FlatIndex

  type Tensor3 = seq<seq<seq<real>>>

  /** t has shape [a, b, c]. */
  predicate IsTensor3<T>(t: seq<seq<seq<T>>>, a: nat, b: nat, c: nat)
  {
    |t| == a && (forall i :: 0 <= i < a ==> |t[i]| == b)
    && (forall i, j :: 0 <= i < a && 0 <= j < b ==> |t[i][j]| == c)
  }

  /** `flatten(1, 2)` (and `view` of axes 1 and 2 into one): [A, B, C] -> [A, B*C],
      channel c reading t[o][c / C][c % C]. */
  function Flatten12<T>(t: seq<seq<seq<T>>>, a: nat, b: nat, c: nat): (r: seq<seq<T>>)
    requires IsTensor3(t, a, b, c)
    ensures |r| == a && forall o :: 0 <= o < a ==> |r[o]| == b * c
  {
    seq(a, o requires 0 <= o < a => seq(b * c, n requires 0 <= n < b * c =>
      FlatSplit(n, b, c);
      t[o][n / c][n % c]))
  }

  /** Flattening keeps every entry, at position f*C + k. */
  lemma FlattenEntry<T>(t: seq<seq<seq<T>>>, a: nat, b: nat, c: nat, o: nat, f: nat, k: nat)
    requires IsTensor3(t, a, b, c) && o < a && f < b && k < c
    ensures f * c + k < b * c && Flatten12(t, a, b, c)[o][f * c + k] == t[o][f][k]
  {
    FlatBound(f, k, b, c);
    FlatDivMod(f, k, c);
  }

  /** `weightSpa.repeat_interleave(K, dim=1)`: each input channel repeated K times in a row. */
  function RepeatInterleave(w: Tensor3, fout: nat, fin: nat, p: nat, k: nat): Tensor3
    requires IsTensor3(w, fout, fin, p)
  {
    seq(fout, o requires 0 <= o < fout => seq(fin * k, n requires 0 <= n < fin * k =>
      FlatSplit(n, fin, k);
      w[o][n / k]))
  }

  /** `weightSpa[:, :, None].expand(-1, -1, K, ...)`: [Fout, Fin, K, P], constant along the new axis. */
  function Expand(w: Tensor3, fout: nat, fin: nat, p: nat, k: nat): (r: seq<seq<seq<seq<real>>>>)
    requires IsTensor3(w, fout, fin, p)
    ensures IsTensor3(r, fout, fin, k)
  {
    seq(fout, o requires 0 <= o < fout => seq(fin, f requires 0 <= f < fin => seq(k, _ => w[o][f])))
  }

  /** Both spatial layouts have shape [Fout, Fin*K, P]. */
  lemma SpatialLayoutShape(w: Tensor3, fout: nat, fin: nat, p: nat, k: nat)
    requires IsTensor3(w, fout, fin, p)
    ensures IsTensor3(RepeatInterleave(w, fout, fin, p, k), fout, fin * k, p)
    ensures IsTensor3(Flatten12(Expand(w, fout, fin, p, k), fout, fin, k), fout, fin * k, p)
  {
    forall o, n | 0 <= o < fout && 0 <= n < fin * k
      ensures |RepeatInterleave(w, fout, fin, p, k)[o][n]| == p
      ensures |Flatten12(Expand(w, fout, fin, p, k), fout, fin, k)[o][n]| == p
    {
      FlatSplit(n, fin, k);
    }
  }

  /** Entry [o][f*K + k] of both spatial layouts is the spatial filter of (o, f). */
  lemma SpatialLayoutEntry(w: Tensor3, fout: nat, fin: nat, p: nat, k: nat, o: nat, f: nat, j: nat)
    requires IsTensor3(w, fout, fin, p) && o < fout && f < fin && j < k
    ensures f * k + j < fin * k
    ensures RepeatInterleave(w, fout, fin, p, k)[o][f * k + j] == w[o][f]
    ensures Flatten12(Expand(w, fout, fin, p, k), fout, fin, k)[o][f * k + j] == w[o][f]
  {
    FlatBound(f, j, fin, k);
    FlatDivMod(f, j, k);
    FlattenEntry(Expand(w, fout, fin, p, k), fout, fin, k, o, f, j);
  }

  /** The `repeat_interleave` and `expand` + `flatten` layouts are the same tensor. */
  lemma SpatialLayoutsAgree(w: Tensor3, fout: nat, fin: nat, p: nat, k: nat)
    requires IsTensor3(w, fout, fin, p)
    ensures RepeatInterleave(w, fout, fin, p, k) == Flatten12(Expand(w, fout, fin, p, k), fout, fin, k)
  {
    SpatialLayoutShape(w, fout, fin, p, k);
    var r := RepeatInterleave(w, fout, fin, p, k);
    var e := Flatten12(Expand(w, fout, fin, p, k), fout, fin, k);
    forall o | 0 <= o < fout
      ensures r[o] == e[o]
    {
      forall n | 0 <= n < fin * k
        ensures r[o][n] == e[o][n]
      {
        FlatSplit(n, fin, k);
        SpatialLayoutEntry(w, fout, fin, p, k, o, n / k, n % k);
      }
    }
  }

  /** `wSph.expand(...) * wSpa`: every voxel of channel n scaled by the spherical weight of n. */
  function Fuse(sph: seq<seq<real>>, spa: Tensor3, fout: nat, n: nat, p: nat): (r: Tensor3)
    requires |sph| == fout && (forall o :: 0 <= o < fout ==> |sph[o]| == n)
    requires IsTensor3(spa, fout, n, p)
    ensures IsTensor3(r, fout, n, p)
  {
    seq(fout, o requires 0 <= o < fout => seq(n, c requires 0 <= c < n =>
      seq(p, q requires 0 <= q < p => sph[o][c] * spa[o][c][q])))
  }

  /** The kernel `se3so3_conv` hands to `conv3d`, for either spatial layout. */
  function Se3So3Kernel(wSph: Tensor3, wSpa: Tensor3, fout: nat, fin: nat, k: nat, p: nat,
                        repeatInterleave: bool): (r: Tensor3)
    requires IsTensor3(wSph, fout, fin, k) && IsTensor3(wSpa, fout, fin, p)
    ensures IsTensor3(r, fout, fin * k, p)
  {
    SpatialLayoutShape(wSpa, fout, fin, p, k);
    var spa := if repeatInterleave then RepeatInterleave(wSpa, fout, fin, p, k)
               else Flatten12(Expand(wSpa, fout, fin, p, k), fout, fin, k);
    Fuse(Flatten12(wSph, fout, fin, k), spa, fout, fin * k, p)
  }

  /** Channel f*K + k of the fused kernel is weightSph[o,f,k] times weightSpa[o,f,...],
      whichever spatial layout is chosen. */
  lemma FusedEntry(wSph: Tensor3, wSpa: Tensor3, fout: nat, fin: nat, k: nat, p: nat,
                   repeatInterleave: bool, o: nat, f: nat, j: nat, q: nat)
    requires IsTensor3(wSph, fout, fin, k) && IsTensor3(wSpa, fout, fin, p)
    requires o < fout && f < fin && j < k && q < p
    ensures f * k + j < fin * k
    ensures Se3So3Kernel(wSph, wSpa, fout, fin, k, p, repeatInterleave)[o][f * k + j][q]
         == wSph[o][f][j] * wSpa[o][f][q]
  {
    SpatialLayoutEntry(wSpa, fout, fin, p, k, o, f, j);
    FlattenEntry(wSph, fout, fin, k, o, f, j);
  }

  /** The two spatial layouts give the same fused kernel. */
  lemma FusedLayoutsAgree(wSph: Tensor3, wSpa: Tensor3, fout: nat, fin: nat, k: nat, p: nat)
    requires IsTensor3(wSph, fout, fin, k) && IsTensor3(wSpa, fout, fin, p)
    ensures Se3So3Kernel(wSph, wSpa, fout, fin, k, p, true) == Se3So3Kernel(wSph, wSpa, fout, fin, k, p, false)
  {
    SpatialLayoutsAgree(wSpa, fout, fin, p, k);
  }

  /** `SO3SE3ConvPrecomputer.se3so3_conv`: weightSph is stored already flat as
      [Fout, Fin*K]; a spatial kernel of size one uses weightSph alone. */
  function PrecomputerKernel(sph: seq<seq<real>>, wSpa: Tensor3, fout: nat, fin: nat, k: nat,
                             kSpa: nat, p: nat): (r: Tensor3)
    requires |sph| == fout && (forall o :: 0 <= o < fout ==> |sph[o]| == fin * k)
    requires IsTensor3(wSpa, fout, fin, p)
    ensures IsTensor3(r, fout, fin * k, if kSpa > 1 then p else 1)
  {
    SpatialLayoutShape(wSpa, fout, fin, p, k);
    if kSpa > 1 then Fuse(sph, Flatten12(Expand(wSpa, fout, fin, p, k), fout, fin, k), fout, fin * k, p)
    else seq(fout, o requires 0 <= o < fout => seq(fin * k, c requires 0 <= c < fin * k => [sph[o][c]]))
  }

  /** With a spatial kernel wider than one the precomputer fuses exactly as `se3so3_conv` does. */
  lemma PrecomputerMatchesSe3So3(wSph: Tensor3, wSpa: Tensor3, fout: nat, fin: nat, k: nat, kSpa: nat,
                                 p: nat, repeatInterleave: bool)
    requires IsTensor3(wSph, fout, fin, k) && IsTensor3(wSpa, fout, fin, p) && kSpa > 1
    ensures PrecomputerKernel(Flatten12(wSph, fout, fin, k), wSpa, fout, fin, k, kSpa, p)
         == Se3So3Kernel(wSph, wSpa, fout, fin, k, p, repeatInterleave)
  {
    SpatialLayoutsAgree(wSpa, fout, fin, p, k);
  }

  /** With a spatial kernel of size one the spatial weight is not used at all. */
  lemma PrecomputerPointKernel(sph: seq<seq<real>>, wSpa: Tensor3, wSpa': Tensor3, fout: nat, fin: nat,
                               k: nat, kSpa: nat, p: nat, o: nat, c: nat)
    requires |sph| == fout && (forall o :: 0 <= o < fout ==> |sph[o]| == fin * k)
    requires IsTensor3(wSpa, fout, fin, p) && IsTensor3(wSpa', fout, fin, p)
    requires kSpa <= 1 && o < fout && c < fin * k
    ensures PrecomputerKernel(sph, wSpa, fout, fin, k, kSpa, p) == PrecomputerKernel(sph, wSpa', fout, fin, k, kSpa, p)
    ensures PrecomputerKernel(sph, wSpa, fout, fin, k, kSpa, p)[o][c] == [sph[o][c]]
  {
  }
}
