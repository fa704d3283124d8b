/** The isotropic spatial kernel of `SO3SE3Conv` and `SpatialConv`
    (graphconv.py, `get_index` and the collapse in `forward`): every voxel of a
    size^3 cube belongs to the bucket of its distance to the cube centre, the
    buckets being the sorted distinct distances, and the collapsed kernel at a
    voxel is the trainable weight of its bucket.

    Distances are compared through the integer key
    (2x - (s-1))^2 + (2y - (s-1))^2 + (2z - (s-1))^2, which is four times the
    squared distance to the centre (s-1)/2 on every axis; the square root is
    strictly increasing, so keys and distances have the same order and the same
    equalities. */
module Isotropic {
  import opened LinAlg

  /** Four times the squared distance of voxel (x, y, z) to the centre of a size-s cube. */
  function Key(s: int, x: int, y: int, z: int): int
  {
    (2 * x - (s - 1)) * (2 * x - (s - 1)) + (2 * y - (s - 1)) * (2 * y - (s - 1))
      + (2 * z - (s - 1)) * (2 * z - (s - 1))
  }

  /** The squared distance `x^2 + y^2 + z^2` after `np.arange(size) - (size - 1)/2`. */
  function DistSq(s: int, x: int, y: int, z: int): real
  {
    var m := (s as real - 1.0) / 2.0;
    (x as real - m) * (x as real - m) + (y as real - m) * (y as real - m) + (z as real - m) * (z as real - m)
  }

  /** One axis of the key: (2a - (s-1))^2 is four times (a - (s-1)/2)^2. */
  lemma AxisIsFourSquare(s: int, a: int)
    ensures ((2 * a - (s - 1)) * (2 * a - (s - 1))) as real
         == 4.0 * ((a as real - (s as real - 1.0) / 2.0) * (a as real - (s as real - 1.0) / 2.0))
  {
    var e := a as real - (s as real - 1.0) / 2.0;
    assert (2 * a - (s - 1)) as real == 2.0 * e;
  }

  lemma KeyIsFourDistSq(s: int, x: int, y: int, z: int)
    ensures Key(s, x, y, z) as real == 4.0 * DistSq(s, x, y, z)
  {
    AxisIsFourSquare(s, x);
    AxisIsFourSquare(s, y);
    AxisIsFourSquare(s, z);
  }

  predicate InCube(s: nat, x: int, y: int, z: int)
  {
    0 <= x < s && 0 <= y < s && 0 <= z < s
  }

  /** The key array of a size-s cube, indexed [x][y][z] like `distance`. */
  function KeyGrid(s: nat): seq<seq<seq<int>>>
  {
    seq(s, x => seq(s, y => seq(s, z => Key(s, x, y, z))))
  }

  /** The rows of m one after the other. */
  function Concat(m: seq<seq<int>>): seq<int>
  {
    if |m| == 0 then [] else m[0] + Concat(m[1..])
  }

  lemma {:induction false} ConcatMember(m: seq<seq<int>>, k: int)
    ensures k in Concat(m) <==> exists i :: 0 <= i < |m| && k in m[i]
  {
    if |m| > 0 {
      ConcatMember(m[1..], k);
      if exists i :: 0 <= i < |m| && k in m[i] {
        var i :| 0 <= i < |m| && k in m[i];
        if i > 0 {
          assert k in m[1..][i - 1];
        }
      }
      if exists i :: 0 <= i < |m[1..]| && k in m[1..][i] {
        var i :| 0 <= i < |m[1..]| && k in m[1..][i];
        assert k in m[i + 1];
      }
    }
  }

  /** `distance.flatten()`: the keys of the cube in row-major order. */
  function FlatKeys(s: nat): seq<int>
  {
    Concat(seq(s, x requires 0 <= x < s => Concat(KeyGrid(s)[x])))
  }

  /** The flattened keys are exactly the keys of the voxels of the cube. */
  lemma FlatKeysMember(s: nat, k: int)
    ensures k in FlatKeys(s) <==> exists x, y, z :: InCube(s, x, y, z) && Key(s, x, y, z) == k
  {
    var slabs := seq(s, x requires 0 <= x < s => Concat(KeyGrid(s)[x]));
    ConcatMember(slabs, k);
    if k in FlatKeys(s) {
      var x :| 0 <= x < s && k in slabs[x];
      ConcatMember(KeyGrid(s)[x], k);
      var y :| 0 <= y < s && k in KeyGrid(s)[x][y];
      var z :| 0 <= z < s && KeyGrid(s)[x][y][z] == k;
      assert InCube(s, x, y, z) && Key(s, x, y, z) == k;
    }
    if exists x, y, z :: InCube(s, x, y, z) && Key(s, x, y, z) == k {
      var x, y, z :| InCube(s, x, y, z) && Key(s, x, y, z) == k;
      assert KeyGrid(s)[x][y][z] == k;
      ConcatMember(KeyGrid(s)[x], k);
      assert k in slabs[x];
    }
  }

  predicate Increasing(u: seq<int>)
  {
    forall i, j :: 0 <= i < j < |u| ==> u[i] < u[j]
  }

  /** Inserts k into an increasing sequence unless it is there already. */
  function Insert(u: seq<int>, k: int): seq<int>
  {
    if |u| == 0 then [k]
    else if k < u[0] then [k] + u
    else if k == u[0] then u
    else [u[0]] + Insert(u[1..], k)
  }

  lemma {:induction false} InsertProps(u: seq<int>, k: int)
    requires Increasing(u)
    ensures Increasing(Insert(u, k))
    ensures forall e :: e in Insert(u, k) <==> e in u || e == k
    ensures |Insert(u, k)| > 0 && Insert(u, k)[0] == (if |u| > 0 && u[0] < k then u[0] else k)
  {
    if |u| > 0 && k > u[0] {
      InsertProps(u[1..], k);
      var r := Insert(u[1..], k);
      assert Insert(u, k) == [u[0]] + r;
      forall e
        ensures e in Insert(u, k) <==> e in u || e == k
      {
        assert e in u <==> e == u[0] || e in u[1..];
      }
    }
  }

  /** `np.unique`: the distinct values of keys, increasing. */
  function Unique(keys: seq<int>): seq<int>
  {
    if |keys| == 0 then [] else Insert(Unique(keys[..|keys| - 1]), keys[|keys| - 1])
  }

  lemma {:induction false} UniqueProps(keys: seq<int>)
    ensures Increasing(Unique(keys))
    ensures forall e :: e in Unique(keys) <==> e in keys
  {
    if |keys| > 0 {
      var init := keys[..|keys| - 1];
      UniqueProps(init);
      InsertProps(Unique(init), keys[|keys| - 1]);
      assert keys == init + [keys[|keys| - 1]];
    }
  }

  /** The buckets of a size-s kernel: the sorted distinct keys of its voxels. */
  function Buckets(s: nat): seq<int>
  {
    Unique(FlatKeys(s))
  }

  lemma BucketsProps(s: nat)
    ensures Increasing(Buckets(s))
    ensures forall k :: k in Buckets(s) <==> exists x, y, z :: InCube(s, x, y, z) && Key(s, x, y, z) == k
  {
    UniqueProps(FlatKeys(s));
    forall k
      ensures k in Buckets(s) <==> exists x, y, z :: InCube(s, x, y, z) && Key(s, x, y, z) == k
    {
      FlatKeysMember(s, k);
    }
  }

  /** The position of k in u. */
  function IndexOf(u: seq<int>, k: int): (i: nat)
    requires k in u
    ensures i < |u| && u[i] == k
  {
    if u[0] == k then 0 else 1 + IndexOf(u[1..], k)
  }

  /** `ind`, the inverse index `np.unique` returns: the bucket of voxel (x, y, z). */
  function Bucket(s: nat, x: int, y: int, z: int): nat
    requires InCube(s, x, y, z)
  {
    BucketsProps(s);
    IndexOf(Buckets(s), Key(s, x, y, z))
  }

  /** The bucket holds the key of the voxel. */
  lemma BucketKey(s: nat, x: int, y: int, z: int)
    requires InCube(s, x, y, z)
    ensures Bucket(s, x, y, z) < |Buckets(s)| && Buckets(s)[Bucket(s, x, y, z)] == Key(s, x, y, z)
  {
    BucketsProps(s);
  }

  /** In an increasing sequence positions and values are in the same order. */
  lemma IncreasingOrder(u: seq<int>, i: nat, j: nat)
    requires Increasing(u) && i < |u| && j < |u|
    ensures u[i] < u[j] <==> i < j
    ensures u[i] == u[j] <==> i == j
  {
    if i < j {
      assert u[i] < u[j];
    } else if j < i {
      assert u[j] < u[i];
    }
  }

  /** Buckets are ordered as the distances are: a voxel nearer the centre has a lower bucket. */
  lemma BucketOrder(s: nat, x1: int, y1: int, z1: int, x2: int, y2: int, z2: int)
    requires InCube(s, x1, y1, z1) && InCube(s, x2, y2, z2)
    ensures Bucket(s, x1, y1, z1) < Bucket(s, x2, y2, z2) <==> DistSq(s, x1, y1, z1) < DistSq(s, x2, y2, z2)
    ensures Bucket(s, x1, y1, z1) == Bucket(s, x2, y2, z2) <==> DistSq(s, x1, y1, z1) == DistSq(s, x2, y2, z2)
  {
    BucketsProps(s);
    BucketKey(s, x1, y1, z1);
    BucketKey(s, x2, y2, z2);
    KeyIsFourDistSq(s, x1, y1, z1);
    KeyIsFourDistSq(s, x2, y2, z2);
    IncreasingOrder(Buckets(s), Bucket(s, x1, y1, z1), Bucket(s, x2, y2, z2));
  }

  /** Every bucket is the distance of some voxel. */
  lemma BucketsAreDistances(s: nat, j: nat)
    requires j < |Buckets(s)|
    ensures exists x, y, z :: InCube(s, x, y, z) && Bucket(s, x, y, z) == j
  {
    BucketsProps(s);
    assert Buckets(s)[j] in Buckets(s);
    var x, y, z :| InCube(s, x, y, z) && Key(s, x, y, z) == Buckets(s)[j];
    BucketKey(s, x, y, z);
    IncreasingOrder(Buckets(s), Bucket(s, x, y, z), j);
  }

  /** Entry j of the one-hot mask at voxel (x, y, z). */
  function MaskValue(s: nat, x: int, y: int, z: int, j: int): real
  {
    if InCube(s, x, y, z) && j == Bucket(s, x, y, z) then 1.0 else 0.0
  }

  /** Exactly one bucket of the mask is active at each voxel. */
  lemma MaskOneHot(s: nat, x: int, y: int, z: int)
    requires InCube(s, x, y, z)
    ensures Sum(|Buckets(s)|, j => MaskValue(s, x, y, z, j)) == 1.0
  {
    BucketKey(s, x, y, z);
    SumDelta(|Buckets(s)|, Bucket(s, x, y, z), 1.0, j => MaskValue(s, x, y, z, j));
  }

  /** `get_index`: the [Fout, Fin, s, s, s, U] mask, zero but for a one in the
      bucket of each voxel, written one bucket at a time; and the U buckets. */
  method GetIndex(fout: nat, fin: nat, s: nat) returns (mask: array6<real>, buckets: seq<int>)
    ensures buckets == Buckets(s)
    ensures fresh(mask)
    ensures mask.Length0 == fout && mask.Length1 == fin && mask.Length2 == s
    ensures mask.Length3 == s && mask.Length4 == s && mask.Length5 == |buckets|
    ensures forall o, c, x, y, z, j ::
              0 <= o < fout && 0 <= c < fin && InCube(s, x, y, z) && 0 <= j < |buckets| ==>
                mask[o, c, x, y, z, j] == MaskValue(s, x, y, z, j)
  {
    buckets := Buckets(s);
    var u := |buckets|;
    mask := new real[fout, fin, s, s, s, u]((o, c, x, y, z, j) => 0.0);
    var i := 0;
    while i < u
      invariant 0 <= i <= u
      invariant forall o, c, x, y, z, j ::
                  0 <= o < fout && 0 <= c < fin && InCube(s, x, y, z) && 0 <= j < u ==>
                    mask[o, c, x, y, z, j] == if j < i then MaskValue(s, x, y, z, j) else 0.0
    {
      forall o, c, x, y, z | 0 <= o < fout && 0 <= c < fin && 0 <= x < s && 0 <= y < s && 0 <= z < s
        && Bucket(s, x, y, z) == i
      {
        mask[o, c, x, y, z, i] := 1.0;
      }
      i := i + 1;
    }
  }

  /** Bucket weight j of the [Fout, Fin, 1, 1, 1, U] trainable weight. */
  function SpaAt(wSpa: seq<seq<seq<real>>>, o: int, c: int, j: int): real
  {
    if 0 <= o < |wSpa| && 0 <= c < |wSpa[o]| && 0 <= j < |wSpa[o][c]| then wSpa[o][c][j] else 0.0
  }

  /** `torch.sum(weight_tmp * weightSpa, -1)` at (o, c, x, y, z). */
  function Collapse(wSpa: seq<seq<seq<real>>>, s: nat, o: int, c: int, x: int, y: int, z: int): real
  {
    Sum(|Buckets(s)|, j => MaskValue(s, x, y, z, j) * SpaAt(wSpa, o, c, j))
  }

  /** The collapsed kernel at a voxel is the weight of its bucket. */
  lemma CollapseIsBucketWeight(wSpa: seq<seq<seq<real>>>, s: nat, o: int, c: int, x: int, y: int, z: int)
    requires InCube(s, x, y, z)
    ensures Collapse(wSpa, s, o, c, x, y, z) == SpaAt(wSpa, o, c, Bucket(s, x, y, z))
  {
    BucketKey(s, x, y, z);
    SumDelta(|Buckets(s)|, Bucket(s, x, y, z), SpaAt(wSpa, o, c, Bucket(s, x, y, z)),
             j => MaskValue(s, x, y, z, j) * SpaAt(wSpa, o, c, j));
  }

  /** Voxels at the same distance from the centre carry the same collapsed weight. */
  lemma CollapseIsotropic(wSpa: seq<seq<seq<real>>>, s: nat, o: int, c: int,
                          x1: int, y1: int, z1: int, x2: int, y2: int, z2: int)
    requires InCube(s, x1, y1, z1) && InCube(s, x2, y2, z2)
    requires DistSq(s, x1, y1, z1) == DistSq(s, x2, y2, z2)
    ensures Collapse(wSpa, s, o, c, x1, y1, z1) == Collapse(wSpa, s, o, c, x2, y2, z2)
  {
    BucketOrder(s, x1, y1, z1, x2, y2, z2);
    CollapseIsBucketWeight(wSpa, s, o, c, x1, y1, z1);
    CollapseIsBucketWeight(wSpa, s, o, c, x2, y2, z2);
  }

  /** Reflecting an axis, a -> s-1-a, keeps its term of the key. */
  lemma ReflectAxis(s: int, a: int)
    ensures (2 * (s - 1 - a) - (s - 1)) * (2 * (s - 1 - a) - (s - 1)) == (2 * a - (s - 1)) * (2 * a - (s - 1))
  {
    var e := 2 * a - (s - 1);
    assert 2 * (s - 1 - a) - (s - 1) == -e;
  }

  /** Voxels with the same key carry the same collapsed weight. */
  lemma CollapseSameKey(wSpa: seq<seq<seq<real>>>, s: nat, o: int, c: int,
                        x1: int, y1: int, z1: int, x2: int, y2: int, z2: int)
    requires InCube(s, x1, y1, z1) && InCube(s, x2, y2, z2)
    requires Key(s, x1, y1, z1) == Key(s, x2, y2, z2)
    ensures Collapse(wSpa, s, o, c, x1, y1, z1) == Collapse(wSpa, s, o, c, x2, y2, z2)
  {
    CollapseIsBucketWeight(wSpa, s, o, c, x1, y1, z1);
    CollapseIsBucketWeight(wSpa, s, o, c, x2, y2, z2);
  }

  /** The collapsed kernel is unchanged by swapping two axes or reflecting one. */
  lemma CollapseSymmetric(wSpa: seq<seq<seq<real>>>, s: nat, o: int, c: int, x: int, y: int, z: int)
    requires InCube(s, x, y, z)
    ensures Collapse(wSpa, s, o, c, x, y, z) == Collapse(wSpa, s, o, c, y, x, z)
    ensures Collapse(wSpa, s, o, c, x, y, z) == Collapse(wSpa, s, o, c, x, z, y)
    ensures Collapse(wSpa, s, o, c, x, y, z) == Collapse(wSpa, s, o, c, s - 1 - x, y, z)
    ensures Collapse(wSpa, s, o, c, x, y, z) == Collapse(wSpa, s, o, c, x, s - 1 - y, z)
    ensures Collapse(wSpa, s, o, c, x, y, z) == Collapse(wSpa, s, o, c, x, y, s - 1 - z)
  {
    CollapseSameKey(wSpa, s, o, c, x, y, z, y, x, z);
    CollapseSameKey(wSpa, s, o, c, x, y, z, x, z, y);
    ReflectAxis(s, x);
    CollapseSameKey(wSpa, s, o, c, x, y, z, s - 1 - x, y, z);
    ReflectAxis(s, y);
    CollapseSameKey(wSpa, s, o, c, x, y, z, x, s - 1 - y, z);
    ReflectAxis(s, z);
    CollapseSameKey(wSpa, s, o, c, x, y, z, x, y, s - 1 - z);
  }
}
