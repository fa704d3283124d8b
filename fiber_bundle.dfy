/** The invariant edge attributes of the position-orientation fiber bundle
    R3 x S2 (model/shutils.py, `invariant_attr_r3s2_fiber_bundle`). For an
    edge from a sender to a receiver point and an orientation o of the
    grid, the attributes are the component of the relative position along o
    and the length of the rest of it; between two orientations, their inner
    product. */
module FiberBundle {
  import opened Outcomes

  datatype Vec = Vec(x: real, y: real, z: real)

  function Add(a: Vec, b: Vec): Vec
  {
    Vec(a.x + b.x, a.y + b.y, a.z + b.z)
  }

  function Minus(a: Vec, b: Vec): Vec
  {
    Vec(a.x - b.x, a.y - b.y, a.z - b.z)
  }

  function Times(s: real, a: Vec): Vec
  {
    Vec(s * a.x, s * a.y, s * a.z)
  }

  /** `(a * b).sum(dim=-1)`. */
  function Dot(a: Vec, b: Vec): real
  {
    a.x * b.x + a.y * b.y + a.z * b.z
  }

  predicate Unit(o: Vec)
  {
    Dot(o, o) == 1.0
  }

  /** `edge_index[:, e]`: the sender `edge_index[0]` and the receiver `edge_index[1]`. */
  datatype Edge = Edge(send: nat, recv: nat)

  /** The two attributes of one (edge, orientation) pair: invariant1 and invariant2. */
  datatype Attr = Attr(along: real, across: real)

  /** `pos_send - pos_receive`. */
  function Rel(pos: seq<Vec>, e: Edge): Vec
    requires e.send < |pos| && e.recv < |pos|
  {
    Minus(pos[e.send], pos[e.recv])
  }

  /** `rel_pos - invariant1 * ori`: what is left of the relative position once
      its component along o is taken away. */
  function Residual(rel: Vec, o: Vec): Vec
  {
    Minus(rel, Times(Dot(rel, o), o))
  }

  /** invariant1 and invariant2 for one edge and one orientation; `norm` is the
      Euclidean length the source takes with `.norm(dim=-1)`. */
  function EdgeAttr(rel: Vec, o: Vec, norm: Vec -> real): Attr
  {
    Attr(Dot(rel, o), norm(Residual(rel, o)))
  }

  predicate EdgesInRange(pos: seq<Vec>, edges: seq<Edge>)
  {
    forall e :: 0 <= e < |edges| ==> edges[e].send < |pos| && edges[e].recv < |pos|
  }

  /** The first result: [edges x orientations] of (invariant1, invariant2);
      an endpoint outside the positions is an IndexError. */
  function EdgeAttrs(pos: seq<Vec>, ori: seq<Vec>, edges: seq<Edge>, norm: Vec -> real): (r: Result<seq<seq<Attr>>>)
    ensures r.Ok? <==> EdgesInRange(pos, edges)
    ensures r.Err? ==> r.error == IndexError
    ensures r.Ok? ==> |r.value| == |edges| && forall e :: 0 <= e < |edges| ==> |r.value[e]| == |ori|
  {
    if !EdgesInRange(pos, edges) then Err(IndexError)
    else Ok(seq(|edges|, e requires 0 <= e < |edges| =>
      seq(|ori|, k requires 0 <= k < |ori| => EdgeAttr(Rel(pos, edges[e]), ori[k], norm))))
  }

  /** The second result, invariant3: [orientations x orientations] of inner products. */
  function OriAttrs(ori: seq<Vec>): seq<seq<real>>
  {
    seq(|ori|, a requires 0 <= a < |ori| => seq(|ori|, b requires 0 <= b < |ori| => Dot(ori[b], ori[a])))
  }

  /** `invariant_attr_r3s2_fiber_bundle(pos, ori_grid, edge_index)`. */
  function InvariantAttr(pos: seq<Vec>, ori: seq<Vec>, edges: seq<Edge>, norm: Vec -> real): Result<(seq<seq<Attr>>, seq<seq<real>>)>
  {
    match EdgeAttrs(pos, ori, edges, norm)
    case Err(err) => Err(err)
    case Ok(attrs) => Ok((attrs, OriAttrs(ori)))
  }

  // ----- what the attributes mean -----

  /** The residual is orthogonal to a unit orientation. */
  lemma ResidualOrthogonal(rel: Vec, o: Vec)
    requires Unit(o)
    ensures Dot(Residual(rel, o), o) == 0.0
  {
    var s := Dot(rel, o);
    calc {
      Dot(Residual(rel, o), o);
      Dot(rel, o) - s * Dot(o, o);
      0.0;
    }
  }

  /** invariant1 and invariant2 split the squared length of the relative position
      (Pythagoras): along^2 + across^2 == |rel|^2 for a unit orientation. */
  lemma AttrPythagoras(rel: Vec, o: Vec, norm: Vec -> real)
    requires Unit(o)
    requires norm(Residual(rel, o)) * norm(Residual(rel, o)) == Dot(Residual(rel, o), Residual(rel, o))
    ensures var a := EdgeAttr(rel, o, norm); a.along * a.along + a.across * a.across == Dot(rel, rel)
  {
    var s := Dot(rel, o);
    var res := Residual(rel, o);
    ResidualOrthogonal(rel, o);
    assert rel == Add(res, Times(s, o));
    calc {
      Dot(rel, rel);
      Dot(Add(res, Times(s, o)), Add(res, Times(s, o)));
      { DotExpand(res, o, s); }
      Dot(res, res) + 2.0 * s * Dot(res, o) + s * s * Dot(o, o);
      Dot(res, res) + s * s;
    }
  }

  lemma DotExpand(r: Vec, o: Vec, s: real)
    ensures Dot(Add(r, Times(s, o)), Add(r, Times(s, o))) == Dot(r, r) + 2.0 * s * Dot(r, o) + s * s * Dot(o, o)
  {
  }

  /** An edge from a point to itself has no component along any orientation. */
  lemma SelfEdge(pos: seq<Vec>, v: nat, o: Vec, norm: Vec -> real)
    requires v < |pos|
    requires norm(Vec(0.0, 0.0, 0.0)) == 0.0
    ensures EdgeAttr(Rel(pos, Edge(v, v)), o, norm) == Attr(0.0, 0.0)
  {
    var zero := Vec(0.0, 0.0, 0.0);
    var rel := Rel(pos, Edge(v, v));
    assert rel == zero;
    assert Residual(rel, o) == zero;
    assert Dot(zero, o) == 0.0;
    assert EdgeAttr(rel, o, norm) == Attr(Dot(zero, o), norm(zero));
  }

  /** Moving every point by the same vector changes no attribute. */
  lemma TranslationInvariant(pos: seq<Vec>, t: Vec, ori: seq<Vec>, edges: seq<Edge>, norm: Vec -> real)
    ensures InvariantAttr(seq(|pos|, v requires 0 <= v < |pos| => Add(pos[v], t)), ori, edges, norm)
         == InvariantAttr(pos, ori, edges, norm)
  {
    var moved := seq(|pos|, v requires 0 <= v < |pos| => Add(pos[v], t));
    assert |moved| == |pos|;
    if EdgesInRange(pos, edges) {
      assert EdgesInRange(moved, edges);
      forall e | 0 <= e < |edges|
        ensures Rel(moved, edges[e]) == Rel(pos, edges[e])
      {
      }
      var a := EdgeAttrs(moved, ori, edges, norm).value;
      var b := EdgeAttrs(pos, ori, edges, norm).value;
      forall e | 0 <= e < |edges|
        ensures a[e] == b[e]
      {
        assert |a[e]| == |b[e]|;
      }
      assert a == b;
    }
  }

  /** invariant3 is symmetric, and the diagonal of a grid of unit orientations is 1. */
  lemma OriAttrsSymmetric(ori: seq<Vec>, a: nat, b: nat)
    requires a < |ori| && b < |ori|
    ensures OriAttrs(ori)[a][b] == OriAttrs(ori)[b][a]
    ensures Unit(ori[a]) ==> OriAttrs(ori)[a][a] == 1.0
  {
  }

  // ----- rotations -----

  /** A 3 x 3 matrix by its rows. */
  datatype Rot = Rot(r0: Vec, r1: Vec, r2: Vec)

  function Apply(m: Rot, v: Vec): Vec
  {
    Vec(Dot(m.r0, v), Dot(m.r1, v), Dot(m.r2, v))
  }

  function Col(m: Rot, j: nat): Vec
    requires j < 3
  {
    if j == 0 then Vec(m.r0.x, m.r1.x, m.r2.x)
    else if j == 1 then Vec(m.r0.y, m.r1.y, m.r2.y)
    else Vec(m.r0.z, m.r1.z, m.r2.z)
  }

  /** R^T R = I: the columns are orthonormal. */
  predicate Orthogonal(m: Rot)
  {
    Unit(Col(m, 0)) && Unit(Col(m, 1)) && Unit(Col(m, 2))
    && Dot(Col(m, 0), Col(m, 1)) == 0.0 && Dot(Col(m, 0), Col(m, 2)) == 0.0 && Dot(Col(m, 1), Col(m, 2)) == 0.0
  }

  /** An orthogonal matrix keeps inner products. */
  lemma {:induction false} ApplyKeepsDot(m: Rot, a: Vec, b: Vec)
    requires Orthogonal(m)
    ensures Dot(Apply(m, a), Apply(m, b)) == Dot(a, b)
  {
    var c0, c1, c2 := Col(m, 0), Col(m, 1), Col(m, 2);
    assert Apply(m, a) == Add(Add(Times(a.x, c0), Times(a.y, c1)), Times(a.z, c2));
    assert Apply(m, b) == Add(Add(Times(b.x, c0), Times(b.y, c1)), Times(b.z, c2));
    DotBilinear(a.x, a.y, a.z, b.x, b.y, b.z, c0, c1, c2);
  }

  lemma DotBilinear(a0: real, a1: real, a2: real, b0: real, b1: real, b2: real, c0: Vec, c1: Vec, c2: Vec)
    requires Unit(c0) && Unit(c1) && Unit(c2)
    requires Dot(c0, c1) == 0.0 && Dot(c0, c2) == 0.0 && Dot(c1, c2) == 0.0
    ensures Dot(Add(Add(Times(a0, c0), Times(a1, c1)), Times(a2, c2)), Add(Add(Times(b0, c0), Times(b1, c1)), Times(b2, c2)))
         == a0 * b0 + a1 * b1 + a2 * b2
  {
    var u := Add(Add(Times(a0, c0), Times(a1, c1)), Times(a2, c2));
    var w := Add(Add(Times(b0, c0), Times(b1, c1)), Times(b2, c2));
    DotLinearLeft(a0, a1, a2, c0, c1, c2, w);
    DotLinearLeft(b0, b1, b2, c0, c1, c2, c0);
    DotLinearLeft(b0, b1, b2, c0, c1, c2, c1);
    DotLinearLeft(b0, b1, b2, c0, c1, c2, c2);
    DotSymmetric(c0, w);
    DotSymmetric(c1, w);
    DotSymmetric(c2, w);
    DotSymmetric(c1, c0);
    DotSymmetric(c2, c0);
    DotSymmetric(c2, c1);
  }

  lemma DotLinearLeft(a0: real, a1: real, a2: real, c0: Vec, c1: Vec, c2: Vec, w: Vec)
    ensures Dot(Add(Add(Times(a0, c0), Times(a1, c1)), Times(a2, c2)), w)
         == a0 * Dot(c0, w) + a1 * Dot(c1, w) + a2 * Dot(c2, w)
  {
  }

  lemma DotSymmetric(a: Vec, b: Vec)
    ensures Dot(a, b) == Dot(b, a)
  {
  }

  /** Rotating the positions and the orientation together keeps invariant1, and
      keeps invariant2 whenever `norm` depends on the squared length only. */
  lemma RotationInvariant(m: Rot, rel: Vec, o: Vec, norm: Vec -> real)
    requires Orthogonal(m)
    requires Dot(Residual(Apply(m, rel), Apply(m, o)), Residual(Apply(m, rel), Apply(m, o)))
          == Dot(Residual(rel, o), Residual(rel, o))
       ==> norm(Residual(Apply(m, rel), Apply(m, o))) == norm(Residual(rel, o))
    ensures EdgeAttr(Apply(m, rel), Apply(m, o), norm) == EdgeAttr(rel, o, norm)
  {
    ApplyKeepsDot(m, rel, o);
    var s := Dot(rel, o);
    var res := Residual(rel, o);
    assert Residual(Apply(m, rel), Apply(m, o)) == Apply(m, res) by {
      ApplyLinear(m, rel, o, s);
    }
    ApplyKeepsDot(m, res, res);
  }

  lemma ApplyLinear(m: Rot, a: Vec, b: Vec, s: real)
    ensures Apply(m, Minus(a, Times(s, b))) == Minus(Apply(m, a), Times(s, Apply(m, b)))
  {
  }

  /** Rotating everything (positions and orientation grid) by an orthogonal
      matrix leaves all attributes unchanged, given a length-only `norm`. */
  lemma InvariantAttrRotation(m: Rot, pos: seq<Vec>, ori: seq<Vec>, edges: seq<Edge>, norm: Vec -> real)
    requires Orthogonal(m)
    requires forall a: Vec, b: Vec :: Dot(a, a) == Dot(b, b) ==> norm(a) == norm(b)
    ensures InvariantAttr(seq(|pos|, v requires 0 <= v < |pos| => Apply(m, pos[v])),
                          seq(|ori|, k requires 0 <= k < |ori| => Apply(m, ori[k])), edges, norm)
         == InvariantAttr(pos, ori, edges, norm)
  {
    var pos' := seq(|pos|, v requires 0 <= v < |pos| => Apply(m, pos[v]));
    var ori' := seq(|ori|, k requires 0 <= k < |ori| => Apply(m, ori[k]));
    assert |pos'| == |pos|;
    if EdgesInRange(pos, edges) {
      assert EdgesInRange(pos', edges);
      var a := EdgeAttrs(pos', ori', edges, norm).value;
      var b := EdgeAttrs(pos, ori, edges, norm).value;
      forall e, k | 0 <= e < |edges| && 0 <= k < |ori|
        ensures a[e][k] == b[e][k]
      {
        var rel := Rel(pos, edges[e]);
        assert Rel(pos', edges[e]) == Apply(m, rel) by {
          ApplyLinear(m, pos[edges[e].send], pos[edges[e].recv], 1.0);
          assert Times(1.0, pos[edges[e].recv]) == pos[edges[e].recv];
          assert Times(1.0, Apply(m, pos[edges[e].recv])) == Apply(m, pos[edges[e].recv]);
        }
        RotationInvariant(m, rel, ori[k], norm);
      }
      forall e | 0 <= e < |edges|
        ensures a[e] == b[e]
      {
        assert |a[e]| == |b[e]|;
      }
      var c := OriAttrs(ori');
      var d := OriAttrs(ori);
      forall i, j | 0 <= i < |ori| && 0 <= j < |ori|
        ensures c[i][j] == d[i][j]
      {
        ApplyKeepsDot(m, ori[j], ori[i]);
      }
      forall i | 0 <= i < |ori|
        ensures c[i] == d[i]
      {
        assert |c[i]| == |d[i]|;
      }
      assert |c| == |d|;
      assert c == d;
      assert a == b;
    }
  }
}
