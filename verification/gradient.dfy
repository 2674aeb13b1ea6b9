/** What `backward` leaves is the derivative of what the graph computes. */
module Gradient {
  import opened Autograd
  import opened Calculus

  /** What node `r` would hold if node `v` held `h` more than it does. */
  ghost function Moved(ns: seq<Value>, ops: seq<Op>, v: nat, r: nat, h: real): real
    requires Computes(ns, ops) && r < |ns|
    decreases r
  {
    if r == v then ns[r].data + h
    else
      assert ComputedBy(ns, r, ops[r]);
      match ops[r]
      case Leaf => ns[r].data
      case Sum(a, b) => Moved(ns, ops, v, a, h) + Moved(ns, ops, v, b, h)
      case Product(a, b) => Moved(ns, ops, v, a, h) * Moved(ns, ops, v, b, h)
      case Unary(a, f) => f(Moved(ns, ops, v, a, h))
  }

  /** Moving nothing changes nothing: the graph holds what it computes. */
  lemma {:induction false} MovedByNothing(ns: seq<Value>, ops: seq<Op>, v: nat, r: nat)
    requires Computes(ns, ops) && r < |ns|
    ensures Moved(ns, ops, v, r, 0.0) == ns[r].data
    decreases r
  {
    assert ComputedBy(ns, r, ops[r]);
    if r != v {
      match ops[r]
      case Leaf =>
      case Sum(a, b) => MovedByNothing(ns, ops, v, a); MovedByNothing(ns, ops, v, b);
      case Product(a, b) => MovedByNothing(ns, ops, v, a); MovedByNothing(ns, ops, v, b);
      case Unary(a, f) => MovedByNothing(ns, ops, v, a);
    }
  }

  /** Every unary node up to `r` recorded its function's slope. */
  ghost predicate SlopesKnown(ns: seq<Value>, ops: seq<Op>, r: nat)
    requires Computes(ns, ops) && r < |ns|
  {
    forall i :: 0 <= i <= r ==> SlopeKnownAt(ns, ops, i)
  }

  ghost predicate SlopeKnownAt(ns: seq<Value>, ops: seq<Op>, i: nat)
    requires Computes(ns, ops) && i < |ns|
  {
    assert ComputedBy(ns, i, ops[i]);
    match ops[i]
    case Unary(a, f) => SmoothAt(f, ns[a].data, ns[i].localGrads[0])
    case _ => true
  }

  /** `Moved` as a function of the step. */
  ghost function Motion(ns: seq<Value>, ops: seq<Op>, v: nat, r: nat): real -> real
    requires Computes(ns, ops) && r < |ns|
  {
    (h: real) => Moved(ns, ops, v, r, h)
  }

  /** The tangent is the derivative: how fast `r` moves with `v`. */
  lemma {:induction false} TangentIsSlope(ns: seq<Value>, ops: seq<Op>, v: nat, r: nat)
    requires WellFormed(ns) && Computes(ns, ops) && r < |ns| && SlopesKnown(ns, ops, r)
    ensures HasSlope(Motion(ns, ops, v, r), ns[r].data, Tangent(ns, r, v))
    decreases r
  {
    var p, y := Motion(ns, ops, v, r), ns[r].data;
    assert ComputedBy(ns, r, ops[r]);
    if r == v {
      SlopeOfStep(p, y);
    } else {
      match ops[r]
      case Leaf => SlopeOfConstant(p, y);
      case Sum(a, b) =>
        TangentIsSlope(ns, ops, v, a);
        TangentIsSlope(ns, ops, v, b);
        EdgesOfTwo(ns, r, v);
        SlopeOfSum(Motion(ns, ops, v, a), ns[a].data, Tangent(ns, a, v),
                   Motion(ns, ops, v, b), ns[b].data, Tangent(ns, b, v), p, y, Tangent(ns, r, v));
      case Product(a, b) =>
        TangentIsSlope(ns, ops, v, a);
        TangentIsSlope(ns, ops, v, b);
        ProductNodeSlope(ns, ops, v, r, a, b);
      case Unary(a, f) =>
        TangentIsSlope(ns, ops, v, a);
        assert SlopeKnownAt(ns, ops, r);
        EdgesOfOne(ns, r, v);
        SlopeOfChain(Motion(ns, ops, v, a), ns[a].data, Tangent(ns, a, v), f, ns[r].localGrads[0], p,
                     y, Tangent(ns, r, v));
    }
  }

  lemma EdgesOfOne(ns: seq<Value>, r: nat, v: nat)
    requires WellFormed(ns) && r < |ns| && r != v && |ns[r].children| == 1
    ensures Tangent(ns, r, v) == ns[r].localGrads[0] * Tangent(ns, ns[r].children[0], v)
  {
    assert EdgeSum(ns, r, v, 1) == 0.0;
  }

  lemma EdgesOfTwo(ns: seq<Value>, r: nat, v: nat)
    requires WellFormed(ns) && r < |ns| && r != v && |ns[r].children| == 2
    ensures Tangent(ns, r, v) == ns[r].localGrads[0] * Tangent(ns, ns[r].children[0], v)
                               + ns[r].localGrads[1] * Tangent(ns, ns[r].children[1], v)
  {
    assert EdgeSum(ns, r, v, 2) == 0.0;
    assert EdgeSum(ns, r, v, 1) == ns[r].localGrads[1] * Tangent(ns, ns[r].children[1], v) + 0.0;
  }

  lemma ProductTangent(ns: seq<Value>, r: nat, v: nat, a: nat, b: nat)
    requires WellFormed(ns) && r < |ns| && r != v && ComputedBy(ns, r, Product(a, b))
    ensures Tangent(ns, r, v) == ns[b].data * Tangent(ns, a, v) + ns[a].data * Tangent(ns, b, v)
  {
    EdgesOfTwo(ns, r, v);
    SameProduct(ns[r].localGrads[0], ns[b].data, Tangent(ns, ns[r].children[0], v), Tangent(ns, a, v));
    SameProduct(ns[r].localGrads[1], ns[a].data, Tangent(ns, ns[r].children[1], v), Tangent(ns, b, v));
  }

  lemma SameProduct(x: real, x': real, y: real, y': real)
    requires x == x' && y == y'
    ensures x * y == x' * y'
  {
  }

  lemma ProductNodeSlope(ns: seq<Value>, ops: seq<Op>, v: nat, r: nat, a: nat, b: nat)
    requires WellFormed(ns) && Computes(ns, ops) && r < |ns| && r != v && ops[r] == Product(a, b)
    requires a < r && b < r
    requires HasSlope(Motion(ns, ops, v, a), ns[a].data, Tangent(ns, a, v))
    requires HasSlope(Motion(ns, ops, v, b), ns[b].data, Tangent(ns, b, v))
    ensures HasSlope(Motion(ns, ops, v, r), ns[r].data, Tangent(ns, r, v))
  {
    var p, q, m := Motion(ns, ops, v, a), Motion(ns, ops, v, b), Motion(ns, ops, v, r);
    assert ComputedBy(ns, r, ops[r]);
    assert IsProduct(m, p, q) by {
      forall h: real ensures ProductAt(m, p, q, h) {}
    }
    var slope := Tangent(ns, r, v);
    assert slope == ns[b].data * Tangent(ns, a, v) + ns[a].data * Tangent(ns, b, v) by {
      ProductTangent(ns, r, v, a, b);
    }
    SlopeOfProduct(p, ns[a].data, Tangent(ns, a, v), q, ns[b].data, Tangent(ns, b, v), m, ns[r].data, slope);
  }

  /** From clean gradients, what `backward` leaves in every node is the slope of
    * what the root computes as that node moves, and no other number is.
    */
  lemma BackwardIsDerivative(ns: seq<Value>, ops: seq<Op>, root: nat, v: nat, s: real)
    requires WellFormed(ns) && Computes(ns, ops) && root < |ns| && v < |ns|
    requires forall i :: 0 <= i < |ns| && i != root ==> ns[i].grad == 0.0
    requires SlopesKnown(ns, ops, root)
    ensures BackwardGrads(ns, root)[v] == s <==> HasSlope(Motion(ns, ops, v, root), ns[root].data, s)
  {
    BackwardIsTangent(ns, root, v);
    TangentIsSlope(ns, ops, v, root);
    if HasSlope(Motion(ns, ops, v, root), ns[root].data, s) {
      SlopeIsUnique(Motion(ns, ops, v, root), ns[root].data, s, Tangent(ns, root, v));
    }
  }

  /** The slope recorded for `relu` is its derivative everywhere but at 0, where
    * it has none.
    */
  lemma ReluIsSmooth(x: real)
    ensures SmoothAt(Relu, x, if x > 0.0 then 1.0 else 0.0) <==> x != 0.0
  {
    if x != 0.0 { ReluAwayFromZero(x); } else { ReluAtZero(); }
  }

  lemma ReluAwayFromZero(x: real)
    requires x != 0.0
    ensures SmoothAt(Relu, x, if x > 0.0 then 1.0 else 0.0)
  {
    var s := if x > 0.0 then 1.0 else 0.0;
    var secant := (h: real) => if h == 0.0 then s else (Relu(x + h) - Relu(x)) / h;
    forall h: real ensures ChordAt(Shifted(Relu, x), Relu(x), secant, h) {}
    assert IsSecant(Shifted(Relu, x), Relu(x), secant);
    forall eps: real | eps > 0.0 ensures GetsClose(secant, s, eps) {
      forall h: real | Abs(h) <= Abs(x) / 2.0 ensures secant(h) == s {
        if h != 0.0 { assert h / h == 1.0; }
      }
      assert Close(secant, s, eps, Abs(x) / 2.0);
    }
    assert TendsTo(secant, s);
  }

  lemma ReluAtZero()
    ensures !SmoothAt(Relu, 0.0, 0.0)
  {
    if SmoothAt(Relu, 0.0, 0.0) {
      var secant :| IsSecant(Shifted(Relu, 0.0), 0.0, secant) && TendsTo(secant, 0.0);
      assert GetsClose(secant, 0.0, 0.5);
      var d :| Close(secant, 0.0, 0.5, d);
      assert ChordAt(Shifted(Relu, 0.0), 0.0, secant, d);
      assert Abs(d) <= d && Abs(secant(d) - 0.0) <= 0.5;
      assert 0.0 + d == d && Shifted(Relu, 0.0)(d) == Relu(d) == d;
      SteepChord(Shifted(Relu, 0.0), secant, d);
    }
  }

  lemma SteepChord(p: real -> real, secant: real -> real, d: real)
    requires d > 0.0 && p(d) == d && ChordAt(p, 0.0, secant, d)
    ensures secant(d) == 1.0
  {
    var k := secant(d);
    assert d == d * k;
    assert d * (k - 1.0) == 0.0;
  }
}
