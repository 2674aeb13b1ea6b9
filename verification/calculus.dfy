/** Slopes of real functions. */
module Calculus {

  function Abs(x: real): (r: real)
    ensures r >= 0.0 && (r == x || r == -x) && r >= x && r >= -x
  {
    if x >= 0.0 then x else -x
  }

  function Least(x: real, y: real): (r: real)
    ensures r <= x && r <= y && (r == x || r == y)
  {
    if x <= y then x else y
  }

  ghost predicate Close(f: real -> real, s: real, eps: real, d: real) {
    d > 0.0 && forall h: real :: Abs(h) <= d ==> Abs(f(h) - s) <= eps
  }

  ghost predicate GetsClose(f: real -> real, s: real, eps: real) {
    exists d :: Close(f, s, eps, d)
  }

  /** `f` closes in on `s` as its argument does on 0. */
  ghost predicate TendsTo(f: real -> real, s: real) {
    forall eps: real :: eps > 0.0 ==> GetsClose(f, s, eps)
  }

  /** `secant(h)` is the slope of the chord from `y` to `p(h)`. */
  ghost predicate IsSecant(p: real -> real, y: real, secant: real -> real) {
    forall h: real :: ChordAt(p, y, secant, h)
  }

  ghost predicate ChordAt(p: real -> real, y: real, secant: real -> real, h: real) {
    p(h) == y + h * secant(h)
  }

  ghost predicate IsProduct(r: real -> real, f: real -> real, g: real -> real) {
    forall h: real :: ProductAt(r, f, g, h)
  }

  ghost predicate ProductAt(r: real -> real, f: real -> real, g: real -> real, h: real) {
    r(h) == f(h) * g(h)
  }

  /** `p`, a function of the step taken from a point, leaves `y` at slope `s`. */
  ghost predicate HasSlope(p: real -> real, y: real, s: real) {
    exists secant :: IsSecant(p, y, secant) && TendsTo(secant, s)
  }

  ghost function Times(f: real -> real, g: real -> real): (r: real -> real)
    ensures IsProduct(r, f, g)
  {
    var r := (h: real) => f(h) * g(h);
    assert forall h: real :: ProductAt(r, f, g, h);
    r
  }

  ghost function Plus(f: real -> real, g: real -> real): (r: real -> real)
    ensures forall h: real :: r(h) == f(h) + g(h)
  {
    (h: real) => f(h) + g(h)
  }

  ghost function Constant(s: real): (r: real -> real)
    ensures forall h: real :: r(h) == s
  {
    (h: real) => s
  }

  ghost function Step(): (r: real -> real)
    ensures forall h: real :: r(h) == h
  {
    (h: real) => h
  }

  ghost function After(g: real -> real, f: real -> real): (r: real -> real)
    ensures forall h: real :: r(h) == g(f(h))
  {
    (h: real) => g(f(h))
  }

  function Shifted(f: real -> real, x: real): real -> real { (h: real) => f(x + h) }

  /** `f` has slope `s` at `x`. */
  ghost predicate SmoothAt(f: real -> real, x: real, s: real) {
    HasSlope(Shifted(f, x), f(x), s)
  }

  // ---------------------------------------------------------------------
  // Limits
  // ---------------------------------------------------------------------

  lemma LimitOfConstant(f: real -> real, s: real)
    requires forall h: real :: f(h) == s
    ensures TendsTo(f, s)
  {
    forall eps: real | eps > 0.0 ensures GetsClose(f, s, eps) {
      assert Close(f, s, eps, 1.0);
    }
  }

  lemma LimitOfStep(f: real -> real, s: real)
    requires s == 0.0 && forall h: real :: f(h) == h
    ensures TendsTo(f, s)
  {
    forall eps: real | eps > 0.0 ensures GetsClose(f, s, eps) {
      assert Close(f, s, eps, eps);
    }
  }

  lemma LimitOfSum(f: real -> real, s: real, g: real -> real, t: real, r: real -> real, u: real)
    requires TendsTo(f, s) && TendsTo(g, t) && u == s + t
    requires forall h: real :: r(h) == f(h) + g(h)
    ensures TendsTo(r, u)
  {
    forall eps: real | eps > 0.0 ensures GetsClose(r, u, eps) {
      var half := eps / 2.0;
      assert GetsClose(f, s, half) && GetsClose(g, t, half);
      var d :| Close(f, s, half, d);
      var d' :| Close(g, t, half, d');
      forall h: real | Abs(h) <= Least(d, d') ensures Abs(r(h) - u) <= eps {
        assert Abs(f(h) - s) <= half && Abs(g(h) - t) <= half;
      }
      assert Close(r, u, eps, Least(d, d'));
    }
  }

  lemma AbsProduct(x: real, y: real, mx: real, my: real)
    requires Abs(x) <= mx && Abs(y) <= my
    ensures Abs(x * y) <= mx * my
  {
    var a, b := Abs(x), Abs(y);
    assert a * b <= mx * b && mx * b <= mx * my;
    assert x * y == a * b || x * y == -(a * b);
  }

  /** A share of `eps` that stays below half of it even `m` times over. */
  lemma ShareOf(eps: real, m: real) returns (share: real)
    requires eps > 0.0 && m >= 0.0
    ensures 0.0 < share <= 1.0 && m * share <= eps / 2.0
  {
    share := Least(1.0, eps / (2.0 * (m + 1.0)));
    assert eps / (2.0 * (m + 1.0)) * (2.0 * (m + 1.0)) == eps;
    assert share * (2.0 * (m + 1.0)) <= eps;
  }

  lemma ProductDifference(x: real, s: real, y: real, t: real)
    ensures x * y - s * t == x * (y - t) + t * (x - s)
  {
  }

  lemma AbsSum(whole: real, left: real, right: real, half: real)
    requires whole == left + right && Abs(left) <= half && Abs(right) <= half
    ensures Abs(whole) <= 2.0 * half
  {
  }

  lemma ErrorOfFirst(x: real, s: real, e: real, t: real, half: real)
    requires Abs(x - s) <= e && Abs(t) * e <= half
    ensures Abs(t * (x - s)) <= half
  {
    AbsProduct(t, x - s, Abs(t), e);
  }

  lemma ErrorOfSecond(x: real, s: real, y: real, t: real, e: real, half: real)
    requires Abs(x - s) <= 1.0 && Abs(y - t) <= e && (Abs(s) + 1.0) * e <= half
    ensures Abs(x * (y - t)) <= half
  {
    assert Abs(x) <= Abs(s) + 1.0;
    AbsProduct(x, y - t, Abs(s) + 1.0, e);
  }

  lemma ProductError(x: real, s: real, e: real, y: real, t: real, e': real, half: real, xy: real, st: real)
    requires Abs(x - s) <= e <= 1.0 && Abs(y - t) <= e' && xy == x * y && st == s * t
    requires Abs(t) * e <= half && (Abs(s) + 1.0) * e' <= half
    ensures Abs(xy - st) <= 2.0 * half
  {
    var left, right := x * (y - t), t * (x - s);
    assert Abs(left) <= half by { ErrorOfSecond(x, s, y, t, e', half); }
    assert Abs(right) <= half by { ErrorOfFirst(x, s, e, t, half); }
    assert xy - st == left + right by { ProductDifference(x, s, y, t); }
    AbsSum(xy - st, left, right, half);
  }

  lemma ProductErrorAt(f: real -> real, s: real, e: real, g: real -> real, t: real, e': real,
                       r: real -> real, u: real, half: real, h: real)
    requires ProductAt(r, f, g, h) && u == s * t
    requires Abs(f(h) - s) <= e <= 1.0 && Abs(g(h) - t) <= e'
    requires Abs(t) * e <= half && (Abs(s) + 1.0) * e' <= half
    ensures Abs(r(h) - u) <= 2.0 * half
  {
    ProductError(f(h), s, e, g(h), t, e', half, r(h), u);
  }

  lemma ProductClose(f: real -> real, s: real, e: real, d: real, g: real -> real, t: real, e': real, d': real,
                     r: real -> real, u: real, half: real)
    requires Close(f, s, e, d) && Close(g, t, e', d') && u == s * t && e <= 1.0
    requires Abs(t) * e <= half && (Abs(s) + 1.0) * e' <= half
    requires IsProduct(r, f, g)
    ensures Close(r, u, 2.0 * half, Least(d, d'))
  {
    forall h: real | Abs(h) <= Least(d, d') ensures Abs(r(h) - u) <= 2.0 * half {
      assert ProductAt(r, f, g, h);
      ProductErrorAt(f, s, e, g, t, e', r, u, half, h);
    }
  }

  lemma LimitOfProduct(f: real -> real, s: real, g: real -> real, t: real, r: real -> real, u: real)
    requires TendsTo(f, s) && TendsTo(g, t) && u == s * t
    requires IsProduct(r, f, g)
    ensures TendsTo(r, u)
  {
    forall eps: real | eps > 0.0 ensures GetsClose(r, u, eps) {
      var e := ShareOf(eps, Abs(t));
      var e' := ShareOf(eps, Abs(s) + 1.0);
      assert GetsClose(f, s, e) && GetsClose(g, t, e');
      var d :| Close(f, s, e, d);
      var d' :| Close(g, t, e', d');
      ProductClose(f, s, e, d, g, t, e', d', r, u, eps / 2.0);
      assert Close(r, u, eps, Least(d, d'));
    }
  }

  lemma LimitOfComposition(f: real -> real, g: real -> real, t: real, r: real -> real)
    requires TendsTo(f, 0.0) && TendsTo(g, t)
    requires forall h: real :: r(h) == g(f(h))
    ensures TendsTo(r, t)
  {
    forall eps: real | eps > 0.0 ensures GetsClose(r, t, eps) {
      assert GetsClose(g, t, eps);
      var room :| Close(g, t, eps, room);
      assert GetsClose(f, 0.0, room);
      var d :| Close(f, 0.0, room, d);
      assert Close(r, t, eps, d);
    }
  }

  lemma Apart(x: real, s: real, y: real, t: real, third: real)
    requires Abs(x - s) <= third && Abs(y - t) <= third && third == Abs(s - t) / 3.0 && s != t
    ensures x != y
  {
  }

  lemma LimitIsUnique(f: real -> real, s: real, g: real -> real, t: real)
    requires TendsTo(f, s) && TendsTo(g, t)
    requires forall h: real :: h != 0.0 ==> f(h) == g(h)
    ensures s == t
  {
    if s != t {
      var third := Abs(s - t) / 3.0;
      assert GetsClose(f, s, third) && GetsClose(g, t, third);
      var d :| Close(f, s, third, d);
      var d' :| Close(g, t, third, d');
      var h := Least(d, d');
      Apart(f(h), s, g(h), t, third);
    }
  }

  // ---------------------------------------------------------------------
  // Slopes
  // ---------------------------------------------------------------------

  /** A function has one slope at a point: it is the derivative. */
  lemma SlopeIsUnique(p: real -> real, y: real, s: real, s': real)
    requires HasSlope(p, y, s) && HasSlope(p, y, s')
    ensures s == s'
  {
    var f :| IsSecant(p, y, f) && TendsTo(f, s);
    var g :| IsSecant(p, y, g) && TendsTo(g, s');
    forall h: real | h != 0.0 ensures f(h) == g(h) {
      assert ChordAt(p, y, f, h) && ChordAt(p, y, g, h);
      assert h * (f(h) - g(h)) == 0.0;
    }
    LimitIsUnique(f, s, g, s');
  }

  lemma SlopeOfConstant(p: real -> real, y: real)
    requires forall h: real :: p(h) == y
    ensures HasSlope(p, y, 0.0)
  {
    LimitOfConstant(Constant(0.0), 0.0);
    assert IsSecant(p, y, Constant(0.0));
  }

  lemma SlopeOfStep(p: real -> real, y: real)
    requires forall h: real :: p(h) == y + h
    ensures HasSlope(p, y, 1.0)
  {
    LimitOfConstant(Constant(1.0), 1.0);
    assert IsSecant(p, y, Constant(1.0));
  }

  lemma SumChord(p: real -> real, y: real, f: real -> real, q: real -> real, z: real, g: real -> real,
                 r: real -> real, secant: real -> real, h: real)
    requires ChordAt(p, y, f, h) && ChordAt(q, z, g, h)
    requires r(h) == p(h) + q(h) && secant(h) == f(h) + g(h)
    ensures ChordAt(r, y + z, secant, h)
  {
    SumStep(y, f(h), z, g(h), h, p(h), q(h), secant(h));
  }

  lemma SumStep(y: real, f: real, z: real, g: real, h: real, p: real, q: real, k: real)
    requires p == y + h * f && q == z + h * g && k == f + g
    ensures p + q == y + z + h * k
  {
    assert h * k == h * f + h * g;
  }

  lemma SlopeOfSum(p: real -> real, y: real, s: real, q: real -> real, z: real, t: real, r: real -> real,
                   at: real, slope: real)
    requires HasSlope(p, y, s) && HasSlope(q, z, t) && at == y + z && slope == s + t
    requires forall h: real :: r(h) == p(h) + q(h)
    ensures HasSlope(r, at, slope)
  {
    var f :| IsSecant(p, y, f) && TendsTo(f, s);
    var g :| IsSecant(q, z, g) && TendsTo(g, t);
    LimitOfSum(f, s, g, t, Plus(f, g), slope);
    forall h: real ensures ChordAt(r, at, Plus(f, g), h) {
      assert ChordAt(p, y, f, h) && ChordAt(q, z, g, h);
      SumChord(p, y, f, q, z, g, r, Plus(f, g), h);
    }
    assert IsSecant(r, at, Plus(f, g));
  }

  lemma StepTimesSecant(f: real -> real, s: real)
    requires TendsTo(f, s)
    ensures TendsTo(Times(Step(), f), 0.0)
  {
    LimitOfStep(Step(), 0.0);
    LimitOfProduct(Step(), 0.0, f, s, Times(Step(), f), 0.0);
  }

  /** What has a slope is continuous. */
  lemma SlopeIsContinuous(p: real -> real, y: real, s: real)
    requires HasSlope(p, y, s)
    ensures TendsTo(p, y)
  {
    var f :| IsSecant(p, y, f) && TendsTo(f, s);
    var move := Times(Step(), f);
    StepTimesSecant(f, s);
    LimitOfConstant(Constant(y), y);
    forall h: real ensures p(h) == Constant(y)(h) + move(h) {
      assert ChordAt(p, y, f, h) && ProductAt(move, Step(), f, h);
    }
    LimitOfSum(Constant(y), y, move, 0.0, p, y);
  }

  lemma ProductStep(y: real, f: real, z: real, g: real, h: real, p: real, q: real, left: real, right: real, k: real)
    requires p == y + h * f && q == z + h * g
    requires left == p * g && right == z * f && k == left + right
    ensures p * q == y * z + h * k
  {
    assert p * q == p * z + h * left by { assert p * (z + h * g) == p * z + h * (p * g); }
    assert p * z == y * z + h * right by { assert (y + h * f) * z == y * z + h * (z * f); }
    assert h * k == h * left + h * right;
  }

  lemma ProductChord(p: real -> real, y: real, f: real -> real, q: real -> real, z: real, g: real -> real,
                     r: real -> real, left: real -> real, right: real -> real, secant: real -> real, h: real)
    requires ChordAt(p, y, f, h) && ChordAt(q, z, g, h) && ProductAt(r, p, q, h)
    requires ProductAt(left, p, g, h) && ProductAt(right, Constant(z), f, h) && secant(h) == left(h) + right(h)
    ensures ChordAt(r, y * z, secant, h)
  {
    ProductStep(y, f(h), z, g(h), h, p(h), q(h), left(h), right(h), secant(h));
  }

  /** The secant of a product `p * q`, from the secants `f` of `p` and `g` of `q`. */
  ghost function ProductSecant(p: real -> real, f: real -> real, z: real, g: real -> real): real -> real {
    Plus(Times(p, g), Times(Constant(z), f))
  }

  lemma ProductSecantIsSecant(p: real -> real, y: real, f: real -> real, q: real -> real, z: real, g: real -> real,
                              r: real -> real, at: real)
    requires IsSecant(p, y, f) && IsSecant(q, z, g) && IsProduct(r, p, q) && at == y * z
    ensures IsSecant(r, at, ProductSecant(p, f, z, g))
  {
    var left, right, secant := Times(p, g), Times(Constant(z), f), ProductSecant(p, f, z, g);
    forall h: real ensures ChordAt(r, at, secant, h) {
      assert ChordAt(p, y, f, h) && ChordAt(q, z, g, h) && ProductAt(r, p, q, h);
      assert ProductAt(left, p, g, h) && ProductAt(right, Constant(z), f, h);
      ProductChord(p, y, f, q, z, g, r, left, right, secant, h);
    }
  }

  lemma ProductSecantLimit(p: real -> real, y: real, s: real, f: real -> real, z: real, t: real, g: real -> real,
                           slope: real)
    requires HasSlope(p, y, s) && TendsTo(f, s) && TendsTo(g, t) && slope == z * s + y * t
    ensures TendsTo(ProductSecant(p, f, z, g), slope)
  {
    SlopeIsContinuous(p, y, s);
    var u, v := y * t, z * s;
    LimitOfProduct(p, y, g, t, Times(p, g), u);
    LimitOfConstant(Constant(z), z);
    LimitOfProduct(Constant(z), z, f, s, Times(Constant(z), f), v);
    LimitOfSum(Times(p, g), u, Times(Constant(z), f), v, ProductSecant(p, f, z, g), slope);
  }

  lemma SlopeOfProduct(p: real -> real, y: real, s: real, q: real -> real, z: real, t: real, r: real -> real,
                       at: real, slope: real)
    requires HasSlope(p, y, s) && HasSlope(q, z, t)
    requires IsProduct(r, p, q) && at == y * z && slope == z * s + y * t
    ensures HasSlope(r, at, slope)
  {
    var f :| IsSecant(p, y, f) && TendsTo(f, s);
    var g :| IsSecant(q, z, g) && TendsTo(g, t);
    ProductSecantLimit(p, y, s, f, z, t, g, slope);
    ProductSecantIsSecant(p, y, f, q, z, g, r, at);
  }

  lemma ChainStep(y: real, h: real, g: real, move: real, out: real, k: real, r: real)
    requires move == h * g && k == out * g && r == y + move * out
    ensures r == y + h * k
  {
    assert h * g * out == h * (out * g);
  }

  /** The secant of `f` after `p`, from the secants of the two. */
  ghost function ChainSecant(inner: real -> real, outer: real -> real): real -> real {
    Times(After(outer, Times(Step(), inner)), inner)
  }

  lemma ChainChord(p: real -> real, y: real, inner: real -> real, f: real -> real, outer: real -> real,
                   r: real -> real, move: real -> real, out: real -> real, secant: real -> real, at: real, h: real)
    requires ChordAt(p, y, inner, h) && ProductAt(move, Step(), inner, h)
    requires ChordAt(Shifted(f, y), at, outer, move(h)) && ProductAt(secant, out, inner, h)
    requires out(h) == outer(move(h)) && r(h) == f(p(h))
    ensures ChordAt(r, at, secant, h)
  {
    var moved := move(h);
    assert p(h) == y + moved;
    assert Shifted(f, y)(moved) == f(y + moved) == r(h);
    ChainStep(at, h, inner(h), moved, outer(moved), secant(h), r(h));
  }

  lemma ChainSecantIsSecant(p: real -> real, y: real, inner: real -> real, f: real -> real, outer: real -> real,
                            r: real -> real, at: real)
    requires IsSecant(p, y, inner) && IsSecant(Shifted(f, y), at, outer)
    requires forall h: real :: r(h) == f(p(h))
    ensures IsSecant(r, at, ChainSecant(inner, outer))
  {
    var move, secant := Times(Step(), inner), ChainSecant(inner, outer);
    forall h: real ensures ChordAt(r, at, secant, h) {
      assert ChordAt(p, y, inner, h) && ProductAt(move, Step(), inner, h);
      assert ChordAt(Shifted(f, y), at, outer, move(h)) && ProductAt(secant, After(outer, move), inner, h);
      ChainChord(p, y, inner, f, outer, r, move, After(outer, move), secant, at, h);
    }
  }

  lemma ChainSecantLimit(inner: real -> real, s: real, outer: real -> real, t: real, slope: real)
    requires TendsTo(inner, s) && TendsTo(outer, t) && slope == t * s
    ensures TendsTo(ChainSecant(inner, outer), slope)
  {
    var move := Times(Step(), inner);
    StepTimesSecant(inner, s);
    LimitOfComposition(move, outer, t, After(outer, move));
    LimitOfProduct(After(outer, move), t, inner, s, ChainSecant(inner, outer), slope);
  }

  lemma SlopeOfChain(p: real -> real, y: real, s: real, f: real -> real, t: real, r: real -> real,
                     at: real, slope: real)
    requires HasSlope(p, y, s) && SmoothAt(f, y, t) && at == f(y) && slope == t * s
    requires forall h: real :: r(h) == f(p(h))
    ensures HasSlope(r, at, slope)
  {
    var inner :| IsSecant(p, y, inner) && TendsTo(inner, s);
    var outer :| IsSecant(Shifted(f, y), f(y), outer) && TendsTo(outer, t);
    ChainSecantLimit(inner, s, outer, t, slope);
    ChainSecantIsSecant(p, y, inner, f, outer, r, at);
  }
}
