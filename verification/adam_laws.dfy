/** What Adam's update means for a parameter: which way it goes, what its moments are
  * averages of, and that their correction undoes their start from 0.
  */
module AdamLaws {
  import opened Autograd
  import opened Training

  // ---------------------------------------------------------------------
  // Scalars
  // ---------------------------------------------------------------------

  lemma PositiveQuotient(a: real, b: real)
    requires b > 0.0
    ensures a / b > 0.0 <==> a > 0.0
    ensures a / b < 0.0 <==> a < 0.0
  {
    var q := a / b;
    assert q * b == a;
    SignOfProduct(q, b);
  }

  lemma SignOfProduct(a: real, b: real)
    requires b > 0.0
    ensures a * b > 0.0 <==> a > 0.0
    ensures a * b < 0.0 <==> a < 0.0
  {
  }

  lemma Undone(x: real, b: real, y: real)
    requires b > 0.0 && y == b * x
    ensures y / b == x
  {
    var q := y / b;
    assert q * b == y;
    assert (q - x) * b == 0.0;
  }

  lemma Regroup(a: real, b: real, c: real)
    ensures a * b * c == a * (b * c)
  {
  }

  // ---------------------------------------------------------------------
  // Which way
  // ---------------------------------------------------------------------

  /** A parameter falls where its new first moment is positive, rises where it is
    * negative, and stays where it is 0.
    */
  lemma MovesAgainstMoment(c: Cell, grad: real, lr: real, step: nat, sqrt: real -> real)
    requires c.v >= 0.0 && IsRoot(sqrt) && lr > 0.0
    ensures var next := NextCell(c, grad, lr, step, sqrt);
      && (next.data < c.data <==> next.m > 0.0)
      && (next.data > c.data <==> next.m < 0.0)
  {
    var next := NextCell(c, grad, lr, step, sqrt);
    var hat := next.m / Bias(BETA1, step);
    var root := sqrt(next.v / Bias(BETA2, step)) + EPS_ADAM;
    PositiveQuotient(next.v, Bias(BETA2, step));
    assert next.v / Bias(BETA2, step) >= 0.0;
    assert root > 0.0;
    PositiveQuotient(next.m, Bias(BETA1, step));
    SignOfProduct(hat, lr);
    assert lr * hat == hat * lr;
    PositiveQuotient(lr * hat, root);
    assert next.data == c.data - lr * hat / root;
  }

  // ---------------------------------------------------------------------
  // What the moments are
  // ---------------------------------------------------------------------

  /** A parameter after a gradient for each of so many steps. */
  ghost function CellAfter(c: Cell, grads: seq<real>, rates: nat -> real, sqrt: real -> real): (r: Cell)
    requires c.v >= 0.0 && IsRoot(sqrt)
    ensures r.v >= 0.0
  {
    if grads == [] then c
    else
      var n := |grads| - 1;
      NextCell(CellAfter(c, grads[..n], rates, sqrt), grads[n], rates(n), n, sqrt)
  }

  function Square(x: real): real {
    x * x
  }

  function Squares(xs: seq<real>): (r: seq<real>)
    ensures |r| == |xs| && forall i :: 0 <= i < |xs| ==> r[i] == Square(xs[i])
  {
    seq(|xs|, i requires 0 <= i < |xs| => Square(xs[i]))
  }

  function SumTo(term: nat -> real, k: nat): real {
    if k == 0 then 0.0 else SumTo(term, k - 1) + term(k - 1)
  }

  ghost predicate AddsAt(scale: real -> real, a: real, b: real) {
    scale(a + b) == scale(a) + scale(b)
  }

  ghost predicate ScaledAt(s: nat -> real, t: nat -> real, scale: real -> real, i: nat) {
    t(i) == scale(s(i))
  }

  lemma {:induction false} SumScaled(s: nat -> real, t: nat -> real, scale: real -> real, k: nat)
    requires scale(0.0) == 0.0 && forall a, b :: AddsAt(scale, a, b)
    requires forall i :: 0 <= i < k ==> ScaledAt(s, t, scale, i)
    ensures SumTo(t, k) == scale(SumTo(s, k))
    decreases k
  {
    if k > 0 {
      SumScaled(s, t, scale, k - 1);
      assert AddsAt(scale, SumTo(s, k - 1), s(k - 1)) && ScaledAt(s, t, scale, k - 1);
    }
  }

  /** Each entry weighted by its age: the later the heavier. */
  function Weighted(beta: real, xs: seq<real>): nat -> real {
    (i: nat) => if i < |xs| then (1.0 - beta) * Pow(beta, |xs| - 1 - i) * xs[i] else 0.0
  }

  function Average(beta: real, xs: seq<real>): real {
    SumTo(Weighted(beta, xs), |xs|)
  }

  lemma OneOlder(beta: real, xs: seq<real>, x: real, i: nat)
    requires i < |xs|
    ensures Weighted(beta, xs + [x])(i) == beta * Weighted(beta, xs)(i)
  {
    var p, y := Pow(beta, |xs| - 1 - i), xs[i];
    assert (xs + [x])[i] == y;
    assert Pow(beta, |xs| - i) == beta * p;
    Older(beta, p, beta * p, y);
  }

  lemma Older(beta: real, p: real, q: real, y: real)
    requires q == beta * p
    ensures (1.0 - beta) * q * y == beta * ((1.0 - beta) * p * y)
  {
    var w := (1.0 - beta) * p;
    assert (1.0 - beta) * q == beta * w;
    assert (beta * w) * y == beta * (w * y);
  }

  lemma Newest(beta: real, xs: seq<real>, x: real)
    ensures Weighted(beta, xs + [x])(|xs|) == (1.0 - beta) * x
  {
    assert (xs + [x])[|xs|] == x && Pow(beta, 0) == 1.0;
  }

  lemma Distributes(beta: real)
    ensures forall a, b :: AddsAt(ScaledBy(beta), a, b)
  {
    forall a, b ensures AddsAt(ScaledBy(beta), a, b) {
      assert beta * (a + b) == beta * a + beta * b;
    }
  }

  function ScaledBy(beta: real): real -> real {
    (a: real) => beta * a
  }

  /** One entry more makes the others older. */
  lemma AverageNext(beta: real, xs: seq<real>, x: real)
    ensures Average(beta, xs + [x]) == beta * Average(beta, xs) + (1.0 - beta) * x
  {
    var n := |xs|;
    OthersOlder(beta, xs, x);
    Newest(beta, xs, x);
    assert SumTo(Weighted(beta, xs + [x]), n + 1) == SumTo(Weighted(beta, xs + [x]), n) + Weighted(beta, xs + [x])(n);
  }

  lemma AllScaled(beta: real, xs: seq<real>, x: real)
    ensures forall i :: 0 <= i < |xs| ==> ScaledAt(Weighted(beta, xs), Weighted(beta, xs + [x]), ScaledBy(beta), i)
  {
    forall i | 0 <= i < |xs| ensures ScaledAt(Weighted(beta, xs), Weighted(beta, xs + [x]), ScaledBy(beta), i) {
      OneOlder(beta, xs, x, i);
    }
  }

  lemma OthersOlder(beta: real, xs: seq<real>, x: real)
    ensures SumTo(Weighted(beta, xs + [x]), |xs|) == ScaledBy(beta)(Average(beta, xs))
  {
    Distributes(beta);
    AllScaled(beta, xs, x);
    SumScaled(Weighted(beta, xs), Weighted(beta, xs + [x]), ScaledBy(beta), |xs|);
  }

  lemma NextMoments(c: Cell, g: real, lr: real, step: nat, sqrt: real -> real)
    requires c.v >= 0.0 && IsRoot(sqrt)
    ensures var next := NextCell(c, g, lr, step, sqrt);
      && next.m == BETA1 * c.m + (1.0 - BETA1) * g
      && next.v == BETA2 * c.v + (1.0 - BETA2) * Square(g)
  {
    Regroup(1.0 - BETA2, g, g);
  }

  /** From moments of 0, the first is the average of the gradients so far and the second
    * that of their squares, each weighted `(1 - beta) * beta ** age`.
    */
  lemma {:induction false} MomentsAreAverages(c: Cell, grads: seq<real>, rates: nat -> real, sqrt: real -> real)
    requires c.m == 0.0 && c.v == 0.0 && IsRoot(sqrt)
    ensures var r := CellAfter(c, grads, rates, sqrt);
      r.m == Average(BETA1, grads) && r.v == Average(BETA2, Squares(grads))
    decreases |grads|
  {
    if grads != [] {
      var n := |grads| - 1;
      var before, g := grads[..n], grads[n];
      MomentsAreAverages(c, before, rates, sqrt);
      assert grads == before + [g];
      assert Squares(grads) == Squares(before) + [Square(g)];
      AverageNext(BETA1, before, g);
      AverageNext(BETA2, Squares(before), Square(g));
      NextMoments(CellAfter(c, before, rates, sqrt), g, rates(n), n, sqrt);
    }
  }

  // ---------------------------------------------------------------------
  // A gradient that stays the same
  // ---------------------------------------------------------------------

  lemma ConstantStep(beta: real, p: real, q: real, x: real, a: real, w: real)
    requires q == beta * p && a == (1.0 - p) * x && w == 1.0 - q
    ensures beta * a + (1.0 - beta) * x == w * x
  {
    assert beta * a == beta * x - beta * p * x;
  }

  lemma {:induction false} ConstantAverage(beta: real, xs: seq<real>, x: real, w: real)
    requires w == 1.0 - Pow(beta, |xs|) && forall i :: 0 <= i < |xs| ==> xs[i] == x
    ensures Average(beta, xs) == w * x
    decreases |xs|
  {
    if xs != [] {
      var n := |xs| - 1;
      var before, p := xs[..n], Pow(beta, n);
      assert xs == before + [x];
      ConstantAverage(beta, before, x, 1.0 - p);
      AverageNext(beta, before, x);
      ConstantStep(beta, p, Pow(beta, |xs|), x, Average(beta, before), w);
    }
  }

  lemma SquaresAverage(beta: real, xs: seq<real>, x: real, y: real, w: real)
    requires w == 1.0 - Pow(beta, |xs|) && y == Square(x) && forall i :: 0 <= i < |xs| ==> xs[i] == x
    ensures Average(beta, Squares(xs)) == w * y
  {
    forall i | 0 <= i < |xs| ensures Squares(xs)[i] == y {}
    ConstantAverage(beta, Squares(xs), y, w);
  }

  lemma Corrected(beta: real, n: nat, moment: real, x: real)
    requires 0.0 < beta < 1.0 && moment == Bias(beta, n) * x
    ensures moment / Bias(beta, n) == x
  {
    Undone(x, Bias(beta, n), moment);
  }

  /** Of a gradient that stays the same, the corrected moments are the gradient itself
    * and its square, after every number of steps.
    */
  lemma CorrectedMoments(c: Cell, grads: seq<real>, g: real, rates: nat -> real, sqrt: real -> real)
    requires c.m == 0.0 && c.v == 0.0 && IsRoot(sqrt)
    requires grads != [] && forall i :: 0 <= i < |grads| ==> grads[i] == g
    ensures CellAfter(c, grads, rates, sqrt).m / Bias(BETA1, |grads| - 1) == g
    ensures CellAfter(c, grads, rates, sqrt).v / Bias(BETA2, |grads| - 1) == g * g
  {
    MomentsAreAverages(c, grads, rates, sqrt);
    CorrectedFirst(CellAfter(c, grads, rates, sqrt).m, grads, g);
    CorrectedSecond(CellAfter(c, grads, rates, sqrt).v, grads, g, Square(g));
  }

  lemma CorrectedFirst(m: real, grads: seq<real>, g: real)
    requires m == Average(BETA1, grads) && grads != [] && forall i :: 0 <= i < |grads| ==> grads[i] == g
    ensures m / Bias(BETA1, |grads| - 1) == g
  {
    ConstantAverage(BETA1, grads, g, Bias(BETA1, |grads| - 1));
    Corrected(BETA1, |grads| - 1, m, g);
  }

  lemma CorrectedSecond(v: real, grads: seq<real>, g: real, y: real)
    requires v == Average(BETA2, Squares(grads)) && grads != [] && forall i :: 0 <= i < |grads| ==> grads[i] == g
    requires y == Square(g)
    ensures v / Bias(BETA2, |grads| - 1) == y
  {
    SquaresAverage(BETA2, grads, g, y, Bias(BETA2, |grads| - 1));
    Corrected(BETA2, |grads| - 1, v, y);
  }

  /** The first step goes by the gradient over its size. */
  lemma FirstStep(c: Cell, g: real, lr: real, sqrt: real -> real)
    requires c.m == 0.0 && c.v == 0.0 && IsRoot(sqrt)
    ensures NextCell(c, g, lr, 0, sqrt).data == c.data - lr * g / (sqrt(g * g) + EPS_ADAM)
  {
    CorrectedMoments(c, [g], g, _ => lr, sqrt);
    assert [g][..0] == [];
    assert CellAfter(c, [g], _ => lr, sqrt) == NextCell(c, g, lr, 0, sqrt);
  }

  // ---------------------------------------------------------------------
  // In training
  // ---------------------------------------------------------------------

  /** The slopes of the losses of the first `k` steps by parameter `i`. */
  ghost function Slopes(cells: seq<Cell>, program: nat -> Forward, k: nat, steps: nat, sqrt: real -> real, i: nat): (r: seq<real>)
    requires Learnable(cells) && k <= steps && IsRoot(sqrt) && i < |cells|
    requires forall s :: 0 <= s < steps ==> Runs(program(s), |cells|)
    ensures |r| == k
    decreases k
  {
    if k == 0 then []
    else
      var before := LearnedAfter(cells, program, k - 1, steps, sqrt);
      Slopes(cells, program, k - 1, steps, sqrt, i)
        + [Tangent(StepGraph(before, program(k - 1)), program(k - 1).loss, i)]
  }

  ghost function Rates(steps: nat): nat -> real {
    (s: nat) => if s < steps then LearningRate(s, steps) else 0.0
  }

  lemma {:induction false} LearnsBySlopes(cells: seq<Cell>, program: nat -> Forward, k: nat, steps: nat, sqrt: real -> real, i: nat)
    requires Learnable(cells) && k <= steps && IsRoot(sqrt) && i < |cells|
    requires forall s :: 0 <= s < steps ==> Runs(program(s), |cells|)
    ensures LearnedAfter(cells, program, k, steps, sqrt)[i]
         == CellAfter(cells[i], Slopes(cells, program, k, steps, sqrt, i), Rates(steps), sqrt)
    decreases k
  {
    if k > 0 {
      LearnsBySlopes(cells, program, k - 1, steps, sqrt, i);
      var all := Slopes(cells, program, k, steps, sqrt, i);
      assert all[..k - 1] == Slopes(cells, program, k - 1, steps, sqrt, i);
    }
  }

  /** Training from a new model: after every number of steps a parameter's moments are
    * the averages of the slopes of the losses so far, and of their squares.
    */
  lemma TrainingAverages(cells: seq<Cell>, program: nat -> Forward, k: nat, steps: nat, sqrt: real -> real, i: nat)
    requires Learnable(cells) && k <= steps && IsRoot(sqrt) && i < |cells| && cells[i].m == 0.0 && cells[i].v == 0.0
    requires forall s :: 0 <= s < steps ==> Runs(program(s), |cells|)
    ensures var slopes := Slopes(cells, program, k, steps, sqrt, i);
      var r := LearnedAfter(cells, program, k, steps, sqrt)[i];
      r.m == Average(BETA1, slopes) && r.v == Average(BETA2, Squares(slopes))
  {
    LearnsBySlopes(cells, program, k, steps, sqrt, i);
    MomentsAreAverages(cells[i], Slopes(cells, program, k, steps, sqrt, i), Rates(steps), sqrt);
  }

  /** The learning rate starts at the constant and falls by the same amount every step,
    * never to 0.
    */
  lemma RateFalls(step: nat, steps: nat)
    requires step < steps
    ensures LearningRate(0, steps) == LEARNING_RATE
    ensures LearningRate(step, steps) > 0.0
    ensures step + 1 < steps ==> LearningRate(step, steps) - LearningRate(step + 1, steps) == LEARNING_RATE / steps as real
  {
    var n := steps as real;
    var a, b := step as real / n, (step as real + 1.0) / n;
    assert a * n == step as real;
    assert (1.0 - a) * n == n - step as real;
    SignOfProduct(1.0 - a, n);
    assert b - a == 1.0 / n by { SameQuotient(step as real, n); }
    assert 0.0 / n == 0.0;
  }

  lemma SameQuotient(x: real, n: real)
    requires n > 0.0
    ensures (x + 1.0) / n - x / n == 1.0 / n
  {
  }
}
