/** The training loop of `benchmark/microgpt`: parameters as the graph's first
  * nodes, a forward pass that appends, `backward`, Adam, and `rewind`.
  */
module Training {
  import opened Autograd

  // ---------------------------------------------------------------------
  // Parameters
  // ---------------------------------------------------------------------

  const N_LAYER: nat := 1
  const N_EMBD: nat := 16
  const BLOCK_SIZE: nat := 16

  type Matrix = seq<seq<nat>>

  datatype Layer = Layer(attnWq: Matrix, attnWk: Matrix, attnWv: Matrix, attnWo: Matrix, mlpFc1: Matrix, mlpFc2: Matrix)

  datatype StateDict = StateDict(wte: Matrix, wpe: Matrix, lmHead: Matrix, layers: seq<Layer>)

  function Range(lo: nat, hi: nat): (r: seq<nat>)
    requires lo <= hi
    ensures |r| == hi - lo && forall i :: 0 <= i < |r| ==> r[i] == lo + i
  {
    seq(hi - lo, i requires 0 <= i => lo + i)
  }

  lemma RangeJoins(lo: nat, mid: nat, hi: nat)
    requires lo <= mid <= hi
    ensures Range(lo, mid) + Range(mid, hi) == Range(lo, hi)
  {
  }

  function Flatten(m: Matrix): seq<nat> {
    if m == [] then [] else Flatten(m[..|m| - 1]) + m[|m| - 1]
  }

  function LayerParams(l: Layer): seq<nat> {
    Flatten(l.attnWq) + Flatten(l.attnWk) + Flatten(l.attnWv) + Flatten(l.attnWo)
      + Flatten(l.mlpFc1) + Flatten(l.mlpFc2)
  }

  function LayersParams(ls: seq<Layer>): seq<nat> {
    if ls == [] then [] else LayersParams(ls[..|ls| - 1]) + LayerParams(ls[|ls| - 1])
  }

  function Params(s: StateDict): seq<nat> {
    Flatten(s.wte) + Flatten(s.wpe) + Flatten(s.lmHead) + LayersParams(s.layers)
  }

  const LAYER_PARAMS: nat := 4 * (N_EMBD * N_EMBD) + 8 * (N_EMBD * N_EMBD)

  function ParamCount(vocabSize: nat): nat {
    vocabSize * N_EMBD + BLOCK_SIZE * N_EMBD + vocabSize * N_EMBD + N_LAYER * LAYER_PARAMS
  }

  /** A graph that holds parameters and nothing else. */
  ghost predicate OnlyLeaves(ns: seq<Value>) {
    forall i :: 0 <= i < |ns| ==> ns[i].children == [] && ns[i].localGrads == [] && ns[i].grad == 0.0
  }

  predicate Shape(m: Matrix, rows: nat, columns: nat) {
    |m| == rows && forall i :: 0 <= i < rows ==> |m[i]| == columns
  }

  /** Keys, queries and values are square, as is what joins them; the two others widen and
    * narrow again.
    */
  predicate LayerShape(l: Layer) {
    && Shape(l.attnWq, N_EMBD, N_EMBD) && Shape(l.attnWk, N_EMBD, N_EMBD)
    && Shape(l.attnWv, N_EMBD, N_EMBD) && Shape(l.attnWo, N_EMBD, N_EMBD)
    && Shape(l.mlpFc1, 4 * N_EMBD, N_EMBD) && Shape(l.mlpFc2, N_EMBD, 4 * N_EMBD)
  }

  /** A row per token of the vocabulary, and per position. */
  predicate StateShape(s: StateDict, vocabSize: nat) {
    && Shape(s.wte, vocabSize, N_EMBD) && Shape(s.wpe, BLOCK_SIZE, N_EMBD) && Shape(s.lmHead, vocabSize, N_EMBD)
    && |s.layers| == N_LAYER && forall i :: 0 <= i < N_LAYER ==> LayerShape(s.layers[i])
  }

  /** The nodes added hold the numbers drawn, each where it was drawn. */
  ghost predicate Drawn(before: seq<Value>, after: seq<Value>, gauss: nat -> real) {
    before <= after && forall k :: |before| <= k < |after| ==> after[k].data == gauss(k)
  }

  /** `gauss` gives the numbers drawn, in order. */
  method NewRow(g: Graph, gauss: nat -> real, nin: nat) returns (row: seq<nat>)
    requires g.Valid() && OnlyLeaves(g.nodes)
    modifies g
    ensures g.Valid() && OnlyLeaves(g.nodes)
    ensures |g.nodes| == |old(g.nodes)| + nin && row == Range(|old(g.nodes)|, |g.nodes|)
    ensures Drawn(old(g.nodes), g.nodes, gauss)
  {
    row := [];
    for j := 0 to nin
      invariant g.Valid() && OnlyLeaves(g.nodes) && Drawn(old(g.nodes), g.nodes, gauss)
      invariant |g.nodes| == |old(g.nodes)| + j && row == Range(|old(g.nodes)|, |g.nodes|)
    {
      var leaf := g.Leaf(gauss(|g.nodes|));
      row := row + [leaf];
    }
  }

  method NewMatrix(g: Graph, gauss: nat -> real, nout: nat, nin: nat) returns (rows: Matrix)
    requires g.Valid() && OnlyLeaves(g.nodes)
    modifies g
    ensures g.Valid() && OnlyLeaves(g.nodes)
    ensures |g.nodes| == |old(g.nodes)| + nout * nin
    ensures Flatten(rows) == Range(|old(g.nodes)|, |g.nodes|)
    ensures Shape(rows, nout, nin) && Drawn(old(g.nodes), g.nodes, gauss)
  {
    rows := [];
    ghost var n0, size := |g.nodes|, 0;
    for i := 0 to nout
      invariant g.Valid() && OnlyLeaves(g.nodes) && Drawn(old(g.nodes), g.nodes, gauss)
      invariant |rows| == i && forall k :: 0 <= k < i ==> |rows[k]| == nin
      invariant size == i * nin && |g.nodes| == n0 + size
      invariant Flatten(rows) == Range(n0, |g.nodes|)
    {
      ghost var before := |g.nodes|;
      var row := NewRow(g, gauss, nin);
      assert (rows + [row])[..|rows|] == rows;
      rows := rows + [row];
      RangeJoins(n0, before, |g.nodes|);
      assert (i + 1) * nin == i * nin + nin;
      size := size + nin;
    }
  }

  method NewStateDict(g: Graph, gauss: nat -> real, vocabSize: nat) returns (s: StateDict)
    requires g.Valid() && g.nodes == []
    modifies g
    ensures g.Valid() && OnlyLeaves(g.nodes) && |g.nodes| == ParamCount(vocabSize)
    ensures Params(s) == Range(0, |g.nodes|) && Drawn([], g.nodes, gauss) && StateShape(s, vocabSize)
  {
    var wte := NewMatrix(g, gauss, vocabSize, N_EMBD);
    ghost var n1 := |g.nodes|;
    var wpe := NewMatrix(g, gauss, BLOCK_SIZE, N_EMBD);
    ghost var n2 := |g.nodes|;
    var lmHead := NewMatrix(g, gauss, vocabSize, N_EMBD);
    ghost var n3 := |g.nodes|;
    var layers: seq<Layer> := [];
    for i := 0 to N_LAYER
      invariant g.Valid() && OnlyLeaves(g.nodes) && n3 <= |g.nodes|
      invariant LayersParams(layers) == Range(n3, |g.nodes|) && |g.nodes| == n3 + i * LAYER_PARAMS
      invariant Drawn([], g.nodes, gauss) && |layers| == i && forall k :: 0 <= k < i ==> LayerShape(layers[k])
    {
      ghost var before := |g.nodes|;
      var layer := NewLayer(g, gauss);
      assert (layers + [layer])[..|layers|] == layers;
      layers := layers + [layer];
      RangeJoins(n3, before, |g.nodes|);
    }
    s := StateDict(wte, wpe, lmHead, layers);
    RangeJoins(0, n1, n2);
    RangeJoins(0, n2, n3);
    RangeJoins(0, n3, |g.nodes|);
  }

  method NewLayer(g: Graph, gauss: nat -> real) returns (l: Layer)
    requires g.Valid() && OnlyLeaves(g.nodes)
    modifies g
    ensures g.Valid() && OnlyLeaves(g.nodes) && |g.nodes| == |old(g.nodes)| + LAYER_PARAMS
    ensures LayerParams(l) == Range(|old(g.nodes)|, |g.nodes|) && Drawn(old(g.nodes), g.nodes, gauss) && LayerShape(l)
  {
    ghost var n0 := |g.nodes|;
    var wq := NewMatrix(g, gauss, N_EMBD, N_EMBD);
    ghost var n1 := |g.nodes|;
    var wk := NewMatrix(g, gauss, N_EMBD, N_EMBD);
    ghost var n2 := |g.nodes|;
    var wv := NewMatrix(g, gauss, N_EMBD, N_EMBD);
    ghost var n3 := |g.nodes|;
    var wo := NewMatrix(g, gauss, N_EMBD, N_EMBD);
    ghost var n4 := |g.nodes|;
    var fc1 := NewMatrix(g, gauss, 4 * N_EMBD, N_EMBD);
    ghost var n5 := |g.nodes|;
    var fc2 := NewMatrix(g, gauss, N_EMBD, 4 * N_EMBD);
    l := Layer(wq, wk, wv, wo, fc1, fc2);
    RangeJoins(n0, n1, n2);
    RangeJoins(n0, n2, n3);
    RangeJoins(n0, n3, n4);
    RangeJoins(n0, n4, n5);
    RangeJoins(n0, n5, |g.nodes|);
  }

  // ---------------------------------------------------------------------
  // A forward pass
  // ---------------------------------------------------------------------

  /** One operator call of a forward pass. A constant may be computed from the
    * values so far, as the softmax takes their maximum.
    */
  datatype Instr =
    | Constant(c: seq<Value> -> real)
    | Add(a: nat, b: nat)
    | Mul(a: nat, b: nat)
    | Apply(a: nat, f: real -> real, slope: real -> real)

  datatype Forward = Forward(instrs: seq<Instr>, loss: nat)

  predicate Addresses(ins: Instr, len: nat) {
    match ins
    case Constant(_) => true
    case Add(a, b) => a < len && b < len
    case Mul(a, b) => a < len && b < len
    case Apply(a, _, _) => a < len
  }

  /** Each call names nodes that exist by then, and so does the loss. */
  ghost predicate Runs(fw: Forward, n: nat) {
    && (forall k :: 0 <= k < |fw.instrs| ==> Addresses(fw.instrs[k], n + k))
    && fw.loss < n + |fw.instrs|
  }

  function NodeOf(ns: seq<Value>, ins: Instr): Value
    requires Addresses(ins, |ns|)
  {
    match ins
    case Constant(c) => Value(c(ns), 0.0, [], [])
    case Add(a, b) => SumNode(ns, a, b)
    case Mul(a, b) => ProductNode(ns, a, b)
    case Apply(a, f, slope) => Value(f(ns[a].data), 0.0, [a], [slope(ns[a].data)])
  }

  /** `ns` after the first `k` calls. */
  function Grown(ns: seq<Value>, instrs: seq<Instr>, k: nat): (r: seq<Value>)
    requires k <= |instrs| && forall i :: 0 <= i < |instrs| ==> Addresses(instrs[i], |ns| + i)
    ensures |r| == |ns| + k && ns <= r
    ensures ZeroGrads(ns) ==> ZeroGrads(r)
    decreases k
  {
    if k == 0 then ns
    else
      var r := Grown(ns, instrs, k - 1);
      r + [NodeOf(r, instrs[k - 1])]
  }

  method RunInstr(g: Graph, ins: Instr)
    requires g.Valid() && Addresses(ins, |g.nodes|)
    modifies g
    ensures g.Valid() && g.nodes == old(g.nodes) + [NodeOf(old(g.nodes), ins)] && old(g.ops) <= g.ops
  {
    var i: nat;
    match ins {
      case Constant(c) => i := g.Leaf(c(g.nodes));
      case Add(a, b) => i := g.Add(a, b);
      case Mul(a, b) => i := g.Mul(a, b);
      case Apply(a, f, slope) => i := g.Apply(a, f(g.nodes[a].data), slope(g.nodes[a].data), f);
    }
  }

  method RunForward(g: Graph, fw: Forward)
    requires g.Valid() && Runs(fw, |g.nodes|)
    modifies g
    ensures g.Valid() && g.nodes == Grown(old(g.nodes), fw.instrs, |fw.instrs|)
    ensures old(g.ops) <= g.ops
  {
    for k := 0 to |fw.instrs|
      invariant g.Valid() && g.nodes == Grown(old(g.nodes), fw.instrs, k) && old(g.ops) <= g.ops
    {
      RunInstr(g, fw.instrs[k]);
    }
  }

  // ---------------------------------------------------------------------
  // Adam
  // ---------------------------------------------------------------------

  const LEARNING_RATE: real := 0.01
  const BETA1: real := 0.85
  const BETA2: real := 0.99
  const EPS_ADAM: real := 0.00000001

  function Pow(b: real, n: nat): real {
    if n == 0 then 1.0 else b * Pow(b, n - 1)
  }

  lemma Shrinks(b: real, x: real, y: real)
    requires 0.0 < b && 0.0 < x <= 1.0 && y == b * x
    ensures 0.0 < y <= b
  {
    assert b * (1.0 - x) >= 0.0;
    assert b * (1.0 - x) == b - b * x;
  }

  lemma {:induction false} PowBelowOne(b: real, n: nat)
    requires 0.0 < b < 1.0
    ensures 0.0 < Pow(b, n) <= 1.0 && (n > 0 ==> Pow(b, n) <= b)
    decreases n
  {
    if n > 0 {
      PowBelowOne(b, n - 1);
      Shrinks(b, Pow(b, n - 1), Pow(b, n));
    }
  }

  /** `1 - beta ** (step + 1)`, which is never 0. */
  function Bias(beta: real, step: nat): (r: real)
    requires 0.0 < beta < 1.0
    ensures 0.0 < r < 1.0
  {
    PowBelowOne(beta, step + 1);
    1.0 - Pow(beta, step + 1)
  }

  function NextM(m: real, grad: real): real { BETA1 * m + (1.0 - BETA1) * grad }

  function NextV(v: real, grad: real): (r: real)
    ensures v >= 0.0 ==> r >= 0.0
  {
    assert grad * grad >= 0.0;
    assert (1.0 - BETA2) * grad * grad == (1.0 - BETA2) * (grad * grad);
    BETA2 * v + (1.0 - BETA2) * grad * grad
  }

  /** All that training needs of the square root: it is no negative number. */
  ghost predicate IsRoot(sqrt: real -> real) {
    forall x: real :: x >= 0.0 ==> sqrt(x) >= 0.0
  }

  function NextData(data: real, m: real, v: real, lr: real, step: nat, sqrt: real -> real): real
    requires v >= 0.0 && IsRoot(sqrt)
  {
    var vHat := v / Bias(BETA2, step);
    assert vHat >= 0.0;
    data - lr * (m / Bias(BETA1, step)) / (sqrt(vHat) + EPS_ADAM)
  }

  /** One parameter and its two moments. */
  datatype Cell = Cell(data: real, m: real, v: real)

  function NextCell(c: Cell, grad: real, lr: real, step: nat, sqrt: real -> real): (r: Cell)
    requires c.v >= 0.0 && IsRoot(sqrt)
    ensures r.v >= 0.0
  {
    var m, v := NextM(c.m, grad), NextV(c.v, grad);
    Cell(NextData(c.data, m, v, lr, step, sqrt), m, v)
  }

  class Adam {
    var m: array<real>
    var v: array<real>

    /** The second moments never go negative, so their roots exist. */
    ghost predicate Valid()
      reads this, m, v
    {
      m != v && m.Length == v.Length && forall i :: 0 <= i < v.Length ==> v[i] >= 0.0
    }

    constructor (n: nat)
      ensures Valid() && fresh(m) && fresh(v) && m.Length == n
      ensures forall i :: 0 <= i < n ==> m[i] == 0.0 && v[i] == 0.0
    {
      m := new real[n](_ => 0.0);
      v := new real[n](_ => 0.0);
    }

    ghost function CellOf(ns: seq<Value>, p: nat, i: nat): (c: Cell)
      requires Valid() && p < |ns| && i < m.Length
      reads this, m, v
    {
      Cell(ns[p].data, m[i], v[i])
    }

    /** Updates each parameter from its gradient, then clears that. */
    method Step(g: Graph, params: seq<nat>, lr: real, step: nat, sqrt: real -> real)
      requires Valid() && |params| <= m.Length && IsRoot(sqrt)
      requires Distinct(params) && forall i :: 0 <= i < |params| ==> params[i] < |g.nodes|
      modifies g`nodes, m, v
      ensures Valid() && |g.nodes| == |old(g.nodes)|
      ensures forall p :: 0 <= p < |g.nodes| && p !in params ==> g.nodes[p] == old(g.nodes)[p]
      ensures forall i :: 0 <= i < |params| ==>
        var cell := NextCell(old(CellOf(g.nodes, params[i], i)), old(g.nodes)[params[i]].grad, lr, step, sqrt);
        && CellOf(g.nodes, params[i], i) == cell
        && g.nodes[params[i]] == old(g.nodes)[params[i]].(data := cell.data, grad := 0.0)
    {
      ghost var ns := g.nodes;
      for i := 0 to |params|
        invariant Valid() && |g.nodes| == |ns|
        invariant forall p :: 0 <= p < |ns| && p !in params[..i] ==> g.nodes[p] == ns[p]
        invariant forall k :: i <= k < m.Length ==> m[k] == old(m[k]) && v[k] == old(v[k])
        invariant forall k :: 0 <= k < i ==> Stepped(ns, params[k], k, old(m[k]), old(v[k]), g, lr, step, sqrt)
      {
        var p := g.nodes[params[i]];
        assert params[i] !in params[..i];
        var next := NextCell(Cell(p.data, m[i], v[i]), p.grad, lr, step, sqrt);
        m[i] := next.m;
        v[i] := next.v;
        g.nodes := g.nodes[params[i] := p.(data := next.data, grad := 0.0)];
        assert params[..i + 1] == params[..i] + [params[i]];
      }
    }

    /** Parameter `p`, whose moments are entry `k`, has taken its step. */
    ghost predicate Stepped(ns: seq<Value>, p: nat, k: nat, m0: real, v0: real, g: Graph, lr: real, step: nat, sqrt: real -> real)
      requires Valid() && IsRoot(sqrt) && k < m.Length && p < |ns| && v0 >= 0.0
      reads this, m, v, g
    {
      var cell := NextCell(Cell(ns[p].data, m0, v0), ns[p].grad, lr, step, sqrt);
      p < |g.nodes| && CellOf(g.nodes, p, k) == cell && g.nodes[p] == ns[p].(data := cell.data, grad := 0.0)
    }
  }

  // ---------------------------------------------------------------------
  // Training
  // ---------------------------------------------------------------------

  /** The model between two steps: a parameter's value and moments per node. */
  ghost predicate Learnable(cells: seq<Cell>) {
    forall i :: 0 <= i < |cells| ==> cells[i].v >= 0.0
  }

  /** The graph that holds those parameters and nothing else. */
  function Leaves(cells: seq<Cell>): (ns: seq<Value>)
    ensures |ns| == |cells| && OnlyLeaves(ns) && WellFormed(ns) && ZeroGrads(ns)
  {
    seq(|cells|, i requires 0 <= i < |cells| => Value(cells[i].data, 0.0, [], []))
  }

  /** The graph a forward pass grows from the parameters. */
  function StepGraph(cells: seq<Cell>, fw: Forward): (ns: seq<Value>)
    requires Runs(fw, |cells|)
    ensures |ns| == |cells| + |fw.instrs| && WellFormed(ns) && ZeroGrads(ns) && Leaves(cells) <= ns
  {
    GrownWellFormed(Leaves(cells), fw.instrs, |fw.instrs|);
    Grown(Leaves(cells), fw.instrs, |fw.instrs|)
  }

  lemma {:induction false} GrownWellFormed(ns: seq<Value>, instrs: seq<Instr>, k: nat)
    requires WellFormed(ns) && k <= |instrs| && forall i :: 0 <= i < |instrs| ==> Addresses(instrs[i], |ns| + i)
    ensures WellFormed(Grown(ns, instrs, k))
    decreases k
  {
    if k > 0 { GrownWellFormed(ns, instrs, k - 1); }
  }

  function LossOf(cells: seq<Cell>, fw: Forward): real
    requires Runs(fw, |cells|)
  {
    StepGraph(cells, fw)[fw.loss].data
  }

  function LearningRate(step: nat, steps: nat): real
    requires step < steps
  {
    LEARNING_RATE * (1.0 - step as real / steps as real)
  }

  /** One step as the textbook has it: every parameter moves by Adam along the
    * forward-mode tangent of the loss.
    */
  ghost function Learned(cells: seq<Cell>, fw: Forward, lr: real, step: nat, sqrt: real -> real): (r: seq<Cell>)
    requires Learnable(cells) && Runs(fw, |cells|) && IsRoot(sqrt)
    ensures |r| == |cells| && Learnable(r)
  {
    seq(|cells|, i requires 0 <= i < |cells| =>
      NextCell(cells[i], Tangent(StepGraph(cells, fw), fw.loss, i), lr, step, sqrt))
  }

  ghost function LearnedAfter(cells: seq<Cell>, program: nat -> Forward, k: nat, steps: nat, sqrt: real -> real): (r: seq<Cell>)
    requires Learnable(cells) && k <= steps && IsRoot(sqrt)
    requires forall i :: 0 <= i < steps ==> Runs(program(i), |cells|)
    ensures |r| == |cells| && Learnable(r)
    decreases k
  {
    if k == 0 then cells
    else
      var before := LearnedAfter(cells, program, k - 1, steps, sqrt);
      Learned(before, program(k - 1), LearningRate(k - 1, steps), k - 1, sqrt)
  }

  /** The loss of the last of `k` steps, before that step learnt from it. */
  ghost function LastLoss(cells: seq<Cell>, program: nat -> Forward, k: nat, steps: nat, sqrt: real -> real): real
    requires Learnable(cells) && k <= steps && IsRoot(sqrt)
    requires forall i :: 0 <= i < steps ==> Runs(program(i), |cells|)
  {
    if k == 0 then 0.0 else LossOf(LearnedAfter(cells, program, k - 1, steps, sqrt), program(k - 1))
  }

  /** What the graph and the optimizer hold between two steps. */
  ghost predicate Holds(g: Graph, adam: Adam, cells: seq<Cell>)
    reads g, adam, adam.m, adam.v
  {
    && g.Valid() && adam.Valid() && Learnable(cells)
    && g.nodes == Leaves(cells) && adam.m.Length == |cells|
    && forall i :: 0 <= i < |cells| ==> adam.CellOf(g.nodes, i, i) == cells[i]
  }

  /** One step of the loop: forward, backward, Adam, rewind. */
  method TrainStep(g: Graph, adam: Adam, params: seq<nat>, fw: Forward, lr: real, step: nat, sqrt: real -> real,
                   ghost cells: seq<Cell>) returns (lossValue: real)
    requires Holds(g, adam, cells) && params == Range(0, |cells|) && Runs(fw, |cells|) && IsRoot(sqrt)
    modifies g, adam.m, adam.v
    ensures Holds(g, adam, Learned(cells, fw, lr, step, sqrt))
    ensures lossValue == LossOf(cells, fw)
  {
    ghost var ops := g.ops;
    RunForward(g, fw);
    ghost var ns := StepGraph(cells, fw);
    assert g.nodes == ns;
    g.Backward(fw.loss);
    lossValue := g.nodes[fw.loss].data;
    adam.Step(g, params, lr, step, sqrt);
    ghost var next := Learned(cells, fw, lr, step, sqrt);
    forall i | 0 <= i < |cells| ensures g.nodes[i] == Leaves(next)[i] && adam.CellOf(g.nodes, i, i) == next[i] {
      assert params[i] == i;
      BackwardIsTangent(ns, fw.loss, i);
      assert ns[i] == Leaves(cells)[i];
    }
    assert g.nodes[..|cells|] == Leaves(next);
    LeavesCompute(Leaves(next), ops);
    g.Rewind(|params|);
  }

  lemma LeavesCompute(ns: seq<Value>, ops: seq<Op>)
    requires OnlyLeaves(ns) && |ops| == |ns| && forall i :: 0 <= i < |ops| ==> ops[i] == Op.Leaf
    ensures Computes(ns, ops) && WellFormed(ns)
  {
    forall i | 0 <= i < |ns| ensures ComputedBy(ns, i, ops[i]) && NodeBelow(ns[i], i) {}
  }

  method NewModel(gauss: nat -> real, vocabSize: nat)
    returns (g: Graph, adam: Adam, params: seq<nat>, ghost start: seq<Cell>)
    ensures fresh(g) && fresh(adam) && fresh(adam.m) && fresh(adam.v)
    ensures |start| == ParamCount(vocabSize) && params == Range(0, |start|) && Holds(g, adam, start)
    ensures forall i :: 0 <= i < |start| ==> start[i] == Cell(gauss(i), 0.0, 0.0)
  {
    g := new Graph();
    var state := NewStateDict(g, gauss, vocabSize);
    params := Params(state);
    adam := new Adam(|params|);
    ghost var ns := g.nodes;
    start := seq(|ns|, i requires 0 <= i < |ns| => Cell(ns[i].data, 0.0, 0.0));
    assert g.nodes == Leaves(start);
  }

  /** The whole run: at the head of every step the graph holds exactly the
    * parameters, in order, with clean gradients, and what it learns is the
    * textbook's.
    */
  method Train(gauss: nat -> real, vocabSize: nat, program: nat -> Forward, steps: nat, sqrt: real -> real)
    returns (lossValue: real, g: Graph, ghost start: seq<Cell>)
    requires IsRoot(sqrt)
    requires forall i :: 0 <= i < steps ==> Runs(program(i), ParamCount(vocabSize))
    ensures |start| == ParamCount(vocabSize)
    ensures forall i :: 0 <= i < |start| ==> start[i] == Cell(gauss(i), 0.0, 0.0)
    ensures g.Valid() && g.nodes == Leaves(LearnedAfter(start, program, steps, steps, sqrt))
    ensures lossValue == LastLoss(start, program, steps, steps, sqrt)
  {
    var params: seq<nat>;
    var adam: Adam;
    g, adam, params, start := NewModel(gauss, vocabSize);
    lossValue := 0.0;
    for step := 0 to steps
      invariant fresh(g) && fresh(adam) && fresh(adam.m) && fresh(adam.v)
      invariant Holds(g, adam, LearnedAfter(start, program, step, steps, sqrt))
      invariant lossValue == LastLoss(start, program, step, steps, sqrt)
    {
      ghost var cells := LearnedAfter(start, program, step, steps, sqrt);
      LearnedNext(start, program, step, steps, sqrt);
      lossValue := TrainStep(g, adam, params, program(step), LearningRate(step, steps), step, sqrt, cells);
    }
  }

  lemma LearnedNext(cells: seq<Cell>, program: nat -> Forward, k: nat, steps: nat, sqrt: real -> real)
    requires Learnable(cells) && k < steps && IsRoot(sqrt)
    requires forall i :: 0 <= i < steps ==> Runs(program(i), |cells|)
    ensures var before := LearnedAfter(cells, program, k, steps, sqrt);
      && LearnedAfter(cells, program, k + 1, steps, sqrt) == Learned(before, program(k), LearningRate(k, steps), k, sqrt)
      && LastLoss(cells, program, k + 1, steps, sqrt) == LossOf(before, program(k))
  {}
}
