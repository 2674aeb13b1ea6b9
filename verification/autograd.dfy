/** Scalar autograd on a flat graph of nodes: the operators that append a node,
  * the depth-first ordering and the reverse sweep of `benchmark/microgpt`.
  * Floats are reals.
  */
module Autograd {

  /** A node. Its index in the graph is its handle and its identity. */
  datatype Value = Value(data: real, grad: real, children: seq<nat>, localGrads: seq<real>)

  /** What computed a node. The program keeps only the value and the slopes; the
    * operator is the specification's record of the function behind them.
    */
  datatype Op = Leaf | Sum(a: nat, b: nat) | Product(a: nat, b: nat) | Unary(a: nat, f: real -> real)

  // ---------------------------------------------------------------------
  // Graphs
  // ---------------------------------------------------------------------

  ghost predicate WellFormed(ns: seq<Value>) {
    forall i :: 0 <= i < |ns| ==> NodeBelow(ns[i], i)
  }

  ghost predicate NodeBelow(n: Value, i: nat) {
    && |n.children| == |n.localGrads|
    && forall j :: 0 <= j < |n.children| ==> n.children[j] < i
  }

  function Grads(ns: seq<Value>): (gs: seq<real>)
    ensures |gs| == |ns|
  {
    seq(|ns|, i requires 0 <= i < |ns| => ns[i].grad)
  }

  /** `ns` with its gradients replaced by `gs`, and nothing else changed. */
  function WithGrads(ns: seq<Value>, gs: seq<real>): (r: seq<Value>)
    requires |gs| == |ns|
    ensures |r| == |ns| && Grads(r) == gs
  {
    seq(|ns|, i requires 0 <= i < |ns| => ns[i].(grad := gs[i]))
  }

  ghost predicate ZeroGrads(ns: seq<Value>) {
    forall i :: 0 <= i < |ns| ==> ns[i].grad == 0.0
  }

  /** `v` is `r` or lies below it along child edges. */
  ghost predicate Reaches(ns: seq<Value>, r: nat, v: nat)
    requires WellFormed(ns) && r < |ns|
    decreases r
  {
    r == v || exists j :: 0 <= j < |ns[r].children| && Reaches(ns, ns[r].children[j], v)
  }

  /** Node `i` holds what `op` makes of its children, with the slopes recorded
    * for them. A unary operator's slope is whatever the float library gave.
    */
  ghost predicate ComputedBy(ns: seq<Value>, i: nat, op: Op)
    requires i < |ns|
  {
    var n := ns[i];
    match op
    case Leaf => n.children == [] && n.localGrads == []
    case Sum(a, b) =>
      && a < i && b < i && n.children == [a, b] && n.localGrads == [1.0, 1.0]
      && n.data == ns[a].data + ns[b].data
    case Product(a, b) =>
      && a < i && b < i && n.children == [a, b] && n.localGrads == [ns[b].data, ns[a].data]
      && n.data == ns[a].data * ns[b].data
    case Unary(a, f) =>
      && a < i && n.children == [a] && |n.localGrads| == 1
      && n.data == f(ns[a].data)
  }

  ghost predicate Computes(ns: seq<Value>, ops: seq<Op>) {
    |ns| == |ops| && forall i :: 0 <= i < |ns| ==> ComputedBy(ns, i, ops[i])
  }

  // ---------------------------------------------------------------------
  // The tangent of one node with respect to another
  // ---------------------------------------------------------------------

  /** Forward mode: the rate at which node `r` moves with node `v`. */
  ghost function Tangent(ns: seq<Value>, r: nat, v: nat): real
    requires WellFormed(ns) && r < |ns|
    decreases r, |ns[r].children| + 1
  {
    if r == v then 1.0 else EdgeSum(ns, r, v, 0)
  }

  ghost function EdgeSum(ns: seq<Value>, r: nat, v: nat, j: nat): real
    requires WellFormed(ns) && r < |ns| && j <= |ns[r].children|
    decreases r, |ns[r].children| - j
  {
    if j == |ns[r].children| then 0.0
    else ns[r].localGrads[j] * Tangent(ns, ns[r].children[j], v) + EdgeSum(ns, r, v, j + 1)
  }

  /** A path is the sequence of edge numbers taken, so a child listed twice is
    * two paths.
    */
  ghost predicate IsPath(ns: seq<Value>, r: nat, p: seq<nat>, v: nat)
    requires WellFormed(ns) && r < |ns|
    decreases p
  {
    if p == [] then r == v
    else p[0] < |ns[r].children| && IsPath(ns, ns[r].children[p[0]], p[1..], v)
  }

  ghost function PathProduct(ns: seq<Value>, r: nat, p: seq<nat>, v: nat): real
    requires WellFormed(ns) && r < |ns| && IsPath(ns, r, p, v)
    decreases p
  {
    if p == [] then 1.0
    else ns[r].localGrads[p[0]] * PathProduct(ns, ns[r].children[p[0]], p[1..], v)
  }

  /** Every path from `r` to `v`, once each. */
  ghost function Paths(ns: seq<Value>, r: nat, v: nat): seq<seq<nat>>
    requires WellFormed(ns) && r < |ns|
    decreases r, |ns[r].children| + 1
  {
    if r == v then [[]] else PathsFrom(ns, r, v, 0)
  }

  ghost function PathsFrom(ns: seq<Value>, r: nat, v: nat, j: nat): seq<seq<nat>>
    requires WellFormed(ns) && r < |ns| && j <= |ns[r].children|
    decreases r, |ns[r].children| - j
  {
    if j == |ns[r].children| then []
    else Prepend(j, Paths(ns, ns[r].children[j], v)) + PathsFrom(ns, r, v, j + 1)
  }

  ghost function Prepend(j: nat, ps: seq<seq<nat>>): (r: seq<seq<nat>>)
    ensures |r| == |ps| && forall k :: 0 <= k < |ps| ==> r[k] == [j] + ps[k]
  {
    seq(|ps|, k requires 0 <= k < |ps| => [j] + ps[k])
  }

  ghost predicate AllPaths(ns: seq<Value>, r: nat, ps: seq<seq<nat>>, v: nat)
    requires WellFormed(ns) && r < |ns|
  {
    forall k :: 0 <= k < |ps| ==> IsPath(ns, r, ps[k], v)
  }

  ghost predicate Distinct<T(!new)>(s: seq<T>) {
    forall i, k :: 0 <= i < k < |s| ==> s[i] != s[k]
  }

  ghost function PathTotal(ns: seq<Value>, r: nat, ps: seq<seq<nat>>, v: nat): real
    requires WellFormed(ns) && r < |ns| && AllPaths(ns, r, ps, v)
  {
    if ps == [] then 0.0 else PathProduct(ns, r, ps[0], v) + PathTotal(ns, r, ps[1..], v)
  }

  /** `Paths` lists exactly the paths from `r` to `v`, each once. */
  lemma {:induction false} PathsComplete(ns: seq<Value>, r: nat, v: nat)
    requires WellFormed(ns) && r < |ns|
    ensures Distinct(Paths(ns, r, v))
    ensures forall p :: p in Paths(ns, r, v) <==> IsPath(ns, r, p, v)
    decreases r, |ns[r].children| + 1
  {
    forall p ensures p in Paths(ns, r, v) <==> IsPath(ns, r, p, v) {
      if r == v {
        if p != [] && p[0] < |ns[r].children| { PathDescends(ns, ns[r].children[p[0]], p[1..], v); }
      } else {
        PathsFromComplete(ns, r, v, 0);
      }
    }
    if r != v { PathsFromComplete(ns, r, v, 0); }
  }

  lemma {:induction false} PathDescends(ns: seq<Value>, r: nat, p: seq<nat>, v: nat)
    requires WellFormed(ns) && r < |ns|
    ensures IsPath(ns, r, p, v) ==> v <= r
    decreases p
  {
    if p != [] && p[0] < |ns[r].children| { PathDescends(ns, ns[r].children[p[0]], p[1..], v); }
  }

  lemma {:induction false} PathsFromComplete(ns: seq<Value>, r: nat, v: nat, j: nat)
    requires WellFormed(ns) && r < |ns| && j <= |ns[r].children|
    ensures Distinct(PathsFrom(ns, r, v, j))
    ensures forall p :: p in PathsFrom(ns, r, v, j) <==> p != [] && p[0] >= j && IsPath(ns, r, p, v)
    decreases r, |ns[r].children| - j
  {
    if j < |ns[r].children| {
      var c := ns[r].children[j];
      var first, rest := Paths(ns, c, v), PathsFrom(ns, r, v, j + 1);
      PathsComplete(ns, c, v);
      PathsFromComplete(ns, r, v, j + 1);
      forall p ensures p in Prepend(j, first) <==> p != [] && p[0] == j && IsPath(ns, c, p[1..], v) {
        if p != [] && p[0] == j && p[1..] in first {
          var k :| 0 <= k < |first| && first[k] == p[1..];
          assert Prepend(j, first)[k] == p;
        }
        if p in Prepend(j, first) {
          var k :| 0 <= k < |first| && Prepend(j, first)[k] == p;
          assert p[1..] == first[k];
        }
      }
      forall i, k | 0 <= i < k < |first| ensures Prepend(j, first)[i] != Prepend(j, first)[k] {
        assert Prepend(j, first)[i][1..] == first[i] && Prepend(j, first)[k][1..] == first[k];
      }
      forall i, k | 0 <= i < |first| && 0 <= k < |rest| ensures Prepend(j, first)[i] != rest[k] {
        assert rest[k] in rest;
      }
    }
  }

  /** The tangent is the sum over all paths of the product of the slopes. */
  lemma {:induction false} TangentIsPathSum(ns: seq<Value>, r: nat, v: nat)
    requires WellFormed(ns) && r < |ns|
    ensures AllPaths(ns, r, Paths(ns, r, v), v)
    ensures Tangent(ns, r, v) == PathTotal(ns, r, Paths(ns, r, v), v)
    decreases r, |ns[r].children| + 1
  {
    if r == v {
      assert Paths(ns, r, v)[1..] == [];
    } else {
      EdgeSumIsPathSum(ns, r, v, 0);
    }
  }

  lemma {:induction false} EdgeSumIsPathSum(ns: seq<Value>, r: nat, v: nat, j: nat)
    requires WellFormed(ns) && r < |ns| && j <= |ns[r].children|
    ensures AllPaths(ns, r, PathsFrom(ns, r, v, j), v)
    ensures EdgeSum(ns, r, v, j) == PathTotal(ns, r, PathsFrom(ns, r, v, j), v)
    decreases r, |ns[r].children| - j
  {
    if j < |ns[r].children| {
      var c := ns[r].children[j];
      var first, rest := Paths(ns, c, v), PathsFrom(ns, r, v, j + 1);
      assert AllPaths(ns, c, first, v) && PathTotal(ns, c, first, v) == Tangent(ns, c, v) by {
        TangentIsPathSum(ns, c, v);
      }
      assert AllPaths(ns, r, rest, v) && PathTotal(ns, r, rest, v) == EdgeSum(ns, r, v, j + 1) by {
        EdgeSumIsPathSum(ns, r, v, j + 1);
      }
      PrependTotal(ns, r, v, j, first);
      PathTotalAppend(ns, r, v, Prepend(j, first), rest);
      assert PathsFrom(ns, r, v, j) == Prepend(j, first) + rest;
    }
  }

  lemma {:induction false} PrependTotal(ns: seq<Value>, r: nat, v: nat, j: nat, ps: seq<seq<nat>>)
    requires WellFormed(ns) && r < |ns| && j < |ns[r].children|
    requires AllPaths(ns, ns[r].children[j], ps, v)
    ensures AllPaths(ns, r, Prepend(j, ps), v)
    ensures PathTotal(ns, r, Prepend(j, ps), v)
         == ns[r].localGrads[j] * PathTotal(ns, ns[r].children[j], ps, v)
    decreases ps
  {
    var qs := Prepend(j, ps);
    forall k | 0 <= k < |qs| ensures IsPath(ns, r, qs[k], v) {
      assert qs[k][1..] == ps[k];
    }
    if ps != [] {
      PrependTotal(ns, r, v, j, ps[1..]);
      assert qs[1..] == Prepend(j, ps[1..]);
      assert qs[0][1..] == ps[0];
    }
  }

  lemma {:induction false} PathTotalAppend(ns: seq<Value>, r: nat, v: nat, ps: seq<seq<nat>>, qs: seq<seq<nat>>)
    requires WellFormed(ns) && r < |ns| && AllPaths(ns, r, ps, v) && AllPaths(ns, r, qs, v)
    ensures AllPaths(ns, r, ps + qs, v)
    ensures PathTotal(ns, r, ps + qs, v) == PathTotal(ns, r, ps, v) + PathTotal(ns, r, qs, v)
    decreases ps
  {
    if ps == [] {
      assert ps + qs == qs;
    } else {
      PathTotalAppend(ns, r, v, ps[1..], qs);
      assert (ps + qs)[1..] == ps[1..] + qs;
    }
  }

  // ---------------------------------------------------------------------
  // The order of the sweep
  // ---------------------------------------------------------------------

  /** What `build_topo` appends to `done`, the nodes already listed. */
  function Topo(ns: seq<Value>, v: nat, done: seq<nat>): seq<nat>
    requires WellFormed(ns) && v < |ns|
    decreases v, |ns[v].children| + 1
  {
    if v in done then done else TopoChildren(ns, v, 0, done) + [v]
  }

  function TopoChildren(ns: seq<Value>, v: nat, j: nat, done: seq<nat>): seq<nat>
    requires WellFormed(ns) && v < |ns| && j <= |ns[v].children|
    decreases v, |ns[v].children| - j
  {
    if j == |ns[v].children| then done
    else TopoChildren(ns, v, j + 1, Topo(ns, ns[v].children[j], done))
  }

  /** Each node once, and each after all its children. */
  ghost predicate ChildrenFirst(ns: seq<Value>, t: seq<nat>) {
    && Distinct(t)
    && forall k :: 0 <= k < |t| ==> t[k] < |ns| && Follows(ns[t[k]].children, t[..k])
  }

  ghost predicate Follows(children: seq<nat>, before: seq<nat>) {
    forall j :: 0 <= j < |children| ==> children[j] in before
  }

  lemma ChildrenFirstAppend(ns: seq<Value>, t: seq<nat>, v: nat)
    requires ChildrenFirst(ns, t) && v !in t && v < |ns| && Follows(ns[v].children, t)
    ensures ChildrenFirst(ns, t + [v])
  {
    assert (t + [v])[..|t|] == t;
    forall k | 0 <= k < |t| ensures (t + [v])[..k] == t[..k] {}
  }

  lemma {:induction false} TopoOrders(ns: seq<Value>, v: nat, done: seq<nat>)
    requires WellFormed(ns) && v < |ns| && ChildrenFirst(ns, done)
    ensures ChildrenFirst(ns, Topo(ns, v, done))
    ensures done <= Topo(ns, v, done) && v in Topo(ns, v, done)
    ensures forall x :: x in Topo(ns, v, done) ==> x in done || (x <= v && Reaches(ns, v, x))
    decreases v, |ns[v].children| + 1
  {
    if v !in done {
      var t := TopoChildren(ns, v, 0, done);
      TopoChildrenOrders(ns, v, 0, done);
      ChildrenFirstAppend(ns, t, v);
      forall x | x in t + [v] ensures x in done || (x <= v && Reaches(ns, v, x)) {
        if x !in t { assert Reaches(ns, v, v); }
      }
    }
  }

  lemma {:induction false} TopoChildrenOrders(ns: seq<Value>, v: nat, j: nat, done: seq<nat>)
    requires WellFormed(ns) && v < |ns| && j <= |ns[v].children| && ChildrenFirst(ns, done)
    ensures ChildrenFirst(ns, TopoChildren(ns, v, j, done))
    ensures done <= TopoChildren(ns, v, j, done)
    ensures forall i :: j <= i < |ns[v].children| ==> ns[v].children[i] in TopoChildren(ns, v, j, done)
    ensures forall x :: x in TopoChildren(ns, v, j, done) ==> x in done || (x < v && Reaches(ns, v, x))
    decreases v, |ns[v].children| - j
  {
    if j < |ns[v].children| {
      var c := ns[v].children[j];
      TopoOrders(ns, c, done);
      var next := Topo(ns, c, done);
      TopoChildrenOrders(ns, v, j + 1, next);
      assert TopoChildren(ns, v, j, done) == TopoChildren(ns, v, j + 1, next);
      assert NodeBelow(ns[v], v);
      forall x | x in next ensures x in done || (x < v && Reaches(ns, v, x)) {}
    }
  }

  /** A list that keeps children first holds whatever its members reach. */
  lemma {:induction false} ChildrenFirstClosed(ns: seq<Value>, t: seq<nat>, r: nat, v: nat)
    requires WellFormed(ns) && ChildrenFirst(ns, t) && r in t && Reaches(ns, r, v)
    ensures v in t
    decreases r
  {
    if r != v {
      var j :| 0 <= j < |ns[r].children| && Reaches(ns, ns[r].children[j], v);
      var k :| 0 <= k < |t| && t[k] == r;
      assert ns[r].children[j] in t[..k];
      ChildrenFirstClosed(ns, t, ns[r].children[j], v);
    }
  }

  /** `build_topo` from an empty list orders exactly the nodes the root reaches. */
  lemma TopoIsReachableSet(ns: seq<Value>, root: nat)
    requires WellFormed(ns) && root < |ns|
    ensures ChildrenFirst(ns, Topo(ns, root, []))
    ensures forall v :: v in Topo(ns, root, []) <==> Reaches(ns, root, v)
    ensures Topo(ns, root, []) != [] && Topo(ns, root, [])[|Topo(ns, root, [])| - 1] == root
  {
    TopoOrders(ns, root, []);
    forall v | Reaches(ns, root, v) ensures v in Topo(ns, root, []) {
      ChildrenFirstClosed(ns, Topo(ns, root, []), root, v);
    }
  }

  // ---------------------------------------------------------------------
  // The reverse sweep, on gradients alone
  // ---------------------------------------------------------------------

  /** Add to each child of `u`, from edge `j` on, its slope times `u`'s gradient. */
  function PushEdges(ns: seq<Value>, u: nat, gs: seq<real>, j: nat): (r: seq<real>)
    requires WellFormed(ns) && u < |ns| == |gs| && j <= |ns[u].children|
    ensures |r| == |gs|
    decreases |ns[u].children| - j
  {
    if j == |ns[u].children| then gs
    else
      var c := ns[u].children[j];
      PushEdges(ns, u, gs[c := gs[c] + ns[u].localGrads[j] * gs[u]], j + 1)
  }

  /** Push every node of `t`, last first. */
  function Sweep(ns: seq<Value>, gs: seq<real>, t: seq<nat>): (r: seq<real>)
    requires WellFormed(ns) && |gs| == |ns| && forall k :: 0 <= k < |t| ==> t[k] < |ns|
    ensures |r| == |gs|
    decreases |t|
  {
    if t == [] then gs
    else Sweep(ns, PushEdges(ns, t[|t| - 1], gs, 0), t[..|t| - 1])
  }

  /** The rate at which each node moves with `w`. */
  ghost function Rates(ns: seq<Value>, w: nat): (r: seq<real>)
    requires WellFormed(ns)
    ensures |r| == |ns| && forall i :: 0 <= i < |ns| ==> r[i] == Tangent(ns, i, w)
  {
    seq(|ns|, i requires 0 <= i < |ns| => Tangent(ns, i, w))
  }

  /** What the gradients of `t`'s nodes say together: each times its node's rate.
    * The sweep conserves this.
    */
  ghost function Weighted(gs: seq<real>, rates: seq<real>, t: seq<nat>): real
    requires |gs| == |rates| && forall k :: 0 <= k < |t| ==> t[k] < |gs|
    decreases |t|
  {
    if t == [] then 0.0
    else
      var u := t[|t| - 1];
      Weighted(gs, rates, t[..|t| - 1]) + gs[u] * rates[u]
  }

  lemma Distribute(whole: real, a: real, b: real, rate: real)
    requires whole == a + b
    ensures whole * rate == a * rate + b * rate
  {
  }

  lemma WeightedLast(gs: seq<real>, rates: seq<real>, t: seq<nat>, c: nat, delta: real)
    requires |gs| == |rates| && forall k :: 0 <= k < |t| ==> t[k] < |gs|
    requires t != [] && c < |gs|
    ensures var t', gs' := t[..|t| - 1], gs[c := gs[c] + delta];
      Weighted(gs', rates, t) - Weighted(gs', rates, t')
        == Weighted(gs, rates, t) - Weighted(gs, rates, t') + if t[|t| - 1] == c then delta * rates[c] else 0.0
  {
    var u, gs' := t[|t| - 1], gs[c := gs[c] + delta];
    if u == c {
      Distribute(gs'[c], gs[c], delta, rates[c]);
    } else {
      assert gs'[u] == gs[u];
    }
  }

  lemma {:induction false} WeightedUpdate(gs: seq<real>, rates: seq<real>, t: seq<nat>, c: nat, delta: real)
    requires |gs| == |rates| && forall k :: 0 <= k < |t| ==> t[k] < |gs|
    requires Distinct(t) && c < |gs|
    ensures Weighted(gs[c := gs[c] + delta], rates, t)
         == Weighted(gs, rates, t) + if c in t then delta * rates[c] else 0.0
    decreases |t|
  {
    if t != [] {
      var t', u := t[..|t| - 1], t[|t| - 1];
      assert t == t' + [u];
      assert u !in t';
      WeightedUpdate(gs, rates, t', c, delta);
      WeightedLast(gs, rates, t, c, delta);
    }
  }

  /** What `u`, holding `grad`, hands its children's totals from edge `j` on. */
  ghost function Shares(ns: seq<Value>, u: nat, grad: real, rates: seq<real>, j: nat): real
    requires WellFormed(ns) && u < |ns| == |rates| && j <= |ns[u].children|
    decreases |ns[u].children| - j
  {
    if j == |ns[u].children| then 0.0
    else ns[u].localGrads[j] * grad * rates[ns[u].children[j]] + Shares(ns, u, grad, rates, j + 1)
  }

  lemma {:induction false} SharesScale(ns: seq<Value>, u: nat, grad: real, w: nat, j: nat)
    requires WellFormed(ns) && u < |ns| && j <= |ns[u].children|
    ensures Shares(ns, u, grad, Rates(ns, w), j) == grad * EdgeSum(ns, u, w, j)
    decreases |ns[u].children| - j
  {
    if j < |ns[u].children| {
      SharesScale(ns, u, grad, w, j + 1);
      var local, tangent, rest := ns[u].localGrads[j], Tangent(ns, ns[u].children[j], w), EdgeSum(ns, u, w, j + 1);
      assert grad * (local * tangent + rest) == local * grad * tangent + grad * rest;
    }
  }

  /** Pushing an edge moves `gs[u]` times its slope onto the child. */
  lemma {:induction false} PushEdgesConserves(ns: seq<Value>, u: nat, gs: seq<real>, j: nat, t: seq<nat>, rates: seq<real>)
    requires WellFormed(ns) && u < |ns| == |gs| == |rates| && j <= |ns[u].children|
    requires forall k :: 0 <= k < |t| ==> t[k] < |ns|
    requires Distinct(t) && Follows(ns[u].children, t)
    ensures Weighted(PushEdges(ns, u, gs, j), rates, t) == Weighted(gs, rates, t) + Shares(ns, u, gs[u], rates, j)
    decreases |ns[u].children| - j
  {
    if j < |ns[u].children| {
      var c := ns[u].children[j];
      var delta := ns[u].localGrads[j] * gs[u];
      assert NodeBelow(ns[u], u);
      PushEdgesConserves(ns, u, gs[c := gs[c] + delta], j + 1, t, rates);
      WeightedUpdate(gs, rates, t, c, delta);
    }
  }

  lemma {:induction false} PushEdgesKeeps(ns: seq<Value>, u: nat, gs: seq<real>, j: nat, x: nat)
    requires WellFormed(ns) && u < |ns| == |gs| && j <= |ns[u].children| && x < |ns|
    requires x !in ns[u].children
    ensures PushEdges(ns, u, gs, j)[x] == gs[x]
    decreases |ns[u].children| - j
  {
    if j < |ns[u].children| {
      var c := ns[u].children[j];
      PushEdgesKeeps(ns, u, gs[c := gs[c] + ns[u].localGrads[j] * gs[u]], j + 1, x);
    }
  }

  /** A list closed under children carries nothing about a node outside it. */
  lemma {:induction false} TangentOutside(ns: seq<Value>, t: seq<nat>, r: nat, w: nat, j: nat)
    requires WellFormed(ns) && ChildrenFirst(ns, t) && r in t && w !in t && j <= |ns[r].children|
    ensures EdgeSum(ns, r, w, j) == 0.0
    decreases r, |ns[r].children| - j
  {
    if j < |ns[r].children| {
      var k :| 0 <= k < |t| && t[k] == r;
      assert ns[r].children[j] in t[..k];
      TangentOutside(ns, t, ns[r].children[j], w, 0);
      TangentOutside(ns, t, r, w, j + 1);
    }
  }

  lemma {:induction false} WeightedOutside(ns: seq<Value>, gs: seq<real>, closed: seq<nat>, t: seq<nat>, w: nat)
    requires WellFormed(ns) && |gs| == |ns| && ChildrenFirst(ns, closed) && w !in closed
    requires t <= closed && forall k :: 0 <= k < |t| ==> t[k] < |ns|
    ensures Weighted(gs, Rates(ns, w), t) == 0.0
    decreases |t|
  {
    if t != [] {
      WeightedOutside(ns, gs, closed, t[..|t| - 1], w);
      TangentOutside(ns, closed, t[|t| - 1], w, 0);
    }
  }

  lemma ChildrenFirstPrefix(ns: seq<Value>, t: seq<nat>)
    requires ChildrenFirst(ns, t) && t != []
    ensures ChildrenFirst(ns, t[..|t| - 1]) && t[|t| - 1] !in t[..|t| - 1]
    ensures t[|t| - 1] < |ns| && Follows(ns[t[|t| - 1]].children, t[..|t| - 1])
  {
    var t' := t[..|t| - 1];
    forall k | 0 <= k < |t'| ensures t'[..k] == t[..k] {}
  }

  /** Pushing the last node of `t` settles it. */
  lemma PushSettles(ns: seq<Value>, gs: seq<real>, t: seq<nat>)
    requires WellFormed(ns) && |gs| == |ns| && ChildrenFirst(ns, t) && t != []
    ensures var u := t[|t| - 1]; PushEdges(ns, u, gs, 0)[u] == Weighted(gs, Rates(ns, u), t)
  {
    var t', u := t[..|t| - 1], t[|t| - 1];
    ChildrenFirstPrefix(ns, t);
    PushEdgesKeeps(ns, u, gs, 0, u);
    WeightedOutside(ns, gs, t', t', u);
    assert Rates(ns, u)[u] == 1.0;
  }

  /** Pushing the last node of `t` hands its total to the rest. */
  lemma PushHandsOver(ns: seq<Value>, gs: seq<real>, t: seq<nat>, w: nat)
    requires WellFormed(ns) && |gs| == |ns| && ChildrenFirst(ns, t) && t != []
    requires w < |ns| && w != t[|t| - 1]
    ensures var t' := t[..|t| - 1];
      Weighted(PushEdges(ns, t[|t| - 1], gs, 0), Rates(ns, w), t') == Weighted(gs, Rates(ns, w), t)
  {
    var t', u, rates := t[..|t| - 1], t[|t| - 1], Rates(ns, w);
    var share := gs[u] * rates[u];
    assert Weighted(gs, rates, t) == Weighted(gs, rates, t') + share;
    assert Shares(ns, u, gs[u], rates, 0) == share by {
      SharesScale(ns, u, gs[u], w, 0);
      assert rates[u] == EdgeSum(ns, u, w, 0);
    }
    ChildrenFirstPrefix(ns, t);
    PushEdgesConserves(ns, u, gs, 0, t', rates);
  }

  /** The sweep turns the gradients it starts from into their weighted totals. */
  lemma {:induction false} SweepTotals(ns: seq<Value>, gs: seq<real>, t: seq<nat>, w: nat)
    requires WellFormed(ns) && |gs| == |ns| && ChildrenFirst(ns, t) && w < |ns|
    ensures Sweep(ns, gs, t)[w] == if w in t then Weighted(gs, Rates(ns, w), t) else gs[w]
    decreases |t|
  {
    if t != [] {
      var t', u := t[..|t| - 1], t[|t| - 1];
      assert t == t' + [u];
      ChildrenFirstPrefix(ns, t);
      SweepTotals(ns, PushEdges(ns, u, gs, 0), t', w);
      if w == u {
        PushSettles(ns, gs, t);
      } else if w in t' {
        PushHandsOver(ns, gs, t, w);
      } else {
        PushEdgesKeeps(ns, u, gs, 0, w);
      }
    }
  }

  // ---------------------------------------------------------------------
  // What `backward` leaves
  // ---------------------------------------------------------------------

  /** The gradients `backward` leaves, from those it finds. */
  function BackwardGrads(ns: seq<Value>, root: nat): (r: seq<real>)
    requires WellFormed(ns) && root < |ns|
    ensures |r| == |ns|
  {
    TopoOrders(ns, root, []);
    Sweep(ns, Grads(ns)[root := 1.0], Topo(ns, root, []))
  }

  /** In general: the tangent of the root, and beside it what the gradients left
    * in the other reached nodes push down. An unreached node keeps its own.
    */
  lemma BackwardInGeneral(ns: seq<Value>, root: nat, v: nat)
    requires WellFormed(ns) && root < |ns| && v < |ns|
    ensures ChildrenFirst(ns, Topo(ns, root, []))
    ensures Reaches(ns, root, v) ==>
      BackwardGrads(ns, root)[v]
        == Tangent(ns, root, v) + Weighted(Grads(ns)[root := 0.0], Rates(ns, v), Topo(ns, root, []))
    ensures !Reaches(ns, root, v) ==> BackwardGrads(ns, root)[v] == ns[v].grad
  {
    var t, seeded := Topo(ns, root, []), Grads(ns)[root := 1.0];
    TopoIsReachableSet(ns, root);
    SweepTotals(ns, seeded, t, v);
    WeightedUpdate(Grads(ns)[root := 0.0], Rates(ns, v), t, root, 1.0);
    assert Grads(ns)[root := 0.0][root := 0.0 + 1.0] == seeded;
    assert Reaches(ns, root, root);
  }

  lemma {:induction false} WeightedZero(gs: seq<real>, rates: seq<real>, t: seq<nat>)
    requires |gs| == |rates| && forall k :: 0 <= k < |t| ==> t[k] < |gs|
    requires forall i :: 0 <= i < |gs| ==> gs[i] == 0.0
    ensures Weighted(gs, rates, t) == 0.0
    decreases |t|
  {
    if t != [] { WeightedZero(gs, rates, t[..|t| - 1]); }
  }

  lemma {:induction false} TangentUnreached(ns: seq<Value>, r: nat, v: nat, j: nat)
    requires WellFormed(ns) && r < |ns| && j <= |ns[r].children|
    requires !Reaches(ns, r, v)
    ensures EdgeSum(ns, r, v, j) == 0.0
    decreases r, |ns[r].children| - j
  {
    if j < |ns[r].children| {
      TangentUnreached(ns, ns[r].children[j], v, 0);
      TangentUnreached(ns, r, v, j + 1);
    }
  }

  lemma {:induction false} TangentBelow(ns: seq<Value>, r: nat, v: nat)
    requires WellFormed(ns) && r < |ns|
    ensures Reaches(ns, r, v) ==> v <= r
    decreases r
  {
    if r != v && Reaches(ns, r, v) {
      var j :| 0 <= j < |ns[r].children| && Reaches(ns, ns[r].children[j], v);
      TangentBelow(ns, ns[r].children[j], v);
    }
  }

  /** Where no later node holds a gradient, a node's total is its own. */
  lemma {:induction false} WeightedAtLatest(ns: seq<Value>, gs: seq<real>, t: seq<nat>, w: nat)
    requires WellFormed(ns) && |gs| == |ns| && (forall k :: 0 <= k < |t| ==> t[k] < |ns|) && Distinct(t)
    requires w < |gs| && forall i :: w < i < |gs| ==> gs[i] == 0.0
    ensures Weighted(gs, Rates(ns, w), t) == if w in t then gs[w] else 0.0
    decreases |t|
  {
    if t != [] {
      var t', u := t[..|t| - 1], t[|t| - 1];
      assert t == t' + [u];
      WeightedAtLatest(ns, gs, t', w);
      if u < w {
        TangentBelow(ns, u, w);
        TangentUnreached(ns, u, w, 0);
      }
    }
  }

  /** Reverse mode is forward mode: from clean gradients, `backward` leaves in
    * every node the tangent of the root with respect to it.
    */
  lemma BackwardIsTangent(ns: seq<Value>, root: nat, v: nat)
    requires WellFormed(ns) && root < |ns| && v < |ns|
    requires forall i :: 0 <= i < |ns| && i != root ==> ns[i].grad == 0.0
    ensures BackwardGrads(ns, root)[v] == Tangent(ns, root, v)
  {
    BackwardInGeneral(ns, root, v);
    WeightedZero(Grads(ns)[root := 0.0], Rates(ns, v), Topo(ns, root, []));
    if !Reaches(ns, root, v) { TangentUnreached(ns, root, v, 0); }
    assert Reaches(ns, root, root);
  }

  /** Clean gradients are also needed: one left anywhere but in the root itself
    * spoils some node's result.
    */
  lemma BackwardNeedsCleanGrads(ns: seq<Value>, root: nat)
    requires WellFormed(ns) && root < |ns|
    ensures (forall v :: 0 <= v < |ns| ==> BackwardGrads(ns, root)[v] == Tangent(ns, root, v))
      <==> (forall i :: 0 <= i < |ns| && i != root ==> ns[i].grad == 0.0)
  {
    if forall i :: 0 <= i < |ns| && i != root ==> ns[i].grad == 0.0 {
      forall v | 0 <= v < |ns| ensures BackwardGrads(ns, root)[v] == Tangent(ns, root, v) {
        BackwardIsTangent(ns, root, v);
      }
    } else {
      var i :| 0 <= i < |ns| && i != root && ns[i].grad != 0.0;
      var w := LatestLeftover(ns, root, i);
      BackwardInGeneral(ns, root, w);
      TopoIsReachableSet(ns, root);
      WeightedAtLatest(ns, Grads(ns)[root := 0.0], Topo(ns, root, []), w);
      if !Reaches(ns, root, w) { TangentUnreached(ns, root, w, 0); }
      assert BackwardGrads(ns, root)[w] != Tangent(ns, root, w);
    }
  }

  lemma LatestLeftover(ns: seq<Value>, root: nat, i: nat) returns (w: nat)
    requires i < |ns| && i != root && ns[i].grad != 0.0
    ensures w < |ns| && w != root && ns[w].grad != 0.0
    ensures forall k :: w < k < |ns| && k != root ==> ns[k].grad == 0.0
    decreases |ns| - i
  {
    if k :| i < k < |ns| && k != root && ns[k].grad != 0.0 {
      w := LatestLeftover(ns, root, k);
    } else {
      w := i;
    }
  }

  // ---------------------------------------------------------------------
  // The graph itself
  // ---------------------------------------------------------------------

  function SumNode(ns: seq<Value>, a: nat, b: nat): Value
    requires a < |ns| && b < |ns|
  {
    Value(ns[a].data + ns[b].data, 0.0, [a, b], [1.0, 1.0])
  }

  function ProductNode(ns: seq<Value>, a: nat, b: nat): Value
    requires a < |ns| && b < |ns|
  {
    Value(ns[a].data * ns[b].data, 0.0, [a, b], [ns[b].data, ns[a].data])
  }

  function Relu(x: real): real { if x > 0.0 then x else 0.0 }

  class Graph {
    var nodes: seq<Value>
    ghost var ops: seq<Op>

    ghost predicate Valid()
      reads this
    {
      WellFormed(nodes) && Computes(nodes, ops)
    }

    constructor ()
      ensures Valid() && nodes == []
    {
      nodes, ops := [], [];
    }

    method NewNode(data: real, children: seq<nat>, localGrads: seq<real>, ghost op: Op) returns (i: nat)
      requires Valid()
      requires var n := Value(data, 0.0, children, localGrads); ComputedBy(nodes + [n], |nodes|, op)
      modifies this
      ensures Valid() && i == |old(nodes)| && ops == old(ops) + [op]
      ensures nodes == old(nodes) + [Value(data, 0.0, children, localGrads)]
    {
      nodes, ops := nodes + [Value(data, 0.0, children, localGrads)], ops + [op];
      i := |nodes| - 1;
      forall k | 0 <= k < |nodes| ensures ComputedBy(nodes, k, ops[k]) {
        assert k < |nodes| - 1 ==> ComputedBy(old(nodes), k, old(ops)[k]);
      }
    }

    method Leaf(data: real) returns (i: nat)
      requires Valid()
      modifies this
      ensures Valid() && i == |old(nodes)| && ops == old(ops) + [Op.Leaf]
      ensures nodes == old(nodes) + [Value(data, 0.0, [], [])]
    {
      i := NewNode(data, [], [], Op.Leaf);
    }

    method Add(a: nat, b: nat) returns (i: nat)
      requires Valid() && a < |nodes| && b < |nodes|
      modifies this
      ensures Valid() && i == |old(nodes)| && ops == old(ops) + [Sum(a, b)]
      ensures nodes == old(nodes) + [SumNode(old(nodes), a, b)]
    {
      i := NewNode(nodes[a].data + nodes[b].data, [a, b], [1.0, 1.0], Sum(a, b));
    }

    method Mul(a: nat, b: nat) returns (i: nat)
      requires Valid() && a < |nodes| && b < |nodes|
      modifies this
      ensures Valid() && i == |old(nodes)| && ops == old(ops) + [Product(a, b)]
      ensures nodes == old(nodes) + [ProductNode(old(nodes), a, b)]
    {
      i := NewNode(nodes[a].data * nodes[b].data, [a, b], [nodes[b].data, nodes[a].data], Product(a, b));
    }

    /** `pow`, `log` and `exp`: `value` and `slope` are what the float library
      * gives for `f` and its derivative.
      */
    method Apply(a: nat, value: real, slope: real, ghost f: real -> real) returns (i: nat)
      requires Valid() && a < |nodes| && value == f(nodes[a].data)
      modifies this
      ensures Valid() && i == |old(nodes)| && ops == old(ops) + [Unary(a, f)]
      ensures nodes == old(nodes) + [Value(value, 0.0, [a], [slope])]
    {
      i := NewNode(value, [a], [slope], Unary(a, f));
    }

    method ReluOf(a: nat) returns (i: nat)
      requires Valid() && a < |nodes|
      modifies this
      ensures Valid() && i == |old(nodes)| && ops == old(ops) + [Unary(a, Relu)]
      ensures var da := old(nodes)[a].data;
        nodes == old(nodes) + [Value(Relu(da), 0.0, [a], [if da > 0.0 then 1.0 else 0.0])]
    {
      var da := nodes[a].data;
      var slope := if da > 0.0 then 1.0 else 0.0;
      i := Apply(a, if da > 0.0 then da else 0.0, slope, Relu);
    }

    /** How many nodes are below `len`. */
    function Below(len: nat): (n: nat)
      reads this
      ensures n <= |nodes|
    {
      if len < |nodes| then len else |nodes|
    }

    /** The nodes below `len` form a graph of their own. */
    ghost predicate ValidUpTo(len: nat)
      reads this
    {
      var n := Below(len);
      n <= |ops| && WellFormed(nodes[..n]) && Computes(nodes[..n], ops[..n])
    }

    /** Everything from `len` on is one training step's graph, dropped whole. */
    method Rewind(len: nat)
      requires ValidUpTo(len)
      modifies this
      ensures Valid() && nodes == old(nodes)[..old(Below(len))] && ops == old(ops)[..old(Below(len))]
    {
      nodes, ops := nodes[..Below(len)], ops[..Below(len)];
    }

    /** Nodes above `v` may be mid-visit: marked, and not listed yet. */
    method BuildTopo(v: nat, visited: array<bool>, topo: seq<nat>) returns (listed: seq<nat>)
      requires Valid() && v < |nodes| == visited.Length
      requires forall i :: 0 <= i <= v ==> (visited[i] <==> i in topo)
      modifies visited
      ensures listed == Topo(nodes, v, topo)
      ensures forall i :: 0 <= i <= v ==> (visited[i] <==> i in listed)
      ensures forall i :: v < i < visited.Length ==> visited[i] == old(visited[i]) && (i in listed <==> i in topo)
      decreases v
    {
      listed := topo;
      if visited[v] {
        return;
      }
      visited[v] := true;
      var children := nodes[v].children;
      assert NodeBelow(nodes[v], v);
      for j := 0 to |children|
        invariant TopoChildren(nodes, v, j, listed) == TopoChildren(nodes, v, 0, topo)
        invariant visited[v]
        invariant forall i :: 0 <= i < v ==> (visited[i] <==> i in listed)
        invariant forall i :: v <= i < visited.Length ==> (i in listed <==> i in topo)
        invariant forall i :: v < i < visited.Length ==> visited[i] == old(visited[i])
      {
        listed := BuildTopo(children[j], visited, listed);
      }
      listed := listed + [v];
    }

    /** The body of the sweep: node `v` pushes its gradient down every edge. */
    method PushDown(v: nat, ghost ns: seq<Value>, ghost start: seq<real>)
      requires WellFormed(ns) && |start| == |ns| && v < |ns| && nodes == WithGrads(ns, start)
      modifies this`nodes
      ensures nodes == WithGrads(ns, PushEdges(ns, v, start, 0))
    {
      var grad := nodes[v].grad;
      ghost var gs := start;
      assert NodeBelow(ns[v], v);
      for j := 0 to |nodes[v].children|
        invariant |gs| == |ns| && nodes == WithGrads(ns, gs) && gs[v] == grad
        invariant PushEdges(ns, v, gs, j) == PushEdges(ns, v, start, 0)
      {
        var child, local := nodes[v].children[j], nodes[v].localGrads[j];
        ghost var pushed := gs[child] + ns[v].localGrads[j] * gs[v];
        assert nodes[child].grad + local * grad == pushed;
        WithGradsUpdate(ns, gs, child, pushed);
        nodes := nodes[child := nodes[child].(grad := nodes[child].grad + local * grad)];
        assert PushEdges(ns, v, gs, j) == PushEdges(ns, v, gs[child := pushed], j + 1);
        gs := gs[child := pushed];
      }
    }

    method Backward(root: nat)
      requires Valid() && root < |nodes|
      modifies this
      ensures Valid() && ops == old(ops)
      ensures nodes == WithGrads(old(nodes), BackwardGrads(old(nodes), root))
    {
      ghost var ns := nodes;
      var visited := new bool[|nodes|](_ => false);
      var topo := BuildTopo(root, visited, []);
      TopoIsReachableSet(ns, root);

      nodes := nodes[root := nodes[root].(grad := 1.0)];
      ghost var gs := Grads(ns)[root := 1.0];
      assert nodes == WithGrads(ns, gs);
      var k := |topo|;
      assert topo[..k] == topo;
      while k > 0
        invariant k <= |topo| && |gs| == |ns| && nodes == WithGrads(ns, gs) && ops == old(ops)
        invariant Sweep(ns, gs, topo[..k]) == BackwardGrads(ns, root)
      {
        k := k - 1;
        SweepNext(ns, gs, topo, k);
        PushDown(topo[k], ns, gs);
        gs := PushEdges(ns, topo[k], gs, 0);
      }
      GradsKeepGraph(ns, gs, ops);
    }
  }

  lemma SweepNext(ns: seq<Value>, gs: seq<real>, t: seq<nat>, k: nat)
    requires WellFormed(ns) && |gs| == |ns| && ChildrenFirst(ns, t) && k < |t|
    ensures Sweep(ns, gs, t[..k + 1]) == Sweep(ns, PushEdges(ns, t[k], gs, 0), t[..k])
  {
    assert t[..k + 1][..k] == t[..k];
  }

  lemma WithGradsUpdate(ns: seq<Value>, gs: seq<real>, c: nat, x: real)
    requires |gs| == |ns| && c < |ns|
    ensures WithGrads(ns, gs)[c := ns[c].(grad := x)] == WithGrads(ns, gs[c := x])
  {
  }

  lemma GradsKeepGraph(ns: seq<Value>, gs: seq<real>, ops: seq<Op>)
    requires |gs| == |ns| && WellFormed(ns) && Computes(ns, ops)
    ensures WellFormed(WithGrads(ns, gs)) && Computes(WithGrads(ns, gs), ops)
  {
    var r := WithGrads(ns, gs);
    forall i | 0 <= i < |ns| ensures ComputedBy(r, i, ops[i]) && NodeBelow(r[i], i) {
      assert ComputedBy(ns, i, ops[i]) && NodeBelow(ns[i], i);
    }
  }
}
