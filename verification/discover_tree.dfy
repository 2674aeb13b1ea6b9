/** The walk of a tree of packages: a stack of package roots, each popped, walked,
  * and its sub-packages pushed.
  */
module DiscoverTree {
  import D = Discover

  /** The sub-packages a walk of each package lists, in order; a package is known by
    * its canonical root, so two ways to one directory are one number.
    */
  type Nesting = s: seq<seq<nat>> | NestingOk(s) witness [[]]

  ghost predicate NestingOk(s: seq<seq<nat>>) {
    forall n, i :: 0 <= n < |s| && 0 <= i < |s[n]| ==> s[n][i] < |s|
  }

  predicate Known(w: Nesting, roots: seq<nat>) {
    forall i :: 0 <= i < |roots| ==> roots[i] < |w|
  }

  function Reversed(s: seq<nat>): (r: seq<nat>)
    ensures |r| == |s| && forall i :: 0 <= i < |s| ==> r[i] == s[|s| - 1 - i]
  {
    if s == [] then [] else Reversed(s[1..]) + [s[0]]
  }

  /** No chain of packages from `n` is longer than `depth`. */
  ghost predicate Shallow(w: Nesting, n: nat, depth: nat)
    requires n < |w|
    decreases depth
  {
    depth > 0 && forall i :: 0 <= i < |w[n]| ==> Shallow(w, w[n][i], depth - 1)
  }

  ghost predicate Ends(w: Nesting, n: nat)
    requires n < |w|
  {
    exists depth: nat :: Shallow(w, n, depth)
  }

  /** The packages below some roots, each before its own sub-packages and those before
    * the next root, down to a depth.
    */
  ghost function Listing(w: Nesting, roots: seq<nat>, depth: nat): seq<nat>
    requires Known(w, roots)
    decreases depth, |roots|
  {
    if roots == [] || depth == 0 then []
    else [roots[0]] + Listing(w, w[roots[0]], depth - 1) + Listing(w, roots[1..], depth)
  }

  /** One turn of the loop: the stack after a pop. */
  function Popped(w: Nesting, queue: seq<nat>): (r: seq<nat>)
    requires queue != [] && Known(w, queue)
    ensures Known(w, r)
  {
    queue[..|queue| - 1] + Reversed(w[queue[|queue| - 1]])
  }

  /** The stack after so many turns, empty once it is. */
  function After(w: Nesting, queue: seq<nat>, turns: nat): (r: seq<nat>)
    requires Known(w, queue)
    ensures Known(w, r)
    decreases turns
  {
    if turns == 0 || queue == [] then queue else After(w, Popped(w, queue), turns - 1)
  }

  lemma {:induction false} ShallowDeeper(w: Nesting, n: nat, depth: nat, more: nat)
    requires n < |w| && Shallow(w, n, depth) && depth <= more
    ensures Shallow(w, n, more)
    decreases depth
  {
    forall i | 0 <= i < |w[n]| ensures Shallow(w, w[n][i], more - 1) {
      ShallowDeeper(w, w[n][i], depth - 1, more - 1);
    }
  }

  /** A bound for a whole list. */
  lemma {:induction false} CommonDepth(w: Nesting, roots: seq<nat>) returns (depth: nat)
    requires Known(w, roots) && forall i :: 0 <= i < |roots| ==> Ends(w, roots[i])
    ensures forall i :: 0 <= i < |roots| ==> Shallow(w, roots[i], depth)
  {
    depth := 0;
    if roots != [] {
      assert Ends(w, roots[0]);
      var first: nat :| Shallow(w, roots[0], first);
      forall i | 0 <= i < |roots[1..]| ensures Ends(w, roots[1..][i]) { assert roots[1..][i] == roots[i + 1]; }
      var rest := CommonDepth(w, roots[1..]);
      depth := if first < rest then rest else first;
      forall i | 0 <= i < |roots| ensures Shallow(w, roots[i], depth) {
        if i == 0 { ShallowDeeper(w, roots[0], first, depth); }
        else {
          assert roots[i] == roots[1..][i - 1];
          ShallowDeeper(w, roots[i], rest, depth);
        }
      }
    }
  }

  lemma EndsWithin(w: Nesting, n: nat)
    requires n < |w| && forall i :: 0 <= i < |w[n]| ==> Ends(w, w[n][i])
    ensures Ends(w, n)
  {
    var depth := CommonDepth(w, w[n]);
    assert Shallow(w, n, depth + 1);
  }

  /** The stack empties only over packages that nest to a finite depth. */
  lemma {:induction false} EmptiesOnlyIfEnding(w: Nesting, queue: seq<nat>, turns: nat)
    requires Known(w, queue) && After(w, queue, turns) == []
    ensures forall i :: 0 <= i < |queue| ==> Ends(w, queue[i])
    decreases turns
  {
    if queue != [] {
      var last := queue[|queue| - 1];
      var next := Popped(w, queue);
      EmptiesOnlyIfEnding(w, next, turns - 1);
      forall i | 0 <= i < |w[last]| ensures Ends(w, w[last][i]) {
        var k := |queue| - 1 + (|w[last]| - 1 - i);
        assert next[k] == Reversed(w[last])[|w[last]| - 1 - i] == w[last][i];
      }
      EndsWithin(w, last);
      forall i | 0 <= i < |queue| - 1 ensures Ends(w, queue[i]) {
        assert next[i] == queue[i];
      }
    }
  }

  ghost predicate AllShallow(w: Nesting, roots: seq<nat>, depth: nat) {
    Known(w, roots) && forall i :: 0 <= i < |roots| ==> Shallow(w, roots[i], depth)
  }

  lemma {:induction false} ListingSplits(w: Nesting, a: seq<nat>, b: seq<nat>, depth: nat)
    requires Known(w, a) && Known(w, b)
    ensures Listing(w, a + b, depth) == Listing(w, a, depth) + Listing(w, b, depth)
    decreases |a|
  {
    if a == [] {
      assert a + b == b;
    } else if depth > 0 {
      assert (a + b)[0] == a[0] && (a + b)[1..] == a[1..] + b;
      ListingSplits(w, a[1..], b, depth);
    }
  }

  /** How deep one looks does not matter, beyond where the nesting stops. */
  lemma {:induction false} ListingAnyDepth(w: Nesting, roots: seq<nat>, depth: nat, more: nat)
    requires AllShallow(w, roots, depth) && depth <= more
    ensures Listing(w, roots, depth) == Listing(w, roots, more)
    decreases depth, |roots|
  {
    if roots != [] {
      var first := roots[0];
      assert Shallow(w, first, depth);
      ListingAnyDepth(w, w[first], depth - 1, more - 1);
      ListingAnyDepth(w, roots[1..], depth, more);
    }
  }

  lemma AllDeeper(w: Nesting, roots: seq<nat>, depth: nat, more: nat)
    requires AllShallow(w, roots, depth) && depth <= more
    ensures AllShallow(w, roots, more)
  {
    forall i | 0 <= i < |roots| ensures Shallow(w, roots[i], more) {
      ShallowDeeper(w, roots[i], depth, more);
    }
  }

  lemma ReversedSnoc(s: seq<nat>, x: nat)
    ensures Reversed(s + [x]) == [x] + Reversed(s)
  {}

  lemma ReversedTwice(s: seq<nat>, t: seq<nat>)
    ensures Reversed(s + Reversed(t)) == t + Reversed(s)
  {}

  /** The packages still to come, in the order they will. */
  function Agenda(queue: seq<nat>): seq<nat> {
    Reversed(queue)
  }

  lemma AgendaPopped(w: Nesting, queue: seq<nat>)
    requires queue != [] && Known(w, queue)
    ensures Agenda(queue) != [] && Agenda(queue)[0] == queue[|queue| - 1]
    ensures Agenda(Popped(w, queue)) == w[queue[|queue| - 1]] + Agenda(queue)[1..]
  {
    var last, rest := queue[|queue| - 1], queue[..|queue| - 1];
    assert queue == rest + [last];
    ReversedSnoc(rest, last);
    ReversedTwice(rest, w[last]);
  }

  /** A turn lists the package popped; what is left to list is the rest. */
  lemma TurnLists(w: Nesting, agenda: seq<nat>, depth: nat)
    requires agenda != [] && AllShallow(w, agenda, depth)
    ensures var next := w[agenda[0]] + agenda[1..];
      && AllShallow(w, next, depth)
      && Listing(w, agenda, depth) == [agenda[0]] + Listing(w, next, depth)
  {
    var first, rest := agenda[0], agenda[1..];
    assert Shallow(w, first, depth);
    ListingAnyDepth(w, w[first], depth - 1, depth);
    ListingSplits(w, w[first], rest, depth);
    AllDeeper(w, w[first], depth - 1, depth);
    RestShallow(w, agenda, depth);
    JoinShallow(w, w[first], rest, depth);
  }

  lemma RestShallow(w: Nesting, agenda: seq<nat>, depth: nat)
    requires agenda != [] && AllShallow(w, agenda, depth)
    ensures AllShallow(w, agenda[1..], depth)
  {
    forall i | 0 <= i < |agenda[1..]| ensures Shallow(w, agenda[1..][i], depth) {
      assert agenda[1..][i] == agenda[i + 1];
    }
  }

  lemma JoinShallow(w: Nesting, a: seq<nat>, b: seq<nat>, depth: nat)
    requires AllShallow(w, a, depth) && AllShallow(w, b, depth)
    ensures AllShallow(w, a + b, depth)
  {}

  lemma {:induction false} EmptiesWhenEnding(w: Nesting, queue: seq<nat>, depth: nat) returns (turns: nat)
    requires Known(w, queue) && AllShallow(w, Agenda(queue), depth)
    ensures After(w, queue, turns) == []
    decreases |Listing(w, Agenda(queue), depth)|
  {
    turns := 0;
    if queue != [] {
      AgendaPopped(w, queue);
      TurnLists(w, Agenda(queue), depth);
      var more := EmptiesWhenEnding(w, Popped(w, queue), depth);
      turns := more + 1;
    }
  }

  lemma EmptiesIffEnds(w: Nesting, root: nat)
    requires root < |w|
    ensures (exists turns :: After(w, [root], turns) == []) <==> Ends(w, root)
  {
    if turns :| After(w, [root], turns) == [] {
      EmptiesOnlyIfEnding(w, [root], turns);
      assert Ends(w, [root][0]);
    }
    if Ends(w, root) {
      var depth: nat :| Shallow(w, root, depth);
      assert AllShallow(w, Agenda([root]), depth);
      var turns := EmptiesWhenEnding(w, [root], depth);
    }
  }

  // ---------------------------------------------------------------------
  // Packages inside themselves
  // ---------------------------------------------------------------------

  /** Each package a sub-package of the one before. */
  ghost predicate Chain(w: Nesting, chain: seq<nat>) {
    chain != [] && Known(w, chain) && forall i :: 0 <= i < |chain| - 1 ==> chain[i + 1] in w[chain[i]]
  }

  ghost predicate Reached(w: Nesting, root: nat, n: nat) {
    exists chain :: Chain(w, chain) && chain[0] == root && chain[|chain| - 1] == n
  }

  /** A package below itself, as a symlink can put it. */
  ghost predicate InItself(w: Nesting, n: nat) {
    exists chain :: |chain| > 1 && Chain(w, chain) && chain[0] == n && chain[|chain| - 1] == n
  }

  ghost predicate LoopBelow(w: Nesting, root: nat) {
    exists n :: Reached(w, root, n) && InItself(w, n)
  }

  lemma ChainPart(w: Nesting, chain: seq<nat>, from: nat, to: nat)
    requires Chain(w, chain) && from < to <= |chain|
    ensures Chain(w, chain[from..to])
  {
    var part := chain[from..to];
    forall i | 0 <= i < |part| - 1 ensures part[i + 1] in w[part[i]] {
      var j := from + i;
      assert part[i] == chain[j] && part[i + 1] == chain[j + 1];
    }
  }

  lemma {:induction false} ShallowAlong(w: Nesting, chain: seq<nat>, depth: nat)
    requires Chain(w, chain) && Shallow(w, chain[0], depth)
    ensures |chain| <= depth && Shallow(w, chain[|chain| - 1], depth - (|chain| - 1))
    decreases |chain|
  {
    if |chain| > 1 {
      assert chain[0 + 1] in w[chain[0]];
      ChainPart(w, chain, 1, |chain|);
      ShallowAlong(w, chain[1..], depth - 1);
    }
  }

  lemma {:induction false} CycleNotShallow(w: Nesting, chain: seq<nat>, depth: nat)
    requires |chain| > 1 && Chain(w, chain) && chain[0] == chain[|chain| - 1]
    ensures !Shallow(w, chain[0], depth)
    decreases depth
  {
    if Shallow(w, chain[0], depth) {
      ShallowAlong(w, chain, depth);
      CycleNotShallow(w, chain, depth - (|chain| - 1));
    }
  }

  lemma LoopNotEnding(w: Nesting, root: nat)
    requires root < |w| && LoopBelow(w, root)
    ensures !Ends(w, root)
  {
    var n :| Reached(w, root, n) && InItself(w, n);
    var down :| Chain(w, down) && down[0] == root && down[|down| - 1] == n;
    var cycle :| |cycle| > 1 && Chain(w, cycle) && cycle[0] == n && cycle[|cycle| - 1] == n;
    forall depth: nat ensures !Shallow(w, root, depth) {
      if Shallow(w, root, depth) {
        ShallowAlong(w, down, depth);
        CycleNotShallow(w, cycle, depth - (|down| - 1));
      }
    }
  }

  /** Where the nesting is deeper than `depth` there is a chain that long. */
  lemma {:induction false} DeepChain(w: Nesting, n: nat, depth: nat) returns (chain: seq<nat>)
    requires n < |w| && !Shallow(w, n, depth)
    ensures Chain(w, chain) && chain[0] == n && |chain| == depth + 1
    decreases depth
  {
    chain := [n];
    if depth > 0 {
      var i :| 0 <= i < |w[n]| && !Shallow(w, w[n][i], depth - 1);
      var rest := DeepChain(w, w[n][i], depth - 1);
      chain := [n] + rest;
      forall k | 0 <= k < |chain| - 1 ensures chain[k + 1] in w[chain[k]] {
        assert chain[k + 1] == rest[k];
        if k > 0 { assert chain[k] == rest[k - 1] && rest[k - 1 + 1] in w[rest[k - 1]]; }
      }
    }
  }

  /** A chain longer than there are packages comes by one of them twice. */
  lemma LongChainLoops(w: Nesting, chain: seq<nat>)
    requires Chain(w, chain) && |chain| > |w|
    ensures LoopBelow(w, chain[0])
  {
    if D.Distinct(chain) {
      D.DistinctBelow(chain, |w|);
      assert false;
    } else {
      var i, k :| 0 <= i < k < |chain| && chain[i] == chain[k];
      var down, cycle := chain[0..i + 1], chain[i..k + 1];
      ChainPart(w, chain, 0, i + 1);
      ChainPart(w, chain, i, k + 1);
      assert Reached(w, chain[0], chain[i]) by { assert down[0] == chain[0] && down[|down| - 1] == chain[i]; }
      assert InItself(w, chain[i]) by { assert cycle[0] == chain[i] && cycle[|cycle| - 1] == chain[k]; }
    }
  }

  lemma ShallowWithoutLoop(w: Nesting, root: nat)
    requires root < |w| && !LoopBelow(w, root)
    ensures Shallow(w, root, |w|)
  {
    if !Shallow(w, root, |w|) {
      var chain := DeepChain(w, root, |w|);
      LongChainLoops(w, chain);
    }
  }

  /** The loop ends exactly when no package it reaches lies in itself. */
  lemma EndsIff(w: Nesting, root: nat)
    requires root < |w|
    ensures (exists turns :: After(w, [root], turns) == []) <==> !LoopBelow(w, root)
  {
    EmptiesIffEnds(w, root);
    if LoopBelow(w, root) { LoopNotEnding(w, root); } else { ShallowWithoutLoop(w, root); }
  }

  /** Lists the packages of a tree, root first and depth first. */
  method Discover(w: Nesting, root: nat) returns (packages: seq<nat>)
    requires root < |w| && !LoopBelow(w, root)
    ensures packages == Listing(w, [root], |w|)
  {
    ShallowWithoutLoop(w, root);
    packages := [];
    var queue := [root];
    assert AllShallow(w, Agenda(queue), |w|) && Agenda(queue) == [root];
    while queue != []
      invariant Known(w, queue) && AllShallow(w, Agenda(queue), |w|)
      invariant packages + Listing(w, Agenda(queue), |w|) == Listing(w, [root], |w|)
      decreases |Listing(w, Agenda(queue), |w|)|
    {
      AgendaPopped(w, queue);
      TurnLists(w, Agenda(queue), |w|);
      packages := packages + [queue[|queue| - 1]];
      queue := Popped(w, queue);
    }
  }
}
