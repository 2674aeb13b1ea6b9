/** What a later build compiles otherwise than an earlier one, and what of that is
  * reported.
  */
module Reuse {
  import opened Prebuilt
  import opened Identities

  datatype UnitGraph = UnitGraph(units: Units, ids: seq<nat>, roles: seq<set<Role>>)

  type Graph = g: UnitGraph | Matched(g) witness UnitGraph([], [], [])

  predicate Matched(g: UnitGraph) {
    |g.ids| == |g.units| == |g.roles|
    && forall i, k :: 0 <= i < |g.units| && 0 <= k < |g.units[i].dependencies| ==> g.units[i].dependencies[k] < |g.units|
  }

  /** A graph whose digests were taken with `hash`. */
  ghost predicate Known(g: Graph, rank: seq<nat>, hash: Hash) {
    && Ranked(g.units, rank) && |g.ids| == |g.units| == |g.roles|
    && forall i :: 0 <= i < |g.units| ==> g.ids[i] == Digest(g.units, rank, hash, i)
  }

  predicate IsCounterpart(given: Graph, i: nat, taken: Graph, j: nat)
    requires i < |given.units|
  {
    j < |taken.units| && taken.units[j].slot == given.units[i].slot && taken.roles[j] * given.roles[i] != {}
  }

  /** The units of `taken` in the slot of, and for a role of, `given`'s unit. */
  function Counterparts(given: Graph, i: nat, taken: Graph, count: nat): (r: seq<nat>)
    requires i < |given.units| && count <= |taken.units|
    ensures forall j: nat :: j in r <==> j < count && IsCounterpart(given, i, taken, j)
  {
    if count == 0 then []
    else Counterparts(given, i, taken, count - 1) + if IsCounterpart(given, i, taken, count - 1) then [count - 1] else []
  }

  /** `taken` compiles a unit of `given`, and not as `given` did. */
  ghost predicate Splits(given: Graph, i: nat, taken: Graph)
  {
    && i < |given.units| && (exists j: nat :: IsCounterpart(given, i, taken, j))
    && forall j: nat :: IsCounterpart(given, i, taken, j) ==> taken.ids[j] != given.ids[i]
  }

  /** Nothing it depends on splits: it is reported. */
  ghost predicate IsCause(given: Graph, i: nat, taken: Graph)
  {
    && Splits(given, i, taken)
    && forall k :: 0 <= k < |given.units[i].dependencies| ==> !Splits(given, given.units[i].dependencies[k], taken)
  }

  /** A way down through units that all split. */
  ghost predicate SplitsAlong(given: Graph, taken: Graph, path: seq<nat>)
  {
    && path != [] && (forall k :: 0 <= k < |path| ==> Splits(given, path[k], taken))
    && forall k :: 0 < k < |path| ==> path[k] in given.units[path[k - 1]].dependencies
  }

  /** Under every unit that splits is one that is reported, through units that split. */
  lemma {:induction false} SplitHasCause(given: Graph, rank: seq<nat>, taken: Graph, i: nat) returns (path: seq<nat>)
    requires Ranked(given.units, rank) && Splits(given, i, taken)
    ensures SplitsAlong(given, taken, path) && path[0] == i && IsCause(given, path[|path| - 1], taken)
    decreases rank[i]
  {
    path := [i];
    if !IsCause(given, i, taken) {
      var dependencies := given.units[i].dependencies;
      var k :| 0 <= k < |dependencies| && Splits(given, dependencies[k], taken);
      var rest := SplitHasCause(given, rank, taken, dependencies[k]);
      path := [i] + rest;
      forall m | 0 < m < |path| ensures path[m] in given.units[path[m - 1]].dependencies {
        assert path[m] == rest[m - 1];
        if m > 1 { assert path[m - 1] == rest[m - 2]; }
      }
    }
  }

  // ---------------------------------------------------------------------
  // The report
  // ---------------------------------------------------------------------

  datatype Difference =
    | InFeatures(added: seq<string>, dropped: seq<string>)
    | InDependencies(gained: set<nat>, lost: set<nat>)

  predicate SaysNothing(d: Difference) {
    match d
    case InFeatures(added, dropped) => added == [] && dropped == []
    case InDependencies(gained, lost) => gained == {} && lost == {}
  }

  function Missing(a: seq<string>, b: seq<string>): (r: seq<string>)
    ensures forall x :: x in r <==> x in a && x !in b
  {
    if a == [] then []
    else (if a[0] in b then [] else [a[0]]) + Missing(a[1..], b)
  }

  function DependencyIds(g: Graph, i: nat): set<nat>
    requires i < |g.units|
  {
    set k | 0 <= k < |g.units[i].dependencies| :: g.ids[g.units[i].dependencies[k]]
  }

  /** How `taken`'s unit differs from `given`'s: in features, or else in dependencies. */
  function DifferenceOf(given: Graph, i: nat, taken: Graph, j: nat): Difference
    requires i < |given.units| && j < |taken.units|
  {
    var ours, other := given.units[i].features, taken.units[j].features;
    var added, dropped := Missing(other, ours), Missing(ours, other);
    if added != [] || dropped != [] then InFeatures(added, dropped)
    else InDependencies(DependencyIds(taken, j) - DependencyIds(given, i), DependencyIds(given, i) - DependencyIds(taken, j))
  }

  /** Which side is which: added features are the later build's, dropped ones the earlier
    * one's, and dependencies are told only where the features are the same; then what is
    * gained is the later build's and what is lost the earlier one's.
    */
  lemma DifferenceTells(given: Graph, i: nat, taken: Graph, j: nat)
    requires i < |given.units| && j < |taken.units|
    ensures var ours, theirs, d := given.units[i].features, taken.units[j].features, DifferenceOf(given, i, taken, j);
      && (d.InDependencies? <==> forall x :: x in ours <==> x in theirs)
      && (d.InFeatures? ==> forall x :: (x in d.added <==> x in theirs && x !in ours) && (x in d.dropped <==> x in ours && x !in theirs))
    ensures var d := DifferenceOf(given, i, taken, j);
      d.InDependencies? ==> forall id ::
        && (id in d.gained <==> HasDependency(taken, j, id) && !HasDependency(given, i, id))
        && (id in d.lost <==> HasDependency(given, i, id) && !HasDependency(taken, j, id))
  {
    var ours, theirs := given.units[i].features, taken.units[j].features;
    var added, dropped := Missing(theirs, ours), Missing(ours, theirs);
    if added == [] && dropped == [] {
      forall x ensures x in ours <==> x in theirs { assert x !in added && x !in dropped; }
    } else {
      var x := if added != [] then added[0] else dropped[0];
      assert x in added || x in dropped;
    }
    forall id ensures id in DependencyIds(given, i) <==> HasDependency(given, i, id) {}
    forall id ensures id in DependencyIds(taken, j) <==> HasDependency(taken, j, id) {}
  }

  ghost predicate HasDependency(g: Graph, i: nat, id: nat)
    requires i < |g.units|
  {
    exists k :: 0 <= k < |g.units[i].dependencies| && g.ids[g.units[i].dependencies[k]] == id
  }

  type Order = (string, string) -> bool

  ghost predicate StrictOrder(before: Order) {
    (forall a :: !before(a, a)) && forall a, b, c :: before(a, b) && before(b, c) ==> before(a, c)
  }

  /** Sorted, without repeats. */
  ghost predicate Rising(before: Order, s: seq<string>) {
    forall i, k :: 0 <= i < k < |s| ==> before(s[i], s[k])
  }

  lemma {:induction false} RisingIsUnique(before: Order, s: seq<string>, t: seq<string>)
    requires StrictOrder(before) && Rising(before, s) && Rising(before, t) && forall x :: x in s <==> x in t
    ensures s == t
    decreases |s|
  {
    if s != [] { assert s[0] in t; }
    if t != [] { assert t[0] in s; }
    if s != [] {
      assert s[0] == t[0];
      forall x ensures x in s[1..] <==> x in t[1..] {
        if x in s[1..] { assert x in s && x != s[0]; }
        if x in t[1..] { assert x in t && x != t[0]; }
      }
      RisingIsUnique(before, s[1..], t[1..]);
      assert s == [s[0]] + s[1..] && t == [t[0]] + t[1..];
    }
  }

  ghost predicate NoRepeats(s: seq<nat>) {
    forall i, k :: 0 <= i < k < |s| ==> s[i] != s[k]
  }

  lemma {:induction false} CountedOnce(s: seq<nat>, x: nat)
    requires NoRepeats(s)
    ensures multiset(s)[x] == if x in s then 1 else 0
  {
    if s != [] {
      assert s == [s[0]] + s[1..];
      CountedOnce(s[1..], x);
    }
  }

  lemma SameElements(s: seq<nat>, t: seq<nat>)
    requires NoRepeats(s) && NoRepeats(t) && forall x :: x in s <==> x in t
    ensures multiset(s) == multiset(t)
  {
    forall x: nat ensures multiset(s)[x] == multiset(t)[x] {
      CountedOnce(s, x);
      CountedOnce(t, x);
    }
  }

  lemma IdsAreDigests(g: Graph, rank: seq<nat>, hash: Hash, i: nat)
    requires Known(g, rank, hash) && i < |g.units|
    ensures forall x :: x in DependencyIds(g, i) <==> x in Digests(g.units, rank, hash, i)
  {
    var digests := Digests(g.units, rank, hash, i);
    assert forall k :: 0 <= k < |digests| ==> digests[k] == g.ids[g.units[i].dependencies[k]];
  }

  lemma SameFeatures(before: Order, ours: seq<string>, other: seq<string>)
    requires StrictOrder(before) && Rising(before, ours) && Rising(before, other)
    ensures Missing(other, ours) == [] && Missing(ours, other) == [] <==> ours == other
  {
    if Missing(other, ours) == [] && Missing(ours, other) == [] {
      forall x ensures x in ours <==> x in other {
        assert x !in Missing(other, ours) && x !in Missing(ours, other);
      }
      RisingIsUnique(before, ours, other);
    }
    if ours == other {
      if Missing(ours, ours) != [] { assert Missing(ours, ours)[0] in Missing(ours, ours); }
    }
  }

  lemma SameInAll(given: Graph, rank: seq<nat>, i: nat, taken: Graph, takenRank: seq<nat>, j: nat, hash: Hash)
    requires Known(given, rank, hash) && Known(taken, takenRank, hash) && i < |given.units| && j < |taken.units|
    requires given.units[i].slot == taken.units[j].slot && given.units[i].features == taken.units[j].features
    requires DependencyIds(given, i) == DependencyIds(taken, j)
    requires NoRepeats(Digests(given.units, rank, hash, i)) && NoRepeats(Digests(taken.units, takenRank, hash, j))
    ensures taken.ids[j] == given.ids[i]
  {
    var s, t := Digests(given.units, rank, hash, i), Digests(taken.units, takenRank, hash, j);
    IdsAreDigests(given, rank, hash, i);
    IdsAreDigests(taken, takenRank, hash, j);
    SameElements(s, t);
    SortedAlike(s, t);
  }

  /** Of a unit that came out otherwise, the report says nothing exactly when the
    * features are the same and so are the dependencies, repeats aside; so it always
    * says something where neither unit lists a dependency twice.
    */
  lemma SaysNothingIff(given: Graph, rank: seq<nat>, i: nat, taken: Graph, takenRank: seq<nat>, j: nat, hash: Hash, before: Order)
    requires Known(given, rank, hash) && Known(taken, takenRank, hash)
    requires StrictOrder(before) && i < |given.units| && IsCounterpart(given, i, taken, j) && taken.ids[j] != given.ids[i]
    requires Rising(before, given.units[i].features) && Rising(before, taken.units[j].features)
    ensures SaysNothing(DifferenceOf(given, i, taken, j))
       <==> given.units[i].features == taken.units[j].features && DependencyIds(given, i) == DependencyIds(taken, j)
    ensures NoRepeats(Digests(given.units, rank, hash, i)) && NoRepeats(Digests(taken.units, takenRank, hash, j)) ==>
      !SaysNothing(DifferenceOf(given, i, taken, j))
  {
    var ours, theirs := DependencyIds(given, i), DependencyIds(taken, j);
    SameFeatures(before, given.units[i].features, taken.units[j].features);
    assert theirs - ours == {} && ours - theirs == {} <==> ours == theirs by {
      assert forall x :: x in ours <==> x in ours * theirs || x in ours - theirs;
      assert forall x :: x in theirs <==> x in ours * theirs || x in theirs - ours;
    }
    if SaysNothing(DifferenceOf(given, i, taken, j)) {
      if NoRepeats(Digests(given.units, rank, hash, i)) && NoRepeats(Digests(taken.units, takenRank, hash, j)) {
        SameInAll(given, rank, i, taken, takenRank, j, hash);
        assert false;
      }
    }
  }

  function Times(x: nat, count: nat): (r: seq<nat>)
    ensures |r| == count && forall k :: 0 <= k < count ==> r[k] == x
  {
    seq(count, _ => x)
  }

  /** A unit above a leaf, which it lists so many times. */
  function Listing(leaf: Slot, top: Slot, hash: Hash, count: nat): Graph {
    var low := hash(Summary(leaf, [], []));
    UnitGraph([Compiled(leaf, [], []), Compiled(top, [], Times(0, count))],
              [low, hash(Summary(top, [], Times(low, count)))],
              [{Target}, {Target}])
  }

  lemma SortedTimes(x: nat, count: nat)
    ensures Sorted(Times(x, count)) == Times(x, count)
  {
    AscendingIsUnique(Sorted(Times(x, count)), Times(x, count));
  }

  /** A unit without dependencies, and one that lists it over and over. */
  ghost predicate Lists(g: Graph, leaf: Slot, top: Slot, count: nat) {
    g.units == [Compiled(leaf, [], []), Compiled(top, [], Times(0, count))]
  }

  lemma RankedListing(g: Graph, leaf: Slot, top: Slot, count: nat)
    requires Lists(g, leaf, top, count)
    ensures Ranked(g.units, [0, 1])
  {}

  lemma LeafDigest(g: Graph, leaf: Slot, top: Slot, hash: Hash, count: nat)
    requires Lists(g, leaf, top, count) && Ranked(g.units, [0, 1])
    ensures Digest(g.units, [0, 1], hash, 0) == hash(Summary(leaf, [], []))
  {
    assert Digests(g.units, [0, 1], hash, 0) == [];
  }

  lemma TopDigest(g: Graph, leaf: Slot, top: Slot, hash: Hash, count: nat, low: nat)
    requires Lists(g, leaf, top, count) && Ranked(g.units, [0, 1]) && low == Digest(g.units, [0, 1], hash, 0)
    ensures Digest(g.units, [0, 1], hash, 1) == hash(Summary(top, [], Times(low, count)))
  {
    assert Digests(g.units, [0, 1], hash, 1) == Times(low, count);
    SortedTimes(low, count);
  }

  lemma ListingKnown(leaf: Slot, top: Slot, hash: Hash, count: nat)
    ensures Known(Listing(leaf, top, hash, count), [0, 1], hash)
  {
    var g := Listing(leaf, top, hash, count);
    RankedListing(g, leaf, top, count);
    LeafDigest(g, leaf, top, hash, count);
    TopDigest(g, leaf, top, hash, count, g.ids[0]);
    KnownTwo(g, [0, 1], hash);
  }

  lemma KnownTwo(g: Graph, rank: seq<nat>, hash: Hash)
    requires Ranked(g.units, rank) && |g.units| == 2
    requires g.ids[0] == Digest(g.units, rank, hash, 0) && g.ids[1] == Digest(g.units, rank, hash, 1)
    ensures Known(g, rank, hash)
  {}

  lemma ListingSplits(leaf: Slot, top: Slot, hash: Hash, m: nat, n: nat)
    requires CollisionFree(hash) && leaf != top && m != n
    ensures Splits(Listing(leaf, top, hash, m), 1, Listing(leaf, top, hash, n))
  {
    var one, two := Listing(leaf, top, hash, m), Listing(leaf, top, hash, n);
    var low := one.ids[0];
    assert Target in two.roles[1] * one.roles[1];
    assert IsCounterpart(one, 1, two, 1);
    assert |Times(low, m)| != |Times(low, n)|;
    assert Summary(top, [], Times(low, m)) != Summary(top, [], Times(low, n));
  }

  /** A dependency listed more often by one build than by the other splits its unit, and
    * the report says nothing.
    */
  lemma RepeatSaysNothing(leaf: Slot, top: Slot, hash: Hash, m: nat, n: nat)
    requires CollisionFree(hash) && leaf != top && 0 < m < n
    ensures var one, two := Listing(leaf, top, hash, m), Listing(leaf, top, hash, n);
      && Known(one, [0, 1], hash) && Known(two, [0, 1], hash)
      && Splits(one, 1, two) && SaysNothing(DifferenceOf(one, 1, two, 1))
  {
    ListingKnown(leaf, top, hash, m);
    ListingKnown(leaf, top, hash, n);
    ListingSplits(leaf, top, hash, m, n);
    ListingSaysNothing(leaf, top, hash, m, n);
  }

  lemma ListingSaysNothing(leaf: Slot, top: Slot, hash: Hash, m: nat, n: nat)
    requires 0 < m && 0 < n
    ensures SaysNothing(DifferenceOf(Listing(leaf, top, hash, m), 1, Listing(leaf, top, hash, n), 1))
  {
    var one, two := Listing(leaf, top, hash, m), Listing(leaf, top, hash, n);
    ListedIds(one, one.ids[0]);
    ListedIds(two, two.ids[0]);
  }

  lemma ListedIds(g: Graph, low: nat)
    requires |g.units| == 2 && |g.units[1].dependencies| > 0 && g.ids[0] == low
    requires forall k :: 0 <= k < |g.units[1].dependencies| ==> g.units[1].dependencies[k] == 0
    ensures DependencyIds(g, 1) == {low}
  {
    assert g.ids[g.units[1].dependencies[0]] == low;
  }

  // ---------------------------------------------------------------------
  // What reuse means
  // ---------------------------------------------------------------------

  /** The later build compiles the unit too: the same slot, for some role of both. */
  ghost predicate CompiledAlso(given: Graph, i: nat, taken: Graph, j: nat)
    requires i < |given.units|
  {
    && j < |taken.units| && taken.units[j].slot == given.units[i].slot
    && exists role :: role in taken.roles[j] && role in given.roles[i]
  }

  lemma CounterpartMeans(given: Graph, i: nat, taken: Graph, j: nat)
    requires i < |given.units|
    ensures CompiledAlso(given, i, taken, j) <==> IsCounterpart(given, i, taken, j)
  {
    if j < |taken.units| {
      var common := taken.roles[j] * given.roles[i];
      if role :| role in common {
        assert role in taken.roles[j] && role in given.roles[i];
      }
      if role :| role in taken.roles[j] && role in given.roles[i] {
        assert role in common;
      }
    }
  }

  /** A unit splits exactly when the later build compiles it, and nowhere with the same
    * features and dependencies all the way down.
    */
  lemma SplitsIffOtherwise(given: Graph, rank: seq<nat>, i: nat, taken: Graph, takenRank: seq<nat>, hash: Hash)
    requires Known(given, rank, hash) && Known(taken, takenRank, hash)
    requires CollisionFree(hash) && i < |given.units|
    ensures Splits(given, i, taken) <==>
      && (exists j: nat :: CompiledAlso(given, i, taken, j))
      && forall j: nat :: CompiledAlso(given, i, taken, j) ==>
           Unfolding(taken.units, takenRank, j) != Unfolding(given.units, rank, i)
  {
    forall j: nat ensures CompiledAlso(given, i, taken, j) <==> IsCounterpart(given, i, taken, j) {
      CounterpartMeans(given, i, taken, j);
    }
    forall j: nat | IsCounterpart(given, i, taken, j)
      ensures taken.ids[j] == given.ids[i] <==>
              Unfolding(taken.units, takenRank, j) == Unfolding(given.units, rank, i)
    {
      DigestTells(taken.units, takenRank, given.units, rank, hash, j, i);
    }
  }

  ghost predicate DownFrom(units: Units, i: nat, path: seq<nat>) {
    && path != [] && path[0] == i && (forall k :: 0 <= k < |path| ==> path[k] < |units|)
    && forall k :: 0 < k < |path| ==> path[k] in units[path[k - 1]].dependencies
  }

  /** Equal digests were taken over equal digests of the dependencies. */
  lemma SameDependencyDigests(given: Graph, rank: seq<nat>, i: nat, taken: Graph, takenRank: seq<nat>, j: nat, hash: Hash)
    requires Known(given, rank, hash) && Known(taken, takenRank, hash) && CollisionFree(hash)
    requires i < |given.units| && j < |taken.units| && taken.ids[j] == given.ids[i]
    ensures multiset(Digests(given.units, rank, hash, i)) == multiset(Digests(taken.units, takenRank, hash, j))
  {
    var s, t := Digests(given.units, rank, hash, i), Digests(taken.units, takenRank, hash, j);
    DigestOver(given.units, rank, hash, i);
    DigestOver(taken.units, takenRank, hash, j);
    SortedAlike(s, t);
  }

  lemma DigestOver(units: Units, rank: seq<nat>, hash: Hash, i: nat)
    requires Ranked(units, rank) && i < |units|
    ensures Digest(units, rank, hash, i)
         == hash(Summary(units[i].slot, units[i].features, Sorted(Digests(units, rank, hash, i))))
  {}

  lemma IndexIn(s: seq<nat>, t: seq<nat>, k: nat) returns (m: nat)
    requires multiset(s) == multiset(t) && k < |s|
    ensures m < |t| && t[m] == s[k]
  {
    assert s[k] in multiset(s);
    assert s[k] in t;
    m :| 0 <= m < |t| && t[m] == s[k];
  }

  lemma IdBelow(g: Graph, rank: seq<nat>, hash: Hash, i: nat, k: nat)
    requires Known(g, rank, hash) && i < |g.units| && k < |g.units[i].dependencies|
    ensures Digests(g.units, rank, hash, i)[k] == g.ids[g.units[i].dependencies[k]]
  {}

  lemma OneBelow(given: Graph, rank: seq<nat>, i: nat, taken: Graph, takenRank: seq<nat>, j: nat, hash: Hash, d: nat) returns (e: nat)
    requires Known(given, rank, hash) && Known(taken, takenRank, hash) && CollisionFree(hash)
    requires i < |given.units| && j < |taken.units| && taken.ids[j] == given.ids[i]
    requires d in given.units[i].dependencies && d < |given.units|
    ensures e in taken.units[j].dependencies && e < |taken.units| && taken.ids[e] == given.ids[d]
  {
    var s, t := Digests(given.units, rank, hash, i), Digests(taken.units, takenRank, hash, j);
    SameDependencyDigests(given, rank, i, taken, takenRank, j, hash);
    var k :| 0 <= k < |given.units[i].dependencies| && given.units[i].dependencies[k] == d;
    var m := IndexIn(s, t, k);
    IdBelow(given, rank, hash, i, k);
    IdBelow(taken, takenRank, hash, j, m);
    e := taken.units[j].dependencies[m];
  }

  /** What is below a unit is below any with its digest. */
  ghost predicate AlikeBelow(given: Graph, taken: Graph) {
    forall i, j, d ::
      (0 <= i < |given.units| && 0 <= j < |taken.units| && taken.ids[j] == given.ids[i] && d in given.units[i].dependencies)
        ==> HasAlike(given, d, taken, taken.units[j].dependencies)
  }

  ghost predicate HasAlike(given: Graph, d: nat, taken: Graph, among: seq<nat>) {
    d < |given.units| && exists e :: e in among && e < |taken.units| && taken.ids[e] == given.ids[d]
  }

  lemma DigestsAlikeBelow(given: Graph, rank: seq<nat>, taken: Graph, takenRank: seq<nat>, hash: Hash)
    requires Known(given, rank, hash) && Known(taken, takenRank, hash) && CollisionFree(hash)
    ensures AlikeBelow(given, taken)
  {
    forall i, j, d | 0 <= i < |given.units| && 0 <= j < |taken.units| && taken.ids[j] == given.ids[i]
                     && d in given.units[i].dependencies
      ensures HasAlike(given, d, taken, taken.units[j].dependencies)
    {
      var e := OneBelow(given, rank, i, taken, takenRank, j, hash, d);
    }
  }

  lemma {:induction false} AlikeAlong(given: Graph, i: nat, taken: Graph, j: nat, path: seq<nat>) returns (theirs: seq<nat>)
    requires AlikeBelow(given, taken) && DownFrom(given.units, i, path)
    requires i < |given.units| && j < |taken.units| && taken.ids[j] == given.ids[i]
    ensures DownFrom(taken.units, j, theirs) && |theirs| == |path|
    ensures forall k :: 0 <= k < |path| ==> taken.ids[theirs[k]] == given.ids[path[k]]
    decreases |path|
  {
    if |path| == 1 {
      theirs := [j];
    } else {
      assert path[1] in given.units[path[0]].dependencies;
      assert HasAlike(given, path[1], taken, taken.units[j].dependencies);
      var e :| e in taken.units[j].dependencies && e < |taken.units| && taken.ids[e] == given.ids[path[1]];
      var below := path[1..];
      forall k | 0 < k < |below| ensures below[k] in given.units[below[k - 1]].dependencies {
        assert path[k + 1] in given.units[path[k + 1 - 1]].dependencies;
      }
      var rest := AlikeAlong(given, path[1], taken, e, below);
      theirs := [j] + rest;
      assert forall k :: 0 < k < |theirs| ==> theirs[k] == rest[k - 1];
    }
  }

  /** With a unit, all there is below it is reused: a way down from it is one down from
    * the other, digest for digest, and each unit on it unfolds as its fellow does.
    */
  lemma ReusedWhole(given: Graph, rank: seq<nat>, i: nat, taken: Graph, takenRank: seq<nat>, j: nat, hash: Hash, path: seq<nat>)
    returns (theirs: seq<nat>)
    requires Known(given, rank, hash) && Known(taken, takenRank, hash) && CollisionFree(hash)
    requires i < |given.units| && j < |taken.units| && taken.ids[j] == given.ids[i] && DownFrom(given.units, i, path)
    ensures DownFrom(taken.units, j, theirs) && |theirs| == |path|
    ensures forall k :: 0 <= k < |path| ==>
      taken.ids[theirs[k]] == given.ids[path[k]]
      && Unfolding(taken.units, takenRank, theirs[k]) == Unfolding(given.units, rank, path[k])
  {
    DigestsAlikeBelow(given, rank, taken, takenRank, hash);
    theirs := AlikeAlong(given, i, taken, j, path);
    forall k | 0 <= k < |path|
      ensures Unfolding(taken.units, takenRank, theirs[k]) == Unfolding(given.units, rank, path[k])
    {
      DigestTells(taken.units, takenRank, given.units, rank, hash, theirs[k], path[k]);
    }
  }

  // ---------------------------------------------------------------------
  // The check
  // ---------------------------------------------------------------------

  datatype Line = Line(unit: nat, theirs: nat, difference: Difference)

  method FindSplit(given: Graph, taken: Graph) returns (split: map<nat, seq<nat>>)
    ensures forall i: nat :: i in split <==> Splits(given, i, taken)
    ensures forall i: nat :: i in split ==> i < |given.units| && split[i] == Counterparts(given, i, taken, |taken.units|)
  {
    split := map[];
    for i := 0 to |given.units|
      invariant forall k: nat :: k in split <==> k < i && Splits(given, k, taken)
      invariant forall k: nat :: k in split ==> k < |given.units| && split[k] == Counterparts(given, k, taken, |taken.units|)
    {
      var theirs := Counterparts(given, i, taken, |taken.units|);
      var same := false;
      for m := 0 to |theirs|
        invariant same <==> exists j: nat :: j in theirs[..m] && j < |taken.units| && taken.ids[j] == given.ids[i]
      {
        assert theirs[m] in theirs;
        assert theirs[..m + 1] == theirs[..m] + [theirs[m]];
        if taken.ids[theirs[m]] == given.ids[i] { same := true; }
      }
      assert theirs[..|theirs|] == theirs;
      if theirs != [] && !same {
        assert IsCounterpart(given, i, taken, theirs[0]);
        split := split[i := theirs];
      }
    }
  }

  /** A line for a cause, a counterpart, and how they differ. */
  ghost predicate IsDue(given: Graph, taken: Graph, line: Line) {
    && IsCause(given, line.unit, taken) && IsCounterpart(given, line.unit, taken, line.theirs)
    && line.difference == DifferenceOf(given, line.unit, taken, line.theirs)
  }

  /** Whether every unit of `given` that `taken` compiles is reused, and a line for
    * each counterpart of each unit that is the cause of a split.
    */
  method Check(given: Graph, taken: Graph) returns (ok: bool, lines: seq<Line>)
    ensures ok <==> forall i: nat :: !Splits(given, i, taken)
    ensures forall line :: line in lines <==> IsDue(given, taken, line)
  {
    var split := FindSplit(given, taken);
    ok, lines := split == map[], [];
    if ok { return; }
    for i := 0 to |given.units|
      invariant forall line :: line in lines <==> line.unit < i && IsDue(given, taken, line)
    {
      var found := LinesAt(given, i, taken, split);
      lines := lines + found;
    }
  }

  /** The same of every earlier build and a later one that is to reuse it. */
  method CheckAll(reuses: seq<(Graph, Graph)>) returns (ok: bool, reports: seq<seq<Line>>)
    ensures ok <==> forall k, i: nat :: 0 <= k < |reuses| ==> !Splits(reuses[k].0, i, reuses[k].1)
    ensures |reports| == |reuses|
    ensures forall k, line :: 0 <= k < |reuses| ==> (line in reports[k] <==> IsDue(reuses[k].0, reuses[k].1, line))
  {
    ok, reports := true, [];
    for n := 0 to |reuses|
      invariant ok <==> forall k, i: nat :: 0 <= k < n ==> !Splits(reuses[k].0, i, reuses[k].1)
      invariant |reports| == n
      invariant forall k, line :: 0 <= k < n ==> (line in reports[k] <==> IsDue(reuses[k].0, reuses[k].1, line))
    {
      var fine, lines := Check(reuses[n].0, reuses[n].1);
      ok := ok && fine;
      reports := reports + [lines];
    }
  }

  /** The lines of one unit. */
  method LinesAt(given: Graph, i: nat, taken: Graph, split: map<nat, seq<nat>>) returns (lines: seq<Line>)
    requires i < |given.units| && forall k :: k in split.Keys <==> Splits(given, k, taken)
    requires i in split ==> split[i] == Counterparts(given, i, taken, |taken.units|)
    ensures forall line :: line in lines <==> line.unit == i && IsDue(given, taken, line)
  {
    CauseIff(given, i, taken, split.Keys);
    if i in split && !(exists k :: 0 <= k < |given.units[i].dependencies| && given.units[i].dependencies[k] in split.Keys) {
      lines := LinesOf(given, i, taken, split[i]);
      DueOf(given, i, taken, lines, split[i]);
    } else {
      lines := [];
    }
  }

  lemma CauseIff(given: Graph, i: nat, taken: Graph, split: set<nat>)
    requires i < |given.units| && forall k :: k in split <==> Splits(given, k, taken)
    ensures IsCause(given, i, taken) <==>
      (i in split && !(exists k :: 0 <= k < |given.units[i].dependencies| && given.units[i].dependencies[k] in split))
  {}

  lemma DueOf(given: Graph, i: nat, taken: Graph, found: seq<Line>, theirs: seq<nat>)
    requires IsCause(given, i, taken) && theirs == Counterparts(given, i, taken, |taken.units|)
    requires forall line :: line in found <==> IsLineOf(given, i, taken, theirs, line)
    ensures forall line :: line in found <==> line.unit == i && IsDue(given, taken, line)
  {}

  ghost predicate IsLineOf(given: Graph, i: nat, taken: Graph, theirs: seq<nat>, line: Line)
    requires i < |given.units|
  {
    line.unit == i && line.theirs in theirs && line.theirs < |taken.units|
    && line.difference == DifferenceOf(given, i, taken, line.theirs)
  }

  method LinesOf(given: Graph, i: nat, taken: Graph, theirs: seq<nat>) returns (lines: seq<Line>)
    requires i < |given.units| && forall j :: j in theirs ==> j < |taken.units|
    ensures forall line :: line in lines <==> IsLineOf(given, i, taken, theirs, line)
  {
    lines := [];
    for m := 0 to |theirs|
      invariant forall line :: line in lines <==>
        line.unit == i && line.theirs in theirs[..m] && line.theirs < |taken.units|
        && line.difference == DifferenceOf(given, i, taken, line.theirs)
    {
      assert theirs[m] in theirs;
      assert theirs[..m + 1] == theirs[..m] + [theirs[m]];
      lines := lines + [Line(i, theirs[m], DifferenceOf(given, i, taken, theirs[m]))];
    }
    assert theirs[..|theirs|] == theirs;
  }
}
