/** A digest for each unit, over what decides how it comes out, and what comparing the
  * digests of two builds tells.
  */
module Identities {
  import opened Prebuilt

  // ---------------------------------------------------------------------
  // Sorting
  // ---------------------------------------------------------------------

  ghost predicate Ascending(s: seq<nat>) {
    forall i, k :: 0 <= i < k < |s| ==> s[i] <= s[k]
  }

  function Insert(x: nat, s: seq<nat>): (r: seq<nat>)
    ensures multiset(r) == multiset{x} + multiset(s)
  {
    if s == [] || x <= s[0] then [x] + s
    else
      assert s == [s[0]] + s[1..];
      [s[0]] + Insert(x, s[1..])
  }

  lemma InsertAbove(x: nat, s: seq<nat>, least: nat)
    requires least <= x && forall k :: 0 <= k < |s| ==> least <= s[k]
    ensures forall k :: 0 <= k < |Insert(x, s)| ==> least <= Insert(x, s)[k]
  {
    var r := Insert(x, s);
    forall k | 0 <= k < |r| ensures least <= r[k] {
      assert r[k] in multiset(r);
      assert r[k] == x || r[k] in s;
    }
  }

  lemma {:induction false} InsertAscends(x: nat, s: seq<nat>)
    requires Ascending(s)
    ensures Ascending(Insert(x, s))
  {
    if s != [] && x > s[0] {
      InsertAscends(x, s[1..]);
      InsertAbove(x, s[1..], s[0]);
    }
  }

  function Sorted(s: seq<nat>): (r: seq<nat>)
    ensures multiset(r) == multiset(s) && Ascending(r)
  {
    if s == [] then [] else
    assert s == [s[0]] + s[1..];
    InsertAscends(s[0], Sorted(s[1..]));
    Insert(s[0], Sorted(s[1..]))
  }

  lemma LeastFirst(s: seq<nat>, x: nat)
    requires Ascending(s) && x in multiset(s)
    ensures s != [] && s[0] <= x
  {
    assert x in s;
  }

  /** Sorting forgets the order and nothing else. */
  lemma {:induction false} AscendingIsUnique(s: seq<nat>, t: seq<nat>)
    requires Ascending(s) && Ascending(t) && multiset(s) == multiset(t)
    ensures s == t
    decreases |s|
  {
    assert |s| == |multiset(s)| == |multiset(t)| == |t|;
    if s != [] {
      assert s[0] in multiset(s) && t[0] in multiset(t);
      LeastFirst(s, t[0]);
      LeastFirst(t, s[0]);
      var s', t' := s[1..], t[1..];
      assert s[0] == t[0] && s == [s[0]] + s' && t == [t[0]] + t';
      assert multiset(s) == multiset(s') + multiset{s[0]} && multiset(t) == multiset(t') + multiset{s[0]};
      CancelOne(multiset(s'), multiset(t'), s[0]);
      AscendingIsUnique(s', t');
    }
  }

  lemma SortedAlike(s: seq<nat>, t: seq<nat>)
    ensures Sorted(s) == Sorted(t) <==> multiset(s) == multiset(t)
  {
    if multiset(s) == multiset(t) { AscendingIsUnique(Sorted(s), Sorted(t)); }
  }

  // ---------------------------------------------------------------------
  // Lists that tell their elements apart alike
  // ---------------------------------------------------------------------

  /** Two pairs of lists, the first pair's elements equal just where the second's are. */
  ghost predicate TellAlike<A(!new), B(!new)>(a: seq<A>, b: seq<A>, c: seq<B>, d: seq<B>) {
    && |a| == |c| && |b| == |d|
    && forall i, k :: 0 <= i < |a| && 0 <= k < |b| ==> (a[i] == b[k] <==> c[i] == d[k])
  }

  function Cut<A>(s: seq<A>, k: nat): seq<A>
    requires k < |s|
  {
    s[..k] + s[k + 1..]
  }

  lemma CutCounts<A>(s: seq<A>, k: nat)
    requires k < |s|
    ensures multiset(s) == multiset(Cut(s, k)) + multiset{s[k]}
  {
    assert s == s[..k] + [s[k]] + s[k + 1..];
  }

  lemma CancelOne<A>(p: multiset<A>, q: multiset<A>, x: A)
    requires p + multiset{x} == q + multiset{x}
    ensures p == q
  {
    assert p == p + multiset{x} - multiset{x};
  }

  lemma AlikeWithout<A(!new), B(!new)>(a: seq<A>, b: seq<A>, c: seq<B>, d: seq<B>, k: nat)
    requires TellAlike(a, b, c, d) && a != [] && k < |b|
    ensures TellAlike(Cut(a, 0), Cut(b, k), Cut(c, 0), Cut(d, k))
  {
    var a', b', c', d' := Cut(a, 0), Cut(b, k), Cut(c, 0), Cut(d, k);
    forall i, j | 0 <= i < |a'| && 0 <= j < |b'| ensures a'[i] == b'[j] <==> c'[i] == d'[j] {
      var from := if j < k then j else j + 1;
      assert b'[j] == b[from] && d'[j] == d[from] && a'[i] == a[i + 1] && c'[i] == c[i + 1];
    }
  }

  lemma {:induction false} SameMultisets<A(!new), B(!new)>(a: seq<A>, b: seq<A>, c: seq<B>, d: seq<B>)
    requires TellAlike(a, b, c, d) && multiset(a) == multiset(b)
    ensures multiset(c) == multiset(d)
    decreases |a|
  {
    assert |a| == |multiset(a)| == |multiset(b)| == |b|;
    if a != [] {
      assert a[0] in multiset(b);
      var k :| 0 <= k < |b| && b[k] == a[0];
      AlikeWithout(a, b, c, d, k);
      CutCounts(a, 0);
      CutCounts(b, k);
      CutCounts(c, 0);
      CutCounts(d, k);
      CancelOne(multiset(Cut(a, 0)), multiset(Cut(b, k)), a[0]);
      SameMultisets(Cut(a, 0), Cut(b, k), Cut(c, 0), Cut(d, k));
      assert c[0] == d[k];
    }
  }

  // ---------------------------------------------------------------------
  // Digests
  // ---------------------------------------------------------------------

  /** All that decides how a unit comes out, as far down as it goes. */
  datatype Tree = Tree(slot: Slot, features: seq<string>, dependencies: multiset<Tree>)

  ghost function Unfolding(units: Units, rank: seq<nat>, i: nat): Tree
    requires Ranked(units, rank) && i < |units|
    decreases rank[i]
  {
    Tree(units[i].slot, units[i].features, multiset(Unfoldings(units, rank, i)))
  }

  ghost function Unfoldings(units: Units, rank: seq<nat>, i: nat): (r: seq<Tree>)
    requires Ranked(units, rank) && i < |units|
    ensures |r| == |units[i].dependencies|
    decreases rank[i], 0
  {
    seq(|units[i].dependencies|, k requires 0 <= k < |units[i].dependencies| =>
      Unfolding(units, rank, units[i].dependencies[k]))
  }

  /** What goes into a digest. */
  datatype Summary = Summary(slot: Slot, features: seq<string>, dependencies: seq<nat>)

  type Hash = Summary -> nat

  ghost predicate CollisionFree(hash: Hash) {
    forall a, b :: hash(a) == hash(b) ==> a == b
  }

  ghost function Digest(units: Units, rank: seq<nat>, hash: Hash, i: nat): nat
    requires Ranked(units, rank) && i < |units|
    decreases rank[i], 1
  {
    hash(Summary(units[i].slot, units[i].features, Sorted(Digests(units, rank, hash, i))))
  }

  ghost function Digests(units: Units, rank: seq<nat>, hash: Hash, i: nat): (r: seq<nat>)
    requires Ranked(units, rank) && i < |units|
    ensures |r| == |units[i].dependencies|
    decreases rank[i], 0
  {
    seq(|units[i].dependencies|, k requires 0 <= k < |units[i].dependencies| =>
      Digest(units, rank, hash, units[i].dependencies[k]))
  }

  /** Digests are equal exactly when all that decides how two units come out is. */
  lemma {:induction false} DigestTells(units: Units, rank: seq<nat>, others: Units, otherRank: seq<nat>, hash: Hash, i: nat, j: nat)
    requires Ranked(units, rank) && i < |units| && Ranked(others, otherRank) && j < |others| && CollisionFree(hash)
    ensures Digest(units, rank, hash, i) == Digest(others, otherRank, hash, j)
       <==> Unfolding(units, rank, i) == Unfolding(others, otherRank, j)
    decreases rank[i]
  {
    var a, b := Digests(units, rank, hash, i), Digests(others, otherRank, hash, j);
    var c, d := Unfoldings(units, rank, i), Unfoldings(others, otherRank, j);
    forall m, n | 0 <= m < |a| && 0 <= n < |b| ensures a[m] == b[n] <==> c[m] == d[n] {
      DigestTells(units, rank, others, otherRank, hash, units[i].dependencies[m], others[j].dependencies[n]);
    }
    SortedAlike(a, b);
    if multiset(a) == multiset(b) { SameMultisets(a, b, c, d); }
    if multiset(c) == multiset(d) { SameMultisets(c, d, a, b); }
  }

  ghost predicate Right(units: Units, rank: seq<nat>, hash: Hash, known: map<nat, nat>)
    requires Ranked(units, rank)
  {
    forall i: nat :: i in known ==> i < |units| && known[i] == Digest(units, rank, hash, i)
  }

  lemma PrefixNext(s: seq<nat>, k: nat, x: nat)
    requires k < |s| && s[k] == x
    ensures s[..k] + [x] == s[..k + 1]
  {}

  lemma DigestsAt(units: Units, rank: seq<nat>, hash: Hash, i: nat, k: nat)
    requires Ranked(units, rank) && i < |units| && k < |units[i].dependencies|
    ensures Digests(units, rank, hash, i)[k] == Digest(units, rank, hash, units[i].dependencies[k])
  {}

  lemma Remember(units: Units, rank: seq<nat>, hash: Hash, known: map<nat, nat>, i: nat, digests: seq<nat>)
    requires Ranked(units, rank) && i < |units| && Right(units, rank, hash, known)
    requires digests == Digests(units, rank, hash, i)
    ensures var digest := hash(Summary(units[i].slot, units[i].features, Sorted(digests)));
      digest == Digest(units, rank, hash, i) && Right(units, rank, hash, known[i := digest])
  {}

  /** Remembers each digest once it is known. */
  class Memo {
    const units: Units
    const hash: Hash
    var known: map<nat, nat>

    constructor (units: Units, hash: Hash)
      ensures this.units == units && this.hash == hash && known == map[]
    {
      this.units, this.hash, known := units, hash, map[];
    }

    ghost predicate Valid(rank: seq<nat>)
      reads this
    {
      Ranked(units, rank) && Right(units, rank, hash, known)
    }

    method Identity(index: nat, ghost rank: seq<nat>) returns (digest: nat)
      requires Valid(rank) && index < |units|
      modifies this
      decreases rank[index]
      ensures Valid(rank) && digest == Digest(units, rank, hash, index)
    {
      if index in known { return known[index]; }
      var unit := units[index];
      var dependencies := [];
      ghost var all := Digests(units, rank, hash, index);
      for k := 0 to |unit.dependencies|
        invariant Valid(rank) && dependencies == all[..k]
      {
        DigestsAt(units, rank, hash, index, k);
        var next := Identity(unit.dependencies[k], rank);
        PrefixNext(all, k, next);
        dependencies := dependencies + [next];
      }
      assert all[..|all|] == all;
      Remember(units, rank, hash, known, index, dependencies);
      digest := hash(Summary(unit.slot, unit.features, Sorted(dependencies)));
      known := known[index := digest];
    }
  }

  method IdentitiesOf(units: Units, hash: Hash, ghost rank: seq<nat>) returns (ids: seq<nat>)
    requires Ranked(units, rank)
    ensures |ids| == |units| && forall i :: 0 <= i < |units| ==> ids[i] == Digest(units, rank, hash, i)
  {
    var memo := new Memo(units, hash);
    ids := [];
    for i := 0 to |units|
      invariant memo.units == units && memo.hash == hash && memo.Valid(rank)
      invariant |ids| == i && forall k :: 0 <= k < i ==> ids[k] == Digest(units, rank, hash, k)
    {
      var id := memo.Identity(i, rank);
      ids := ids + [id];
    }
  }
}
