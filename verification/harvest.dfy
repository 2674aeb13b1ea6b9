/** The Kiln harvest: a walk reaches packages that no manifest declares, what they
  * depend on is acquired, and the walk is taken again until that resolves nothing more.
  */
module Harvest {

  datatype Option<T> = None | Some(value: T)

  // ---------------------------------------------------------------------
  // Indexes
  // ---------------------------------------------------------------------

  /** What a package's dependencies resolve to, and the same of the packages it reaches. */
  datatype Index = Index(resolved: map<string, string>, components: map<string, string>, packages: map<string, Index>)

  /** How many dependencies an index and the packages it reaches resolve. */
  ghost function ResolvedCount(i: Index): nat
    decreases i, 0
  {
    |i.resolved| + |i.components| + CountIn(i, i.packages.Keys)
  }

  ghost function CountIn(i: Index, names: set<string>): nat
    requires names <= i.packages.Keys
    decreases i, 0, |names|
  {
    if names == {} then 0
    else
      var n :| n in names;
      ResolvedCount(i.packages[n]) + CountIn(i, names - {n})
  }

  lemma {:induction false} CountInWith(i: Index, names: set<string>, n: string)
    requires names <= i.packages.Keys && n in names
    ensures CountIn(i, names) == ResolvedCount(i.packages[n]) + CountIn(i, names - {n})
    decreases |names|
  {
    var m :| m in names && CountIn(i, names) == ResolvedCount(i.packages[m]) + CountIn(i, names - {m});
    if m != n {
      CountInWith(i, names - {m}, n);
      CountInWith(i, names - {n}, m);
      assert names - {m} - {n} == names - {n} - {m};
    }
  }

  /** Every resolution of `a` is one of `b`. */
  ghost predicate Extends(a: Index, b: Index) {
    && a.resolved.Items <= b.resolved.Items && a.components.Items <= b.components.Items
    && forall n :: n in a.packages ==> n in b.packages && Extends(a.packages[n], b.packages[n])
  }

  ghost predicate Nothing(i: Index) {
    i.resolved == map[] && i.components == map[] && forall n :: n in i.packages ==> Nothing(i.packages[n])
  }

  /** `b` resolves what `a` does, and packages it reaches beside resolve nothing. */
  ghost predicate Alike(a: Index, b: Index) {
    && a.resolved == b.resolved && a.components == b.components
    && (forall n :: n in a.packages ==> n in b.packages && Alike(a.packages[n], b.packages[n]))
    && forall n :: n in b.packages && n !in a.packages ==> Nothing(b.packages[n])
  }

  lemma {:induction false} SubsetCounts<T>(a: set<T>, b: set<T>)
    requires a <= b
    ensures |a| <= |b| && (|a| == |b| <==> a == b)
    decreases |b|
  {
    if a != {} {
      var x :| x in a;
      SubsetCounts(a - {x}, b - {x});
      assert a == a - {x} + {x} && b == b - {x} + {x};
    } else if b != {} {
      var x :| x in b;
    }
  }

  lemma SubmapCounts(a: map<string, string>, b: map<string, string>)
    requires a.Items <= b.Items
    ensures |a| <= |b| && (|a| == |b| <==> a == b)
  {
    assert forall k :: k in a ==> (k, a[k]) in b.Items;
    SubsetCounts(a.Keys, b.Keys);
    assert |a.Keys| == |a| && |b.Keys| == |b|;
  }

  lemma {:induction false} CountSplits(i: Index, some: set<string>, others: set<string>)
    requires some <= i.packages.Keys && others <= i.packages.Keys && some !! others
    ensures CountIn(i, some + others) == CountIn(i, some) + CountIn(i, others)
    decreases |some|
  {
    if some == {} {
      assert some + others == others;
    } else {
      var n :| n in some;
      CountInWith(i, some, n);
      CountInWith(i, some + others, n);
      assert some + others - {n} == (some - {n}) + others;
      CountSplits(i, some - {n}, others);
    }
  }

  lemma {:induction false} NothingCounts(i: Index)
    ensures ResolvedCount(i) == 0 <==> Nothing(i)
    decreases i, 0
  {
    NothingIn(i, i.packages.Keys);
  }

  lemma {:induction false} NothingIn(i: Index, names: set<string>)
    requires names <= i.packages.Keys
    ensures CountIn(i, names) == 0 <==> forall n :: n in names ==> Nothing(i.packages[n])
    decreases i, 0, |names|
  {
    if names != {} {
      var n :| n in names;
      CountInWith(i, names, n);
      NothingCounts(i.packages[n]);
      NothingIn(i, names - {n});
      assert (forall m :: m in names ==> Nothing(i.packages[m])) <==>
             Nothing(i.packages[n]) && forall m :: m in names - {n} ==> Nothing(i.packages[m]);
    }
  }

  lemma {:induction false} CountGrows(a: Index, b: Index)
    requires Extends(a, b)
    ensures ResolvedCount(a) <= ResolvedCount(b)
    ensures ResolvedCount(a) == ResolvedCount(b) <==> Alike(a, b)
    decreases a, 0
  {
    SubmapCounts(a.resolved, b.resolved);
    SubmapCounts(a.components, b.components);
    CountGrowsIn(a, b, a.packages.Keys);
    var within := forall n :: n in a.packages.Keys ==> Alike(a.packages[n], b.packages[n]);
    var none := CountsBeside(a, b);
    assert Alike(a, b) <==> a.resolved == b.resolved && a.components == b.components && within && none by {
      AlikeParts(a, b, within, none);
    }
  }

  lemma AlikeParts(a: Index, b: Index, within: bool, none: bool)
    requires Extends(a, b)
    requires within <==> forall n :: n in a.packages.Keys ==> Alike(a.packages[n], b.packages[n])
    requires none <==> forall n :: n in b.packages && n !in a.packages ==> Nothing(b.packages[n])
    ensures Alike(a, b) <==> a.resolved == b.resolved && a.components == b.components && within && none
  {}

  lemma CountsBeside(a: Index, b: Index) returns (none: bool)
    requires a.packages.Keys <= b.packages.Keys
    ensures CountIn(b, b.packages.Keys) >= CountIn(b, a.packages.Keys)
    ensures none <==> CountIn(b, b.packages.Keys) == CountIn(b, a.packages.Keys)
    ensures none <==> forall n :: n in b.packages && n !in a.packages ==> Nothing(b.packages[n])
  {
    var beside := b.packages.Keys - a.packages.Keys;
    assert b.packages.Keys == a.packages.Keys + beside;
    CountSplits(b, a.packages.Keys, beside);
    NothingIn(b, beside);
    none := CountIn(b, beside) == 0;
  }

  lemma {:induction false} CountGrowsIn(a: Index, b: Index, names: set<string>)
    requires Extends(a, b) && names <= a.packages.Keys
    ensures names <= b.packages.Keys && CountIn(a, names) <= CountIn(b, names)
    ensures CountIn(a, names) == CountIn(b, names) <==> forall n :: n in names ==> Alike(a.packages[n], b.packages[n])
    decreases a, 0, |names|
  {
    if names != {} {
      var n :| n in names;
      CountInWith(a, names, n);
      CountInWith(b, names, n);
      CountGrows(a.packages[n], b.packages[n]);
      CountGrowsIn(a, b, names - {n});
      assert names == names - {n} + {n};
    }
  }

  /** Where acquiring only adds resolutions, more are counted exactly when some package
    * on the way resolves something it did not.
    */
  lemma ResolvesMoreIff(offline: Index, acquired: Index)
    requires Extends(offline, acquired)
    ensures ResolvedCount(acquired) > ResolvedCount(offline) <==> !Alike(offline, acquired)
  {
    CountGrows(offline, acquired);
  }

  /** `resolved_count` */
  method CountResolved(i: Index) returns (count: nat)
    ensures count == ResolvedCount(i)
    decreases i
  {
    count := |i.resolved| + |i.components|;
    var names := i.packages.Keys;
    while names != {}
      invariant names <= i.packages.Keys && count + CountIn(i, names) == ResolvedCount(i)
    {
      var n :| n in names;
      CountInWith(i, names, n);
      var more := CountResolved(i.packages[n]);
      count, names := count + more, names - {n};
    }
  }

  // ---------------------------------------------------------------------
  // What a walk reaches
  // ---------------------------------------------------------------------

  /** A package as a host based somewhere reads it. */
  datatype Read = Read(base: string, root: string)

  type Answers = Read -> Index

  /** Acquiring fails, finds no manifest to acquire by, or gives an index. */
  datatype Fetched = Failed | NoManifest | Got(index: Index)

  /** Outside the harvest: what an index leads a walk to, what a package is answered with
    * offline in each round, and what acquiring it gives.
    */
  datatype World = World(leads: Index -> set<Read>, offline: (nat, Read) -> Index, acquire: Read -> Fetched, all: set<Read>)

  /** A walk goes by resolutions alone, over finitely many packages, and acquiring only
    * adds resolutions.
    */
  ghost predicate Sensible(w: World) {
    && (forall a, b :: Alike(a, b) ==> w.leads(a) == w.leads(b))
    && (forall i :: w.leads(i) <= w.all)
    && forall t, r :: w.acquire(r).Got? ==> Extends(w.offline(t, r), w.acquire(r).index)
  }

  ghost predicate IsWay(w: World, answers: Answers, start: set<Read>, settled: set<Read>, way: seq<Read>) {
    && way != [] && way[0] in start
    && (forall k :: 0 <= k < |way| ==> way[k] !in settled)
    && forall k :: 0 < k < |way| ==> way[k] in w.leads(answers(way[k - 1]))
  }

  /** A walk past the packages in `settled` reaches `r`. */
  ghost predicate Reached(w: World, answers: Answers, start: set<Read>, settled: set<Read>, r: Read) {
    exists way :: IsWay(w, answers, start, settled, way) && way[|way| - 1] == r
  }

  lemma ReachedStart(w: World, answers: Answers, start: set<Read>, settled: set<Read>, r: Read)
    requires r in start && r !in settled
    ensures Reached(w, answers, start, settled, r)
  {
    assert IsWay(w, answers, start, settled, [r]);
  }

  lemma ReachedNext(w: World, answers: Answers, start: set<Read>, settled: set<Read>, r: Read, next: Read)
    requires Reached(w, answers, start, settled, r) && next in w.leads(answers(r)) && next !in settled
    ensures Reached(w, answers, start, settled, next)
  {
    var way :| IsWay(w, answers, start, settled, way) && way[|way| - 1] == r;
    assert IsWay(w, answers, start, settled, way + [next]);
  }

  /** The packages walked lead nowhere else. */
  ghost predicate Closed(w: World, answers: Answers, settled: set<Read>, walked: set<Read>, known: set<Read>) {
    forall r, next :: r in walked && next in w.leads(answers(r)) && next !in settled ==> next in known
  }

  lemma {:induction false} ClosedHolds(w: World, answers: Answers, start: set<Read>, settled: set<Read>, walked: set<Read>, way: seq<Read>)
    requires Closed(w, answers, settled, walked, walked) && start - settled <= walked
    requires IsWay(w, answers, start, settled, way)
    ensures way[|way| - 1] in walked
    decreases |way|
  {
    if |way| > 1 {
      var above := way[..|way| - 1];
      assert IsWay(w, answers, start, settled, above);
      ClosedHolds(w, answers, start, settled, walked, above);
    }
  }

  /** Two sets of answers that lead alike from what one of them reaches reach the same. */
  lemma {:induction false} AlikeWay(w: World, a: Answers, b: Answers, start: set<Read>, settled: set<Read>, way: seq<Read>)
    requires forall r :: Reached(w, a, start, settled, r) ==> w.leads(a(r)) == w.leads(b(r))
    requires IsWay(w, b, start, settled, way)
    ensures Reached(w, a, start, settled, way[|way| - 1])
    decreases |way|
  {
    var last := way[|way| - 1];
    if |way| == 1 {
      ReachedStart(w, a, start, settled, last);
    } else {
      var above := way[..|way| - 1];
      assert IsWay(w, b, start, settled, above);
      AlikeWay(w, a, b, start, settled, above);
      ReachedNext(w, a, start, settled, above[|above| - 1], last);
    }
  }

  lemma {:induction false} AlikeWayBack(w: World, a: Answers, b: Answers, start: set<Read>, settled: set<Read>, way: seq<Read>)
    requires forall r :: Reached(w, a, start, settled, r) ==> w.leads(a(r)) == w.leads(b(r))
    requires IsWay(w, a, start, settled, way)
    ensures Reached(w, b, start, settled, way[|way| - 1])
    decreases |way|
  {
    var last := way[|way| - 1];
    if |way| == 1 {
      ReachedStart(w, b, start, settled, last);
    } else {
      var above := way[..|way| - 1];
      assert IsWay(w, a, start, settled, above);
      AlikeWayBack(w, a, b, start, settled, above);
      assert Reached(w, a, start, settled, above[|above| - 1]);
      ReachedNext(w, b, start, settled, above[|above| - 1], last);
    }
  }

  lemma ReachAlike(w: World, a: Answers, b: Answers, start: set<Read>, settled: set<Read>, r: Read)
    requires forall r :: Reached(w, a, start, settled, r) ==> w.leads(a(r)) == w.leads(b(r))
    ensures Reached(w, a, start, settled, r) <==> Reached(w, b, start, settled, r)
  {
    if Reached(w, a, start, settled, r) {
      var way :| IsWay(w, a, start, settled, way) && way[|way| - 1] == r;
      AlikeWayBack(w, a, b, start, settled, way);
    }
    if Reached(w, b, start, settled, r) {
      var way :| IsWay(w, b, start, settled, way) && way[|way| - 1] == r;
      AlikeWay(w, a, b, start, settled, way);
    }
  }

  // ---------------------------------------------------------------------
  // The host
  // ---------------------------------------------------------------------

  datatype Undeclared = Offline(index: Index) | Acquired(index: Index)

  type Table = map<Read, Undeclared>

  /** What a package is answered with, in a round. */
  ghost function AnswersOf(w: World, table: Table, round: nat): Answers {
    r => if r in table && table[r].Acquired? then table[r].index else w.offline(round, r)
  }

  ghost function Have(table: Table): set<Read> {
    set r | r in table && table[r].Acquired?
  }

  /** No package that was acquired is answered otherwise. */
  ghost predicate KeepsAcquired(before: Table, after: Table) {
    forall r :: r in before && before[r].Acquired? ==> r in after && after[r] == before[r]
  }

  /** After a walk: the packages it reached are recorded as they were answered. */
  ghost predicate Recorded(w: World, before: Table, after: Table, round: nat, walked: set<Read>) {
    && KeepsAcquired(before, after) && Have(after) == Have(before) && after.Keys == before.Keys + walked
    && forall r :: r in walked ==> after[r].index == AnswersOf(w, before, round)(r)
  }

  class Host {
    const acquiring: bool
    var undeclared: Table

    constructor (acquiring: bool)
      ensures this.acquiring == acquiring && undeclared == map[]
    {
      this.acquiring := acquiring;
      undeclared := map[];
    }

    method PackageIndex(w: World, round: nat, read: Read) returns (index: Index)
      modifies this
      ensures index == AnswersOf(w, old(undeclared), round)(read)
      ensures if acquiring then Recorded(w, old(undeclared), undeclared, round, {read}) else undeclared == old(undeclared)
      ensures forall r :: r in old(undeclared) && r != read ==> undeclared[r] == old(undeclared)[r]
    {
      if read in undeclared && undeclared[read].Acquired? {
        assert undeclared.Keys == undeclared.Keys + {read};
        return undeclared[read].index;
      }
      index := w.offline(round, read);
      if acquiring { undeclared := undeclared[read := Offline(index)]; }
    }

    method AdoptAcquired(read: Read, index: Index)
      modifies this
      ensures undeclared == old(undeclared)[read := Acquired(index)]
    {
      undeclared := undeclared[read := Acquired(index)];
    }
  }

  lemma RecordedMore(w: World, a: Table, b: Table, c: Table, round: nat, walked: set<Read>, r: Read)
    requires Recorded(w, a, b, round, walked) && Recorded(w, b, c, round, {r})
    requires forall q :: q in b && q != r ==> c[q] == b[q]
    ensures Recorded(w, a, c, round, walked + {r})
  {
    forall q | q in walked + {r} ensures c[q].index == AnswersOf(w, a, round)(q) {
      SameAnswers(w, a, b, round, q);
      if q == r {
        assert c[q].index == AnswersOf(w, b, round)(q);
      } else {
        assert c[q] == b[q];
      }
    }
  }

  lemma SameAnswers(w: World, a: Table, b: Table, round: nat, r: Read)
    requires KeepsAcquired(a, b) && Have(a) == Have(b)
    ensures AnswersOf(w, a, round)(r) == AnswersOf(w, b, round)(r)
  {
    assert r in Have(a) <==> r in Have(b);
  }

  /** One walk: what it reaches, by the answers it was given. */
  method Walk(host: Host, w: World, round: nat, start: set<Read>, settled: set<Read>) returns (walked: set<Read>)
    requires Sensible(w) && start <= w.all
    modifies host
    ensures walked <= w.all
    ensures var answers := AnswersOf(w, old(host.undeclared), round);
      forall r :: r in walked <==> Reached(w, answers, start, settled, r)
    ensures if host.acquiring then Recorded(w, old(host.undeclared), host.undeclared, round, walked)
            else host.undeclared == old(host.undeclared)
  {
    ghost var table := host.undeclared;
    ghost var answers := AnswersOf(w, table, round);
    var todo := start - settled;
    walked := {};
    forall r | r in todo ensures Reached(w, answers, start, settled, r) { ReachedStart(w, answers, start, settled, r); }
    assert table.Keys + {} == table.Keys;
    while todo != {}
      invariant walked + todo <= w.all && walked !! todo && start - settled <= walked + todo
      invariant forall r :: r in walked + todo ==> Reached(w, answers, start, settled, r)
      invariant Closed(w, answers, settled, walked, walked + todo)
      invariant if host.acquiring then Recorded(w, table, host.undeclared, round, walked) else host.undeclared == table
      decreases w.all - walked
    {
      var r :| r in todo;
      ghost var before := host.undeclared;
      var index := host.PackageIndex(w, round, r);
      assert index == answers(r) by { SameAnswers(w, table, before, round, r); }
      if host.acquiring { RecordedMore(w, table, before, host.undeclared, round, walked, r); }
      forall next | next in w.leads(index) && next !in settled ensures Reached(w, answers, start, settled, next) {
        ReachedNext(w, answers, start, settled, r, next);
      }
      walked := walked + {r};
      todo := (todo + w.leads(index)) - settled - walked;
    }
    forall r | Reached(w, answers, start, settled, r) ensures r in walked {
      var way :| IsWay(w, answers, start, settled, way) && way[|way| - 1] == r;
      ClosedHolds(w, answers, start, settled, walked, way);
    }
  }

  /** Acquiring the package answered with `offline` resolves more. */
  ghost predicate GivesMore(w: World, r: Read, offline: Index) {
    w.acquire(r).Got? && ResolvedCount(w.acquire(r).index) > ResolvedCount(offline)
  }

  ghost predicate SomeGives(w: World, offline: map<Read, Index>, among: set<Read>)
    requires among <= offline.Keys
  {
    exists r :: r in among && GivesMore(w, r, offline[r])
  }

  lemma SomeGivesNext(w: World, offline: map<Read, Index>, among: set<Read>, r: Read)
    requires among <= offline.Keys && r in offline
    ensures SomeGives(w, offline, among + {r}) <==> SomeGives(w, offline, among) || GivesMore(w, r, offline[r])
  {}

  ghost predicate SomeOfflineFails(w: World, table: Table) {
    exists r :: r in table && table[r].Offline? && w.acquire(r).Failed?
  }

  /** What was acquired since is what acquiring gave, and did not fail. */
  ghost predicate FetchedSince(w: World, before: Table, after: Table) {
    forall r :: r in Have(after) && r !in Have(before) ==> FetchedFine(w, r, after[r].index)
  }

  predicate FetchedFine(w: World, r: Read, index: Index) {
    !w.acquire(r).Failed? && (w.acquire(r).Got? ==> index == w.acquire(r).index)
  }

  ghost predicate SomeOfflineGives(w: World, table: Table) {
    exists r :: r in table && table[r].Offline? && GivesMore(w, r, table[r].index)
  }

  function Adopted(w: World, r: Read, offline: Index): Index {
    if w.acquire(r).Got? then w.acquire(r).index else offline
  }

  /** Acquires every package recorded as offline. */
  method AcquireUndeclared(host: Host, w: World) returns (more: Option<bool>)
    modifies host
    ensures !host.acquiring ==> more == Some(false) && host.undeclared == old(host.undeclared)
    ensures KeepsAcquired(old(host.undeclared), host.undeclared)
    ensures host.undeclared.Keys == old(host.undeclared).Keys
    ensures host.acquiring && more.Some? ==>
      && (forall r :: r in old(host.undeclared) && old(host.undeclared)[r].Offline? ==>
            host.undeclared[r] == Acquired(Adopted(w, r, old(host.undeclared)[r].index)))
      && (more.value <==> SomeOfflineGives(w, old(host.undeclared)))
    ensures more.None? <==> host.acquiring && SomeOfflineFails(w, old(host.undeclared))
  {
    if !host.acquiring { return Some(false); }
    ghost var table := host.undeclared;
    var unacquired := map r | r in host.undeclared && host.undeclared[r].Offline? :: host.undeclared[r].index;
    var todo, resolvedMore := unacquired.Keys, false;
    while todo != {}
      invariant todo <= unacquired.Keys && KeepsAcquired(table, host.undeclared) && host.undeclared.Keys == table.Keys
      invariant forall r :: r in todo ==> host.undeclared[r] == table[r]
      invariant forall r :: r in unacquired && r !in todo ==> !w.acquire(r).Failed?
      invariant forall r :: r in unacquired && r !in todo ==> host.undeclared[r] == Acquired(Adopted(w, r, unacquired[r]))
      invariant resolvedMore <==> SomeGives(w, unacquired, unacquired.Keys - todo)
    {
      var r :| r in todo;
      var one := AcquireOne(host, w, r, unacquired[r]);
      if one.None? {
        assert SomeOfflineFails(w, table);
        return None;
      }
      resolvedMore := resolvedMore || one.value;
      SomeGivesNext(w, unacquired, unacquired.Keys - todo, r);
      assert unacquired.Keys - todo + {r} == unacquired.Keys - (todo - {r});
      todo := todo - {r};
    }
    assert unacquired.Keys - {} == unacquired.Keys;
    more := Some(resolvedMore);
  }

  /** The same of one package, answered with `offline` so far. */
  method AcquireOne(host: Host, w: World, r: Read, offline: Index) returns (more: Option<bool>)
    modifies host
    ensures more.None? <==> w.acquire(r).Failed?
    ensures host.undeclared == if more.None? then old(host.undeclared)
                               else old(host.undeclared)[r := Acquired(Adopted(w, r, offline))]
    ensures more.Some? ==> (more.value <==> GivesMore(w, r, offline))
  {
    match w.acquire(r) {
      case Failed => return None;
      case NoManifest =>
        host.AdoptAcquired(r, offline);
        return Some(false);
      case Got(acquired) =>
        var now := CountResolved(acquired);
        var before := CountResolved(offline);
        host.AdoptAcquired(r, acquired);
        return Some(now > before);
    }
  }

  /** After an acquisition that gave no more, what was walked leads as it did. */
  lemma NoMoreLeadsAlike(w: World, before: Table, walkedTable: Table, after: Table, round: nat, walked: set<Read>, r: Read)
    requires Sensible(w) && Recorded(w, before, walkedTable, round, walked) && r in walked
    requires KeepsAcquired(walkedTable, after) && r in walkedTable && r in after
    requires walkedTable[r].Offline? ==>
      after[r] == Acquired(Adopted(w, r, walkedTable[r].index)) && !GivesMore(w, r, walkedTable[r].index)
    ensures after[r].Acquired?
    ensures w.leads(AnswersOf(w, before, round)(r)) == w.leads(AnswersOf(w, after, round)(r))
  {
    if walkedTable[r].Offline? {
      var offline := walkedTable[r].index;
      assert r !in Have(walkedTable);
      assert r !in Have(before);
      assert offline == w.offline(round, r);
      if w.acquire(r).Got? { ResolvesMoreIff(offline, w.acquire(r).index); }
    } else {
      assert r in Have(walkedTable);
      assert r in Have(before);
    }
  }

  /** Walks and acquires until nothing more resolves. `unwalked` is passed over by every
    * walk, and `settled` tells what was harvested at the end. What was walked is what the
    * answers left behind reach, and no package's acquired answer is taken back.
    */
  method Harvest(host: Host, w: World, start: set<Read>, unwalked: set<Read>) returns (walked: Option<set<Read>>, settled: set<Read>)
    requires Sensible(w) && start <= w.all && host.undeclared.Keys <= w.all
    modifies host
    ensures KeepsAcquired(old(host.undeclared), host.undeclared)
    ensures walked.Some? ==> FetchedSince(w, old(host.undeclared), host.undeclared)
    ensures walked.Some? ==> settled == unwalked + walked.value
    ensures walked.Some? && host.acquiring ==>
      && (forall r :: r in host.undeclared ==> host.undeclared[r].Acquired?)
      && forall round, r :: r in walked.value <==> Reached(w, AnswersOf(w, host.undeclared, round), start, unwalked, r)
    ensures walked.Some? && host.acquiring ==> walked.value <= host.undeclared.Keys
    ensures walked.Some? && !host.acquiring ==>
      forall r :: r in walked.value <==> Reached(w, AnswersOf(w, old(host.undeclared), 0), start, unwalked, r)
    ensures walked.None? ==> host.acquiring && exists r :: w.acquire(r).Failed?
  {
    var round := 0;
    ghost var first := host.undeclared;
    while true
      invariant host.undeclared.Keys <= w.all && KeepsAcquired(first, host.undeclared)
      invariant !host.acquiring ==> host.undeclared == first && round == 0
      invariant FetchedSince(w, first, host.undeclared)
      decreases |w.all| - |Have(host.undeclared)|
    {
      ghost var before := host.undeclared;
      var reached := Walk(host, w, round, start, unwalked);
      ghost var recorded := host.undeclared;
      var more := AcquireUndeclared(host, w);
      if more.None? { return None, unwalked; }
      if host.acquiring { FetchedMore(w, first, before, recorded, host.undeclared); }
      if !more.value {
        settled := unwalked + reached;
        if host.acquiring { FinalReach(w, before, recorded, host.undeclared, round, start, unwalked, reached); }
        return Some(reached), settled;
      }
      HaveMore(w, before, recorded, host.undeclared);
      round := round + 1;
    }
  }

  lemma FetchedMore(w: World, first: Table, before: Table, recorded: Table, after: Table)
    requires FetchedSince(w, first, before) && Have(recorded) == Have(before)
    requires KeepsAcquired(before, recorded) && KeepsAcquired(recorded, after) && after.Keys == recorded.Keys
    requires !SomeOfflineFails(w, recorded)
    requires forall r :: r in recorded && recorded[r].Offline? ==> after[r] == Acquired(Adopted(w, r, recorded[r].index))
    ensures FetchedSince(w, first, after)
  {
    forall r | r in Have(after) && r !in Have(first) ensures FetchedFine(w, r, after[r].index) {
      if r in Have(before) {
        assert after[r] == before[r];
      } else {
        assert r !in Have(recorded);
      }
    }
  }

  lemma HaveMore(w: World, before: Table, recorded: Table, after: Table)
    requires Have(recorded) == Have(before) && KeepsAcquired(recorded, after) && after.Keys <= w.all
    requires exists r :: r in recorded && recorded[r].Offline? && r in after && after[r].Acquired?
    ensures |Have(before)| < |Have(after)| <= |w.all|
  {
    assert Have(recorded) <= Have(after);
    var r :| r in recorded && recorded[r].Offline? && r in after && after[r].Acquired?;
    assert r in Have(after) && r !in Have(recorded);
    SubsetCounts(Have(before), Have(after));
    SubsetCounts(Have(after), w.all);
  }

  lemma FinalReach(w: World, before: Table, recorded: Table, after: Table, round: nat, start: set<Read>, settled: set<Read>, walked: set<Read>)
    requires Sensible(w) && Recorded(w, before, recorded, round, walked)
    requires KeepsAcquired(recorded, after) && after.Keys == recorded.Keys
    requires !SomeOfflineGives(w, recorded)
    requires forall r :: r in recorded && recorded[r].Offline? ==> after[r] == Acquired(Adopted(w, r, recorded[r].index))
    requires forall r :: r in walked <==> Reached(w, AnswersOf(w, before, round), start, settled, r)
    ensures forall r :: r in after ==> after[r].Acquired?
    ensures forall any, r :: r in walked <==> Reached(w, AnswersOf(w, after, any), start, settled, r)
  {
    var a := AnswersOf(w, before, round);
    forall any, r ensures r in walked <==> Reached(w, AnswersOf(w, after, any), start, settled, r) {
      var b := AnswersOf(w, after, any);
      forall q | Reached(w, a, start, settled, q) ensures w.leads(a(q)) == w.leads(b(q)) {
        NoMoreLeadsAlike(w, before, recorded, after, round, walked, q);
        assert b(q) == AnswersOf(w, after, round)(q);
      }
      ReachAlike(w, a, b, start, settled, r);
    }
  }

  // ---------------------------------------------------------------------
  // One specifier, one package
  // ---------------------------------------------------------------------

  /** What a file of the build names: a component, or a source dependency. The index keeps
    * the two in maps of their own, here told apart by the key.
    */
  datatype Specifier = Component(name: string) | Source(name: string)

  /** `bind_once` */
  method BindOnce(bound: map<Specifier, string>, name: Specifier, path: string) returns (after: Option<map<Specifier, string>>)
    ensures after.None? <==> name in bound && bound[name] != path
    ensures after.Some? ==> after.value == bound[name := path]
  {
    if name in bound && bound[name] != path { return None; }
    return Some(bound[name := path]);
  }

  ghost predicate Agree(bound: map<Specifier, string>, pairs: seq<(Specifier, string)>) {
    && (forall i :: 0 <= i < |pairs| && pairs[i].0 in bound ==> bound[pairs[i].0] == pairs[i].1)
    && forall i, k :: 0 <= i < k < |pairs| && pairs[i].0 == pairs[k].0 ==> pairs[i].1 == pairs[k].1
  }

  /** Binding the specifiers of a build's files succeeds exactly when no two of them, nor
    * one and the manifest's, name different sources; the order does not matter.
    */
  method BindAll(bound: map<Specifier, string>, pairs: seq<(Specifier, string)>) returns (after: Option<map<Specifier, string>>)
    ensures after.Some? <==> Agree(bound, pairs)
    ensures after.Some? ==>
      && bound.Items <= after.value.Items
      && forall n, p :: (n, p) in after.value.Items <==> (n, p) in bound.Items || (n, p) in pairs
  {
    var now := bound;
    for i := 0 to |pairs|
      invariant Agree(bound, pairs[..i]) && bound.Items <= now.Items
      invariant forall n, p :: (n, p) in now.Items <==> (n, p) in bound.Items || (n, p) in pairs[..i]
    {
      var (name, path) := pairs[i];
      assert pairs[..i + 1] == pairs[..i] + [(name, path)];
      var next := BindOnce(now, name, path);
      if next.None? {
        assert (name, now[name]) in now.Items;
        if (name, now[name]) in pairs[..i] {
          var k :| 0 <= k < i && pairs[k] == (name, now[name]);
          assert !Agree(bound, pairs);
        }
        return None;
      }
      BindsOne(bound, now, pairs, i);
      now := next.value;
    }
    assert pairs[..|pairs|] == pairs;
    after := Some(now);
  }

  lemma BindsOne(bound: map<Specifier, string>, now: map<Specifier, string>, pairs: seq<(Specifier, string)>, i: nat)
    requires i < |pairs| && Agree(bound, pairs[..i]) && bound.Items <= now.Items
    requires forall n, p :: (n, p) in now.Items <==> (n, p) in bound.Items || (n, p) in pairs[..i]
    requires pairs[i].0 in now ==> now[pairs[i].0] == pairs[i].1
    ensures Agree(bound, pairs[..i + 1])
    ensures var next := now[pairs[i].0 := pairs[i].1];
      && bound.Items <= next.Items
      && forall n, p :: (n, p) in next.Items <==> (n, p) in bound.Items || (n, p) in pairs[..i + 1]
  {
    var (name, path) := pairs[i];
    var next := now[name := path];
    assert pairs[..i + 1] == pairs[..i] + [(name, path)];
    forall k | 0 <= k < i && pairs[k].0 == name ensures pairs[k].1 == path {
      assert pairs[..i][k] == pairs[k] && (pairs[k].0, pairs[k].1) in now.Items;
    }
    if name in bound { assert (name, bound[name]) in now.Items; }
    forall n, p ensures (n, p) in next.Items <==> (n, p) in now.Items || (n, p) == (name, path) {
      if n == name && (n, p) in now.Items { assert now[name] == p; }
    }
  }
}
