/** The key an eval outcome is cached under: what is fed to the hasher, and that
  * no two sets of ingredients feed it alike.
  */
module EvalKey {

  datatype Option<T> = None | Some(value: T)

  type Byte = b: int | 0 <= b < 256
  type Bytes = seq<Byte>

  // ---------------------------------------------------------------------
  // Numbers and fields
  // ---------------------------------------------------------------------

  function Power256(k: nat): (r: nat)
    ensures r >= 1
  {
    if k == 0 then 1 else 256 * Power256(k - 1)
  }

  /** A 64-bit word. */
  predicate Word(n: nat) { n < Power256(8) }

  function LittleEndian(n: nat, k: nat): (r: Bytes)
    ensures |r| == k
  {
    if k == 0 then [] else [n % 256] + LittleEndian(n / 256, k - 1)
  }

  function FromLittleEndian(bs: Bytes): nat {
    if bs == [] then 0 else bs[0] + 256 * FromLittleEndian(bs[1..])
  }

  lemma {:induction false} LittleEndianRoundTrip(n: nat, k: nat)
    requires n < Power256(k)
    ensures FromLittleEndian(LittleEndian(n, k)) == n
    decreases k
  {
    if k > 0 {
      LittleEndianRoundTrip(n / 256, k - 1);
      assert LittleEndian(n, k)[1..] == LittleEndian(n / 256, k - 1);
    }
  }

  function Le64(n: nat): (r: Bytes)
    ensures |r| == 8
  {
    LittleEndian(n, 8)
  }

  lemma Le64Cut(n: nat, m: nat, x: Bytes, y: Bytes)
    requires Word(n) && Word(m) && Le64(n) + x == Le64(m) + y
    ensures n == m && x == y
  {
    FixedCut(Le64(n), x, Le64(m), y);
    LittleEndianRoundTrip(n, 8);
    LittleEndianRoundTrip(m, 8);
  }

  lemma FixedCut(a: Bytes, x: Bytes, b: Bytes, y: Bytes)
    requires |a| == |b| && a + x == b + y
    ensures a == b && x == y
  {
    assert (a + x)[..|a|] == a && (b + y)[..|a|] == b;
    assert (a + x)[|a|..] == x && (b + y)[|a|..] == y;
  }

  /** A length-prefixed field, and what follows it. */
  function Field(bytes: Bytes, rest: Bytes): Bytes { Le64(|bytes|) + (bytes + rest) }

  predicate Fits<T>(s: seq<T>) { Word(|s|) }

  /** A field can be told from whatever follows it. */
  lemma FieldCut(a: Bytes, x: Bytes, b: Bytes, y: Bytes)
    requires Fits(a) && Fits(b) && Field(a, x) == Field(b, y)
    ensures a == b && x == y
  {
    Le64Cut(|a|, |b|, a + x, b + y);
    FixedCut(a, x, b, y);
  }

  // ---------------------------------------------------------------------
  // Lists of fields
  // ---------------------------------------------------------------------

  type Entries = seq<(Bytes, Bytes)>

  function Pairs(es: Entries, rest: Bytes): Bytes {
    if es == [] then rest else Field(es[0].0, Field(es[0].1, Pairs(es[1..], rest)))
  }

  ghost predicate PairsFit(es: Entries) {
    forall i :: 0 <= i < |es| ==> Fits(es[i].0) && Fits(es[i].1)
  }

  /** A list of entries, counted, and what follows it. */
  function Counted(es: Entries, rest: Bytes): Bytes { Le64(|es|) + Pairs(es, rest) }

  lemma {:induction false} PairsCut(es: Entries, x: Bytes, fs: Entries, y: Bytes)
    requires PairsFit(es) && PairsFit(fs) && |es| == |fs| && Pairs(es, x) == Pairs(fs, y)
    ensures es == fs && x == y
    decreases |es|
  {
    if es != [] {
      var p, q := Pairs(es[1..], x), Pairs(fs[1..], y);
      FieldCut(es[0].0, Field(es[0].1, p), fs[0].0, Field(fs[0].1, q));
      FieldCut(es[0].1, p, fs[0].1, q);
      PairsCut(es[1..], x, fs[1..], y);
      assert es == [es[0]] + es[1..] && fs == [fs[0]] + fs[1..];
    }
  }

  lemma CountedCut(es: Entries, x: Bytes, fs: Entries, y: Bytes)
    requires Fits(es) && Fits(fs) && PairsFit(es) && PairsFit(fs) && Counted(es, x) == Counted(fs, y)
    ensures es == fs && x == y
  {
    Le64Cut(|es|, |fs|, Pairs(es, x), Pairs(fs, y));
    PairsCut(es, x, fs, y);
  }

  function Flags(fs: seq<Bytes>, rest: Bytes): Bytes {
    if fs == [] then rest else Field(fs[0], Flags(fs[1..], rest))
  }

  lemma {:induction false} FlagsCut(fs: seq<Bytes>, x: Bytes, gs: seq<Bytes>, y: Bytes)
    requires |fs| == |gs| && forall i :: 0 <= i < |fs| ==> Fits(fs[i]) && Fits(gs[i])
    requires Flags(fs, x) == Flags(gs, y)
    ensures fs == gs && x == y
    decreases |fs|
  {
    if fs != [] {
      FieldCut(fs[0], Flags(fs[1..], x), gs[0], Flags(gs[1..], y));
      FlagsCut(fs[1..], x, gs[1..], y);
      assert fs == [fs[0]] + fs[1..] && gs == [gs[0]] + gs[1..];
    }
  }

  // ---------------------------------------------------------------------
  // The dependency index
  // ---------------------------------------------------------------------

  datatype Manifest = Manifest(path: Bytes, error: Option<Bytes>)

  datatype Index = Index(
    resolved: Entries,
    components: Entries,
    unresolved: Entries,
    exports: Entries,
    manifest: Option<Manifest>,
    packages: seq<(Bytes, Index)>)

  /** A debug rendering tells what it renders. */
  ghost predicate Telling<T(!new)>(show: T -> Bytes) {
    forall a, b :: show(a) == show(b) ==> a == b
  }

  type Show = Option<Manifest> -> Bytes

  /** What `hash_index` feeds: one package's bindings, its `packages` aside. */
  function Bindings(i: Index, show: Show, rest: Bytes): Bytes {
    Counted(i.resolved, Counted(i.components, Counted(i.unresolved, Counted(i.exports, Field(show(i.manifest), rest)))))
  }

  ghost predicate IndexFits(i: Index, show: Show) {
    && Fits(i.resolved) && Fits(i.components) && Fits(i.unresolved) && Fits(i.exports)
    && PairsFit(i.resolved) && PairsFit(i.components) && PairsFit(i.unresolved) && PairsFit(i.exports)
    && Fits(show(i.manifest))
  }

  lemma BindingsCut(i: Index, x: Bytes, j: Index, y: Bytes, show: Show)
    requires IndexFits(i, show) && IndexFits(j, show) && Telling(show)
    requires Bindings(i, show, x) == Bindings(j, show, y)
    ensures i.(packages := []) == j.(packages := []) && x == y
  {
    var m, n := Field(show(i.manifest), x), Field(show(j.manifest), y);
    var e, f := Counted(i.exports, m), Counted(j.exports, n);
    var u, v := Counted(i.unresolved, e), Counted(j.unresolved, f);
    CountedCut(i.resolved, Counted(i.components, u), j.resolved, Counted(j.components, v));
    CountedCut(i.components, u, j.components, v);
    CountedCut(i.unresolved, e, j.unresolved, f);
    CountedCut(i.exports, m, j.exports, n);
    FieldCut(show(i.manifest), x, show(j.manifest), y);
  }

  type PackageList = seq<(Bytes, Index)>

  function Packages(ps: PackageList, show: Show, rest: Bytes): Bytes {
    if ps == [] then rest else Field(ps[0].0, Bindings(ps[0].1, show, Packages(ps[1..], show, rest)))
  }

  ghost predicate PackageFits(p: (Bytes, Index), show: Show) { Fits(p.0) && IndexFits(p.1, show) }

  /** The packages, without those nested in them. */
  function Shallow(ps: PackageList): PackageList {
    if ps == [] then [] else [(ps[0].0, ps[0].1.(packages := []))] + Shallow(ps[1..])
  }

  lemma {:induction false} PackagesCut(ps: PackageList, x: Bytes, qs: PackageList, y: Bytes, show: Show)
    requires Telling(show) && |ps| == |qs|
    requires forall i :: 0 <= i < |ps| ==> PackageFits(ps[i], show) && PackageFits(qs[i], show)
    requires Packages(ps, show, x) == Packages(qs, show, y)
    ensures Shallow(ps) == Shallow(qs) && x == y
    decreases |ps|
  {
    if ps != [] {
      var p, q := Packages(ps[1..], show, x), Packages(qs[1..], show, y);
      assert PackageFits(ps[0], show) && PackageFits(qs[0], show);
      FieldCut(ps[0].0, Bindings(ps[0].1, show, p), qs[0].0, Bindings(qs[0].1, show, q));
      BindingsCut(ps[0].1, p, qs[0].1, q, show);
      PackagesCut(ps[1..], x, qs[1..], y, show);
    }
  }

  // ---------------------------------------------------------------------
  // The key
  // ---------------------------------------------------------------------

  datatype Knobs = Knobs(optLevel: nat, codegenFlags: seq<Bytes>)

  /** `ceiling` is the `MEMORY_CEILING` that the host was built with. */
  datatype Ingredients = Ingredients(compiler: Bytes, index: Index, knobs: Knobs, fuel: nat, ceiling: nat, source: Bytes)

  /** How the manifest and the optimization level are rendered. */
  datatype Renderings = Renderings(manifest: Show, optLevel: nat -> Bytes)

  /** The stream from the fuel on. */
  function Limits(k: Ingredients): Bytes {
    Le64(k.fuel) + (Le64(k.ceiling) + Field(k.source, []))
  }

  /** The stream from the optimization level on. */
  function Tail(k: Ingredients, show: Renderings): Bytes {
    Field(show.optLevel(k.knobs.optLevel), Le64(|k.knobs.codegenFlags|) + Flags(k.knobs.codegenFlags, Limits(k)))
  }

  /** What `key` feeds the hasher. */
  function Stream(k: Ingredients, show: Renderings): Bytes {
    k.compiler + Bindings(k.index, show.manifest,
      Le64(|k.index.packages|) + Packages(k.index.packages, show.manifest, Tail(k, show)))
  }

  /** Every length and the fuel fit a 64-bit word, and the digest is 32 bytes. */
  ghost predicate Keyable(k: Ingredients, show: Renderings) {
    && |k.compiler| == 32 && Word(k.fuel) && Word(k.ceiling) && Fits(k.source)
    && IndexFits(k.index, show.manifest)
    && Fits(k.index.packages)
    && (forall i :: 0 <= i < |k.index.packages| ==> PackageFits(k.index.packages[i], show.manifest))
    && Fits(show.optLevel(k.knobs.optLevel))
    && Fits(k.knobs.codegenFlags) && (forall i :: 0 <= i < |k.knobs.codegenFlags| ==> Fits(k.knobs.codegenFlags[i]))
  }

  /** What the key can tell: all but the packages nested in packages. */
  function Told(k: Ingredients): Ingredients {
    k.(index := k.index.(packages := Shallow(k.index.packages)))
  }

  lemma TailTells(a: Ingredients, b: Ingredients, show: Renderings)
    requires Telling(show.optLevel) && Keyable(a, show) && Keyable(b, show) && Tail(a, show) == Tail(b, show)
    ensures a.knobs == b.knobs && a.fuel == b.fuel && a.ceiling == b.ceiling && a.source == b.source
  {
    var p, q := Flags(a.knobs.codegenFlags, Limits(a)), Flags(b.knobs.codegenFlags, Limits(b));
    FieldCut(show.optLevel(a.knobs.optLevel), Le64(|a.knobs.codegenFlags|) + p,
             show.optLevel(b.knobs.optLevel), Le64(|b.knobs.codegenFlags|) + q);
    Le64Cut(|a.knobs.codegenFlags|, |b.knobs.codegenFlags|, p, q);
    FlagsCut(a.knobs.codegenFlags, Limits(a), b.knobs.codegenFlags, Limits(b));
    var m, n := Field(a.source, []), Field(b.source, []);
    Le64Cut(a.fuel, b.fuel, Le64(a.ceiling) + m, Le64(b.ceiling) + n);
    Le64Cut(a.ceiling, b.ceiling, m, n);
    FieldCut(a.source, [], b.source, []);
  }

  /** Equal streams come from ingredients the key tells alike, and only from those. */
  lemma StreamTells(a: Ingredients, b: Ingredients, show: Renderings)
    requires Telling(show.manifest) && Telling(show.optLevel) && Keyable(a, show) && Keyable(b, show)
    ensures Stream(a, show) == Stream(b, show) <==> Told(a) == Told(b)
  {
    if Stream(a, show) == Stream(b, show) { StreamTellsApart(a, b, show); }
    if Told(a) == Told(b) { StreamOfTold(a, show); StreamOfTold(b, show); }
  }

  lemma StreamTellsApart(a: Ingredients, b: Ingredients, show: Renderings)
    requires Telling(show.manifest) && Telling(show.optLevel) && Keyable(a, show) && Keyable(b, show)
    requires Stream(a, show) == Stream(b, show)
    ensures Told(a) == Told(b)
  {
    var ps, qs := a.index.packages, b.index.packages;
    var p, q := Packages(ps, show.manifest, Tail(a, show)), Packages(qs, show.manifest, Tail(b, show));
    var c, d := Bindings(a.index, show.manifest, Le64(|ps|) + p), Bindings(b.index, show.manifest, Le64(|qs|) + q);
    FixedCut(a.compiler, c, b.compiler, d);
    BindingsCut(a.index, Le64(|ps|) + p, b.index, Le64(|qs|) + q, show.manifest);
    Le64Cut(|ps|, |qs|, p, q);
    PackagesCut(ps, Tail(a, show), qs, Tail(b, show), show.manifest);
    TailTells(a, b, show);
  }

  lemma StreamOfTold(k: Ingredients, show: Renderings)
    ensures Stream(Told(k), show) == Stream(k, show)
  {
    ShallowPackages(k.index.packages, show.manifest, Tail(k, show));
    assert Tail(Told(k), show) == Tail(k, show);
  }

  lemma {:induction false} ShallowPackages(ps: PackageList, show: Show, rest: Bytes)
    ensures |Shallow(ps)| == |ps| && Packages(Shallow(ps), show, rest) == Packages(ps, show, rest)
    decreases |ps|
  {
    if ps != [] {
      ShallowPackages(ps[1..], show, rest);
      assert Shallow(ps)[1..] == Shallow(ps[1..]);
    }
  }

  /** An index as the resolver builds it: no package of it nests another. */
  predicate Flat(ps: PackageList) {
    forall k :: 0 <= k < |ps| ==> ps[k].1.packages == []
  }

  lemma {:induction false} ShallowOfFlat(ps: PackageList)
    requires Flat(ps)
    ensures Shallow(ps) == ps
    decreases |ps|
  {
    if ps != [] {
      ShallowOfFlat(ps[1..]);
      assert ps == [ps[0]] + ps[1..];
    }
  }

  /** Over flat indexes the key tells everything. */
  lemma StreamTellsFlat(a: Ingredients, b: Ingredients, show: Renderings)
    requires Telling(show.manifest) && Telling(show.optLevel) && Keyable(a, show) && Keyable(b, show)
    requires Flat(a.index.packages) && Flat(b.index.packages)
    ensures Stream(a, show) == Stream(b, show) <==> a == b
  {
    StreamTells(a, b, show);
    ShallowOfFlat(a.index.packages);
    ShallowOfFlat(b.index.packages);
  }

  // ---------------------------------------------------------------------
  // Feeding the hasher
  // ---------------------------------------------------------------------

  class Hasher {
    var fed: Bytes

    constructor ()
      ensures fed == []
    {
      fed := [];
    }

    method Update(bytes: Bytes, ghost rest: Bytes)
      modifies this
      ensures fed + rest == old(fed) + (bytes + rest) && fed == old(fed) + bytes
    {
      fed := fed + bytes;
      assert fed + rest == old(fed) + (bytes + rest);
    }
  }

  /** Each method is given `rest`, what will be fed after it. */
  method HashField(hasher: Hasher, bytes: Bytes, ghost rest: Bytes)
    modifies hasher
    ensures hasher.fed + rest == old(hasher.fed) + Field(bytes, rest)
  {
    hasher.Update(Le64(|bytes|), bytes + rest);
    hasher.Update(bytes, rest);
  }

  method HashEntries(hasher: Hasher, entries: Entries, ghost rest: Bytes)
    modifies hasher
    ensures hasher.fed + rest == old(hasher.fed) + Counted(entries, rest)
  {
    hasher.Update(Le64(|entries|), Pairs(entries, rest));
    for i := 0 to |entries|
      invariant hasher.fed + Pairs(entries[i..], rest) == old(hasher.fed) + Counted(entries, rest)
    {
      ghost var after := Pairs(entries[i..][1..], rest);
      assert entries[i..][1..] == entries[i + 1..];
      HashField(hasher, entries[i].0, Field(entries[i].1, after));
      HashField(hasher, entries[i].1, after);
    }
  }

  method HashIndex(hasher: Hasher, index: Index, show: Show, ghost rest: Bytes)
    modifies hasher
    ensures hasher.fed + rest == old(hasher.fed) + Bindings(index, show, rest)
  {
    ghost var m := Field(show(index.manifest), rest);
    ghost var e := Counted(index.exports, m);
    ghost var u := Counted(index.unresolved, e);
    HashEntries(hasher, index.resolved, Counted(index.components, u));
    HashEntries(hasher, index.components, u);
    HashEntries(hasher, index.unresolved, e);
    HashEntries(hasher, index.exports, m);
    HashField(hasher, show(index.manifest), rest);
  }

  method HashPackages(hasher: Hasher, packages: PackageList, show: Show, ghost rest: Bytes)
    modifies hasher
    ensures hasher.fed + rest == old(hasher.fed) + (Le64(|packages|) + Packages(packages, show, rest))
  {
    hasher.Update(Le64(|packages|), Packages(packages, show, rest));
    for i := 0 to |packages|
      invariant hasher.fed + Packages(packages[i..], show, rest)
        == old(hasher.fed) + (Le64(|packages|) + Packages(packages, show, rest))
    {
      ghost var after := Packages(packages[i..][1..], show, rest);
      assert packages[i..][1..] == packages[i + 1..];
      HashField(hasher, packages[i].0, Bindings(packages[i].1, show, after));
      HashIndex(hasher, packages[i].1, show, after);
    }
  }

  method HashFlags(hasher: Hasher, flags: seq<Bytes>, ghost rest: Bytes)
    modifies hasher
    ensures hasher.fed + rest == old(hasher.fed) + (Le64(|flags|) + Flags(flags, rest))
  {
    hasher.Update(Le64(|flags|), Flags(flags, rest));
    for i := 0 to |flags|
      invariant hasher.fed + Flags(flags[i..], rest) == old(hasher.fed) + (Le64(|flags|) + Flags(flags, rest))
    {
      assert flags[i..][1..] == flags[i + 1..];
      HashField(hasher, flags[i], Flags(flags[i + 1..], rest));
    }
  }

  method Key(k: Ingredients, show: Renderings) returns (hasher: Hasher)
    ensures fresh(hasher) && hasher.fed == Stream(k, show)
  {
    hasher := new Hasher();
    ghost var packages := Le64(|k.index.packages|) + Packages(k.index.packages, show.manifest, Tail(k, show));
    hasher.Update(k.compiler, Bindings(k.index, show.manifest, packages));
    HashIndex(hasher, k.index, show.manifest, packages);
    HashPackages(hasher, k.index.packages, show.manifest, Tail(k, show));
    HashField(hasher, show.optLevel(k.knobs.optLevel),
              Le64(|k.knobs.codegenFlags|) + Flags(k.knobs.codegenFlags, Limits(k)));
    HashFlags(hasher, k.knobs.codegenFlags, Limits(k));
    hasher.Update(Le64(k.fuel), Le64(k.ceiling) + Field(k.source, []));
    hasher.Update(Le64(k.ceiling), Field(k.source, []));
    HashField(hasher, k.source, []);
    assert hasher.fed == hasher.fed + [];
  }
}
