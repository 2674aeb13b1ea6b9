/** Source discovery: the walk of one package, its stack of ignore rules, its
  * filters, its package boundaries and its guard against symlink cycles.
  */
module Discover {

  datatype Option<T> = None | Some(value: T)

  /** The components of an absolute path. */
  type Path = seq<string>

  function Parent(p: Path): Path
    requires p != []
  {
    p[..|p| - 1]
  }

  function Name(p: Path): string
    requires p != []
  {
    p[|p| - 1]
  }

  // ---------------------------------------------------------------------
  // The file system
  // ---------------------------------------------------------------------

  /** What an entry leads to. `node` identifies a directory however it is reached,
    * as its canonical path does.
    */
  datatype Kind = File | Directory(node: nat) | Dangling | Unreadable

  /** A line of a `.gitignore`: which pattern, and its two flags. */
  datatype Line = Line(pattern: nat, dirOnly: bool, negate: bool)

  datatype Ignores = NoIgnores | Ignores(lines: seq<Line>) | IgnoresUnreadable

  datatype Dir = Dir(entries: seq<(string, Kind)>, listable: bool, ignores: Ignores, manifest: bool, git: bool)

  /** Directory 0 is the file system's root. */
  type Fs = s: seq<Dir> | FsOk(s) witness [Dir([], true, NoIgnores, false, false)]

  ghost predicate FsOk(dirs: seq<Dir>) {
    |dirs| > 0 && forall n :: 0 <= n < |dirs| ==> DirOk(dirs[n], |dirs|)
  }

  function Names(entries: seq<(string, Kind)>): (r: seq<string>)
    ensures |r| == |entries| && forall i :: 0 <= i < |entries| ==> r[i] == entries[i].0
  {
    seq(|entries|, i requires 0 <= i < |entries| => entries[i].0)
  }

  ghost predicate DirOk(d: Dir, count: nat) {
    && Distinct(Names(d.entries))
    && (forall i :: 0 <= i < |d.entries| && d.entries[i].1.Directory? ==> d.entries[i].1.node < count)
  }

  function Find(entries: seq<(string, Kind)>, name: string): (r: Option<Kind>)
    ensures r.Some? ==> exists i :: 0 <= i < |entries| && entries[i] == (name, r.value)
  {
    if entries == [] then None
    else if entries[0].0 == name then Some(entries[0].1)
    else
      var r := Find(entries[1..], name);
      assert r.Some? ==> exists i :: 1 <= i < |entries| && entries[i] == (name, r.value) by {
        if r.Some? {
          var i :| 0 <= i < |entries[1..]| && entries[1..][i] == (name, r.value);
          assert entries[i + 1] == (name, r.value);
        }
      }
      r
  }

  lemma {:induction false} FindListed(entries: seq<(string, Kind)>, i: nat)
    requires i < |entries| && Distinct(Names(entries))
    ensures Find(entries, entries[i].0) == Some(entries[i].1)
    decreases i
  {
    var names := Names(entries);
    if i > 0 {
      assert Names(entries[1..]) == names[1..];
      assert names[0] != names[i];
      FindListed(entries[1..], i - 1);
    }
  }

  /** The directory at a path, symlinks followed. */
  function NodeAt(fs: Fs, p: Path): (r: Option<nat>)
    ensures r.Some? ==> r.value < |fs|
    decreases |p|
  {
    if p == [] then Some(0)
    else
      match NodeAt(fs, Parent(p))
      case None => None
      case Some(n) =>
        assert DirOk(fs[n], |fs|);
        var kind := Find(fs[n].entries, Name(p));
        if kind.Some? && kind.value.Directory? then Some(kind.value.node) else None
  }

  // ---------------------------------------------------------------------
  // Ignore rules
  // ---------------------------------------------------------------------

  datatype Rule = Rule(base: Path, line: Line)

  /** The rules a directory's own `.gitignore` adds. */
  function OwnRules(fs: Fs, p: Path): seq<Rule>
  {
    match NodeAt(fs, p)
    case None => []
    case Some(n) => DirRules(fs[n], p)
  }

  function DirRules(d: Dir, p: Path): seq<Rule> {
    if d.ignores.Ignores? then RulesOf(d.ignores.lines, p) else []
  }

  function RulesOf(lines: seq<Line>, p: Path): (r: seq<Rule>)
    ensures |r| == |lines|
  {
    seq(|lines|, i requires 0 <= i < |lines| => Rule(p, lines[i]))
  }

  /** Those of every directory from the one with `lo` components down to `p`. */
  function RulesDown(fs: Fs, lo: nat, p: Path): seq<Rule>
    decreases |p|
  {
    if |p| < lo then []
    else (if p == [] then [] else RulesDown(fs, lo, Parent(p))) + OwnRules(fs, p)
  }

  predicate HasGit(fs: Fs, p: Path)
  {
    NodeAt(fs, p).Some? && fs[NodeAt(fs, p).value].git
  }

  /** How many components the path of the repository holding `p` has. */
  function RepositoryTop(fs: Fs, p: Path): (r: Option<nat>)
    ensures r.Some? ==> r.value <= |p|
    decreases |p|
  {
    if HasGit(fs, p) then Some(|p|) else if p == [] then None else RepositoryTop(fs, Parent(p))
  }

  /** It is the nearest directory above with a `.git`. */
  lemma {:induction false} RepositoryTopIsNearest(fs: Fs, p: Path, k: nat)
    requires k <= |p|
    ensures RepositoryTop(fs, p) == Some(k) <==> HasGit(fs, p[..k]) && forall j :: k < j <= |p| ==> !HasGit(fs, p[..j])
    decreases |p|
  {
    assert p[..|p|] == p;
    if p != [] && !HasGit(fs, p) {
      assert forall j :: 0 <= j < |p| ==> Parent(p)[..j] == p[..j];
      if k < |p| { RepositoryTopIsNearest(fs, Parent(p), k); }
    }
  }

  /** Where the rules start: at the repository's root, or at the walk's own where
    * there is no repository.
    */
  function RulesStart(fs: Fs, root: Path): nat
  {
    match RepositoryTop(fs, root)
    case Some(k) => k
    case None => |root|
  }

  /** The rules in force on the entries of `dir`, in a walk from `root`. */
  function InForce(fs: Fs, root: Path, dir: Path): seq<Rule>
  {
    RulesDown(fs, RulesStart(fs, root), dir)
  }

  /** A directory's own rules are the lines of its `.gitignore`, in order, based at it. */
  lemma OwnRulesAreLines(d: Dir, p: Path)
    ensures var lines := if d.ignores.Ignores? then d.ignores.lines else [];
      && |DirRules(d, p)| == |lines|
      && forall i :: 0 <= i < |lines| ==> DirRules(d, p)[i].base == p && DirRules(d, p)[i].line == lines[i]
  {
  }

  /** The rules in force come from the directories on the way down, those of a directory
    * after all those from above.
    */
  lemma RulesComeDown(fs: Fs, lo: nat, p: Path, node: nat)
    requires NodeAt(fs, p) == Some(node) && lo <= |p|
    ensures var above := if |p| == lo then [] else RulesDown(fs, lo, Parent(p));
      RulesDown(fs, lo, p) == above + DirRules(fs[node], p)
  {
    RulesDownFrom(fs, lo, p, node);
  }

  /** Inside one repository, a walk from above and one from below agree on the
    * rules in force.
    */
  lemma InForceWhereverStarted(fs: Fs, root: Path, lower: Path, dir: Path)
    requires root <= lower && RepositoryTop(fs, root).Some?
    requires forall k :: |root| < k <= |lower| ==> !HasGit(fs, lower[..k])
    ensures InForce(fs, root, dir) == InForce(fs, lower, dir)
  {
    TopBelow(fs, root, lower);
  }

  lemma {:induction false} TopBelow(fs: Fs, root: Path, lower: Path)
    requires root <= lower
    requires forall k :: |root| < k <= |lower| ==> !HasGit(fs, lower[..k])
    ensures RepositoryTop(fs, lower) == RepositoryTop(fs, root)
    decreases |lower|
  {
    if |lower| == |root| {
      assert lower == root;
    } else {
      assert lower[..|lower|] == lower;
      assert forall k :: 0 <= k < |lower| ==> Parent(lower)[..k] == lower[..k];
      TopBelow(fs, root, Parent(lower));
    }
  }

  // ---------------------------------------------------------------------
  // Verdicts
  // ---------------------------------------------------------------------

  /** The filters of the walk. `matches` is how a pattern answers for a path
    * relative to its rule's base.
    */
  datatype Config = Config(
    root: Path,
    submodules: set<Path>,
    excludes: Path -> bool,
    includes: Path -> bool,
    noIncludes: bool,
    matches: (nat, Path) -> bool)

  predicate Applies(cfg: Config, rule: Rule, path: Path, isDir: bool) {
    (rule.line.dirOnly ==> isDir) && rule.base <= path && cfg.matches(rule.line.pattern, path[|rule.base|..])
  }

  /** The last rule that matches decides. */
  ghost predicate Ignored(cfg: Config, rules: seq<Rule>, path: Path, isDir: bool) {
    exists k :: 0 <= k < |rules| && Decides(cfg, rules, k, path, isDir) && !rules[k].line.negate
  }

  ghost predicate Decides(cfg: Config, rules: seq<Rule>, k: nat, path: Path, isDir: bool)
    requires k < |rules|
  {
    Applies(cfg, rules[k], path, isDir) && forall j :: k < j < |rules| ==> !Applies(cfg, rules[j], path, isDir)
  }

  lemma IgnoredPush(cfg: Config, rules: seq<Rule>, rule: Rule, path: Path, isDir: bool)
    ensures Ignored(cfg, rules + [rule], path, isDir)
      <==> if Applies(cfg, rule, path, isDir) then !rule.line.negate else Ignored(cfg, rules, path, isDir)
  {
    var longer, n := rules + [rule], |rules|;
    assert longer[n] == rule;
    if Applies(cfg, rule, path, isDir) {
      assert Decides(cfg, longer, n, path, isDir);
      forall k | 0 <= k < n ensures !Decides(cfg, longer, k, path, isDir) {}
    } else {
      forall k | 0 <= k < n ensures Decides(cfg, longer, k, path, isDir) <==> Decides(cfg, rules, k, path, isDir) {
        assert forall j :: k <= j < n ==> longer[j] == rules[j];
      }
      if Ignored(cfg, rules, path, isDir) {
        var k :| 0 <= k < n && Decides(cfg, rules, k, path, isDir) && !rules[k].line.negate;
        assert Decides(cfg, longer, k, path, isDir);
      }
    }
  }

  method IsIgnored(cfg: Config, rules: seq<Rule>, path: Path, isDir: bool) returns (ignored: bool)
    ensures ignored <==> Ignored(cfg, rules, path, isDir)
  {
    ignored := false;
    for i := 0 to |rules|
      invariant ignored <==> Ignored(cfg, rules[..i], path, isDir)
    {
      if Applies(cfg, rules[i], path, isDir) {
        ignored := !rules[i].line.negate;
      }
      IgnoredPush(cfg, rules[..i], rules[i], path, isDir);
      assert rules[..i + 1] == rules[..i] + [rules[i]];
    }
    assert rules[..|rules|] == rules;
  }

  predicate IsWado(name: string) {
    |name| > 5 && name[|name| - 5..] == ".wado"
  }

  datatype Verdict = Skip | Fail | Take | Subpackage | Enter(node: nat)

  /** What becomes of an entry: of a directory, whether `manifest` is a package's,
    * and of any, whether the rules ignore it.
    */
  function Judge(cfg: Config, path: Path, kind: Kind, manifest: bool, ignored: bool): Verdict
    requires cfg.root < path
  {
    var isDir := kind.Directory?;
    var rel := path[|cfg.root|..];
    var excluded := cfg.excludes(rel) && !cfg.includes(rel);
    if Name(path) != "" && Name(path)[0] == '.' then Skip
    else if kind.Dangling? then Skip
    else if kind.Unreadable? then Fail
    else if isDir && path in cfg.submodules then Skip
    else if ignored then Skip
    else if excluded && !(isDir && !cfg.noIncludes) then Skip
    else if isDir then
      if !excluded && manifest then Subpackage else Enter(kind.node)
    else if IsWado(Name(path)) then Take
    else Skip
  }

  /** The verdict on the entry at `p`, whatever becomes of the directories above. */
  ghost function VerdictAt(fs: Fs, cfg: Config, p: Path): Verdict
    requires cfg.root < p
  {
    match NodeAt(fs, Parent(p))
    case None => Skip
    case Some(n) =>
      match Find(fs[n].entries, Name(p))
      case None => Skip
      case Some(kind) => EntryVerdict(fs, cfg, p, kind)
  }

  ghost function EntryVerdict(fs: Fs, cfg: Config, p: Path, kind: Kind): Verdict
    requires cfg.root < p
  {
    Judge(cfg, p, kind, kind.Directory? && kind.node < |fs| && fs[kind.node].manifest,
          Ignored(cfg, InForce(fs, cfg.root, Parent(p)), p, kind.Directory?))
  }

  /** Every entry from the root down to `p` says to go in. */
  ghost predicate Entered(fs: Fs, cfg: Config, p: Path)
    decreases |p|
  {
    cfg.root <= p && (p == cfg.root || (Entered(fs, cfg, Parent(p)) && VerdictAt(fs, cfg, p).Enter?))
  }

  /** A file of the package: the directories above say to go in, and it is taken. */
  ghost predicate Owned(fs: Fs, cfg: Config, p: Path)
  {
    cfg.root < p && Entered(fs, cfg, Parent(p)) && VerdictAt(fs, cfg, p) == Take
  }

  /** The first package on its path below this one. */
  ghost predicate Boundary(fs: Fs, cfg: Config, p: Path)
  {
    cfg.root < p && Entered(fs, cfg, Parent(p)) && VerdictAt(fs, cfg, p) == Subpackage
  }

  /** A directory gone into that cannot be read, or an entry that stops the walk. */
  ghost predicate Broken(fs: Fs, cfg: Config, p: Path)
  {
    || (Entered(fs, cfg, p) && NodeAt(fs, p).Some? && !Readable(fs[NodeAt(fs, p).value]))
    || (cfg.root < p && Entered(fs, cfg, Parent(p)) && VerdictAt(fs, cfg, p) == Fail)
  }

  predicate Readable(d: Dir) {
    d.listable && !d.ignores.IgnoresUnreadable?
  }

  /** No directory is gone into by two paths. */
  ghost predicate TreeLike(fs: Fs, cfg: Config)
  {
    forall p, q :: Entered(fs, cfg, p) && Entered(fs, cfg, q) && NodeAt(fs, p) == NodeAt(fs, q) ==> p == q
  }

  /** An ordinary tree: each directory is named by one entry at most, and the root of the
    * file system by none.
    */
  ghost predicate NamedOnce(fs: Fs) {
    && (forall n: nat, i: nat :: NamesDirectory(fs, n, i) ==> fs[n].entries[i].1.node != 0)
    && forall n: nat, i: nat, m: nat, j: nat :: NameAlike(fs, n, i, m, j) ==> n == m && i == j
  }

  /** Two entries that name one directory. */
  ghost predicate NameAlike(fs: Fs, n: nat, i: nat, m: nat, j: nat) {
    NamesDirectory(fs, n, i) && NamesDirectory(fs, m, j) && fs[n].entries[i].1 == fs[m].entries[j].1
  }

  ghost predicate NamesDirectory(fs: Fs, n: nat, i: nat) {
    n < |fs| && i < |fs[n].entries| && fs[n].entries[i].1.Directory?
  }

  lemma NamedBy(fs: Fs, p: Path) returns (n: nat, i: nat)
    requires p != [] && NodeAt(fs, p).Some?
    ensures NodeAt(fs, Parent(p)) == Some(n) && NamesDirectory(fs, n, i)
    ensures fs[n].entries[i] == (Name(p), Directory(NodeAt(fs, p).value))
  {
    n := NodeAt(fs, Parent(p)).value;
    var kind := Find(fs[n].entries, Name(p));
    i :| 0 <= i < |fs[n].entries| && fs[n].entries[i] == (Name(p), kind.value);
  }

  lemma {:induction false} OnePath(fs: Fs, p: Path, q: Path)
    requires NamedOnce(fs) && NodeAt(fs, p).Some? && NodeAt(fs, p) == NodeAt(fs, q)
    ensures p == q
    decreases |p|
  {
    if p != [] {
      var n, i := NamedBy(fs, p);
      if q != [] {
        var m, j := NamedBy(fs, q);
        assert NameAlike(fs, n, i, m, j);
        OnePath(fs, Parent(p), Parent(q));
        assert p == Parent(p) + [Name(p)] && q == Parent(q) + [Name(q)];
      }
    } else if q != [] {
      var m, j := NamedBy(fs, q);
    }
  }

  lemma EnteredHasNode(fs: Fs, cfg: Config, p: Path)
    requires Entered(fs, cfg, p) && p != cfg.root
    ensures NodeAt(fs, p).Some?
  {
    var n := NodeAt(fs, Parent(p)).value;
    assert DirOk(fs[n], |fs|);
  }

  /** In an ordinary tree no walk goes into a directory by two paths. */
  lemma OrdinaryIsTreeLike(fs: Fs, cfg: Config)
    requires NamedOnce(fs)
    ensures TreeLike(fs, cfg)
  {
    forall p, q | Entered(fs, cfg, p) && Entered(fs, cfg, q) && NodeAt(fs, p) == NodeAt(fs, q) ensures p == q {
      if p != cfg.root { EnteredHasNode(fs, cfg, p); }
      if q != cfg.root { EnteredHasNode(fs, cfg, q); }
      if NodeAt(fs, p).Some? { OnePath(fs, p, q); }
    }
  }

  /** The verdict on a listed entry is the one its path gets. */
  lemma ListedVerdict(fs: Fs, cfg: Config, dir: Path, n: nat, i: nat)
    requires Entered(fs, cfg, dir) && NodeAt(fs, dir) == Some(n) && i < |fs[n].entries|
    ensures var kind := fs[n].entries[i].1; kind.Directory? ==> kind.node < |fs|
    ensures var (name, kind) := fs[n].entries[i]; var p := Child(dir, name);
      VerdictAt(fs, cfg, p) == Judge(cfg, p, kind, kind.Directory? && fs[kind.node].manifest,
                                     Ignored(cfg, InForce(fs, cfg.root, dir), p, kind.Directory?))
    ensures var p := Child(dir, fs[n].entries[i].0); var verdict := VerdictAt(fs, cfg, p);
      && (verdict.Enter? ==> Entered(fs, cfg, p) && NodeAt(fs, p) == Some(verdict.node))
      && (verdict.Fail? ==> Broken(fs, cfg, p))
  {
    assert DirOk(fs[n], |fs|);
    FindListed(fs[n].entries, i);
  }

  lemma {:induction false} EnteredAbove(fs: Fs, cfg: Config, q: Path, p: Path)
    requires Entered(fs, cfg, p) && cfg.root <= q <= p
    ensures Entered(fs, cfg, q)
    decreases |p|
  {
    if q != p { EnteredAbove(fs, cfg, q, Parent(p)); }
  }

  // ---------------------------------------------------------------------
  // Regions of paths
  // ---------------------------------------------------------------------

  function Child(dir: Path, name: string): (p: Path)
    ensures p != [] && Parent(p) == dir && Name(p) == name && dir < p
  {
    dir + [name]
  }

  predicate Reaches(dir: Path, p: Path) {
    dir <= p
  }

  ghost function From(dir: Path): iset<Path> {
    iset p: Path | Reaches(dir, p)
  }

  ghost function Under(dir: Path): iset<Path> {
    iset p: Path | Reaches(dir, p) && p != dir
  }

  /** The paths through one of the first `count` entries. */
  ghost function Through(dir: Path, entries: seq<(string, Kind)>, count: nat): iset<Path>
    requires count <= |entries|
  {
    iset p: Path | dir < p && exists i :: 0 <= i < count && entries[i].0 == p[|dir|]
  }

  lemma ThroughNext(dir: Path, entries: seq<(string, Kind)>, i: nat)
    requires i < |entries| && Distinct(Names(entries))
    ensures Through(dir, entries, i + 1) == Through(dir, entries, i) + From(Child(dir, entries[i].0))
    ensures Through(dir, entries, i) !! From(Child(dir, entries[i].0))
    ensures From(Child(dir, entries[i].0)) <= Under(dir)
  {
    var c := Child(dir, entries[i].0);
    var names := Names(entries);
    assert forall j :: 0 <= j < i ==> names[j] != names[i];
    forall p: Path ensures p in From(c) <==> dir < p && p[|dir|] == entries[i].0 {
      if dir < p && p[|dir|] == entries[i].0 {
        assert p[..|dir| + 1] == c;
      }
    }
    forall p: Path ensures p in Through(dir, entries, i + 1) <==> p in Through(dir, entries, i) + From(c) {
      if p in From(c) { assert entries[i].0 == p[|dir|]; }
    }
  }

  // ---------------------------------------------------------------------
  // What the walk gathers
  // ---------------------------------------------------------------------

  ghost predicate Distinct<T(!new)>(s: seq<T>) {
    forall i, k :: 0 <= i < k < |s| ==> s[i] != s[k]
  }

  /** The directories gone into, the files, and the sub-packages so far, each in the
    * order they came.
    */
  datatype Haul = Haul(visited: seq<nat>, files: seq<Path>, subpackages: seq<Path>)

  ghost predicate Sound(fs: Fs, cfg: Config, h: Haul)
  {
    && Distinct(h.visited) && (forall n :: n in h.visited ==> n < |fs|)
    && Distinct(h.files) && (forall p :: p in h.files ==> Owned(fs, cfg, p))
    && Distinct(h.subpackages) && (forall p :: p in h.subpackages ==> Boundary(fs, cfg, p))
  }

  /** Only paths of the region have been added, and the directories at such. */
  ghost predicate Grown(fs: Fs, cfg: Config, was: Haul, now: Haul, region: iset<Path>)
  {
    && (forall n :: n in was.visited ==> n in now.visited)
    && (forall n :: n in now.visited ==> n in was.visited || GoneInto(fs, cfg, n, region))
    && (forall p :: p in was.files ==> p in now.files)
    && (forall p :: p in now.files ==> p in was.files || p in region)
    && (forall p :: p in was.subpackages ==> p in now.subpackages)
    && (forall p :: p in now.subpackages ==> p in was.subpackages || p in region)
  }

  ghost predicate GoneInto(fs: Fs, cfg: Config, n: nat, region: iset<Path>)
  {
    exists q :: q in region && Entered(fs, cfg, q) && NodeAt(fs, q) == Some(n)
  }

  /** Nothing of the region has been found. */
  ghost predicate Clear(h: Haul, region: iset<Path>) {
    (forall p :: p in h.files ==> p !in region) && (forall p :: p in h.subpackages ==> p !in region)
  }

  /** No directory of the region has been gone into, by whatever path. */
  ghost predicate Unvisited(fs: Fs, cfg: Config, h: Haul, region: iset<Path>)
  {
    forall p :: p in region && Entered(fs, cfg, p) && NodeAt(fs, p).Some? ==> NodeAt(fs, p).value !in h.visited
  }

  /** All there is to find at `p` has been found. */
  ghost predicate Found(fs: Fs, cfg: Config, h: Haul, p: Path)
  {
    && (Owned(fs, cfg, p) ==> p in h.files)
    && (Boundary(fs, cfg, p) ==> p in h.subpackages)
    && !Broken(fs, cfg, p)
  }

  ghost predicate Complete(fs: Fs, cfg: Config, h: Haul, region: iset<Path>)
  {
    forall p :: p in region ==> Found(fs, cfg, h, p)
  }

  lemma GrownTwice(fs: Fs, cfg: Config, a: Haul, b: Haul, c: Haul, first: iset<Path>, second: iset<Path>)
    requires Grown(fs, cfg, a, b, first) && Grown(fs, cfg, b, c, second)
    ensures Grown(fs, cfg, a, c, first + second)
    ensures Complete(fs, cfg, b, first) && Complete(fs, cfg, c, second) ==> Complete(fs, cfg, c, first + second)
  {
    forall n | n in c.visited && n !in a.visited ensures GoneInto(fs, cfg, n, first + second) {
      var r := if n in b.visited then first else second;
      assert GoneInto(fs, cfg, n, r);
      var q :| q in r && Entered(fs, cfg, q) && NodeAt(fs, q) == Some(n);
      assert q in first + second;
    }
  }

  lemma GrownWithin(fs: Fs, cfg: Config, a: Haul, b: Haul, small: iset<Path>, large: iset<Path>)
    requires Grown(fs, cfg, a, b, small) && small <= large
    ensures Grown(fs, cfg, a, b, large)
  {
    GrownTwice(fs, cfg, a, b, b, small, large);
    assert small + large == large;
  }

  /** What grew elsewhere left a region as it was. */
  lemma StillClear(fs: Fs, cfg: Config, was: Haul, now: Haul, done: iset<Path>, next: iset<Path>, all: iset<Path>)
    requires Grown(fs, cfg, was, now, done) && done !! next && next <= all && Clear(was, all)
    ensures Clear(now, next)
    ensures TreeLike(fs, cfg) && Unvisited(fs, cfg, was, all) ==> Unvisited(fs, cfg, now, next)
  {
    if TreeLike(fs, cfg) && Unvisited(fs, cfg, was, all) {
      forall p | p in next && Entered(fs, cfg, p) && NodeAt(fs, p).Some?
        ensures NodeAt(fs, p).value !in now.visited
      {
        var n := NodeAt(fs, p).value;
        if n in now.visited {
          assert false;
        }
      }
    }
  }

  /** Below an entry that is not gone into, there is nothing to find. */
  lemma NothingBelow(fs: Fs, cfg: Config, q: Path, p: Path)
    requires cfg.root < q < p && !VerdictAt(fs, cfg, q).Enter?
    ensures !Owned(fs, cfg, p) && !Boundary(fs, cfg, p) && !Broken(fs, cfg, p)
  {
    if Entered(fs, cfg, p) { EnteredAbove(fs, cfg, q, p); }
    if Entered(fs, cfg, Parent(p)) { EnteredAbove(fs, cfg, q, Parent(p)); }
  }

  /** What an entry that is not gone into adds. */
  ghost predicate Adds(was: Haul, now: Haul, q: Path, verdict: Verdict) {
    && !verdict.Enter? && !verdict.Fail?
    && now == if verdict.Take? then was.(files := was.files + [q])
              else if verdict.Subpackage? then was.(subpackages := was.subpackages + [q])
              else was
  }

  lemma AddsGrown(fs: Fs, cfg: Config, was: Haul, now: Haul, q: Path)
    requires Sound(fs, cfg, was) && cfg.root < q && Entered(fs, cfg, Parent(q)) && Clear(was, From(q))
    requires Adds(was, now, q, VerdictAt(fs, cfg, q))
    ensures Sound(fs, cfg, now) && Grown(fs, cfg, was, now, From(q))
  {
    assert q in From(q);
    var verdict := VerdictAt(fs, cfg, q);
    if verdict.Take? {
      assert Owned(fs, cfg, q);
      DistinctPush(was.files, q);
    } else if verdict.Subpackage? {
      assert Boundary(fs, cfg, q);
      DistinctPush(was.subpackages, q);
    }
  }

  lemma DistinctPush(s: seq<Path>, x: Path)
    requires Distinct(s) && x !in s
    ensures Distinct(s + [x]) && forall y :: y in s + [x] <==> y in s || y == x
  {
    assert forall i :: 0 <= i < |s| ==> s[i] in s;
  }

  lemma AddsFound(fs: Fs, cfg: Config, was: Haul, now: Haul, q: Path)
    requires cfg.root < q && Adds(was, now, q, VerdictAt(fs, cfg, q))
    ensures Found(fs, cfg, now, q)
  {
    var verdict := VerdictAt(fs, cfg, q);
    if verdict.Take? { assert now.files[|was.files|] == q; }
    if verdict.Subpackage? { assert now.subpackages[|was.subpackages|] == q; }
  }

  /** An entry that is not gone into is settled by itself. */
  lemma Settled(fs: Fs, cfg: Config, was: Haul, now: Haul, q: Path)
    requires Sound(fs, cfg, was) && cfg.root < q && Entered(fs, cfg, Parent(q)) && Clear(was, From(q))
    requires Adds(was, now, q, VerdictAt(fs, cfg, q))
    ensures Walked(fs, cfg, was, now, From(q), From(q))
  {
    AddsGrown(fs, cfg, was, now, q);
    forall p | p in From(q) ensures Found(fs, cfg, now, p) {
      if p == q { AddsFound(fs, cfg, was, now, q); } else { NothingBelow(fs, cfg, q, p); }
    }
  }

  /** The walk comes to the entry at `p` and does not skip it. */
  ghost predicate Counts(fs: Fs, cfg: Config, p: Path) {
    cfg.root < p && Entered(fs, cfg, Parent(p)) && !VerdictAt(fs, cfg, p).Skip?
  }

  lemma FindsCount(fs: Fs, cfg: Config, p: Path)
    requires p != cfg.root && (Owned(fs, cfg, p) || Boundary(fs, cfg, p) || Broken(fs, cfg, p))
    ensures Counts(fs, cfg, p)
  {}

  lemma CountsIsListed(fs: Fs, cfg: Config, p: Path, n: nat) returns (i: nat)
    requires cfg.root < p && NodeAt(fs, Parent(p)) == Some(n) && !VerdictAt(fs, cfg, p).Skip?
    ensures i < |fs[n].entries| && fs[n].entries[i].0 == Name(p)
  {
    var kind := Find(fs[n].entries, Name(p));
    i :| 0 <= i < |fs[n].entries| && fs[n].entries[i] == (Name(p), kind.value);
  }

  lemma CountsThrough(fs: Fs, cfg: Config, dir: Path, n: nat, p: Path)
    requires NodeAt(fs, dir) == Some(n) && cfg.root <= dir < p && |p| == |dir| + 1 && !VerdictAt(fs, cfg, p).Skip?
    ensures p in Through(dir, fs[n].entries, |fs[n].entries|)
  {
    var entries := fs[n].entries;
    assert Parent(p) == dir && Name(p) == p[|dir|];
    var i := CountsIsListed(fs, cfg, p, n);
    ListedThrough(dir, entries, i, p);
  }

  lemma ListedThrough(dir: Path, entries: seq<(string, Kind)>, i: nat, p: Path)
    requires dir < p && i < |entries| && entries[i].0 == p[|dir|]
    ensures p in Through(dir, entries, |entries|)
  {}

  lemma CountsAbove(fs: Fs, cfg: Config, p: Path)
    requires Counts(fs, cfg, p) && Parent(p) != cfg.root
    ensures Counts(fs, cfg, Parent(p))
  {}

  lemma StaysThrough(dir: Path, entries: seq<(string, Kind)>, q: Path, p: Path)
    requires dir < q < p && q in Through(dir, entries, |entries|)
    ensures p in Through(dir, entries, |entries|)
  {
    assert q[|dir|] == p[|dir|];
  }

  lemma ParentBelow(dir: Path, p: Path)
    requires dir < p && |p| > |dir| + 1
    ensures dir < Parent(p) < p
  {}

  /** Whatever is below `dir` is through an entry of it. */
  lemma {:induction false} ThroughSome(fs: Fs, cfg: Config, dir: Path, n: nat, p: Path)
    requires NodeAt(fs, dir) == Some(n) && cfg.root <= dir < p && Counts(fs, cfg, p)
    ensures p in Through(dir, fs[n].entries, |fs[n].entries|)
    decreases |p|
  {
    if |p| == |dir| + 1 {
      CountsThrough(fs, cfg, dir, n, p);
    } else {
      ParentBelow(dir, p);
      CountsAbove(fs, cfg, p);
      ThroughSome(fs, cfg, dir, n, Parent(p));
      StaysThrough(dir, fs[n].entries, Parent(p), p);
    }
  }

  /** The walk has gathered, in the region alone, and all there is in it if no
    * directory is reached by two paths and none of `open` has been gone into.
    */
  ghost predicate Walked(fs: Fs, cfg: Config, was: Haul, now: Haul, open: iset<Path>, region: iset<Path>) {
    && Sound(fs, cfg, now) && Grown(fs, cfg, was, now, region)
    && (TreeLike(fs, cfg) && Unvisited(fs, cfg, was, open) ==> Complete(fs, cfg, now, region))
  }

  lemma WalkedNone(fs: Fs, cfg: Config, h: Haul, dir: Path, entries: seq<(string, Kind)>, open: iset<Path>)
    requires Sound(fs, cfg, h)
    ensures Walked(fs, cfg, h, h, open, Through(dir, entries, 0))
  {}

  /** One entry more. */
  lemma WalkedNext(fs: Fs, cfg: Config, was: Haul, before: Haul, now: Haul, dir: Path, entries: seq<(string, Kind)>, i: nat)
    requires i < |entries| && Distinct(Names(entries)) && Clear(was, Under(dir))
    requires Walked(fs, cfg, was, before, Under(dir), Through(dir, entries, i))
    requires var there := From(Child(dir, entries[i].0)); Walked(fs, cfg, before, now, there, there)
    ensures Walked(fs, cfg, was, now, Under(dir), Through(dir, entries, i + 1))
  {
    var done, next := Through(dir, entries, i), From(Child(dir, entries[i].0));
    ThroughNext(dir, entries, i);
    StillClear(fs, cfg, was, before, done, next, Under(dir));
    GrownTwice(fs, cfg, was, before, now, done, next);
  }

  /** The next entry is as open as it was. */
  lemma NextClear(fs: Fs, cfg: Config, was: Haul, before: Haul, dir: Path, entries: seq<(string, Kind)>, i: nat)
    requires i < |entries| && Distinct(Names(entries)) && Clear(was, Under(dir))
    requires Walked(fs, cfg, was, before, Under(dir), Through(dir, entries, i))
    ensures Clear(before, From(Child(dir, entries[i].0)))
  {
    ThroughNext(dir, entries, i);
    StillClear(fs, cfg, was, before, Through(dir, entries, i), From(Child(dir, entries[i].0)), Under(dir));
  }

  /** With every entry of a directory gone through, the directory is. */
  lemma WalkedWhole(fs: Fs, cfg: Config, was: Haul, now: Haul, dir: Path, n: nat)
    requires Entered(fs, cfg, dir) && NodeAt(fs, dir) == Some(n) && Readable(fs[n])
    requires Walked(fs, cfg, was, now, Under(dir), Through(dir, fs[n].entries, |fs[n].entries|))
    ensures Walked(fs, cfg, was, now, Under(dir), From(dir))
  {
    var through := Through(dir, fs[n].entries, |fs[n].entries|);
    GrownWithin(fs, cfg, was, now, through, From(dir));
    if Complete(fs, cfg, now, through) {
      forall p | p in From(dir) ensures Found(fs, cfg, now, p) {
        if p != dir && (Owned(fs, cfg, p) || Boundary(fs, cfg, p) || Broken(fs, cfg, p)) {
          FindsCount(fs, cfg, p);
          ThroughSome(fs, cfg, dir, n, p);
        }
      }
    }
  }

  /** A directory gone into already has nothing new, and one whose entries are gone
    * into now is gone into once.
    */
  lemma WalkedOnce(fs: Fs, cfg: Config, before: Haul, inside: Haul, now: Haul, path: Path, next: nat)
    requires Entered(fs, cfg, path) && NodeAt(fs, path) == Some(next) && Sound(fs, cfg, before)
    requires if next in before.visited then now == before
             else EntersTo(before, inside, next) && Walked(fs, cfg, inside, now, Under(path), From(path))
    ensures Walked(fs, cfg, before, now, From(path), From(path))
  {
    if next in before.visited {
      assert path in From(path);
    } else {
      EntersFresh(fs, cfg, before, inside, path, next);
      GrownTwice(fs, cfg, before, inside, now, From(path), From(path));
      assert From(path) + From(path) == From(path);
    }
  }

  predicate EntersTo(before: Haul, inside: Haul, next: nat) {
    inside == before.(visited := before.visited + [next])
  }

  /** Going into a directory for the first time leaves the rest below it open. */
  lemma EntersFresh(fs: Fs, cfg: Config, before: Haul, inside: Haul, path: Path, next: nat)
    requires Entered(fs, cfg, path) && NodeAt(fs, path) == Some(next) && next !in before.visited
    requires Sound(fs, cfg, before) && EntersTo(before, inside, next)
    ensures Sound(fs, cfg, inside) && |inside.visited| <= |fs|
    ensures Grown(fs, cfg, before, inside, From(path))
    ensures Clear(before, From(path)) ==> Clear(inside, Under(path))
    ensures TreeLike(fs, cfg) && Unvisited(fs, cfg, before, From(path)) ==> Unvisited(fs, cfg, inside, Under(path))
  {
    assert Under(path) <= From(path) && path in From(path);
    DistinctBelow(inside.visited, |fs|);
  }

  // ---------------------------------------------------------------------
  // The walk
  // ---------------------------------------------------------------------

  lemma {:induction false} DistinctBelow(s: seq<nat>, bound: nat)
    requires Distinct(s) && forall n :: n in s ==> n < bound
    ensures |s| <= bound
  {
    if s != [] {
      assert s[0] in s;
      if exists k :: 0 <= k < |s| && s[k] == bound - 1 {
        var k :| 0 <= k < |s| && s[k] == bound - 1;
        var rest := s[..k] + s[k + 1..];
        forall j | 0 <= j < |rest| ensures rest[j] < bound - 1 {
          var i := if j < k then j else j + 1;
          assert rest[j] == s[i] && s[i] in s;
          assert if i < k then s[i] != s[k] else s[k] != s[i];
        }
        DistinctBelow(rest, bound - 1);
      } else {
        assert forall n :: n in s ==> n < bound - 1;
        DistinctBelow(s, bound - 1);
      }
    }
  }

  class Walker {
    const fs: Fs
    const cfg: Config
    var rules: seq<Rule>
    var haul: Haul

    constructor (fs: Fs, cfg: Config)
      ensures this.fs == fs && this.cfg == cfg && rules == [] && haul == Haul([], [], [])
    {
      this.fs, this.cfg := fs, cfg;
      rules, haul := [], Haul([], [], []);
    }

    /** `load_gitignore` */
    method LoadIgnores(dir: Path, node: nat) returns (added: Option<nat>)
      requires node < |fs|
      modifies this`rules
      ensures added.None? <==> fs[node].ignores.IgnoresUnreadable?
      ensures added.Some? ==> rules == old(rules) + DirRules(fs[node], dir) && added.value == |DirRules(fs[node], dir)|
      ensures added.None? ==> rules == old(rules)
    {
      match fs[node].ignores
      case NoIgnores => added := Some(0);
      case IgnoresUnreadable => added := None;
      case Ignores(lines) =>
        rules := rules + RulesOf(lines, dir);
        added := Some(|lines|);
    }

    /** Goes through one directory: `false` is an error, with something broken in the
      * walk's way. What is gathered lies below `dir`; where no directory is reached by
      * two paths, everything below is gathered.
      */
    method WalkDir(dir: Path, node: nat) returns (ok: bool)
      requires Sound(fs, cfg, haul) && Entered(fs, cfg, dir) && NodeAt(fs, dir) == Some(node) && Clear(haul, Under(dir))
      requires rules + DirRules(fs[node], dir) == InForce(fs, cfg.root, dir)
      modifies this
      decreases |fs| - |haul.visited|, 2
      ensures |old(haul.visited)| <= |haul.visited|
      ensures !ok ==> exists p :: Broken(fs, cfg, p)
      ensures ok ==> rules == old(rules) && Walked(fs, cfg, old(haul), haul, Under(dir), From(dir))
    {
      DistinctBelow(haul.visited, |fs|);
      var added := LoadIgnores(dir, node);
      if added.None? || !fs[node].listable {
        assert Broken(fs, cfg, dir);
        return false;
      }
      ghost var was := haul;
      var entries := fs[node].entries;
      assert DirOk(fs[node], |fs|);
      WalkedNone(fs, cfg, was, dir, entries, Under(dir));
      for i := 0 to |entries|
        invariant rules == InForce(fs, cfg.root, dir)
        invariant Walked(fs, cfg, was, haul, Under(dir), Through(dir, entries, i))
        invariant |was.visited| <= |haul.visited|
      {
        ghost var before := haul;
        NextClear(fs, cfg, was, before, dir, entries, i);
        ok := VisitEntry(dir, node, i);
        if !ok { return; }
        WalkedNext(fs, cfg, was, before, haul, dir, entries, i);
      }
      WalkedWhole(fs, cfg, was, haul, dir, node);
      rules := rules[..|rules| - added.value];
      return true;
    }

    /** The same of one of a directory's entries. */
    method VisitEntry(dir: Path, node: nat, i: nat) returns (ok: bool)
      requires Sound(fs, cfg, haul) && Entered(fs, cfg, dir) && NodeAt(fs, dir) == Some(node) && i < |fs[node].entries|
      requires Clear(haul, From(Child(dir, fs[node].entries[i].0))) && rules == InForce(fs, cfg.root, dir)
      modifies this
      decreases |fs| - |haul.visited|, 1
      ensures |old(haul.visited)| <= |haul.visited|
      ensures !ok ==> exists p :: Broken(fs, cfg, p)
      ensures ok ==> rules == old(rules)
      ensures var there := From(Child(dir, fs[node].entries[i].0));
        ok ==> Walked(fs, cfg, old(haul), haul, there, there)
    {
      var (name, kind) := fs[node].entries[i];
      var path := Child(dir, name);
      ListedVerdict(fs, cfg, dir, node, i);
      var ignored := IsIgnored(cfg, rules, path, kind.Directory?);
      var verdict := Judge(cfg, path, kind, kind.Directory? && fs[kind.node].manifest, ignored);
      ghost var before := haul;
      assert verdict == VerdictAt(fs, cfg, path);
      if verdict.Fail? {
        return false;
      }
      if verdict.Enter? {
        ok := EnterOnce(path, verdict.node);
        return;
      }
      if verdict.Take? {
        haul := haul.(files := haul.files + [path]);
      } else if verdict.Subpackage? {
        haul := haul.(subpackages := haul.subpackages + [path]);
      }
      Settled(fs, cfg, before, haul, path);
      return true;
    }

    /** Goes into a directory unless it was gone into before. */
    method EnterOnce(path: Path, node: nat) returns (ok: bool)
      requires Sound(fs, cfg, haul) && Entered(fs, cfg, path) && NodeAt(fs, path) == Some(node)
      requires Clear(haul, From(path)) && path != cfg.root && rules == InForce(fs, cfg.root, Parent(path))
      modifies this
      decreases |fs| - |haul.visited|, 0
      ensures |old(haul.visited)| <= |haul.visited|
      ensures !ok ==> exists p :: Broken(fs, cfg, p)
      ensures ok ==> rules == old(rules) && Walked(fs, cfg, old(haul), haul, From(path), From(path))
    {
      ghost var before := haul;
      if node in haul.visited {
        WalkedOnce(fs, cfg, before, before, haul, path, node);
        return true;
      }
      haul := haul.(visited := haul.visited + [node]);
      ghost var inside := haul;
      EntersFresh(fs, cfg, before, inside, path, node);
      InForceBelow(fs, cfg.root, path, node);
      ok := WalkDir(path, node);
      if ok {
        WalkedOnce(fs, cfg, before, inside, haul, path, node);
      }
    }
  }

  lemma InForceBelow(fs: Fs, root: Path, path: Path, node: nat)
    requires root < path && NodeAt(fs, path) == Some(node)
    ensures InForce(fs, root, Parent(path)) + DirRules(fs[node], path) == InForce(fs, root, path)
  {}

  // ---------------------------------------------------------------------
  // What is the package's, told from the directories and the filters alone
  // ---------------------------------------------------------------------

  /** The directory above lists `p` as this. */
  ghost predicate IsListed(fs: Fs, p: Path, kind: Kind) {
    p != [] && NodeAt(fs, Parent(p)).Some? && (Name(p), kind) in fs[NodeAt(fs, Parent(p)).value].entries
  }

  predicate IsHidden(p: Path)
    requires p != []
  {
    Name(p) != "" && Name(p)[0] == '.'
  }

  predicate IsExcluded(cfg: Config, p: Path)
    requires cfg.root < p
  {
    cfg.excludes(p[|cfg.root|..]) && !cfg.includes(p[|cfg.root|..])
  }

  /** The last of the rules to match `p` below its own directory, and as the kind of entry
    * it is for, does not negate.
    */
  ghost predicate IsDropped(cfg: Config, rules: seq<Rule>, p: Path, isDir: bool) {
    exists k :: 0 <= k < |rules| && MatchesAt(cfg, rules, k, p, isDir) && !rules[k].line.negate
      && forall j :: k < j < |rules| ==> !MatchesAt(cfg, rules, j, p, isDir)
  }

  ghost predicate MatchesAt(cfg: Config, rules: seq<Rule>, k: nat, p: Path, isDir: bool)
    requires k < |rules|
  {
    var Rule(base, Line(pattern, dirOnly, _)) := rules[k];
    base <= p && cfg.matches(pattern, p[|base|..]) && (isDir || !dirOnly)
  }

  lemma DroppedMeans(cfg: Config, rules: seq<Rule>, p: Path, isDir: bool)
    ensures IsDropped(cfg, rules, p, isDir) <==> Ignored(cfg, rules, p, isDir)
  {
    forall k | 0 <= k < |rules| ensures MatchesAt(cfg, rules, k, p, isDir) <==> Applies(cfg, rules[k], p, isDir) {}
    if IsDropped(cfg, rules, p, isDir) {
      var k :| 0 <= k < |rules| && MatchesAt(cfg, rules, k, p, isDir) && !rules[k].line.negate
        && forall j :: k < j < |rules| ==> !MatchesAt(cfg, rules, j, p, isDir);
      assert Decides(cfg, rules, k, p, isDir);
    }
    if Ignored(cfg, rules, p, isDir) {
      var k :| 0 <= k < |rules| && Decides(cfg, rules, k, p, isDir) && !rules[k].line.negate;
      assert MatchesAt(cfg, rules, k, p, isDir);
    }
  }

  /** A file or directory that no test drops: not hidden, no submodule, not ignored, and
    * not excluded unless something in it may be included.
    */
  ghost predicate IsSeen(fs: Fs, cfg: Config, p: Path, kind: Kind)
    requires cfg.root < p
  {
    && IsListed(fs, p, kind) && (kind.File? || kind.Directory?) && !IsHidden(p)
    && (kind.Directory? ==> p !in cfg.submodules)
    && !IsDropped(cfg, InForce(fs, cfg.root, Parent(p)), p, kind.Directory?)
    && (IsExcluded(cfg, p) ==> kind.Directory? && !cfg.noIncludes)
  }

  /** A directory of this package: it is seen, and holds no manifest unless excluded. */
  ghost predicate IsInside(fs: Fs, cfg: Config, p: Path)
    requires cfg.root < p
  {
    exists node: nat ::
      IsSeen(fs, cfg, p, Directory(node)) && node < |fs| && (fs[node].manifest ==> IsExcluded(cfg, p))
  }

  /** All directories from the root down to the one above `p` are this package's. */
  ghost predicate AllInside(fs: Fs, cfg: Config, p: Path) {
    cfg.root < p && forall k :: |cfg.root| < k < |p| ==> IsInside(fs, cfg, p[..k])
  }

  ghost predicate IsOwnFile(fs: Fs, cfg: Config, p: Path) {
    AllInside(fs, cfg, p) && IsSeen(fs, cfg, p, File) && exists stem: string :: stem != "" && Name(p) == stem + ".wado"
  }

  lemma WadoMeans(name: string)
    ensures IsWado(name) <==> exists stem: string :: stem != "" && name == stem + ".wado"
  {
    if IsWado(name) { assert name == name[..|name| - 5] + ".wado"; }
  }

  ghost predicate IsOwnPackage(fs: Fs, cfg: Config, p: Path) {
    && AllInside(fs, cfg, p) && !IsExcluded(cfg, p)
    && exists node: nat :: IsSeen(fs, cfg, p, Directory(node)) && node < |fs| && fs[node].manifest
  }

  /** An entry that cannot be looked at, or a directory of the package that cannot be read. */
  ghost predicate Stops(fs: Fs, cfg: Config, p: Path) {
    || (AllInside(fs, cfg, p) && IsListed(fs, p, Unreadable) && !IsHidden(p))
    || ((p == cfg.root || (AllInside(fs, cfg, p) && IsInside(fs, cfg, p)))
        && NodeAt(fs, p).Some? && !Readable(fs[NodeAt(fs, p).value]))
  }

  lemma ListedIsFound(fs: Fs, p: Path, n: nat, kind: Kind)
    requires p != [] && NodeAt(fs, Parent(p)) == Some(n)
    ensures (Name(p), kind) in fs[n].entries <==> Find(fs[n].entries, Name(p)) == Some(kind)
  {
    var entries := fs[n].entries;
    assert DirOk(fs[n], |fs|);
    if (Name(p), kind) in entries {
      var i :| 0 <= i < |entries| && entries[i] == (Name(p), kind);
      FindListed(entries, i);
    }
  }

  /** What a verdict comes to. */
  lemma VerdictMeans(fs: Fs, cfg: Config, p: Path)
    requires cfg.root < p
    ensures VerdictAt(fs, cfg, p).Enter? <==> IsInside(fs, cfg, p)
    ensures VerdictAt(fs, cfg, p) == Take <==> IsSeen(fs, cfg, p, File) && IsWado(Name(p))
    ensures VerdictAt(fs, cfg, p) == Subpackage <==>
      !IsExcluded(cfg, p) && exists node: nat :: IsSeen(fs, cfg, p, Directory(node)) && node < |fs| && fs[node].manifest
    ensures VerdictAt(fs, cfg, p) == Fail <==> IsListed(fs, p, Unreadable) && !IsHidden(p)
  {
    var above := NodeAt(fs, Parent(p));
    if above.Some? {
      var found := Find(fs[above.value].entries, Name(p));
      forall kind ensures IsListed(fs, p, kind) <==> found == Some(kind) { ListedIsFound(fs, p, above.value, kind); }
      if found.Some? {
        KindMeans(fs, cfg, p, found.value);
      }
    }
  }

  lemma KindMeans(fs: Fs, cfg: Config, p: Path, kind: Kind)
    requires cfg.root < p && forall other :: IsListed(fs, p, other) <==> other == kind
    requires VerdictAt(fs, cfg, p) == EntryVerdict(fs, cfg, p, kind) && (kind.Directory? ==> kind.node < |fs|)
    ensures VerdictAt(fs, cfg, p).Enter? <==> IsInside(fs, cfg, p)
    ensures VerdictAt(fs, cfg, p) == Take <==> IsSeen(fs, cfg, p, File) && IsWado(Name(p))
    ensures VerdictAt(fs, cfg, p) == Subpackage <==>
      !IsExcluded(cfg, p) && exists node: nat :: IsSeen(fs, cfg, p, Directory(node)) && node < |fs| && fs[node].manifest
    ensures VerdictAt(fs, cfg, p) == Fail <==> IsListed(fs, p, Unreadable) && !IsHidden(p)
  {
    assert IsListed(fs, p, kind);
    DroppedMeans(cfg, InForce(fs, cfg.root, Parent(p)), p, kind.Directory?);
    if kind.Directory? {
      assert forall node: nat :: IsSeen(fs, cfg, p, Directory(node)) ==> Directory(node) == kind;
    }
  }

  lemma AllInsideAbove(fs: Fs, cfg: Config, p: Path)
    requires AllInside(fs, cfg, p) && cfg.root < Parent(p)
    ensures AllInside(fs, cfg, Parent(p)) && IsInside(fs, cfg, Parent(p))
  {
    var q := Parent(p);
    forall k | |cfg.root| < k < |q| ensures IsInside(fs, cfg, q[..k]) { assert q[..k] == p[..k]; }
    assert p[..|q|] == q;
  }

  lemma AllInsideBelow(fs: Fs, cfg: Config, p: Path)
    requires p != [] && cfg.root < Parent(p) && AllInside(fs, cfg, Parent(p)) && IsInside(fs, cfg, Parent(p))
    ensures AllInside(fs, cfg, p)
  {
    var q := Parent(p);
    forall k | |cfg.root| < k < |p| ensures IsInside(fs, cfg, p[..k]) {
      assert p[..k] == if k < |q| then q[..k] else q;
    }
  }

  lemma AllInsideNext(fs: Fs, cfg: Config, p: Path)
    requires cfg.root < p && |p| > |cfg.root| + 1
    ensures cfg.root < Parent(p)
    ensures AllInside(fs, cfg, p) <==> AllInside(fs, cfg, Parent(p)) && IsInside(fs, cfg, Parent(p))
  {
    if AllInside(fs, cfg, p) { AllInsideAbove(fs, cfg, p); }
    if AllInside(fs, cfg, Parent(p)) && IsInside(fs, cfg, Parent(p)) { AllInsideBelow(fs, cfg, p); }
  }

  lemma ParentIsRoot(root: Path, p: Path)
    requires root < p && |p| == |root| + 1
    ensures Parent(p) == root
  {}

  lemma {:induction false} EnteredMeans(fs: Fs, cfg: Config, p: Path)
    requires cfg.root < p
    ensures Entered(fs, cfg, Parent(p)) <==> AllInside(fs, cfg, p)
    decreases |p|
  {
    if |p| == |cfg.root| + 1 {
      ParentIsRoot(cfg.root, p);
    } else {
      AllInsideNext(fs, cfg, p);
      VerdictMeans(fs, cfg, Parent(p));
      EnteredMeans(fs, cfg, Parent(p));
      EnteredBelow(fs, cfg, Parent(p));
    }
  }

  lemma EnteredBelow(fs: Fs, cfg: Config, p: Path)
    requires cfg.root < p
    ensures Entered(fs, cfg, p) <==> Entered(fs, cfg, Parent(p)) && VerdictAt(fs, cfg, p).Enter?
  {}

  lemma OwnedMeans(fs: Fs, cfg: Config, p: Path)
    ensures Owned(fs, cfg, p) <==> IsOwnFile(fs, cfg, p)
    ensures Boundary(fs, cfg, p) <==> IsOwnPackage(fs, cfg, p)
  {
    if cfg.root < p {
      VerdictMeans(fs, cfg, p);
      EnteredMeans(fs, cfg, p);
      WadoMeans(Name(p));
    }
  }

  lemma BrokenMeans(fs: Fs, cfg: Config, p: Path)
    ensures Broken(fs, cfg, p) <==> Stops(fs, cfg, p)
  {
    if cfg.root < p {
      VerdictMeans(fs, cfg, p);
      EnteredMeans(fs, cfg, p);
    }
  }

  // ---------------------------------------------------------------------
  // A package
  // ---------------------------------------------------------------------

  lemma {:induction false} NodeAbove(fs: Fs, p: Path, k: nat)
    requires NodeAt(fs, p).Some? && k <= |p|
    ensures NodeAt(fs, p[..k]).Some?
    decreases |p|
  {
    if k == |p| {
      assert p[..k] == p;
    } else {
      NodeAbove(fs, Parent(p), k);
      assert Parent(p)[..k] == p[..k];
    }
  }

  /** A `.gitignore` above the root, in its repository, that cannot be read. */
  ghost predicate BrokenAbove(fs: Fs, root: Path, k: nat) {
    && RulesStart(fs, root) <= k < |root|
    && NodeAt(fs, root[..k]).Some? && fs[NodeAt(fs, root[..k]).value].ignores.IgnoresUnreadable?
  }

  /** The directories above `root`, nearest first, up to its repository's root, or
    * to the top where there is none.
    */
  method Ancestors(fs: Fs, root: Path) returns (ancestors: seq<Path>, top: Path)
    ensures |ancestors| <= |root| && forall i :: 0 <= i < |ancestors| ==> ancestors[i] == root[..|root| - 1 - i]
    ensures top == root[..|root| - |ancestors|]
    ensures RepositoryTop(fs, root) == if HasGit(fs, top) then Some(|top|) else None
  {
    ancestors, top := [], root;
    while !HasGit(fs, top) && top != []
      invariant |ancestors| <= |root| && top == root[..|root| - |ancestors|]
      invariant forall i :: 0 <= i < |ancestors| ==> ancestors[i] == root[..|root| - 1 - i]
      invariant RepositoryTop(fs, root) == RepositoryTop(fs, top)
      decreases |top|
    {
      assert Parent(top) == root[..|root| - 1 - |ancestors|];
      ancestors, top := ancestors + [Parent(top)], Parent(top);
    }
  }

  lemma RulesDownFrom(fs: Fs, lo: nat, p: Path, node: nat)
    requires NodeAt(fs, p) == Some(node) && lo <= |p|
    ensures RulesDown(fs, lo, p) == (if |p| == lo then [] else RulesDown(fs, lo, Parent(p))) + DirRules(fs[node], p)
  {}

  /** The rules once those of the directories from `ancestors[i]` up are loaded. */
  ghost function RulesSoFar(fs: Fs, start: nat, ancestors: seq<Path>, i: nat): seq<Rule> {
    if i < |ancestors| then RulesDown(fs, start, ancestors[i]) else []
  }

  ghost predicate AreAncestors(fs: Fs, root: Path, ancestors: seq<Path>) {
    && NodeAt(fs, root).Some? && RulesStart(fs, root) + |ancestors| == |root|
    && forall j :: 0 <= j < |ancestors| ==> ancestors[j] == root[..|root| - 1 - j]
  }

  /** Loading one directory further down adds its own rules. */
  ghost predicate LoadsInTurn(fs: Fs, start: nat, ancestors: seq<Path>) {
    forall i :: 0 <= i < |ancestors| ==> LoadsNext(fs, start, ancestors, i)
  }

  ghost predicate LoadsNext(fs: Fs, start: nat, ancestors: seq<Path>, i: nat)
    requires i < |ancestors|
  {
    var node := NodeAt(fs, ancestors[i]);
    && node.Some?
    && RulesSoFar(fs, start, ancestors, i)
       == RulesSoFar(fs, start, ancestors, i + 1) + DirRules(fs[node.value], ancestors[i])
  }

  lemma AncestorsLoad(fs: Fs, root: Path, ancestors: seq<Path>)
    requires AreAncestors(fs, root, ancestors)
    ensures LoadsInTurn(fs, RulesStart(fs, root), ancestors)
  {
    forall i | 0 <= i < |ancestors| ensures LoadsNext(fs, RulesStart(fs, root), ancestors, i) {
      var p := ancestors[i];
      assert |p| == |root| - 1 - i;
      NodeAbove(fs, root, |p|);
      if i + 1 < |ancestors| { assert ancestors[i + 1] == Parent(p); }
      RulesDownFrom(fs, RulesStart(fs, root), p, NodeAt(fs, p).value);
    }
  }

  predicate Loadable(fs: Fs, p: Path) {
    NodeAt(fs, p).Some? ==> !fs[NodeAt(fs, p).value].ignores.IgnoresUnreadable?
  }

  lemma LoadableOrBroken(fs: Fs, root: Path, ancestors: seq<Path>)
    requires AreAncestors(fs, root, ancestors)
    ensures (forall j :: 0 <= j < |ancestors| ==> Loadable(fs, ancestors[j])) <==> forall k :: !BrokenAbove(fs, root, k)
  {
    forall k | RulesStart(fs, root) <= k < |root|
      ensures BrokenAbove(fs, root, k) <==> !Loadable(fs, ancestors[|root| - 1 - k])
    {
      assert ancestors[|root| - 1 - k] == root[..k];
    }
    forall j | 0 <= j < |ancestors| ensures !Loadable(fs, ancestors[j]) ==> BrokenAbove(fs, root, |root| - 1 - j) {}
  }

  lemma RootRules(fs: Fs, root: Path, ancestors: seq<Path>)
    requires AreAncestors(fs, root, ancestors)
    ensures RulesSoFar(fs, RulesStart(fs, root), ancestors, 0) + OwnRules(fs, root) == InForce(fs, root, root)
  {
    if |ancestors| > 0 { assert ancestors[0] == Parent(root); }
    RulesDownFrom(fs, RulesStart(fs, root), root, NodeAt(fs, root).value);
  }

  method LoadDown(w: Walker, ghost start: nat, ancestors: seq<Path>) returns (ok: bool)
    requires LoadsInTurn(w.fs, start, ancestors) && w.rules == []
    modifies w`rules
    ensures ok ==> w.rules == RulesSoFar(w.fs, start, ancestors, 0)
    ensures ok <==> forall j :: 0 <= j < |ancestors| ==> Loadable(w.fs, ancestors[j])
  {
    var i := |ancestors|;
    while i > 0
      invariant 0 <= i <= |ancestors|
      invariant w.rules == RulesSoFar(w.fs, start, ancestors, i)
      invariant forall j :: i <= j < |ancestors| ==> Loadable(w.fs, ancestors[j])
    {
      i := i - 1;
      assert LoadsNext(w.fs, start, ancestors, i);
      var added := w.LoadIgnores(ancestors[i], NodeAt(w.fs, ancestors[i]).value);
      if added.None? {
        assert !Loadable(w.fs, ancestors[i]);
        return false;
      }
    }
    return true;
  }

  /** The rules from the repository's root down to just above the package. */
  method LoadAncestors(w: Walker) returns (ok: bool)
    requires NodeAt(w.fs, w.cfg.root).Some? && w.rules == []
    modifies w`rules
    ensures ok ==> w.rules + OwnRules(w.fs, w.cfg.root) == InForce(w.fs, w.cfg.root, w.cfg.root)
    ensures ok <==> forall k :: !BrokenAbove(w.fs, w.cfg.root, k)
  {
    var ancestors, top := Ancestors(w.fs, w.cfg.root);
    if !HasGit(w.fs, top) {
      RootRules(w.fs, w.cfg.root, []);
      return true;
    }
    AncestorsLoad(w.fs, w.cfg.root, ancestors);
    LoadableOrBroken(w.fs, w.cfg.root, ancestors);
    ok := LoadDown(w, RulesStart(w.fs, w.cfg.root), ancestors);
    RootRules(w.fs, w.cfg.root, ancestors);
  }

  /** What a package owns: a success lists only its own files and the packages
    * directly below, each once. Where no directory is reached by two paths it lists
    * them all, and it succeeds exactly where nothing stops it.
    */
  method DiscoverWadoFiles(fs: Fs, cfg: Config) returns (found: Option<Haul>)
    requires NodeAt(fs, cfg.root).Some?
    ensures found.Some? ==> var haul := found.value;
      && Distinct(haul.files) && (forall p :: p in haul.files ==> IsOwnFile(fs, cfg, p))
      && Distinct(haul.subpackages) && (forall p :: p in haul.subpackages ==> IsOwnPackage(fs, cfg, p))
      && Distinct(haul.visited) && |haul.visited| <= |fs|
    ensures found.None? ==> (exists p :: Stops(fs, cfg, p)) || (exists k :: BrokenAbove(fs, cfg.root, k))
    ensures found.Some? && TreeLike(fs, cfg) ==>
      && (forall p :: p in found.value.files <==> IsOwnFile(fs, cfg, p))
      && (forall p :: p in found.value.subpackages <==> IsOwnPackage(fs, cfg, p))
      && (forall p :: !Stops(fs, cfg, p)) && (forall k :: !BrokenAbove(fs, cfg.root, k))
  {
    var walker := new Walker(fs, cfg);
    var root := NodeAt(fs, cfg.root).value;
    walker.haul := walker.haul.(visited := [root]);
    var ok := LoadAncestors(walker);
    if !ok { return None; }
    ghost var start := walker.haul;
    ok := walker.WalkDir(cfg.root, root);
    if !ok {
      ghost var p :| Broken(fs, cfg, p);
      BrokenMeans(fs, cfg, p);
      return None;
    }
    DistinctBelow(walker.haul.visited, |fs|);
    HaulMeans(fs, cfg, start, walker.haul);
    return Some(walker.haul);
  }

  lemma HaulMeans(fs: Fs, cfg: Config, start: Haul, haul: Haul)
    requires NodeAt(fs, cfg.root).Some? && start == Haul([NodeAt(fs, cfg.root).value], [], [])
    requires Walked(fs, cfg, start, haul, Under(cfg.root), From(cfg.root))
    ensures forall p :: p in haul.files ==> IsOwnFile(fs, cfg, p)
    ensures forall p :: p in haul.subpackages ==> IsOwnPackage(fs, cfg, p)
    ensures TreeLike(fs, cfg) ==> forall p ::
      && (p in haul.files <==> IsOwnFile(fs, cfg, p)) && (p in haul.subpackages <==> IsOwnPackage(fs, cfg, p))
      && !Stops(fs, cfg, p)
  {
    forall p | p in haul.files ensures IsOwnFile(fs, cfg, p) { OwnedMeans(fs, cfg, p); }
    forall p | p in haul.subpackages ensures IsOwnPackage(fs, cfg, p) { OwnedMeans(fs, cfg, p); }
    if TreeLike(fs, cfg) {
      RootOpen(fs, cfg, start);
      forall p
        ensures (p in haul.files <==> IsOwnFile(fs, cfg, p)) && (p in haul.subpackages <==> IsOwnPackage(fs, cfg, p))
        ensures !Stops(fs, cfg, p)
      {
        FoundIsThePackage(fs, cfg, haul, p);
        OwnedMeans(fs, cfg, p);
        BrokenMeans(fs, cfg, p);
      }
    }
  }

  lemma OnlyUnderRoot(fs: Fs, cfg: Config, p: Path)
    requires Owned(fs, cfg, p) || Boundary(fs, cfg, p) || Broken(fs, cfg, p)
    ensures p in From(cfg.root)
  {}

  lemma RootOpen(fs: Fs, cfg: Config, start: Haul)
    requires TreeLike(fs, cfg) && NodeAt(fs, cfg.root).Some? && start.visited == [NodeAt(fs, cfg.root).value]
    ensures Unvisited(fs, cfg, start, Under(cfg.root))
  {
    assert Entered(fs, cfg, cfg.root);
  }

  lemma FoundIsThePackage(fs: Fs, cfg: Config, now: Haul, p: Path)
    requires Sound(fs, cfg, now) && Complete(fs, cfg, now, From(cfg.root))
    ensures p in now.files <==> Owned(fs, cfg, p)
    ensures p in now.subpackages <==> Boundary(fs, cfg, p)
    ensures !Broken(fs, cfg, p)
  {
    if Owned(fs, cfg, p) || Boundary(fs, cfg, p) || Broken(fs, cfg, p) { OnlyUnderRoot(fs, cfg, p); }
    assert Found(fs, cfg, now, p);
  }
}
