/** The outcome cache of `core:eval`: what a compile read is logged with its
  * outcome, and the outcome is answered again while nothing it read has changed.
  */
module EvalCache {

  datatype Option<T> = None | Some(value: T)

  type Byte = b: int | 0 <= b < 256
  type Digest = seq<Byte>

  datatype InputKey = FileKey(path: string, prefix: Option<nat>) | EnvKey(name: string)

  /** What looking a key up gives. `Failed` is any failure but absence. */
  datatype Answer = Found(bytes: seq<Byte>) | Absent | Failed | Variable(value: Option<string>)

  datatype Input =
    | File(path: string, prefix: Option<nat>, sha256: Option<Digest>)
    | Env(name: string, value: Option<string>)
  {
    function Key(): InputKey {
      match this
      case File(path, prefix, _) => FileKey(path, prefix)
      case Env(name, _) => EnvKey(name)
    }
  }

  /** What every lookup would give, at one time. */
  type World = InputKey -> Answer

  type Hash = seq<Byte> -> Digest

  ghost predicate CollisionFree(sha: Hash) {
    forall a, b :: sha(a) == sha(b) ==> a == b
  }

  /** An environment variable always answers; a file answers with bytes, absence
    * or a failure.
    */
  predicate Answers(key: InputKey, a: Answer) {
    a.Variable? <==> key.EnvKey?
  }

  /** The input a lookup is recorded as; nothing describes a failed one. */
  function Recorded(key: InputKey, a: Answer, sha: Hash): (r: Option<Input>)
    requires Answers(key, a)
    ensures r.Some? ==> r.value.Key() == key
  {
    match a
    case Found(bytes) => Some(File(key.path, key.prefix, Some(sha(bytes))))
    case Absent => Some(File(key.path, key.prefix, None))
    case Failed => None
    case Variable(value) => Some(Env(key.name, value))
  }

  ghost predicate Lawful(w: World) {
    forall key :: Answers(key, w(key))
  }

  /** `Input::unchanged`: what its key names now is the input itself. */
  predicate Unchanged(w: World, input: Input, sha: Hash)
    requires Answers(input.Key(), w(input.Key()))
  {
    Recorded(input.Key(), w(input.Key()), sha) == Some(input)
  }

  // ---------------------------------------------------------------------
  // A compile
  // ---------------------------------------------------------------------

  datatype Outcome = CompileTimedOut | Ended(id: nat)

  type Log = seq<(InputKey, Answer)>

  datatype Action = Look(key: InputKey) | Finish(id: nat)

  /** A deterministic evaluation: what it looks up next, or ends with, depends on
    * what its lookups gave so far.
    */
  type Program = Log -> Action

  /** `log` is a whole evaluation of `p`, ending in `id`. */
  ghost predicate Evaluates(p: Program, log: Log, id: nat) {
    && p(log) == Finish(id)
    && forall i :: 0 <= i < |log| ==> p(log[..i]) == Look(log[i].0)
  }

  ghost predicate Replays(w: World, log: Log) {
    forall i :: 0 <= i < |log| ==> log[i].1 == w(log[i].0)
  }

  /** The `i`th lookup of `log` found the world `worlds(i)`. */
  ghost predicate ReplaysOverTime(worlds: nat -> World, log: Log) {
    forall i :: 0 <= i < |log| ==> log[i].1 == worlds(i)(log[i].0)
  }

  /** Evaluating in `w`, which does not change meanwhile, goes as `log`. */
  ghost predicate EvaluatesIn(w: World, p: Program, log: Log, id: nat) {
    Evaluates(p, log, id) && Replays(w, log)
  }

  /** In one world there is one evaluation. */
  lemma EvaluationIsUnique(w: World, p: Program, log: Log, id: nat, log': Log, id': nat)
    requires EvaluatesIn(w, p, log, id) && EvaluatesIn(w, p, log', id')
    ensures log == log' && id == id'
  {
    EndsNoSooner(w, p, log, id, log', id');
    EndsNoSooner(w, p, log', id', log, id);
    CommonPrefix(w, p, log, id, log', id', |log|);
    assert log[..|log|] == log && log'[..|log|] == log';
  }

  lemma EndsNoSooner(w: World, p: Program, log: Log, id: nat, log': Log, id': nat)
    requires EvaluatesIn(w, p, log, id) && EvaluatesIn(w, p, log', id')
    ensures |log| >= |log'|
  {
    if |log| < |log'| {
      assert log[..|log|] == log;
      CommonPrefix(w, p, log, id, log', id', |log|);
      assert false;
    }
  }

  lemma {:induction false} CommonPrefix(w: World, p: Program, log: Log, id: nat, log': Log, id': nat, n: nat)
    requires EvaluatesIn(w, p, log, id) && EvaluatesIn(w, p, log', id')
    requires n <= |log| && n <= |log'|
    ensures log[..n] == log'[..n]
    decreases n
  {
    if n > 0 {
      CommonPrefix(w, p, log, id, log', id', n - 1);
      assert p(log[..n - 1]) == Look(log[n - 1].0) && p(log'[..n - 1]) == Look(log'[n - 1].0);
      assert log[n - 1].1 == w(log[n - 1].0) && log'[n - 1].1 == w(log'[n - 1].0);
      assert log[..n] == log[..n - 1] + [log[n - 1]] && log'[..n] == log'[..n - 1] + [log'[n - 1]];
    }
  }

  // ---------------------------------------------------------------------
  // The log of reads
  // ---------------------------------------------------------------------

  /** The inputs hold exactly what the log's lookups gave, under one answer each. */
  ghost predicate Vouches(inputs: map<InputKey, Input>, log: Log, sha: Hash) {
    && (forall i :: 0 <= i < |log| ==> Answers(log[i].0, log[i].1))
    && (forall i :: 0 <= i < |log| ==> log[i].0 in inputs && Recorded(log[i].0, log[i].1, sha) == Some(inputs[log[i].0]))
    && (forall k :: k in inputs ==> inputs[k].Key() == k && exists i :: 0 <= i < |log| && log[i].0 == k)
  }

  class ReadLog {
    var inputs: map<InputKey, Input>
    var untracked: bool

    constructor ()
      ensures inputs == map[] && !untracked
    {
      inputs, untracked := map[], false;
    }

    /** A key looked up twice to different answers leaves the log untracked, as a
      * lookup that failed does.
      */
    method Record(key: InputKey, a: Answer, sha: Hash)
      requires Answers(key, a)
      modifies this
      ensures var input := Recorded(key, a, sha);
        && untracked == (old(untracked) || input.None? || (key in old(inputs) && old(inputs)[key] != input.value))
        && inputs == if input.None? || key in old(inputs) then old(inputs) else old(inputs)[key := input.value]
    {
      var input := Recorded(key, a, sha);
      if input.None? {
        untracked := true;
      } else if key in inputs {
        if inputs[key] != input.value { untracked := true; }
      } else {
        inputs := inputs[key := input.value];
      }
    }

    function Reads(): Option<map<InputKey, Input>>
      reads this
    {
      if untracked then None else Some(inputs)
    }
  }

  /** A log whose every lookup is accounted for, unless it is untracked. */
  lemma VouchesGrows(inputs: map<InputKey, Input>, log: Log, key: InputKey, a: Answer, sha: Hash, inputs': map<InputKey, Input>)
    requires Vouches(inputs, log, sha) && Answers(key, a)
    requires var input := Recorded(key, a, sha);
      input.Some? && (key in inputs ==> inputs[key] == input.value && inputs' == inputs)
      && (key !in inputs ==> inputs' == inputs[key := input.value])
    ensures Vouches(inputs', log + [(key, a)], sha)
  {
    var log' := log + [(key, a)];
    forall k | k in inputs' ensures exists i :: 0 <= i < |log'| && log'[i].0 == k {
      if k in inputs {
        var i :| 0 <= i < |log| && log[i].0 == k;
        assert log'[i].0 == k;
      } else {
        assert log'[|log|].0 == k;
      }
    }
  }

  /** No lookup failed, and no key was answered twice otherwise. */
  ghost predicate Steady(log: Log) {
    && (forall i :: 0 <= i < |log| ==> !log[i].1.Failed?)
    && forall i, k :: 0 <= i < k < |log| && log[i].0 == log[k].0 ==> log[i].1 == log[k].1
  }

  /** The same as the log of reads can tell, which keeps digests. */
  ghost predicate SteadyAs(log: Log, sha: Hash) {
    && (forall i :: 0 <= i < |log| ==> Kept(log[i], sha).Some?)
    && forall i, k :: 0 <= i < k < |log| && log[i].0 == log[k].0 ==> Kept(log[i], sha) == Kept(log[k], sha)
  }

  ghost function Kept(lookup: (InputKey, Answer), sha: Hash): Option<Input> {
    if Answers(lookup.0, lookup.1) then Recorded(lookup.0, lookup.1, sha) else None
  }

  lemma SteadyTold(log: Log, sha: Hash)
    requires CollisionFree(sha) && forall i :: 0 <= i < |log| ==> Answers(log[i].0, log[i].1)
    ensures SteadyAs(log, sha) <==> Steady(log)
  {
    if SteadyAs(log, sha) {
      forall i, k | 0 <= i < k < |log| && log[i].0 == log[k].0 ensures log[i].1 == log[k].1 {
        assert Kept(log[i], sha) == Kept(log[k], sha) && Kept(log[i], sha).Some?;
        SameRecord(log[i].0, log[i].1, log[k].1, sha);
      }
      forall i | 0 <= i < |log| ensures !log[i].1.Failed? { assert Kept(log[i], sha).Some?; }
    }
  }

  /** Answered by `worlds` in turn, `p` ends within so many lookups. */
  ghost predicate EndsWithin(p: Program, worlds: nat -> World, limit: nat) {
    exists log: Log, id :: EndsAs(p, worlds, log, id) && |log| < limit
  }

  ghost predicate EndsAs(p: Program, worlds: nat -> World, log: Log, id: nat) {
    Evaluates(p, log, id) && ReplaysOverTime(worlds, log)
  }

  /** The program asks `log`'s questions, and `worlds` give its answers. */
  ghost predicate Under(p: Program, worlds: nat -> World, log: Log) {
    ReplaysOverTime(worlds, log) && forall i :: 0 <= i < |log| ==> p(log[..i]) == Look(log[i].0)
  }

  lemma {:induction false} SameUnder(p: Program, worlds: nat -> World, a: Log, b: Log, n: nat)
    requires Under(p, worlds, a) && Under(p, worlds, b) && n <= |a| && n <= |b|
    ensures a[..n] == b[..n]
    decreases n
  {
    if n > 0 {
      SameUnder(p, worlds, a, b, n - 1);
      assert p(a[..n - 1]) == Look(a[n - 1].0) && p(b[..n - 1]) == Look(b[n - 1].0);
      assert a[..n] == a[..n - 1] + [a[n - 1]] && b[..n] == b[..n - 1] + [b[n - 1]];
    }
  }

  lemma EndsNoSoonerThan(p: Program, worlds: nat -> World, log: Log, other: Log, id: nat)
    requires Under(p, worlds, log) && EndsAs(p, worlds, other, id)
    ensures |other| >= |log|
  {
    if |other| < |log| {
      assert p(log[..|other|]) == Look(log[|other|].0) && other[..|other|] == other;
      SameUnder(p, worlds, log, other, |other|);
    }
  }

  /** An evaluation still asking after `limit` lookups ends within none of them. */
  lemma StillAsking(p: Program, worlds: nat -> World, log: Log, limit: nat)
    requires Under(p, worlds, log) && |log| == limit
    ensures !EndsWithin(p, worlds, limit)
  {
    forall other: Log, id | EndsAs(p, worlds, other, id) ensures |other| >= limit {
      EndsNoSoonerThan(p, worlds, log, other, id);
    }
  }

  /** There is one evaluation, and it ends one way. */
  lemma EndsOneWay(p: Program, worlds: nat -> World, a: Log, id: nat, b: Log, id': nat)
    requires EndsAs(p, worlds, a, id) && EndsAs(p, worlds, b, id')
    ensures a == b && id == id'
  {
    EndsNoSoonerThan(p, worlds, a, b, id');
    EndsNoSoonerThan(p, worlds, b, a, id);
    SameUnder(p, worlds, a, b, |a|);
    assert a[..|a|] == a && b[..|b|] == b;
  }

  /** The log of reads is tracked exactly while the lookups are steady. */
  ghost predicate Tracks(untracked: bool, inputs: map<InputKey, Input>, log: Log, sha: Hash) {
    if untracked then !SteadyAs(log, sha) else SteadyAs(log, sha) && Vouches(inputs, log, sha)
  }

  lemma TracksNext(was: bool, inputs: map<InputKey, Input>, log: Log, key: InputKey, a: Answer, sha: Hash,
                   now: bool, inputs': map<InputKey, Input>)
    requires Tracks(was, inputs, log, sha) && Answers(key, a)
    requires var input := Recorded(key, a, sha);
      && now == (was || input.None? || (key in inputs && inputs[key] != input.value))
      && inputs' == if input.None? || key in inputs then inputs else inputs[key := input.value]
    ensures Tracks(now, inputs', log + [(key, a)], sha)
  {
    var log' := log + [(key, a)];
    var n := |log|;
    if was {
      UnsteadyMore(log, (key, a), sha);
    } else if Recorded(key, a, sha).None? {
      assert Kept(log'[n], sha).None?;
    } else if now {
      var i :| 0 <= i < n && log[i].0 == key;
      assert Recorded(key, log[i].1, sha) == Some(inputs[key]);
      assert log'[i] == log[i] && log'[n] == (key, a) && Kept(log'[i], sha) != Kept(log'[n], sha);
    } else {
      forall i | 0 <= i < n && log[i].0 == key ensures Kept(log[i], sha) == Kept((key, a), sha) {
        assert Recorded(key, log[i].1, sha) == Some(inputs[key]);
      }
      SteadyMore(log, key, a, sha);
      VouchesGrows(inputs, log, key, a, sha, inputs');
    }
  }

  lemma UnsteadyMore(log: Log, entry: (InputKey, Answer), sha: Hash)
    requires !SteadyAs(log, sha)
    ensures !SteadyAs(log + [entry], sha)
  {
    var log' := log + [entry];
    assert forall i :: 0 <= i < |log| ==> log'[i] == log[i];
    if i :| 0 <= i < |log| && Kept(log[i], sha).None? {
      assert Kept(log'[i], sha).None?;
    } else {
      var i, k :| 0 <= i < k < |log| && log[i].0 == log[k].0 && Kept(log[i], sha) != Kept(log[k], sha);
      assert log'[i].0 == log'[k].0 && Kept(log'[i], sha) != Kept(log'[k], sha);
    }
  }

  lemma SteadyMore(log: Log, key: InputKey, a: Answer, sha: Hash)
    requires SteadyAs(log, sha) && Kept((key, a), sha).Some?
    requires forall i :: 0 <= i < |log| && log[i].0 == key ==> Kept(log[i], sha) == Kept((key, a), sha)
    ensures SteadyAs(log + [(key, a)], sha)
  {
  }

  /** An evaluation whose `i`th lookup finds the world `worlds(i)`, given up after
    * `limit` lookups: it times out exactly where it does not end within them, and has
    * inputs exactly where it ended on steady lookups. Files may change while it runs.
    */
  method Evaluate(p: Program, worlds: nat -> World, limit: nat, sha: Hash)
    returns (inputs: Option<map<InputKey, Input>>, outcome: Outcome, ghost log: Log)
    requires forall i :: Lawful(worlds(i))
    ensures outcome.CompileTimedOut? <==> !EndsWithin(p, worlds, limit)
    ensures outcome.Ended? ==> EndsAs(p, worlds, log, outcome.id) && |log| < limit
    ensures inputs.Some? <==> outcome.Ended? && SteadyAs(log, sha)
    ensures CollisionFree(sha) ==> (inputs.Some? <==> outcome.Ended? && Steady(log))
    ensures inputs.Some? ==> Vouches(inputs.value, log, sha)
  {
    var kept := new ReadLog();
    var seen: Log := [];
    for i := 0 to limit
      invariant |seen| == i && Under(p, worlds, seen) && forall k :: 0 <= k < i ==> Answers(seen[k].0, seen[k].1)
      invariant Tracks(kept.untracked, kept.inputs, seen, sha)
    {
      match p(seen) {
        case Finish(id) =>
          assert EndsAs(p, worlds, seen, id);
          if CollisionFree(sha) { SteadyTold(seen, sha); }
          return kept.Reads(), Ended(id), seen;
        case Look(key) =>
          var answer := worlds(i)(key);
          assert Lawful(worlds(i));
          ghost var was, before := kept.untracked, kept.inputs;
          kept.Record(key, answer, sha);
          TracksNext(was, before, seen, key, answer, sha, kept.untracked, kept.inputs);
          UnderNext(p, worlds, seen, key);
          seen := seen + [(key, answer)];
      }
    }
    StillAsking(p, worlds, seen, limit);
    return None, CompileTimedOut, seen;
  }

  lemma UnderNext(p: Program, worlds: nat -> World, log: Log, key: InputKey)
    requires Under(p, worlds, log) && p(log) == Look(key)
    ensures Under(p, worlds, log + [(key, worlds(|log|)(key))])
  {
    var log' := log + [(key, worlds(|log|)(key))];
    forall i | 0 <= i < |log'| ensures p(log'[..i]) == Look(log'[i].0) {
      assert log'[..i] == if i < |log| then log[..i] else log;
    }
  }

  // ---------------------------------------------------------------------
  // The cache
  // ---------------------------------------------------------------------

  /** The heart of it: an evaluation's inputs are all unchanged exactly where
    * evaluating again would see, lookup for lookup, what it saw then. Files that
    * changed while it ran make no difference.
    */
  lemma UnchangedIffReplays(w: World, inputs: map<InputKey, Input>, log: Log, sha: Hash)
    requires CollisionFree(sha) && Lawful(w) && Vouches(inputs, log, sha)
    ensures (forall k :: k in inputs ==> Unchanged(w, inputs[k], sha)) <==> Replays(w, log)
  {
    if forall k :: k in inputs ==> Unchanged(w, inputs[k], sha) {
      forall i | 0 <= i < |log| ensures log[i].1 == w(log[i].0) {
        var (key, a) := log[i];
        assert Unchanged(w, inputs[key], sha);
        SameRecord(key, a, w(key), sha);
      }
    }
    if Replays(w, log) {
      forall k | k in inputs ensures Unchanged(w, inputs[k], sha) {
        var i :| 0 <= i < |log| && log[i].0 == k;
        assert Recorded(k, log[i].1, sha) == Some(inputs[k]);
      }
    }
  }

  lemma SameRecord(key: InputKey, a: Answer, b: Answer, sha: Hash)
    requires CollisionFree(sha) && Answers(key, a) && Answers(key, b)
    requires Recorded(key, a, sha) == Recorded(key, b, sha) != None
    ensures a == b
  {
  }

  datatype Entry = Entry(inputs: map<InputKey, Input>, id: nat)

  /** The entries come from evaluations of the programs their keys name. */
  ghost predicate Honest(entries: map<Digest, Entry>, programs: Digest -> Program, sha: Hash) {
    forall key :: key in entries ==> FromEvaluation(entries[key], programs(key), sha)
  }

  ghost predicate FromEvaluation(entry: Entry, p: Program, sha: Hash) {
    exists log :: Evaluates(p, log, entry.id) && Vouches(entry.inputs, log, sha)
  }

  class Cache {
    /** The files of the cache directory. An entry holds no timed-out outcome. */
    var entries: map<Digest, Entry>

    constructor ()
      ensures entries == map[]
    {
      entries := map[];
    }

    /** `checked` is what the checks of the entry's inputs find, each at its own
      * time, and `worlds` what the evaluation's lookups would. `written` is whether
      * writing the entry succeeds.
      */
    method CachedOrEvaluate(key: Digest, ghost programs: Digest -> Program, p: Program, noCache: bool,
                            checked: World, worlds: nat -> World, limit: nat, written: bool, sha: Hash)
      returns (outcome: Outcome, hit: bool)
      requires p == programs(key) && CollisionFree(sha) && Lawful(checked) && forall i :: Lawful(worlds(i))
      requires Honest(entries, programs, sha)
      modifies this
      ensures Honest(entries, programs, sha)
      ensures hit <==> !noCache && key in old(entries) && AllCheck(checked, old(entries)[key].inputs, sha)
      ensures hit ==> entries == old(entries) && outcome == Ended(old(entries)[key].id)
      ensures hit ==> exists log: Log :: EvaluatesIn(checked, p, log, outcome.id)
      ensures !hit ==> (outcome.CompileTimedOut? <==> !EndsWithin(p, worlds, limit))
      ensures !hit && outcome.Ended? ==> exists log: Log :: EndsAs(p, worlds, log, outcome.id)
      ensures forall log: Log, id :: !hit && EndsAs(p, worlds, log, id) && |log| < limit && Steady(log) && written ==>
        key in entries && entries[key].id == id && Vouches(entries[key].inputs, log, sha)
      ensures outcome.CompileTimedOut? || !written ==> entries == old(entries)
      ensures forall k :: k != key ==> (k in entries <==> k in old(entries)) && (k in entries ==> entries[k] == old(entries)[k])
    {
      if !noCache && key in entries
        && (forall k | k in entries[key].inputs :: Checks(checked, entries[key].inputs[k], sha))
      {
        assert FromEvaluation(entries[key], p, sha);
        ghost var log :| Evaluates(p, log, entries[key].id) && Vouches(entries[key].inputs, log, sha);
        UnchangedIffReplays(checked, entries[key].inputs, log, sha);
        assert EvaluatesIn(checked, p, log, entries[key].id);
        return Ended(entries[key].id), true;
      }
      var inputs;
      ghost var log;
      inputs, outcome, log := Evaluate(p, worlds, limit, sha);
      hit := false;
      if inputs.Some? && written {
        entries := entries[key := Entry(inputs.value, outcome.id)];
        assert FromEvaluation(entries[key], p, sha);
      }
      forall other: Log, id | EndsAs(p, worlds, other, id) && |other| < limit ensures outcome == Ended(id) && other == log {
        assert EndsWithin(p, worlds, limit);
        EndsOneWay(p, worlds, log, outcome.id, other, id);
      }
    }
  }

  ghost predicate AllCheck(w: World, inputs: map<InputKey, Input>, sha: Hash) {
    forall k :: k in inputs ==> Checks(w, inputs[k], sha)
  }

  predicate Checks(w: World, input: Input, sha: Hash) {
    Answers(input.Key(), w(input.Key())) && Unchanged(w, input, sha)
  }

  /** A hit in a world that stays put is what evaluating there would give, were it
    * given the time to end.
    */
  lemma HitIsEvaluatingNow(w: World, p: Program, entry: Entry, sha: Hash, log: Log, id: nat)
    requires CollisionFree(sha) && Lawful(w) && FromEvaluation(entry, p, sha)
    requires forall k :: k in entry.inputs ==> Unchanged(w, entry.inputs[k], sha)
    requires EvaluatesIn(w, p, log, id)
    ensures entry.id == id
  {
    var log' :| Evaluates(p, log', entry.id) && Vouches(entry.inputs, log', sha);
    UnchangedIffReplays(w, entry.inputs, log', sha);
    EvaluationIsUnique(w, p, log, id, log', entry.id);
  }
}
