/** Whose outcome a call of `eval` leaves with: one that a step of the run gave to a call
  * with the same key.
  */
module EvalOutcomes {
  import opened EvalProtocol

  /** A run with every state it goes through. */
  ghost predicate IsRun(states: seq<Host>, steps: seq<Step>, parallelism: nat, tests: nat) {
    && parallelism > 0 && |states| == |steps| + 1 && states[0] == Initial(parallelism, tests)
    && forall n :: 0 <= n < |steps| ==> Goes(states[n], steps[n], states[n + 1])
  }

  ghost predicate Goes(h: Host, step: Step, h': Host) {
    Sound(h) && Enabled(h, step) && h' == Apply(h, step)
  }

  /** The key of the last call that test `t` began. */
  function LastKey(steps: seq<Step>, t: nat): Option<Key> {
    if steps == [] then None
    else
      var last := steps[|steps| - 1];
      if last.Enter? && last.t == t then Some(last.key) else LastKey(steps[..|steps| - 1], t)
  }

  /** A step with which a call of test `t` ends its evaluation in `o`. */
  predicate Ends(step: Step, t: nat, o: Outcome) {
    || (step.CacheHit? && step.t == t && step.found == o)
    || (step.ReceiveFailure? && step.t == t && step.failure == o)
    || (step.EndRun? && step.t == t && step.ran == o)
    || (step.Timeout? && step.t == t && o == CompileTimedOut)
  }

  /** Before its end, `o` was what a call with key `k`, using slot `s`, evaluated to. */
  ghost predicate Evaluated(states: seq<Host>, steps: seq<Step>, k: Key, s: nat, o: Outcome)
    requires |states| > |steps|
  {
    exists n: nat, t: nat :: EvaluatedAt(states, steps, k, s, o, n, t)
  }

  ghost predicate EvaluatedAt(states: seq<Host>, steps: seq<Step>, k: Key, s: nat, o: Outcome, n: nat, t: nat)
    requires |states| > |steps|
  {
    && n < |steps| && Ends(steps[n], t, o) && LastKey(steps[..n], t) == Some(k)
    && At(states[n], t) && Uses(states[n].tasks[t].phase) == Some(s)
  }

  // ---------------------------------------------------------------------
  // What every run keeps
  // ---------------------------------------------------------------------

  /** A call uses a slot of its own key. */
  predicate KeyKept(h: Host, task: Task, key: Option<Key>) {
    && (InsideEval(task.phase) ==> key.Some?)
    && (task.phase.Entered? ==> key == Some(task.phase.key))
    && (Uses(task.phase).Some? ==>
          Uses(task.phase).value < |h.slots| && key == Some(h.slots[Uses(task.phase).value].key))
  }

  ghost predicate KeysKept(h: Host, steps: seq<Step>) {
    forall t :: 0 <= t < |h.tasks| ==> KeyKept(h, h.tasks[t], LastKey(steps, t))
  }

  ghost predicate SlotsEvaluated(states: seq<Host>, steps: seq<Step>, h: Host)
    requires |states| > |steps|
  {
    forall s :: 0 <= s < |h.slots| && h.slots[s].outcome.Some? ==>
      Evaluated(states, steps, h.slots[s].key, s, h.slots[s].outcome.value)
  }

  /** A call that goes back to its test has such an outcome too. */
  ghost predicate ReturnsEvaluated(states: seq<Host>, steps: seq<Step>, h: Host)
    requires |states| > |steps|
  {
    forall t :: 0 <= t < |h.tasks| && h.tasks[t].phase.AwaitReturn? ==>
      exists k, s :: LastKey(steps, t) == Some(k) && Evaluated(states, steps, k, s, h.tasks[t].phase.outcome)
  }

  lemma LastKeyNext(steps: seq<Step>, step: Step, t: nat)
    ensures LastKey(steps + [step], t) == if step.Enter? && step.t == t then Some(step.key) else LastKey(steps, t)
  {
    assert (steps + [step])[..|steps|] == steps;
  }

  /** Slots keep their keys. */
  lemma SlotKeys(h: Host, step: Step)
    requires Sound(h) && Enabled(h, step)
    ensures |h.slots| <= |SlotsAfter(h, step)|
    ensures forall s :: 0 <= s < |h.slots| ==> SlotsAfter(h, step)[s].key == h.slots[s].key
  {
  }

  lemma KeysNext(h: Host, step: Step, steps: seq<Step>)
    requires Sound(h) && Enabled(h, step) && LiveKept(h.tasks, h.slots, h.live) && KeysKept(h, steps)
    ensures KeysKept(Apply(h, step), steps + [step])
  {
    var h' := Apply(h, step);
    SlotKeys(h, step);
    forall t | 0 <= t < |h'.tasks| ensures KeyKept(h', h'.tasks[t], LastKey(steps + [step], t)) {
      LastKeyNext(steps, step, t);
      assert KeyKept(h, h.tasks[t], LastKey(steps, t));
      if Actor(step) == Some(t) { ActorKey(h, step, LastKey(steps, t)); }
    }
  }

  lemma ActorKey(h: Host, step: Step, key: Option<Key>)
    requires Sound(h) && Enabled(h, step) && LiveKept(h.tasks, h.slots, h.live) && Actor(step).Some?
    requires KeyKept(h, h.tasks[step.t], key)
    ensures KeyKept(Apply(h, step), NextTask(h, step), if step.Enter? then Some(step.key) else key)
  {
    if step.Lookup? {
      JoinsOwnKey(h, step, key);
    } else {
      SlotKeys(h, step);
      StaysAtSlot(h, step);
    }
  }

  /** Any other step leaves a call at the slot it uses, or takes it off. */
  lemma StaysAtSlot(h: Host, step: Step)
    requires Sound(h) && Enabled(h, step) && Actor(step).Some? && !step.Lookup?
    ensures var now, next := h.tasks[step.t].phase, NextTask(h, step).phase;
      && (Uses(next).Some? ==> Uses(next) == Uses(now))
      && (InsideEval(next) ==> InsideEval(now) || step.Enter?)
      && (next.Entered? ==> step.Enter? && next.key == step.key)
  {
  }

  /** Looking up a key finds, or makes, a slot of that key. */
  lemma JoinsOwnKey(h: Host, step: Step, key: Option<Key>)
    requires Sound(h) && Enabled(h, step) && LiveKept(h.tasks, h.slots, h.live) && step.Lookup?
    requires key == Some(h.tasks[step.t].phase.key)
    ensures KeyKept(Apply(h, step), NextTask(h, step), key)
  {
    var k := h.tasks[step.t].phase.key;
    if k in h.live { assert h.slots[h.live[k]].key == k; }
  }

  /** More of a run keeps what was evaluated in it. */
  lemma EvaluatedMore(states: seq<Host>, steps: seq<Step>, state: Host, step: Step, k: Key, s: nat, o: Outcome)
    requires |states| == |steps| + 1 && Evaluated(states, steps, k, s, o)
    ensures Evaluated(states + [state], steps + [step], k, s, o)
  {
    var n: nat, t: nat :| EvaluatedAt(states, steps, k, s, o, n, t);
    assert (steps + [step])[..n] == steps[..n];
    assert EvaluatedAt(states + [state], steps + [step], k, s, o, n, t);
  }

  /** An outcome a slot gets is one its initializer's step gives. */
  lemma NewOutcome(states: seq<Host>, steps: seq<Step>, step: Step, s: nat)
    requires |states| == |steps| + 1
    requires var h := states[|steps|];
      && Sound(h) && Enabled(h, step) && KeysKept(h, steps)
      && s < |SlotsAfter(h, step)| && SlotsAfter(h, step)[s].outcome.Some?
      && (s < |h.slots| ==> h.slots[s].outcome.None?)
    ensures var slot := SlotsAfter(states[|steps|], step)[s];
      Evaluated(states + [Apply(states[|steps|], step)], steps + [step], slot.key, s, slot.outcome.value)
  {
    var h, n := states[|steps|], |steps|;
    var slot := SlotsAfter(h, step)[s];
    assert Published(step).Some? && s == SlotOf(h, step.t);
    assert KeyKept(h, h.tasks[step.t], LastKey(steps, step.t));
    assert (steps + [step])[..n] == steps;
    assert Ends(step, step.t, slot.outcome.value);
    assert EvaluatedAt(states + [Apply(h, step)], steps + [step], slot.key, s, slot.outcome.value, n, step.t);
  }

  lemma SlotsNext(states: seq<Host>, steps: seq<Step>, step: Step, parallelism: nat)
    requires |states| == |steps| + 1
    requires var h := states[|steps|];
      Inv(h, parallelism) && Enabled(h, step) && KeysKept(h, steps) && SlotsEvaluated(states, steps, h)
    ensures var h' := Apply(states[|steps|], step);
      SlotsEvaluated(states + [h'], steps + [step], h')
  {
    var h := states[|steps|];
    var h' := Apply(h, step);
    SlotKeys(h, step);
    forall s | 0 <= s < |h'.slots| && h'.slots[s].outcome.Some?
      ensures Evaluated(states + [h'], steps + [step], h'.slots[s].key, s, h'.slots[s].outcome.value)
    {
      if s < |h.slots| && h.slots[s].outcome.Some? {
        OutcomeKept(h, step, s);
        EvaluatedMore(states, steps, h', step, h.slots[s].key, s, h.slots[s].outcome.value);
      } else {
        NewOutcome(states, steps, step, s);
      }
    }
  }

  lemma ReturnsNext(states: seq<Host>, steps: seq<Step>, step: Step, parallelism: nat)
    requires |states| == |steps| + 1
    requires var h := states[|steps|];
      && Inv(h, parallelism) && Enabled(h, step) && KeysKept(h, steps)
      && SlotsEvaluated(states, steps, h) && ReturnsEvaluated(states, steps, h)
    ensures var h' := Apply(states[|steps|], step);
      ReturnsEvaluated(states + [h'], steps + [step], h')
  {
    var h := states[|steps|];
    var h' := Apply(h, step);
    forall t | 0 <= t < |h'.tasks| && h'.tasks[t].phase.AwaitReturn?
      ensures exists k, s :: LastKey(steps + [step], t) == Some(k)
                             && Evaluated(states + [h'], steps + [step], k, s, h'.tasks[t].phase.outcome)
    {
      LastKeyNext(steps, step, t);
      var o := h'.tasks[t].phase.outcome;
      var k, s;
      if Actor(step) == Some(t) {
        assert step.Leave? && h.tasks[t].phase.Resolved? && o == h.tasks[t].phase.outcome;
        assert KeyKept(h, h.tasks[t], LastKey(steps, t));
        s := h.tasks[t].phase.slot;
        assert h.slots[s].outcome == Some(o);
        k := h.slots[s].key;
      } else {
        assert h'.tasks[t] == h.tasks[t];
        k, s :| LastKey(steps, t) == Some(k) && Evaluated(states, steps, k, s, o);
      }
      EvaluatedMore(states, steps, h', step, k, s, o);
    }
  }

  lemma {:induction false} RunEvaluates(states: seq<Host>, steps: seq<Step>, parallelism: nat, tests: nat)
    requires IsRun(states, steps, parallelism, tests)
    ensures var h := states[|steps|];
      && Inv(h, parallelism) && KeysKept(h, steps)
      && SlotsEvaluated(states, steps, h) && ReturnsEvaluated(states, steps, h)
    decreases |steps|
  {
    if steps == [] {
      InitialKeeps(parallelism, tests);
    } else {
      var n := |steps| - 1;
      var states', steps', step := states[..n + 1], steps[..n], steps[n];
      RunUpTo(states, steps, parallelism, tests);
      RunEvaluates(states', steps', parallelism, tests);
      var h := states'[n];
      OneMore(h, states', steps', step, parallelism);
    }
  }

  lemma RunUpTo(states: seq<Host>, steps: seq<Step>, parallelism: nat, tests: nat)
    requires IsRun(states, steps, parallelism, tests) && steps != []
    ensures var n := |steps| - 1;
      && IsRun(states[..n + 1], steps[..n], parallelism, tests) && Goes(states[n], steps[n], states[n + 1])
      && states == states[..n + 1] + [Apply(states[n], steps[n])] && steps == steps[..n] + [steps[n]]
  {
    var n := |steps| - 1;
    var states', steps' := states[..n + 1], steps[..n];
    forall i | 0 <= i < n ensures Goes(states'[i], steps'[i], states'[i + 1]) {
      assert Goes(states[i], steps[i], states[i + 1]);
    }
    assert Goes(states[n], steps[n], states[n + 1]);
  }

  lemma OneMore(h: Host, states: seq<Host>, steps: seq<Step>, step: Step, parallelism: nat)
    requires |states| == |steps| + 1 && h == states[|steps|] && Enabled(h, step) && Inv(h, parallelism)
    requires KeysKept(h, steps) && SlotsEvaluated(states, steps, h) && ReturnsEvaluated(states, steps, h)
    ensures var h' := Apply(h, step);
      && Inv(h', parallelism) && KeysKept(h', steps + [step])
      && SlotsEvaluated(states + [h'], steps + [step], h') && ReturnsEvaluated(states + [h'], steps + [step], h')
  {
    StepKeeps(h, step, parallelism);
    KeysNext(h, step, steps);
    SlotsNext(states, steps, step, parallelism);
    ReturnsNext(states, steps, step, parallelism);
  }

  // ---------------------------------------------------------------------
  // Whose outcome
  // ---------------------------------------------------------------------

  /** In every run: a call is at a slot of the key it entered with, and once it is
    * resolved, its outcome is what some call with that key, at that slot, evaluated to
    * at some step of the run.
    */
  lemma ResolvedToOwnKey(states: seq<Host>, steps: seq<Step>, parallelism: nat, tests: nat, t: nat)
    requires IsRun(states, steps, parallelism, tests) && At(states[|steps|], t)
    requires states[|steps|].tasks[t].phase.Resolved?
    ensures var h := states[|steps|]; var s := h.tasks[t].phase.slot;
      && s < |h.slots| && LastKey(steps, t) == Some(h.slots[s].key)
      && Evaluated(states, steps, h.slots[s].key, s, h.tasks[t].phase.outcome)
  {
    RunEvaluates(states, steps, parallelism, tests);
    var h := states[|steps|];
    assert KeyKept(h, h.tasks[t], LastKey(steps, t));
    var s := h.tasks[t].phase.slot;
    assert h.slots[s].outcome == Some(h.tasks[t].phase.outcome);
  }

  /** And so is the outcome it goes back to its test with. */
  lemma ReturnsOwnKey(states: seq<Host>, steps: seq<Step>, parallelism: nat, tests: nat, t: nat)
    requires IsRun(states, steps, parallelism, tests) && At(states[|steps|], t)
    requires states[|steps|].tasks[t].phase.AwaitReturn?
    ensures exists k, s :: LastKey(steps, t) == Some(k) && Evaluated(states, steps, k, s, states[|steps|].tasks[t].phase.outcome)
  {
    RunEvaluates(states, steps, parallelism, tests);
  }

  /** Whatever steps can be taken one after the other are such a run. */
  lemma {:induction false} LeadsIsRun(h: Host, steps: seq<Step>, h': Host) returns (states: seq<Host>)
    requires Leads(h, steps, h')
    ensures |states| == |steps| + 1 && states[0] == h && states[|steps|] == h'
    ensures forall n :: 0 <= n < |steps| ==> Goes(states[n], steps[n], states[n + 1])
    decreases |steps|
  {
    if steps == [] {
      states := [h];
    } else {
      var rest := LeadsIsRun(Apply(h, steps[0]), steps[1..], h');
      states := [h] + rest;
      forall n | 0 <= n < |steps| ensures Goes(states[n], steps[n], states[n + 1]) {
        if n > 0 { assert Goes(rest[n - 1], steps[1..][n - 1], rest[n - 1 + 1]); }
      }
    }
  }

  // ---------------------------------------------------------------------
  // What comes before a run
  // ---------------------------------------------------------------------

  /** Since test `t` last entered, it took this step. */
  predicate Did(steps: seq<Step>, t: nat, step: Step) {
    steps != [] &&
    var last := steps[|steps| - 1];
    last == step || (!(last.Enter? && last.t == t) && Did(steps[..|steps| - 1], t, step))
  }

  lemma DidNext(steps: seq<Step>, last: Step, t: nat, step: Step)
    ensures Did(steps + [last], t, step) <==> last == step || (!(last.Enter? && last.t == t) && Did(steps, t, step))
  {
    assert (steps + [last])[..|steps|] == steps;
  }

  /** How far a call has come, by the steps it took since it entered: it looked up its key,
    * became the slot's initializer, missed the cache, began a compile, received what that
    * reported, and began to run it.
    */
  predicate CameBy(phase: Phase, steps: seq<Step>, t: nat) {
    && (Uses(phase).Some? ==> Did(steps, t, Lookup(t)))
    && (Initializes(phase).Some? ==> Did(steps, t, GetOrInit(t)))
    && (phase.AwaitCompile? || phase.Compiling? || phase.AwaitRun? || phase.Running? ==> Did(steps, t, CacheMiss(t)))
    && (phase.Compiling? || phase.AwaitRun? || phase.Running? ==> Did(steps, t, BeginCompile(t)))
    && (phase.AwaitRun? || phase.Running? ==> Did(steps, t, ReceiveWasm(t)))
    && (phase.Running? ==> Did(steps, t, BeginRun(t)))
  }

  lemma CameByNext(h: Host, steps: seq<Step>, step: Step, t: nat)
    requires Sound(h) && Enabled(h, step) && At(h, t) && CameBy(h.tasks[t].phase, steps, t)
    ensures CameBy(TasksAfter(h, step)[t].phase, steps + [step], t)
  {
    DidNext(steps, step, t, Lookup(t));
    DidNext(steps, step, t, GetOrInit(t));
    DidNext(steps, step, t, CacheMiss(t));
    DidNext(steps, step, t, BeginCompile(t));
    DidNext(steps, step, t, ReceiveWasm(t));
    DidNext(steps, step, t, BeginRun(t));
    if Actor(step) == Some(t) { PhaseNext(h, step); }
  }

  /** What each step of a call makes of its phase. */
  lemma PhaseNext(h: Host, step: Step)
    requires Sound(h) && Enabled(h, step) && Actor(step).Some?
    ensures var now, next := h.tasks[step.t].phase, NextTask(h, step).phase;
      && (Uses(next).Some? ==> Uses(now).Some? || step.Lookup?)
      && (Initializes(next).Some? ==> Initializes(now).Some? || step.GetOrInit?)
      && (next.Checking? ==> step.GetOrInit?) && (next.AwaitCompile? ==> step.CacheMiss?)
      && (next.Compiling? ==> step.BeginCompile? && now.AwaitCompile?)
      && (next.AwaitRun? ==> step.ReceiveWasm? && now.Compiling?)
      && (next.Running? ==> step.BeginRun? && now.AwaitRun?)
      && (step.Enter? ==> next.Entered?)
  {
  }

  /** Wherever a call is in a run, it came there by the steps that lead there, since it
    * last entered: only what a compile of its own reported is run, and only after the
    * cache was missed.
    */
  lemma {:induction false} CallsComeBy(states: seq<Host>, steps: seq<Step>, parallelism: nat, tests: nat, t: nat)
    requires IsRun(states, steps, parallelism, tests) && At(states[|steps|], t)
    ensures CameBy(states[|steps|].tasks[t].phase, steps, t)
    decreases |steps|
  {
    if steps != [] {
      var n := |steps| - 1;
      RunUpTo(states, steps, parallelism, tests);
      CallsComeBy(states[..n + 1], steps[..n], parallelism, tests, t);
      CameByNext(states[n], steps[..n], steps[n], t);
    }
  }
}
