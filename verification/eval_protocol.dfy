/** The `core:eval` host of one `wado test` run: tests, the slots that let calls
  * sharing a key evaluate once, the CPU permits that pass between tests,
  * compiles and runs, and the strand permits of compiles past their limit.
  */
module EvalProtocol {
  import opened Totals

  datatype Option<T> = None | Some(value: T)

  type Key = nat
  datatype Outcome = CompileTimedOut | Ended(id: nat)

  /** Where a test is. All but the first, second and last are inside `eval`. */
  datatype Phase =
    | Unstarted
    | Testing
    | Entered(key: Key)
    | Joined(slot: nat)
    | Checking(slot: nat)
    | AwaitCompile(slot: nat)
    | Compiling(slot: nat, compile: nat)
    | AwaitRun(slot: nat)
    | Running(slot: nat)
    | Resolved(slot: nat, outcome: Outcome)
    | AwaitReturn(outcome: Outcome)
    | Over

  /** `permit` is the session's own; `runPermit` the one the blocking run took
    * along; `entered` the clock's mark.
    */
  datatype Task = Task(phase: Phase, permit: bool, runPermit: bool, entered: bool)

  /** A compile and what its `held` vector contains. The call waiting for it and
    * its thread each keep the vector alive.
    */
  datatype Compile = Compile(awaited: bool, threadLives: bool, reported: bool, pastLimit: bool, cpu: nat, strand: nat)

  datatype Slot = Slot(key: Key, outcome: Option<Outcome>, initializer: Option<nat>)

  datatype Host = Host(
    cpu: nat,
    strandable: nat,
    tasks: seq<Task>,
    compiles: seq<Compile>,
    slots: seq<Slot>,
    live: map<Key, nat>)

  datatype Step =
    | Start(t: nat)
    | Finish(t: nat)
    | Enter(t: nat, key: Key)
    | Lookup(t: nat)
    | GetOrInit(t: nat)
    | CacheHit(t: nat, found: Outcome)
    | CacheMiss(t: nat)
    | BeginCompile(t: nat)
    | Report(c: nat)
    | EndThread(c: nat)
    | ReceiveWasm(t: nat)
    | ReceiveFailure(t: nat, failure: Outcome)
    | Timeout(t: nat)
    | BeginRun(t: nat)
    | EndRun(t: nat, ran: Outcome)
    | Leave(t: nat)
    | Return(t: nat)

  // ---------------------------------------------------------------------
  // Steps
  // ---------------------------------------------------------------------

  predicate At(h: Host, t: nat) { t < |h.tasks| }

  predicate Enabled(h: Host, step: Step) {
    match step
    case Start(t) => At(h, t) && h.tasks[t].phase.Unstarted? && h.cpu > 0
    case Finish(t) => At(h, t) && h.tasks[t].phase.Testing?
    case Enter(t, _) => At(h, t) && h.tasks[t].phase.Testing?
    case Lookup(t) => At(h, t) && h.tasks[t].phase.Entered?
    case GetOrInit(t) =>
      && At(h, t) && h.tasks[t].phase.Joined? && h.tasks[t].phase.slot < |h.slots|
      && var slot := h.slots[h.tasks[t].phase.slot];
         slot.outcome.Some? || slot.initializer.None?
    case CacheHit(t, _) => At(h, t) && h.tasks[t].phase.Checking?
    case CacheMiss(t) => At(h, t) && h.tasks[t].phase.Checking?
    case BeginCompile(t) => At(h, t) && h.tasks[t].phase.AwaitCompile? && h.cpu > 0
    case Report(c) => c < |h.compiles| && h.compiles[c].threadLives && !h.compiles[c].reported
    case EndThread(c) => c < |h.compiles| && h.compiles[c].threadLives && h.compiles[c].reported
    case ReceiveWasm(t) => Received(h, t)
    case ReceiveFailure(t, _) => Received(h, t)
    case Timeout(t) => At(h, t) && h.tasks[t].phase.Compiling?
    case BeginRun(t) => At(h, t) && h.tasks[t].phase.AwaitRun? && h.cpu > 0
    case EndRun(t, _) => At(h, t) && h.tasks[t].phase.Running?
    case Leave(t) => At(h, t) && h.tasks[t].phase.Resolved?
    case Return(t) => At(h, t) && h.tasks[t].phase.AwaitReturn? && h.cpu > 0
  }

  predicate Received(h: Host, t: nat) {
    && At(h, t) && h.tasks[t].phase.Compiling?
    && h.tasks[t].phase.compile < |h.compiles| && h.compiles[h.tasks[t].phase.compile].reported
  }

  function Give(held: bool): nat { if held then 1 else 0 }

  /** What a compile's `held` vector goes through. */
  datatype Event = Reports | Ends | Received | PastLimit(strand: bool)

  /** A compile after an event, and the permits that dropped out of its vector. */
  datatype Dropped = Dropped(compile: Compile, cpu: nat, strand: nat)

  /** A vector nobody keeps alive drops what it holds. */
  function Settle(c: Compile): Dropped {
    if c.awaited || c.threadLives then Dropped(c, 0, 0)
    else Dropped(c.(cpu := 0, strand := 0), c.cpu, c.strand)
  }

  /** Past the limit, `abandon` adds a strand permit where one is left, and
    * clears the vector otherwise.
    */
  function After(c: Compile, event: Event): Dropped {
    match event
    case Reports => Dropped(c.(reported := true), 0, 0)
    case Ends => Settle(c.(threadLives := false))
    case Received => Settle(c.(awaited := false))
    case PastLimit(true) => Settle(c.(pastLimit := true, strand := c.strand + 1, awaited := false))
    case PastLimit(false) =>
      var rest := Settle(c.(pastLimit := true, cpu := 0, strand := 0, awaited := false));
      rest.(cpu := rest.cpu + c.cpu, strand := rest.strand + c.strand)
  }

  /** A task names only slots and compiles there are. */
  predicate Refers(h: Host, task: Task) {
    match task.phase
    case Joined(s) => s < |h.slots|
    case Checking(s) => s < |h.slots|
    case AwaitCompile(s) => s < |h.slots|
    case Compiling(s, c) => s < |h.slots| && c < |h.compiles|
    case AwaitRun(s) => s < |h.slots|
    case Running(s) => s < |h.slots|
    case Resolved(s, _) => s < |h.slots|
    case _ => true
  }

  predicate Sound(h: Host) {
    forall t :: 0 <= t < |h.tasks| ==> Refers(h, h.tasks[t])
  }

  /** The slot the call of a step is at. */
  function SlotOf(h: Host, t: nat): (s: nat)
    requires Sound(h) && At(h, t) && Uses(h.tasks[t].phase).Some?
    ensures s < |h.slots| && s == Uses(h.tasks[t].phase).value
  {
    assert Refers(h, h.tasks[t]);
    Uses(h.tasks[t].phase).value
  }

  function CompileOf(h: Host, t: nat): (c: nat)
    requires Sound(h) && At(h, t) && h.tasks[t].phase.Compiling?
    ensures c < |h.compiles| && c == h.tasks[t].phase.compile
  {
    assert Refers(h, h.tasks[t]);
    h.tasks[t].phase.compile
  }

  function Actor(step: Step): Option<nat> {
    match step
    case Report(_) => None
    case EndThread(_) => None
    case _ => Some(step.t)
  }

  /** The outcome a step puts into the actor's slot. */
  function Published(step: Step): Option<Outcome> {
    match step
    case CacheHit(_, found) => Some(found)
    case ReceiveFailure(_, failure) => Some(failure)
    case Timeout(_) => Some(CompileTimedOut)
    case EndRun(_, ran) => Some(ran)
    case _ => None
  }

  function NextPhase(h: Host, step: Step): Phase
    requires Enabled(h, step) && Sound(h) && Actor(step).Some?
  {
    var phase := h.tasks[step.t].phase;
    if step.Start? || step.Return? then Testing
    else if step.Finish? then Over
    else if step.Enter? then Phase.Entered(step.key)
    else if step.Lookup? then Joined(if phase.key in h.live then h.live[phase.key] else |h.slots|)
    else if step.Leave? then AwaitReturn(phase.outcome)
    else
      var s := SlotOf(h, step.t);
      if step.GetOrInit? then
        if h.slots[s].outcome.Some? then Resolved(s, h.slots[s].outcome.value) else Checking(s)
      else if step.CacheMiss? then AwaitCompile(s)
      else if step.BeginCompile? then Compiling(s, |h.compiles|)
      else if step.ReceiveWasm? then AwaitRun(s)
      else if step.BeginRun? then Phase.Running(s)
      else Resolved(s, Published(step).value)
  }

  function NextTask(h: Host, step: Step): Task
    requires Enabled(h, step) && Sound(h) && Actor(step).Some?
  {
    var task := h.tasks[step.t].(phase := NextPhase(h, step));
    if step.Start? then task.(permit := true)
    else if step.Finish? then task.(permit := false)
    else if step.Enter? then task.(permit := false, entered := true)
    else if step.BeginRun? then task.(runPermit := true)
    else if step.EndRun? then task.(runPermit := false)
    else if step.Return? then task.(permit := true, entered := false)
    else task
  }

  function TasksAfter(h: Host, step: Step): seq<Task>
    requires Enabled(h, step) && Sound(h)
  {
    if Actor(step).Some? then h.tasks[step.t := NextTask(h, step)] else h.tasks
  }

  /** The compile a step does something to, and what. */
  function Change(h: Host, step: Step): (r: Option<(nat, Event)>)
    requires Enabled(h, step) && Sound(h)
    ensures r.Some? ==> r.value.0 < |h.compiles|
  {
    if step.Report? then Some((step.c, Reports))
    else if step.EndThread? then Some((step.c, Ends))
    else if step.ReceiveWasm? || step.ReceiveFailure? then Some((CompileOf(h, step.t), Event.Received))
    else if step.Timeout? then Some((CompileOf(h, step.t), PastLimit(h.strandable > 0)))
    else None
  }

  const Begun: Compile := Compile(true, true, false, false, 1, 0)

  function CompilesAfter(h: Host, step: Step): seq<Compile>
    requires Enabled(h, step) && Sound(h)
  {
    if step.BeginCompile? then h.compiles + [Begun]
    else if Change(h, step).Some? then
      var (c, event) := Change(h, step).value;
      h.compiles[c := After(h.compiles[c], event).compile]
    else h.compiles
  }

  /** How many permits dropped out of a vector: of the CPU, and to strand. */
  function FreedCpu(h: Host, step: Step): nat
    requires Enabled(h, step) && Sound(h)
  {
    if Change(h, step).None? then 0
    else var (c, event) := Change(h, step).value; After(h.compiles[c], event).cpu
  }

  function FreedStrand(h: Host, step: Step): nat
    requires Enabled(h, step) && Sound(h)
  {
    if Change(h, step).None? then 0
    else var (c, event) := Change(h, step).value; After(h.compiles[c], event).strand
  }

  predicate Takes(step: Step) { step.Start? || step.BeginCompile? || step.BeginRun? || step.Return? }

  function CpuAfter(h: Host, step: Step): nat
    requires Enabled(h, step) && Sound(h)
  {
    if Takes(step) then h.cpu - 1
    else if step.Finish? || step.Enter? then h.cpu + Give(h.tasks[step.t].permit)
    else if step.EndRun? then h.cpu + Give(h.tasks[step.t].runPermit)
    else h.cpu + FreedCpu(h, step)
  }

  function StrandableAfter(h: Host, step: Step): nat
    requires Enabled(h, step) && Sound(h)
  {
    (if step.Timeout? && h.strandable > 0 then h.strandable - 1 else h.strandable) + FreedStrand(h, step)
  }

  function SlotsAfter(h: Host, step: Step): seq<Slot>
    requires Enabled(h, step) && Sound(h)
  {
    if step.Lookup? then
      var key := h.tasks[step.t].phase.key;
      if key in h.live then h.slots else h.slots + [Slot(key, None, None)]
    else if step.GetOrInit? then
      var s := SlotOf(h, step.t);
      if h.slots[s].outcome.Some? then h.slots else h.slots[s := h.slots[s].(initializer := Some(step.t))]
    else if Published(step).Some? then
      var s := SlotOf(h, step.t);
      h.slots[s := h.slots[s].(outcome := Published(step), initializer := None)]
    else h.slots
  }

  /** The map gains a slot where the key has none, and a leaving call removes the
    * key only where it still maps to the slot the call used.
    */
  function LiveAfter(h: Host, step: Step): map<Key, nat>
    requires Enabled(h, step) && Sound(h)
  {
    if step.Lookup? then
      var key := h.tasks[step.t].phase.key;
      if key in h.live then h.live else h.live[key := |h.slots|]
    else if step.Leave? then
      var s := SlotOf(h, step.t);
      var key := h.slots[s].key;
      if key in h.live && h.live[key] == s then h.live - {key} else h.live
    else h.live
  }

  function Apply(h: Host, step: Step): Host
    requires Enabled(h, step) && Sound(h)
  {
    Host(CpuAfter(h, step), StrandableAfter(h, step), TasksAfter(h, step), CompilesAfter(h, step),
         SlotsAfter(h, step), LiveAfter(h, step))
  }

  // ---------------------------------------------------------------------
  // Invariants
  // ---------------------------------------------------------------------

  /** The slot a call is using, from finding it to leaving it. */
  function Uses(phase: Phase): Option<nat> {
    match phase
    case Joined(s) => Some(s)
    case Resolved(s, _) => Some(s)
    case _ => Initializes(phase)
  }

  /** The slot a call is initializing. */
  function Initializes(phase: Phase): Option<nat> {
    match phase
    case Checking(s) => Some(s)
    case AwaitCompile(s) => Some(s)
    case Compiling(s, _) => Some(s)
    case AwaitRun(s) => Some(s)
    case Running(s) => Some(s)
    case _ => None
  }

  predicate InsideEval(phase: Phase) {
    !phase.Unstarted? && !phase.Testing? && !phase.Over?
  }

  /** A test holds a permit exactly while it runs its own code, and a blocking
    * run exactly while it lasts; inside `eval` the session's is empty.
    */
  predicate TaskKept(task: Task) {
    && (task.permit <==> task.phase.Testing?)
    && (task.runPermit <==> task.phase.Running?)
    && (task.entered <==> InsideEval(task.phase))
  }

  predicate CompileKept(c: Compile) {
    && (c.awaited ==> !c.pastLimit && c.cpu == 1 && c.strand == 0)
    && (!c.awaited && c.threadLives ==> if c.pastLimit then c.cpu == c.strand <= 1 else c.cpu == 1 && c.strand == 0 && c.reported)
    && (!c.awaited && !c.threadLives ==> c.cpu == 0 && c.strand == 0)
    && (!c.threadLives ==> c.reported)
  }

  /** An awaited compile is awaited by exactly one call. */
  ghost predicate CompilesAwaited(tasks: seq<Task>, compiles: seq<Compile>) {
    && (forall t :: 0 <= t < |tasks| && tasks[t].phase.Compiling? ==>
          tasks[t].phase.compile < |compiles| && compiles[tasks[t].phase.compile].awaited)
    && (forall t, t' :: 0 <= t < t' < |tasks| && tasks[t].phase.Compiling? && tasks[t'].phase.Compiling? ==>
          tasks[t].phase.compile != tasks[t'].phase.compile)
    && (forall c :: 0 <= c < |compiles| && compiles[c].awaited ==> AwaitedBy(tasks, c))
  }

  ghost predicate AwaitedBy(tasks: seq<Task>, c: nat) {
    exists t :: 0 <= t < |tasks| && tasks[t].phase.Compiling? && tasks[t].phase.compile == c
  }

  /** A slot has an initializer exactly while one of the calls is initializing it,
    * and none once it has its outcome.
    */
  ghost predicate SlotsKept(tasks: seq<Task>, slots: seq<Slot>) {
    && (forall t :: 0 <= t < |tasks| && Initializes(tasks[t].phase).Some? ==>
          var s := Initializes(tasks[t].phase).value;
          s < |slots| && slots[s].initializer == Some(t))
    && (forall s :: 0 <= s < |slots| && slots[s].initializer.Some? ==>
          var t := slots[s].initializer.value;
          t < |tasks| && Initializes(tasks[t].phase) == Some(s) && slots[s].outcome.None?)
    && (forall t :: 0 <= t < |tasks| && tasks[t].phase.Resolved? ==>
          var s := tasks[t].phase.slot;
          s < |slots| && slots[s].outcome == Some(tasks[t].phase.outcome))
  }

  /** A slot without its outcome is the one in the map, and a slot in the map is
    * in use.
    */
  ghost predicate LiveKept(tasks: seq<Task>, slots: seq<Slot>, live: map<Key, nat>) {
    && (forall k :: k in live ==> live[k] < |slots| && slots[live[k]].key == k && InUse(tasks, live[k]))
    && (forall s :: 0 <= s < |slots| && slots[s].outcome.None? ==> slots[s].key in live && live[slots[s].key] == s)
  }

  ghost predicate InUse(tasks: seq<Task>, s: nat) {
    exists t :: 0 <= t < |tasks| && Uses(tasks[t].phase) == Some(s)
  }

  function OwnPermits(task: Task): nat { Give(task.permit) + Give(task.runPermit) }
  function CpuHeld(c: Compile): nat { c.cpu }
  function StrandHeld(c: Compile): nat { c.strand }

  /** Every permit is free or in one place. */
  ghost predicate Conserved(h: Host, parallelism: nat) {
    && h.cpu + Total(h.tasks, OwnPermits) + Total(h.compiles, CpuHeld) == parallelism
    && h.strandable + Total(h.compiles, StrandHeld) == parallelism - 1
  }

  ghost predicate Inv(h: Host, parallelism: nat) {
    && Sound(h) && (forall t :: 0 <= t < |h.tasks| ==> TaskKept(h.tasks[t]))
    && (forall c :: 0 <= c < |h.compiles| ==> CompileKept(h.compiles[c]))
    && CompilesAwaited(h.tasks, h.compiles) && SlotsKept(h.tasks, h.slots) && LiveKept(h.tasks, h.slots, h.live)
    && Conserved(h, parallelism)
  }

  function Initial(parallelism: nat, tests: nat): Host
    requires parallelism > 0
  {
    Host(parallelism, parallelism - 1, seq(tests, _ => Task(Unstarted, false, false, false)), [], [], map[])
  }

  lemma InitialKeeps(parallelism: nat, tests: nat)
    requires parallelism > 0
    ensures Inv(Initial(parallelism, tests), parallelism)
  {
    TotalBelow(Initial(parallelism, tests).tasks, OwnPermits, _ => 0);
    TotalOfZero(Initial(parallelism, tests).tasks);
  }

  lemma {:induction false} TotalOfZero(tasks: seq<Task>)
    ensures Total(tasks, _ => 0) == 0
    decreases |tasks|
  {
    if tasks != [] { TotalOfZero(tasks[..|tasks| - 1]); }
  }

  lemma KeepsTasks(h: Host, step: Step)
    requires Sound(h) && Enabled(h, step)
    requires forall t :: 0 <= t < |h.tasks| ==> TaskKept(h.tasks[t])
    ensures forall t :: 0 <= t < |h.tasks| ==> TaskKept(TasksAfter(h, step)[t])
  {
    if Actor(step).Some? { assert TaskKept(h.tasks[step.t]); }
  }

  lemma KeepsSound(h: Host, step: Step)
    requires Sound(h) && Enabled(h, step) && LiveKept(h.tasks, h.slots, h.live)
    ensures Sound(Apply(h, step))
  {
    var h' := Apply(h, step);
    assert |h.slots| <= |h'.slots| && |h.compiles| <= |h'.compiles|;
    forall t | 0 <= t < |h'.tasks| ensures Refers(h', h'.tasks[t]) {
      assert Refers(h, h.tasks[t]);
    }
  }

  lemma KeepsCompile(c: Compile, event: Event)
    requires CompileKept(c)
    requires event.Ends? ==> c.reported
    requires event.Received? ==> c.awaited && c.reported
    requires event.PastLimit? ==> c.awaited
    ensures CompileKept(After(c, event).compile)
    ensures After(c, event).compile.awaited <==> c.awaited && !event.Received? && !event.PastLimit?
  {
  }

  lemma ChangeAllowed(h: Host, step: Step)
    requires Sound(h) && Enabled(h, step) && CompilesAwaited(h.tasks, h.compiles) && Change(h, step).Some?
    ensures var (c, event) := Change(h, step).value;
      && (event.Ends? ==> h.compiles[c].reported)
      && (event.Received? ==> h.compiles[c].awaited && h.compiles[c].reported)
      && (event.PastLimit? ==> h.compiles[c].awaited)
      && (event.Received? || event.PastLimit? <==> Actor(step).Some?)
      && (Actor(step).Some? ==> h.tasks[step.t].phase.Compiling? && h.tasks[step.t].phase.compile == c && !NextPhase(h, step).Compiling?)
  {
  }

  lemma KeepsCompiles(h: Host, step: Step)
    requires Sound(h) && Enabled(h, step) && CompilesAwaited(h.tasks, h.compiles)
    requires forall c :: 0 <= c < |h.compiles| ==> CompileKept(h.compiles[c])
    ensures forall c :: 0 <= c < |CompilesAfter(h, step)| ==> CompileKept(CompilesAfter(h, step)[c])
  {
    if Change(h, step).Some? {
      var (c, event) := Change(h, step).value;
      ChangeAllowed(h, step);
      KeepsCompile(h.compiles[c], event);
    }
  }

  /** A call stops awaiting compile `c`. */
  lemma AwaitedDrops(tasks: seq<Task>, compiles: seq<Compile>, t: nat, task: Task, c: nat, compile: Compile)
    requires CompilesAwaited(tasks, compiles) && t < |tasks| && tasks[t].phase.Compiling? && tasks[t].phase.compile == c
    requires c < |compiles| && !task.phase.Compiling? && !compile.awaited
    ensures CompilesAwaited(tasks[t := task], compiles[c := compile])
  {
    forall k | 0 <= k < |compiles| && k != c && compiles[k].awaited ensures AwaitedBy(tasks[t := task], k) {
      assert AwaitedBy(tasks, k);
      var i :| 0 <= i < |tasks| && tasks[i].phase.Compiling? && tasks[i].phase.compile == k;
      assert tasks[t := task][i] == tasks[i];
    }
  }

  lemma AwaitedBegins(tasks: seq<Task>, compiles: seq<Compile>, t: nat, task: Task)
    requires CompilesAwaited(tasks, compiles) && t < |tasks| && !tasks[t].phase.Compiling?
    requires task.phase.Compiling? && task.phase.compile == |compiles|
    ensures CompilesAwaited(tasks[t := task], compiles + [Begun])
  {
    var tasks' := tasks[t := task];
    forall k | 0 <= k < |compiles| && compiles[k].awaited ensures AwaitedBy(tasks', k) {
      assert AwaitedBy(tasks, k);
      var i :| 0 <= i < |tasks| && tasks[i].phase.Compiling? && tasks[i].phase.compile == k;
      assert tasks'[i] == tasks[i];
    }
    assert tasks'[t].phase.compile == |compiles|;
  }

  lemma AwaitedElsewhere(tasks: seq<Task>, compiles: seq<Compile>, t: nat, task: Task)
    requires CompilesAwaited(tasks, compiles) && t < |tasks| && !tasks[t].phase.Compiling? && !task.phase.Compiling?
    ensures CompilesAwaited(tasks[t := task], compiles)
  {
    forall k | 0 <= k < |compiles| && compiles[k].awaited ensures AwaitedBy(tasks[t := task], k) {
      assert AwaitedBy(tasks, k);
      var i :| 0 <= i < |tasks| && tasks[i].phase.Compiling? && tasks[i].phase.compile == k;
      assert tasks[t := task][i] == tasks[i];
    }
  }

  lemma KeepsAwaited(h: Host, step: Step)
    requires Sound(h) && Enabled(h, step) && CompilesAwaited(h.tasks, h.compiles)
    requires forall c :: 0 <= c < |h.compiles| ==> CompileKept(h.compiles[c])
    ensures CompilesAwaited(TasksAfter(h, step), CompilesAfter(h, step))
  {
    if step.BeginCompile? {
      AwaitedBegins(h.tasks, h.compiles, step.t, NextTask(h, step));
    } else if Change(h, step).Some? {
      var (c, event) := Change(h, step).value;
      ChangeAllowed(h, step);
      KeepsCompile(h.compiles[c], event);
      if Actor(step).Some? {
        AwaitedDrops(h.tasks, h.compiles, step.t, NextTask(h, step), c, After(h.compiles[c], event).compile);
      }
    } else {
      AwaitedElsewhere(h.tasks, h.compiles, step.t, NextTask(h, step));
    }
  }

  lemma SlotsPublish(tasks: seq<Task>, slots: seq<Slot>, t: nat, task: Task, s: nat, slot: Slot)
    requires SlotsKept(tasks, slots) && t < |tasks| && Initializes(tasks[t].phase) == Some(s)
    requires slot.initializer.None? && slot.outcome.Some? && task.phase == Resolved(s, slot.outcome.value)
    ensures s < |slots| && slots[s].outcome.None? && SlotsKept(tasks[t := task], slots[s := slot])
  {
    assert slots[s].initializer == Some(t);
  }

  lemma SlotsBegin(tasks: seq<Task>, slots: seq<Slot>, t: nat, task: Task, s: nat, slot: Slot)
    requires SlotsKept(tasks, slots) && t < |tasks| && Initializes(tasks[t].phase).None? && s < |slots|
    requires slots[s].initializer.None? && slots[s].outcome.None?
    requires slot.initializer == Some(t) && slot.outcome.None? && task.phase == Checking(s)
    ensures SlotsKept(tasks[t := task], slots[s := slot])
  {
  }

  lemma SlotsElsewhere(tasks: seq<Task>, slots: seq<Slot>, t: nat, task: Task, slots': seq<Slot>)
    requires SlotsKept(tasks, slots) && t < |tasks| && Initializes(task.phase) == Initializes(tasks[t].phase)
    requires slots <= slots' && forall s :: |slots| <= s < |slots'| ==> slots'[s].initializer.None?
    requires task.phase.Resolved? ==>
      task.phase.slot < |slots| && slots[task.phase.slot].outcome == Some(task.phase.outcome)
    ensures SlotsKept(tasks[t := task], slots')
  {
  }

  /** What a step that neither publishes nor begins to initialize does to its
    * call's place at a slot: nothing, but for finding one and leaving one.
    */
  lemma PlaceKept(h: Host, step: Step)
    requires Sound(h) && Enabled(h, step) && Actor(step).Some?
    requires Published(step).None? && !(step.GetOrInit? && NextPhase(h, step).Checking?)
    ensures Initializes(NextPhase(h, step)) == Initializes(h.tasks[step.t].phase)
    ensures NextPhase(h, step).Resolved? ==>
      var p := NextPhase(h, step); p.slot < |h.slots| && h.slots[p.slot].outcome == Some(p.outcome)
    ensures h.slots <= SlotsAfter(h, step)
    ensures forall s :: |h.slots| <= s < |SlotsAfter(h, step)| ==> SlotsAfter(h, step)[s].initializer.None?
  {
    assert Refers(h, h.tasks[step.t]);
  }

  lemma KeepsSlots(h: Host, step: Step)
    requires Sound(h) && Enabled(h, step) && SlotsKept(h.tasks, h.slots)
    ensures SlotsKept(TasksAfter(h, step), SlotsAfter(h, step))
  {
    if Actor(step).Some? {
      var task := NextTask(h, step);
      if Published(step).Some? {
        var s := SlotOf(h, step.t);
        SlotsPublish(h.tasks, h.slots, step.t, task, s, SlotsAfter(h, step)[s]);
      } else if step.GetOrInit? && task.phase.Checking? {
        var s := SlotOf(h, step.t);
        SlotsBegin(h.tasks, h.slots, step.t, task, s, SlotsAfter(h, step)[s]);
      } else {
        PlaceKept(h, step);
        SlotsElsewhere(h.tasks, h.slots, step.t, task, SlotsAfter(h, step));
      }
    }
  }

  /** The calls using a slot other than the one the actor leaves still do. */
  lemma StillInUse(tasks: seq<Task>, t: nat, task: Task, s: nat)
    requires InUse(tasks, s) && t < |tasks|
    requires Uses(tasks[t].phase) == Some(s) ==> Uses(task.phase) == Some(s)
    ensures InUse(tasks[t := task], s)
  {
    var i :| 0 <= i < |tasks| && Uses(tasks[i].phase) == Some(s);
    assert Uses(tasks[t := task][i].phase) == Some(s);
  }

  lemma LiveFinds(tasks: seq<Task>, slots: seq<Slot>, live: map<Key, nat>, t: nat, task: Task, key: Key)
    requires LiveKept(tasks, slots, live) && t < |tasks| && Uses(tasks[t].phase).None?
    requires task.phase == Joined(if key in live then live[key] else |slots|)
    ensures key in live ==> LiveKept(tasks[t := task], slots, live)
    ensures key !in live ==> LiveKept(tasks[t := task], slots + [Slot(key, None, None)], live[key := |slots|])
  {
    var tasks' := tasks[t := task];
    assert Uses(tasks'[t].phase) == Some(task.phase.slot);
    assert InUse(tasks', task.phase.slot);
    forall k | k in live ensures InUse(tasks', live[k]) {
      StillInUse(tasks, t, task, live[k]);
    }
  }

  /** A leaving call takes only the slot it used out of the map. */
  lemma LiveLeaves(tasks: seq<Task>, slots: seq<Slot>, live: map<Key, nat>, t: nat, task: Task, s: nat, live': map<Key, nat>)
    requires LiveKept(tasks, slots, live) && t < |tasks| && Uses(tasks[t].phase) == Some(s)
    requires s < |slots| && slots[s].outcome.Some?
    requires live' == var key := slots[s].key; if key in live && live[key] == s then live - {key} else live
    ensures LiveKept(tasks[t := task], slots, live')
  {
    forall k | k in live' ensures InUse(tasks[t := task], live'[k]) {
      assert live'[k] == live[k] != s;
      StillInUse(tasks, t, task, live[k]);
    }
  }

  lemma LiveElsewhere(tasks: seq<Task>, slots: seq<Slot>, live: map<Key, nat>, t: nat, task: Task, slots': seq<Slot>)
    requires LiveKept(tasks, slots, live) && t < |tasks| && Uses(task.phase) == Uses(tasks[t].phase)
    requires |slots'| == |slots|
    requires forall s :: 0 <= s < |slots| ==>
      slots'[s].key == slots[s].key && (slots'[s].outcome.None? ==> slots[s].outcome.None?)
    ensures LiveKept(tasks[t := task], slots', live)
  {
    forall k | k in live ensures InUse(tasks[t := task], live[k]) {
      StillInUse(tasks, t, task, live[k]);
    }
  }

  lemma UsesKept(h: Host, step: Step)
    requires Sound(h) && Enabled(h, step) && Actor(step).Some? && !step.Lookup? && !step.Leave?
    ensures Uses(NextPhase(h, step)) == Uses(h.tasks[step.t].phase)
  {
  }

  lemma KeepsLive(h: Host, step: Step)
    requires Sound(h) && Enabled(h, step) && SlotsKept(h.tasks, h.slots) && LiveKept(h.tasks, h.slots, h.live)
    ensures LiveKept(TasksAfter(h, step), SlotsAfter(h, step), LiveAfter(h, step))
  {
    if Actor(step).Some? {
      var task := NextTask(h, step);
      if step.Lookup? {
        LiveFinds(h.tasks, h.slots, h.live, step.t, task, h.tasks[step.t].phase.key);
      } else if step.Leave? {
        LiveLeaves(h.tasks, h.slots, h.live, step.t, task, SlotOf(h, step.t), LiveAfter(h, step));
      } else {
        UsesKept(h, step);
        LiveElsewhere(h.tasks, h.slots, h.live, step.t, task, SlotsAfter(h, step));
      }
    }
  }

  lemma KeepsOwnPermits(h: Host, step: Step)
    requires Sound(h) && Enabled(h, step) && Actor(step).Some?
    requires TaskKept(h.tasks[step.t])
    ensures OwnPermits(NextTask(h, step)) - OwnPermits(h.tasks[step.t])
      == if step.BeginCompile? then 0 else if Takes(step) then 1
         else if step.Finish? || step.Enter? || step.EndRun? then -1 else 0
    ensures step.Finish? || step.Enter? ==> h.tasks[step.t].permit
    ensures step.EndRun? ==> h.tasks[step.t].runPermit
  {
  }

  lemma KeepsVector(c: Compile, event: Event)
    requires CompileKept(c)
    ensures var dropped := After(c, event);
      && dropped.cpu + dropped.compile.cpu == c.cpu
      && dropped.strand + dropped.compile.strand == c.strand + if event == PastLimit(true) then 1 else 0
  {
  }

  lemma TasksTotal(h: Host, step: Step)
    requires Sound(h) && Enabled(h, step) && forall t :: 0 <= t < |h.tasks| ==> TaskKept(h.tasks[t])
    ensures Total(TasksAfter(h, step), OwnPermits) - Total(h.tasks, OwnPermits)
      == if step.BeginCompile? then 0 else if Takes(step) then 1
         else if step.Finish? || step.Enter? || step.EndRun? then -1 else 0
    ensures step.Finish? || step.Enter? ==> h.tasks[step.t].permit
    ensures step.EndRun? ==> h.tasks[step.t].runPermit
  {
    if Actor(step).Some? {
      TotalUpdate(h.tasks, OwnPermits, step.t, NextTask(h, step));
      KeepsOwnPermits(h, step);
    }
  }

  lemma CompilesTotal(h: Host, step: Step)
    requires Sound(h) && Enabled(h, step) && forall c :: 0 <= c < |h.compiles| ==> CompileKept(h.compiles[c])
    ensures Total(CompilesAfter(h, step), CpuHeld) + FreedCpu(h, step)
      == Total(h.compiles, CpuHeld) + if step.BeginCompile? then 1 else 0
    ensures Total(CompilesAfter(h, step), StrandHeld) + FreedStrand(h, step)
      == Total(h.compiles, StrandHeld) + if step.Timeout? && h.strandable > 0 then 1 else 0
  {
    if step.BeginCompile? {
      TotalAppend(h.compiles, CpuHeld, Begun);
      TotalAppend(h.compiles, StrandHeld, Begun);
    } else if Change(h, step).Some? {
      var (c, event) := Change(h, step).value;
      KeepsVector(h.compiles[c], event);
      TotalUpdate(h.compiles, CpuHeld, c, After(h.compiles[c], event).compile);
      TotalUpdate(h.compiles, StrandHeld, c, After(h.compiles[c], event).compile);
    }
  }

  lemma KeepsConserved(h: Host, step: Step, parallelism: nat)
    requires Sound(h) && Enabled(h, step) && Conserved(h, parallelism)
    requires forall t :: 0 <= t < |h.tasks| ==> TaskKept(h.tasks[t])
    requires forall c :: 0 <= c < |h.compiles| ==> CompileKept(h.compiles[c])
    ensures Conserved(Apply(h, step), parallelism)
  {
    TasksTotal(h, step);
    CompilesTotal(h, step);
  }

  /** Every step keeps every invariant. */
  lemma StepKeeps(h: Host, step: Step, parallelism: nat)
    requires Inv(h, parallelism) && Enabled(h, step)
    ensures Inv(Apply(h, step), parallelism)
  {
    KeepsTasks(h, step);
    KeepsSound(h, step);
    KeepsCompiles(h, step);
    KeepsAwaited(h, step);
    KeepsSlots(h, step);
    KeepsLive(h, step);
    KeepsConserved(h, step, parallelism);
  }

  // ---------------------------------------------------------------------
  // Every run
  // ---------------------------------------------------------------------

  /** `steps`, each enabled when taken, lead from `h` to `h'`. */
  ghost predicate Leads(h: Host, steps: seq<Step>, h': Host)
    decreases |steps|
  {
    if steps == [] then h == h'
    else Sound(h) && Enabled(h, steps[0]) && Leads(Apply(h, steps[0]), steps[1..], h')
  }

  lemma {:induction false} RunKeeps(h: Host, steps: seq<Step>, h': Host, parallelism: nat)
    requires Inv(h, parallelism) && Leads(h, steps, h')
    ensures Inv(h', parallelism)
    decreases |steps|
  {
    if steps != [] {
      StepKeeps(h, steps[0], parallelism);
      RunKeeps(Apply(h, steps[0]), steps[1..], h', parallelism);
    }
  }

  ghost predicate Reachable(h: Host, parallelism: nat, tests: nat) {
    parallelism > 0 && exists steps :: Leads(Initial(parallelism, tests), steps, h)
  }

  lemma ReachableKeeps(h: Host, parallelism: nat, tests: nat)
    requires Reachable(h, parallelism, tests)
    ensures Inv(h, parallelism)
  {
    var steps :| Leads(Initial(parallelism, tests), steps, h);
    InitialKeeps(parallelism, tests);
    RunKeeps(Initial(parallelism, tests), steps, h, parallelism);
  }

  function StrandedCpu(c: Compile): nat { if c.pastLimit then c.cpu else 0 }

  /** In every reachable state the permits add up, compiles past the limit keep at
    * most one fewer than there are, and a call waiting inside `eval` holds none.
    */
  lemma PermitsAddUp(h: Host, parallelism: nat, tests: nat)
    requires Reachable(h, parallelism, tests)
    ensures h.cpu + Total(h.tasks, OwnPermits) + Total(h.compiles, CpuHeld) == parallelism
    ensures Total(h.compiles, StrandedCpu) <= parallelism - 1
    ensures forall t :: 0 <= t < |h.tasks| && InsideEval(h.tasks[t].phase) && !h.tasks[t].phase.Running? ==>
      OwnPermits(h.tasks[t]) == 0
  {
    ReachableKeeps(h, parallelism, tests);
    forall c | 0 <= c < |h.compiles| ensures StrandedCpu(h.compiles[c]) <= StrandHeld(h.compiles[c]) {
      assert CompileKept(h.compiles[c]);
    }
    TotalBelow(h.compiles, StrandedCpu, StrandHeld);
    forall t | 0 <= t < |h.tasks| && InsideEval(h.tasks[t].phase) && !h.tasks[t].phase.Running?
      ensures OwnPermits(h.tasks[t]) == 0
    {
      assert TaskKept(h.tasks[t]);
    }
  }

  /** At most one call is ever evaluating a key. */
  lemma OneEvaluationPerKey(h: Host, parallelism: nat, tests: nat, t: nat, t': nat)
    requires Reachable(h, parallelism, tests) && At(h, t) && At(h, t')
    requires Initializes(h.tasks[t].phase).Some? && Initializes(h.tasks[t'].phase).Some?
    ensures var s, s' := Initializes(h.tasks[t].phase).value, Initializes(h.tasks[t'].phase).value;
      s < |h.slots| && s' < |h.slots| && (h.slots[s].key == h.slots[s'].key ==> t == t')
  {
    ReachableKeeps(h, parallelism, tests);
    var s, s' := Initializes(h.tasks[t].phase).value, Initializes(h.tasks[t'].phase).value;
    assert h.slots[s].initializer == Some(t) && h.slots[s'].initializer == Some(t');
    assert h.slots[s].outcome.None? && h.slots[s'].outcome.None?;
  }

  lemma OutcomeKept(h: Host, step: Step, s: nat)
    requires Sound(h) && Enabled(h, step) && SlotsKept(h.tasks, h.slots)
    requires s < |h.slots| && h.slots[s].outcome.Some?
    ensures s < |SlotsAfter(h, step)| && SlotsAfter(h, step)[s].outcome == h.slots[s].outcome
  {
    if Actor(step).Some? && Published(step).Some? {
      var x := SlotOf(h, step.t);
      SlotsPublish(h.tasks, h.slots, step.t, NextTask(h, step), x, SlotsAfter(h, step)[x]);
    }
  }

  lemma {:induction false} OutcomeIsFinal(h: Host, steps: seq<Step>, h': Host, parallelism: nat, s: nat)
    requires Inv(h, parallelism) && Leads(h, steps, h') && s < |h.slots| && h.slots[s].outcome.Some?
    ensures s < |h'.slots| && h'.slots[s].outcome == h.slots[s].outcome
    decreases |steps|
  {
    if steps != [] {
      OutcomeKept(h, steps[0], s);
      StepKeeps(h, steps[0], parallelism);
      OutcomeIsFinal(Apply(h, steps[0]), steps[1..], h', parallelism, s);
    }
  }

  /** Calls that shared a slot leave with one outcome, however much later one leaves. */
  lemma SharedOutcome(h: Host, steps: seq<Step>, h': Host, parallelism: nat, tests: nat, t: nat, t': nat)
    requires Reachable(h, parallelism, tests) && Leads(h, steps, h') && At(h, t) && At(h', t')
    requires h.tasks[t].phase.Resolved? && h'.tasks[t'].phase.Resolved?
    requires h.tasks[t].phase.slot == h'.tasks[t'].phase.slot
    ensures h.tasks[t].phase.outcome == h'.tasks[t'].phase.outcome
  {
    ReachableKeeps(h, parallelism, tests);
    var s := h.tasks[t].phase.slot;
    assert h.slots[s].outcome == Some(h.tasks[t].phase.outcome);
    RunKeeps(h, steps, h', parallelism);
    OutcomeIsFinal(h, steps, h', parallelism, s);
    assert h'.slots[s].outcome == Some(h'.tasks[t'].phase.outcome);
  }

  /** A call that leaves late takes out of the map the slot it used or nothing, so
    * a newer slot for its key stays.
    */
  lemma LateLeaverEvictsNothing(h: Host, parallelism: nat, tests: nat, t: nat, k: Key)
    requires Reachable(h, parallelism, tests) && Enabled(h, Leave(t))
    requires k in h.live && h.live[k] != h.tasks[t].phase.slot
    ensures Sound(h) && k in LiveAfter(h, Leave(t)) && LiveAfter(h, Leave(t))[k] == h.live[k]
  {
    ReachableKeeps(h, parallelism, tests);
    LeavesOthers(h, t, k);
  }

  lemma LeavesOthers(h: Host, t: nat, k: Key)
    requires Sound(h) && LiveKept(h.tasks, h.slots, h.live) && Enabled(h, Leave(t))
    requires k in h.live && h.live[k] != h.tasks[t].phase.slot
    ensures k in LiveAfter(h, Leave(t)) && LiveAfter(h, Leave(t))[k] == h.live[k]
  {
    assert SlotOf(h, t) == h.tasks[t].phase.slot;
    assert h.slots[h.live[k]].key == k;
  }

  /** A slot is in the map only while a call is inside `eval`, so the map empties. */
  lemma MapEmpties(h: Host, parallelism: nat, tests: nat)
    requires Reachable(h, parallelism, tests)
    ensures h.live != map[] ==> exists t :: 0 <= t < |h.tasks| && InsideEval(h.tasks[t].phase)
  {
    ReachableKeeps(h, parallelism, tests);
    LiveMeansInside(h.tasks, h.slots, h.live);
  }

  lemma LiveMeansInside(tasks: seq<Task>, slots: seq<Slot>, live: map<Key, nat>)
    requires LiveKept(tasks, slots, live)
    ensures live != map[] ==> exists t :: 0 <= t < |tasks| && InsideEval(tasks[t].phase)
  {
    if live != map[] {
      var k :| k in live;
      assert InUse(tasks, live[k]);
      var t :| 0 <= t < |tasks| && Uses(tasks[t].phase) == Some(live[k]);
      assert InsideEval(tasks[t].phase);
    }
  }

  // ---------------------------------------------------------------------
  // Progress
  // ---------------------------------------------------------------------

  /** A step that needs no compile to come to its end. */
  predicate Own(step: Step) { !step.Report? }

  /** With no CPU permit free, somebody holds one who can move on by himself. */
  lemma HolderMoves(h: Host, parallelism: nat) returns (step: Step)
    requires Inv(h, parallelism) && h.cpu == 0 && parallelism > 0
    ensures Enabled(h, step) && Own(step)
  {
    if Total(h.tasks, OwnPermits) > 0 {
      TotalOfNothing(h.tasks);
      var t := TotalExceeds(h.tasks, OwnPermits, Nothing);
      assert TaskKept(h.tasks[t]);
      step := if h.tasks[t].phase.Testing? then Finish(t) else EndRun(t, CompileTimedOut);
    } else {
      var c := TotalExceeds(h.compiles, CpuHeld, StrandHeld);
      assert CompileKept(h.compiles[c]);
      if h.compiles[c].awaited {
        assert AwaitedBy(h.tasks, c);
        var t :| 0 <= t < |h.tasks| && h.tasks[t].phase.Compiling? && h.tasks[t].phase.compile == c;
        step := Timeout(t);
      } else {
        step := EndThread(c);
      }
    }
  }

  function Nothing(task: Task): nat { 0 }

  lemma {:induction false} TotalOfNothing(tasks: seq<Task>)
    ensures Total(tasks, Nothing) == 0
    decreases |tasks|
  {
    if tasks != [] { TotalOfNothing(tasks[..|tasks| - 1]); }
  }

  /** With a permit free, every call inside or test still to run can move, or
    * waits for one that can.
    */
  lemma WaiterMoves(h: Host, parallelism: nat, t: nat) returns (step: Step)
    requires Inv(h, parallelism) && h.cpu > 0 && At(h, t) && !h.tasks[t].phase.Over?
    ensures Enabled(h, step) && Own(step)
  {
    assert Refers(h, h.tasks[t]);
    match h.tasks[t].phase {
      case Unstarted => step := Start(t);
      case Testing => step := Finish(t);
      case Entered(_) => step := Lookup(t);
      case Joined(s) =>
        if h.slots[s].outcome.Some? || h.slots[s].initializer.None? {
          step := GetOrInit(t);
        } else {
          var t' := h.slots[s].initializer.value;
          assert Initializes(h.tasks[t'].phase) == Some(s);
          step := InitializerMoves(h, t');
        }
      case Resolved(_, _) => step := Leave(t);
      case AwaitReturn(_) => step := Return(t);
      case _ => step := InitializerMoves(h, t);
    }
  }

  lemma InitializerMoves(h: Host, t: nat) returns (step: Step)
    requires At(h, t) && Initializes(h.tasks[t].phase).Some? && h.cpu > 0
    ensures Enabled(h, step) && Own(step)
  {
    match h.tasks[t].phase {
      case Checking(_) => step := CacheMiss(t);
      case AwaitCompile(_) => step := BeginCompile(t);
      case Compiling(_, _) => step := Timeout(t);
      case AwaitRun(_) => step := BeginRun(t);
      case Running(_) => step := EndRun(t, CompileTimedOut);
    }
  }

  /** The run never stalls, even if no compile ever ends: until every test is
    * over, some step that waits for no compile can be taken.
    */
  lemma NeverStuck(h: Host, parallelism: nat, tests: nat)
    requires Reachable(h, parallelism, tests)
    requires exists t :: 0 <= t < |h.tasks| && !h.tasks[t].phase.Over?
    ensures exists step :: Enabled(h, step) && Own(step)
  {
    ReachableKeeps(h, parallelism, tests);
    if h.cpu == 0 {
      var step := HolderMoves(h, parallelism);
    } else {
      var t :| 0 <= t < |h.tasks| && !h.tasks[t].phase.Over?;
      var step := WaiterMoves(h, parallelism, t);
    }
  }

  /** How much can still happen before a permit must come free. */
  function Ahead(task: Task): nat {
    match task.phase
    case Entered(_) => 4
    case Joined(_) => 3
    case Checking(_) => 2
    case Compiling(_, _) => 2
    case Resolved(_, _) => 1
    case _ => 0
  }

  function Lives(c: Compile): nat { if c.threadLives then 1 else 0 }

  function Stall(h: Host): nat { Total(h.tasks, Ahead) + Total(h.compiles, Lives) }

  lemma AheadShrinks(h: Host, step: Step)
    requires Sound(h) && Enabled(h, step) && Actor(step).Some? && !Takes(step)
    ensures step.Finish? || step.Enter? || step.EndRun? || Ahead(NextTask(h, step)) < Ahead(h.tasks[step.t])
  {
  }

  lemma LivesShrinks(c: Compile, event: Event)
    ensures Lives(After(c, event).compile) <= Lives(c)
    ensures event.Ends? && c.threadLives ==> Lives(After(c, event).compile) < Lives(c)
  {
  }

  lemma StallShrinks(h: Host, step: Step, parallelism: nat)
    requires Inv(h, parallelism) && Enabled(h, step) && Own(step) && h.cpu == 0
    ensures CpuAfter(h, step) > 0
      || Total(TasksAfter(h, step), Ahead) + Total(CompilesAfter(h, step), Lives) < Stall(h)
  {
    if Actor(step).Some? {
      assert TaskKept(h.tasks[step.t]);
      TotalUpdate(h.tasks, Ahead, step.t, NextTask(h, step));
      AheadShrinks(h, step);
    }
    if Change(h, step).Some? {
      var (c, event) := Change(h, step).value;
      TotalUpdate(h.compiles, Lives, c, After(h.compiles[c], event).compile);
      LivesShrinks(h.compiles[c], event);
    }
  }

  ghost predicate StaysFull(h: Host, steps: seq<Step>)
    decreases |steps|
  {
    h.cpu == 0 && (steps == [] ||
      (Own(steps[0]) && Sound(h) && Enabled(h, steps[0]) && StaysFull(Apply(h, steps[0]), steps[1..])))
  }

  /** In whatever order they are taken, so many steps that wait for no compile
    * free a permit: no run of them is longer than `Stall(h)` with none free.
    */
  lemma {:induction false} StallEnds(h: Host, steps: seq<Step>, parallelism: nat)
    requires Inv(h, parallelism) && StaysFull(h, steps)
    ensures |steps| <= Stall(h)
    decreases |steps|
  {
    if steps != [] {
      StallShrinks(h, steps[0], parallelism);
      StepKeeps(h, steps[0], parallelism);
      StallEnds(Apply(h, steps[0]), steps[1..], parallelism);
    }
  }

  /** Even if no compile ever ends, a permit can come free from every state, and however
    * such steps are taken, one does after a bounded number.
    */
  lemma {:induction false} PermitComesFree(h: Host, parallelism: nat) returns (steps: seq<Step>, h': Host)
    requires Inv(h, parallelism) && parallelism > 0
    ensures Leads(h, steps, h') && h'.cpu > 0 && forall k :: 0 <= k < |steps| ==> Own(steps[k])
    ensures forall others :: StaysFull(h, others) ==> |others| <= Stall(h)
    decreases Stall(h)
  {
    forall others | StaysFull(h, others) ensures |others| <= Stall(h) { StallEnds(h, others, parallelism); }
    if h.cpu > 0 {
      steps, h' := [], h;
    } else {
      var step := HolderMoves(h, parallelism);
      var next := Apply(h, step);
      StepKeeps(h, step, parallelism);
      StallShrinks(h, step, parallelism);
      if next.cpu > 0 {
        steps, h' := [step], next;
      } else {
        var rest;
        rest, h' := PermitComesFree(next, parallelism);
        steps := [step] + rest;
      }
    }
  }
}
