/** The component a driver keeps beside its entry: written by whichever driver
  * compiled, answered to the next while nothing it was compiled from has changed.
  * One entry of the cache, any number of drivers, every order of their steps.
  */
module DriverCache {
  import opened EvalCache

  type Bytes = seq<Byte>

  /** Which binary made it, what the compile read, the digest of the component and what
    * was embedded in it.
    */
  datatype Record = Record(binary: nat, inputs: map<InputKey, Input>, sha256: Digest, metadata: nat)

  /** Where a driver is. `at` is what every lookup would have given when it looked. */
  datatype Pc =
    | Start
    | Reading(record: Record, at: World)
    | Compiling
    | Writing(component: Bytes, record: Record)
    | Storing(component: Bytes, record: Record)
    | Hit(component: Bytes, at: World)
    | Built(component: Bytes)
    | Gone

  datatype Driver = Driver(binary: nat, metadata: nat, noCache: bool, pc: Pc)

  /** The two files of the entry, and the drivers. */
  datatype Host = Host(file: Option<Bytes>, record: Option<Record>, drivers: seq<Driver>)

  /** Outside the cache: what each binary compiles, and the component an outcome and
    * its metadata make.
    */
  datatype Build = Build(programs: nat -> Program, component: (nat, nat) -> Bytes, sha: Hash)

  /** `Replace` is somebody else's doing: the component torn, replaced or removed. */
  datatype Step =
    | Look(i: nat, now: World)
    | ReadFile(i: nat)
    | Compile(i: nat, log: Log, id: nat, inputs: Option<map<InputKey, Input>>)
    | WriteFile(i: nat, written: bool)
    | StoreRecord(i: nat, written: bool)
    | Crash(i: nat)
    | Replace(file: Option<Bytes>)

  ghost predicate Enabled(b: Build, h: Host, step: Step) {
    if step.Replace? then true
    else
      step.i < |h.drivers| &&
      var driver := h.drivers[step.i];
      match step
      case Look(_, now) => driver.pc.Start? && Lawful(now)
      case ReadFile(_) => driver.pc.Reading?
      case Compile(_, log, id, inputs) =>
        && driver.pc.Compiling? && Evaluates(b.programs(driver.binary), log, id)
        && (inputs.Some? ==> Vouches(inputs.value, log, b.sha))
      case WriteFile(_, _) => driver.pc.Writing?
      case StoreRecord(_, _) => driver.pc.Storing?
      case Crash(_) => !driver.pc.Gone?
  }

  /** `Slot::lookup` and the comparison of what was embedded. */
  ghost predicate Answered(b: Build, h: Host, driver: Driver, now: World) {
    && !driver.noCache && h.record.Some? && h.record.value.binary == driver.binary
    && (forall k :: k in h.record.value.inputs ==> Checks(now, h.record.value.inputs[k], b.sha))
    && h.record.value.metadata == driver.metadata
  }

  ghost function NextPc(b: Build, h: Host, step: Step): Pc
    requires Enabled(b, h, step) && !step.Replace?
  {
    var driver := h.drivers[step.i];
    match step
    case Look(_, now) => if Answered(b, h, driver, now) then Reading(h.record.value, now) else Compiling
    case ReadFile(_) =>
      if h.file.Some? && b.sha(h.file.value) == driver.pc.record.sha256 then Hit(h.file.value, driver.pc.at) else Compiling
    case Compile(_, _, id, inputs) =>
      var component := b.component(id, driver.metadata);
      if inputs.None? then Built(component)
      else Writing(component, Record(driver.binary, inputs.value, b.sha(component), driver.metadata))
    case WriteFile(_, written) =>
      if written then Storing(driver.pc.component, driver.pc.record) else Built(driver.pc.component)
    case StoreRecord(_, _) => Built(driver.pc.component)
    case Crash(_) => Gone
  }

  ghost function Apply(b: Build, h: Host, step: Step): Host
    requires Enabled(b, h, step)
  {
    if step.Replace? then h.(file := step.file)
    else
      var driver := h.drivers[step.i];
      Host(if step.WriteFile? && step.written then Some(driver.pc.component) else h.file,
           if step.StoreRecord? && step.written then Some(driver.pc.record) else h.record,
           h.drivers[step.i := driver.(pc := NextPc(b, h, step))])
  }

  // ---------------------------------------------------------------------
  // Every run
  // ---------------------------------------------------------------------

  /** The record of a compile that read what its inputs say. */
  ghost predicate Honest(b: Build, r: Record) {
    exists log, id ::
      && Evaluates(b.programs(r.binary), log, id) && Vouches(r.inputs, log, b.sha)
      && r.sha256 == b.sha(b.component(id, r.metadata))
  }

  /** The component that compiling at `at`, with nothing changing meanwhile, makes. */
  ghost predicate Makes(b: Build, binary: nat, metadata: nat, at: World, component: Bytes) {
    exists log, id :: EvaluatesIn(at, b.programs(binary), log, id) && component == b.component(id, metadata)
  }

  /** What the driver itself compiled, with its own metadata. */
  ghost predicate OwnCompile(b: Build, driver: Driver, component: Bytes) {
    exists log, id :: Evaluates(b.programs(driver.binary), log, id) && component == b.component(id, driver.metadata)
  }

  /** The component it compiled, and the record of that very compile. */
  ghost predicate OwnRecord(b: Build, driver: Driver, component: Bytes, r: Record) {
    && r.binary == driver.binary && r.metadata == driver.metadata && r.sha256 == b.sha(component)
    && exists log, id ::
         Evaluates(b.programs(driver.binary), log, id) && Vouches(r.inputs, log, b.sha)
         && component == b.component(id, driver.metadata)
  }

  ghost predicate DriverKept(b: Build, driver: Driver) {
    match driver.pc
    case Reading(r, at) =>
      && !driver.noCache && Honest(b, r) && r.binary == driver.binary && r.metadata == driver.metadata && Lawful(at)
      && forall k :: k in r.inputs ==> Checks(at, r.inputs[k], b.sha)
    case Writing(component, r) => OwnRecord(b, driver, component, r)
    case Storing(component, r) => OwnRecord(b, driver, component, r)
    case Built(component) => OwnCompile(b, driver, component)
    case Hit(component, at) => !driver.noCache && Makes(b, driver.binary, driver.metadata, at, component)
    case _ => true
  }

  ghost predicate Inv(b: Build, h: Host) {
    && (h.record.Some? ==> Honest(b, h.record.value))
    && forall i :: 0 <= i < |h.drivers| ==> DriverKept(b, h.drivers[i])
  }

  /** A file whose digest is the record's is the very component the record is of, whoever
    * wrote it, and compiling where the inputs check makes it.
    */
  lemma MatchMakes(b: Build, r: Record, at: World, file: Bytes)
    requires CollisionFree(b.sha) && Lawful(at) && Honest(b, r) && b.sha(file) == r.sha256
    requires forall k :: k in r.inputs ==> Checks(at, r.inputs[k], b.sha)
    ensures Makes(b, r.binary, r.metadata, at, file)
  {
    var log, id :| Evaluates(b.programs(r.binary), log, id) && Vouches(r.inputs, log, b.sha)
                   && r.sha256 == b.sha(b.component(id, r.metadata));
    UnchangedIffReplays(at, r.inputs, log, b.sha);
    assert EvaluatesIn(at, b.programs(r.binary), log, id);
  }

  lemma ActorKept(b: Build, h: Host, step: Step)
    requires CollisionFree(b.sha) && Inv(b, h) && Enabled(b, h, step) && !step.Replace?
    ensures DriverKept(b, h.drivers[step.i].(pc := NextPc(b, h, step)))
  {
    var driver := h.drivers[step.i];
    assert DriverKept(b, driver);
    if step.ReadFile? && NextPc(b, h, step).Hit? {
      MatchMakes(b, driver.pc.record, driver.pc.at, h.file.value);
    } else if step.Compile? && step.inputs.Some? {
      var pc := NextPc(b, h, step);
      assert pc.component == b.component(step.id, driver.metadata);
      assert OwnRecord(b, driver, pc.component, pc.record);
    }
  }

  lemma OwnIsHonest(b: Build, driver: Driver, component: Bytes, r: Record)
    requires OwnRecord(b, driver, component, r)
    ensures Honest(b, r) && OwnCompile(b, driver, component)
  {}

  lemma StepKeeps(b: Build, h: Host, step: Step)
    requires CollisionFree(b.sha) && Inv(b, h) && Enabled(b, h, step)
    ensures Inv(b, Apply(b, h, step))
  {
    if !step.Replace? {
      ActorKept(b, h, step);
      assert DriverKept(b, h.drivers[step.i]);
      if step.StoreRecord? { OwnIsHonest(b, h.drivers[step.i], h.drivers[step.i].pc.component, h.drivers[step.i].pc.record); }
    }
  }

  ghost predicate Leads(b: Build, h: Host, steps: seq<Step>, h': Host)
    decreases |steps|
  {
    if steps == [] then h == h'
    else Enabled(b, h, steps[0]) && Leads(b, Apply(b, h, steps[0]), steps[1..], h')
  }

  lemma {:induction false} RunKeeps(b: Build, h: Host, steps: seq<Step>, h': Host)
    requires CollisionFree(b.sha) && Inv(b, h) && Leads(b, h, steps, h')
    ensures Inv(b, h')
    decreases |steps|
  {
    if steps != [] {
      StepKeeps(b, h, steps[0]);
      RunKeeps(b, Apply(b, h, steps[0]), steps[1..], h');
    }
  }

  /** In every interleaving from an empty entry, crashes and torn files and all: what a
    * driver takes from the cache is the component it would compile itself from the
    * sources as it found them, with its own metadata, though another driver wrote it.
    */
  lemma HitIsOwnComponent(b: Build, h: Host, steps: seq<Step>, h': Host, i: nat, log: Log, id: nat)
    requires CollisionFree(b.sha) && h.record.None? && (forall k :: 0 <= k < |h.drivers| ==> h.drivers[k].pc.Start?)
    requires Leads(b, h, steps, h') && i < |h'.drivers| && h'.drivers[i].pc.Hit?
    requires EvaluatesIn(h'.drivers[i].pc.at, b.programs(h'.drivers[i].binary), log, id)
    ensures h'.drivers[i].pc.component == b.component(id, h'.drivers[i].metadata) && !h'.drivers[i].noCache
  {
    RunKeeps(b, h, steps, h');
    var driver := h'.drivers[i];
    assert DriverKept(b, driver);
    var log', id' :| EvaluatesIn(driver.pc.at, b.programs(driver.binary), log', id')
                     && driver.pc.component == b.component(id', driver.metadata);
    EvaluationIsUnique(driver.pc.at, b.programs(driver.binary), log, id, log', id');
  }

  /** And what a driver that compiled answers, and before that writes and records, is the
    * component of its own compile, with its own metadata.
    */
  lemma BuiltIsOwnCompile(b: Build, h: Host, steps: seq<Step>, h': Host, i: nat)
    requires CollisionFree(b.sha) && h.record.None? && (forall k :: 0 <= k < |h.drivers| ==> h.drivers[k].pc.Start?)
    requires Leads(b, h, steps, h') && i < |h'.drivers|
    ensures var driver := h'.drivers[i];
      && (driver.pc.Built? ==> OwnCompile(b, driver, driver.pc.component))
      && (driver.pc.Writing? || driver.pc.Storing? ==> OwnRecord(b, driver, driver.pc.component, driver.pc.record))
  {
    RunKeeps(b, h, steps, h');
    assert DriverKept(b, h'.drivers[i]);
  }

  // ---------------------------------------------------------------------
  // What the cache is for
  // ---------------------------------------------------------------------

  /** A driver allowed to looks, reads and answers from the cache exactly where the record
    * is of its own binary and metadata, nothing it was compiled from has changed, and the
    * component is the record's.
    */
  lemma HitsExactly(b: Build, h: Host, i: nat, now: World)
    requires i < |h.drivers| && h.drivers[i].pc.Start? && Lawful(now)
    ensures var driver, h' := h.drivers[i], Apply(b, h, Step.Look(i, now));
      && |h'.drivers| == |h.drivers| && h'.file == h.file
      && (h'.drivers[i].pc.Reading? <==>
            && !driver.noCache && h.record.Some? && h.record.value.binary == driver.binary
            && h.record.value.metadata == driver.metadata
            && forall k :: k in h.record.value.inputs ==> Checks(now, h.record.value.inputs[k], b.sha))
      && (h'.drivers[i].pc.Reading? ==>
            var pc := Apply(b, h', ReadFile(i)).drivers[i].pc;
            if h.file.Some? && b.sha(h.file.value) == h.record.value.sha256 then pc == Hit(h.file.value, now) else pc == Compiling)
  {
  }

  /** One driver compiles and stores; where nothing changes meanwhile, the next of the same
    * binary, for the same metadata, answers with that component.
    */
  lemma NextDriverHits(b: Build, h: Host, i: nat, j: nat, now: World, log: Log, id: nat, inputs: map<InputKey, Input>)
    returns (steps: seq<Step>, h': Host)
    requires CollisionFree(b.sha) && Lawful(now) && i < |h.drivers| && j < |h.drivers| && i != j
    requires h.drivers[i].pc.Compiling? && h.drivers[j].pc.Start? && !h.drivers[j].noCache
    requires h.drivers[j].binary == h.drivers[i].binary && h.drivers[j].metadata == h.drivers[i].metadata
    requires EvaluatesIn(now, b.programs(h.drivers[i].binary), log, id) && Vouches(inputs, log, b.sha)
    ensures Leads(b, h, steps, h') && j < |h'.drivers|
    ensures h'.drivers[j].pc == Hit(b.component(id, h.drivers[j].metadata), now)
  {
    var component := b.component(id, h.drivers[i].metadata);
    var record := Record(h.drivers[i].binary, inputs, b.sha(component), h.drivers[i].metadata);
    var h1 := Apply(b, h, Compile(i, log, id, Some(inputs)));
    assert h1.drivers[i].pc == Writing(component, record);
    var h2 := Apply(b, h1, WriteFile(i, true));
    var h3 := Apply(b, h2, StoreRecord(i, true));
    assert h3.file == Some(component) && h3.record == Some(record) && h3.drivers[j] == h.drivers[j];
    UnchangedIffReplays(now, inputs, log, b.sha);
    assert Answered(b, h3, h3.drivers[j], now);
    var h4 := Apply(b, h3, Step.Look(j, now));
    h' := Apply(b, h4, ReadFile(j));
    steps := [Compile(i, log, id, Some(inputs)), WriteFile(i, true), StoreRecord(i, true), Step.Look(j, now), ReadFile(j)];
    LeadsFive(b, h, steps, h1, h2, h3, h4, h');
  }

  lemma LeadsFive(b: Build, h: Host, steps: seq<Step>, h1: Host, h2: Host, h3: Host, h4: Host, h': Host)
    requires |steps| == 5
    requires Enabled(b, h, steps[0]) && h1 == Apply(b, h, steps[0])
    requires Enabled(b, h1, steps[1]) && h2 == Apply(b, h1, steps[1])
    requires Enabled(b, h2, steps[2]) && h3 == Apply(b, h2, steps[2])
    requires Enabled(b, h3, steps[3]) && h4 == Apply(b, h3, steps[3])
    requires Enabled(b, h4, steps[4]) && h' == Apply(b, h4, steps[4])
    ensures Leads(b, h, steps, h')
  {
    assert steps[1..][0] == steps[1] && steps[1..][1..] == steps[2..];
    assert steps[2..][0] == steps[2] && steps[2..][1..] == steps[3..];
    assert steps[3..][0] == steps[3] && steps[3..][1..] == steps[4..];
    assert steps[4..][0] == steps[4] && steps[4..][1..] == [];
    assert Leads(b, h4, steps[4..], h');
    assert Leads(b, h3, steps[3..], h');
    assert Leads(b, h2, steps[2..], h');
    assert Leads(b, h1, steps[1..], h');
  }
}
