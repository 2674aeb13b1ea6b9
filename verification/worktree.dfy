/** Materializing a git worktree: lock-free readers, rebuilds under the repository's
  * lock, a completion marker written last, and a crash at any step. One
  * repository; its worktrees, the processes that want one, and every order in
  * which their steps can fall.
  */
module Worktree {

  datatype Option<T> = None | Some(value: T)

  // ---------------------------------------------------------------------
  // The file system
  // ---------------------------------------------------------------------

  /** A worktree's path: the version and the first eight digits of the commit. */
  datatype Path = Path(version: string, short: string)

  function PathOf(version: string, sha: string): Path {
    Path(version, sha[..if |sha| < 8 then |sha| else 8])
  }

  /** What is at the path. `Partial` is a directory in any state but a checkout
    * that git reported finished.
    */
  datatype Tree = Missing | Partial | Checked(head: string, populated: bool)

  datatype Place = Place(tree: Tree, marker: bool)

  // ---------------------------------------------------------------------
  // Processes
  // ---------------------------------------------------------------------

  /** Where a `materialize` call is. */
  datatype Pc =
    | CheckDir | CheckMarker | Acquire
    | RecheckDir | RecheckMarker | Ensure
    | RemoveMarker | Prune | RemoveTree | Add | VerifyHead | Populate | WriteMarker
    | Done | Failed

  datatype Proc = Proc(version: string, sha: string, pc: Pc)
  {
    function Target(): Path { PathOf(version, sha) }
  }

  datatype Host = Host(places: map<Path, Place>, lock: Option<nat>, procs: seq<Proc>)

  function At(h: Host, p: Path): Place {
    if p in h.places then h.places[p] else Place(Missing, false)
  }

  /** From taking the lock to returning. */
  predicate Holding(pc: Pc) {
    pc.RecheckDir? || pc.RecheckMarker? || pc.Ensure? || Rebuilding(pc)
  }

  predicate Rebuilding(pc: Pc) { pc.RemoveMarker? || Cleared(pc) }

  /** Past the marker's removal. */
  predicate Cleared(pc: Pc) {
    pc.Prune? || pc.RemoveTree? || pc.Add? || pc.VerifyHead? || pc.Populate? || pc.WriteMarker?
  }

  /** A step of process `i`. The other arguments are how git and the file system
    * answer. `Progress` is a removal or a checkout under way, visible to readers.
    */
  datatype Step =
    | Look(i: nat)
    | Lock(i: nat)
    | Ensured(i: nat, ok: bool)
    | MarkerRemoved(i: nat, removed: bool)
    | Pruned(i: nat)
    | Progress(i: nat)
    | TreeRemoved(i: nat, left: Tree)
    | Added(i: nat, head: Option<string>)
    | HeadVerified(i: nat)
    | Populated(i: nat, ok: bool)
    | MarkerWritten(i: nat, created: bool, ok: bool)
    | Crash(i: nat)

  predicate Enabled(h: Host, step: Step) {
    && step.i < |h.procs|
    && var pc := h.procs[step.i].pc;
       match step
       case Look(_) => pc.CheckDir? || pc.CheckMarker? || pc.RecheckDir? || pc.RecheckMarker?
       case Lock(_) => pc.Acquire? && h.lock.None?
       case Ensured(_, _) => pc.Ensure?
       case MarkerRemoved(_, _) => pc.RemoveMarker?
       case Pruned(_) => pc.Prune?
       case Progress(_) => pc.RemoveTree? || pc.Add?
       case TreeRemoved(i, left) =>
         pc.RemoveTree? && (left == Missing || left == Partial || left == At(h, h.procs[i].Target()).tree)
       case Added(_, _) => pc.Add?
       case HeadVerified(_) => pc.VerifyHead?
       case Populated(_, _) => pc.Populate?
       case MarkerWritten(_, created, ok) => pc.WriteMarker? && (ok ==> created)
       case Crash(_) => !pc.Done? && !pc.Failed?
  }

  /** Where the process goes. */
  function NextPc(h: Host, step: Step): Pc
    requires Enabled(h, step)
  {
    var proc := h.procs[step.i];
    var place := At(h, proc.Target());
    match step
    case Look(_) =>
      if proc.pc.CheckDir? then if place.tree.Missing? then Acquire else Pc.CheckMarker
      else if proc.pc.CheckMarker? then if place.marker then Done else Acquire
      else if proc.pc.RecheckDir? then if place.tree.Missing? then Ensure else RecheckMarker
      else if place.marker then Done else Ensure
    case Lock(_) => RecheckDir
    case Ensured(_, ok) => if ok then RemoveMarker else Failed
    case MarkerRemoved(_, _) => Prune
    case Pruned(_) => RemoveTree
    case Progress(_) => proc.pc
    case TreeRemoved(_, _) => Add
    case Added(_, head) => if head.Some? then VerifyHead else Failed
    case HeadVerified(_) => if place.tree.Checked? && proc.sha <= place.tree.head then Populate else Failed
    case Populated(_, ok) => if ok then WriteMarker else Failed
    case MarkerWritten(_, _, ok) => if ok then Done else Failed
    case Crash(_) => Failed
  }

  /** What the step makes of the place the process is at. */
  function NextPlace(h: Host, step: Step): Place
    requires Enabled(h, step)
  {
    var place := At(h, h.procs[step.i].Target());
    match step
    case MarkerRemoved(_, removed) => if removed then place.(marker := false) else place
    case Progress(_) => place.(tree := Partial)
    case TreeRemoved(_, left) => place.(tree := left)
    case Added(_, head) => if head.Some? then place.(tree := Checked(head.value, false)) else place
    case Populated(_, ok) => if ok && place.tree.Checked? then place.(tree := place.tree.(populated := true)) else place
    case MarkerWritten(_, created, _) => if created then place.(marker := true) else place
    case _ => place
  }

  function Apply(h: Host, step: Step): Host
    requires Enabled(h, step)
  {
    var pc := NextPc(h, step);
    Host(h.places[h.procs[step.i].Target() := NextPlace(h, step)],
         if step.Lock? then Some(step.i) else if Holding(h.procs[step.i].pc) && !Holding(pc) then None else h.lock,
         h.procs[step.i := h.procs[step.i].(pc := pc)])
  }

  // ---------------------------------------------------------------------
  // Safety
  // ---------------------------------------------------------------------

  /** What a finished checkout at a path is to be at. */
  type Claim = (Path, string) -> bool

  /** Every commit a process verifies meets the claim on its path. */
  ghost predicate Claims(h: Host, claim: Claim) {
    forall i, head :: 0 <= i < |h.procs| && h.procs[i].sha <= head ==> claim(h.procs[i].Target(), head)
  }

  /** What `worktree_is_valid` reports. */
  predicate Valid(place: Place) { !place.tree.Missing? && place.marker }

  predicate Complete(place: Place, p: Path, claim: Claim) {
    place.tree.Checked? && place.tree.populated && claim(p, place.tree.head)
  }

  /** A marker whose worktree somebody else took away. */
  predicate Stale(place: Place) { place.tree.Missing? && place.marker }

  /** What process `i` may rely on. */
  predicate ProcKept(proc: Proc, place: Place) {
    && (proc.pc.CheckMarker? || proc.pc.RecheckMarker? ==> !Stale(place))
    && (proc.pc.Ensure? || proc.pc.RemoveMarker? ==> !Valid(place))
    && (Cleared(proc.pc) ==> !place.marker)
    && (proc.pc.VerifyHead? || proc.pc.Populate? || proc.pc.WriteMarker? ==> place.tree.Checked?)
    && (proc.pc.Populate? || proc.pc.WriteMarker? ==> proc.sha <= place.tree.head)
    && (proc.pc.WriteMarker? ==> place.tree.populated)
    && (proc.pc.Done? ==> Valid(place))
  }

  ghost predicate Inv(h: Host, claim: Claim) {
    && Claims(h, claim)
    && (forall i :: 0 <= i < |h.procs| ==> (Holding(h.procs[i].pc) <==> h.lock == Some(i)))
    && (forall i :: 0 <= i < |h.procs| ==> ProcKept(h.procs[i], At(h, h.procs[i].Target())))
    && (forall p :: Valid(At(h, p)) ==> Complete(At(h, p), p, claim))
  }

  /** The marker is there to be removed, and the removal fails. */
  predicate RemovalFails(h: Host, step: Step)
    requires Enabled(h, step)
  {
    step.MarkerRemoved? && !step.removed && At(h, h.procs[step.i].Target()).marker
  }

  /** Only who holds the lock changes a place, and never a valid one. */
  lemma OnlyHolderWrites(h: Host, step: Step, claim: Claim)
    requires Inv(h, claim) && Enabled(h, step)
    ensures var place := At(h, h.procs[step.i].Target());
      NextPlace(h, step) != place ==> h.lock == Some(step.i) && !Valid(place)
  {
    assert ProcKept(h.procs[step.i], At(h, h.procs[step.i].Target()));
  }

  lemma KeepsPlaces(h: Host, step: Step, claim: Claim)
    requires Inv(h, claim) && Enabled(h, step) && !RemovalFails(h, step)
    ensures forall p :: Valid(At(Apply(h, step), p)) ==> Complete(At(Apply(h, step), p), p, claim)
    ensures forall p :: Valid(At(h, p)) ==> At(Apply(h, step), p) == At(h, p)
    ensures forall p :: Stale(At(Apply(h, step), p)) ==> Stale(At(h, p))
  {
    var proc := h.procs[step.i];
    var p := proc.Target();
    assert ProcKept(proc, At(h, p));
    OnlyHolderWrites(h, step, claim);
    assert proc.pc.WriteMarker? ==> claim(p, At(h, p).tree.head);
    var h', next := Apply(h, step), NextPlace(h, step);
    assert Valid(next) ==> Complete(next, p, claim);
    forall q | Valid(At(h', q)) ensures Complete(At(h', q), q, claim) {
      if q == p { assert At(h', q) == next; } else { assert At(h', q) == At(h, q); }
    }
  }

  lemma KeepsActor(h: Host, step: Step, claim: Claim)
    requires Inv(h, claim) && Enabled(h, step) && !RemovalFails(h, step)
    ensures ProcKept(h.procs[step.i].(pc := NextPc(h, step)), NextPlace(h, step))
  {
    assert ProcKept(h.procs[step.i], At(h, h.procs[step.i].Target()));
  }

  lemma KeepsOther(h: Host, step: Step, claim: Claim, i: nat)
    requires Inv(h, claim) && Enabled(h, step) && !RemovalFails(h, step) && i < |h.procs| && i != step.i
    ensures ProcKept(h.procs[i], At(Apply(h, step), h.procs[i].Target()))
  {
    assert ProcKept(h.procs[i], At(h, h.procs[i].Target()));
    OnlyHolderWrites(h, step, claim);
    KeepsPlaces(h, step, claim);
    if Holding(h.procs[i].pc) { assert h.lock == Some(i); }
  }

  /** Every step keeps the invariant, but the failed removal of a marker. */
  lemma StepKeeps(h: Host, step: Step, claim: Claim)
    requires Inv(h, claim) && Enabled(h, step) && !RemovalFails(h, step)
    ensures Inv(Apply(h, step), claim)
  {
    var h' := Apply(h, step);
    KeepsPlaces(h, step, claim);
    KeepsActor(h, step, claim);
    forall i | 0 <= i < |h'.procs| ensures ProcKept(h'.procs[i], At(h', h'.procs[i].Target())) {
      if i != step.i { KeepsOther(h, step, claim, i); }
    }
    forall i, head | 0 <= i < |h'.procs| && h'.procs[i].sha <= head ensures claim(h'.procs[i].Target(), head) {
      assert h'.procs[i].sha == h.procs[i].sha && h'.procs[i].Target() == h.procs[i].Target();
    }
  }

  // ---------------------------------------------------------------------
  // Every run
  // ---------------------------------------------------------------------

  /** `steps` lead from `h` to `h'`, and no removal of an existing marker fails. */
  ghost predicate Leads(h: Host, steps: seq<Step>, h': Host)
    decreases |steps|
  {
    if steps == [] then h == h'
    else Enabled(h, steps[0]) && !RemovalFails(h, steps[0]) && Leads(Apply(h, steps[0]), steps[1..], h')
  }

  /** Nobody has begun, and what is marked valid is complete. */
  ghost predicate Initial(h: Host, claim: Claim) {
    && h.lock.None? && Claims(h, claim)
    && (forall i :: 0 <= i < |h.procs| ==> h.procs[i].pc.CheckDir?)
    && (forall p :: Valid(At(h, p)) ==> Complete(At(h, p), p, claim))
  }

  lemma {:induction false} RunKeeps(h: Host, steps: seq<Step>, h': Host, claim: Claim)
    requires Inv(h, claim) && Leads(h, steps, h')
    ensures Inv(h', claim)
    ensures forall p :: Valid(At(h, p)) ==> At(h', p) == At(h, p)
    decreases |steps|
  {
    if steps != [] {
      StepKeeps(h, steps[0], claim);
      KeepsPlaces(h, steps[0], claim);
      RunKeeps(Apply(h, steps[0]), steps[1..], h', claim);
    }
  }

  /** In every run, crashes and all: a directory with its marker is a complete
    * checkout, a call that returned names one, and it stays as it is whatever
    * steps follow.
    */
  lemma ValidIsCompleteForGood(h: Host, steps: seq<Step>, h': Host, more: seq<Step>, h'': Host, claim: Claim)
    requires Initial(h, claim) && Leads(h, steps, h') && Leads(h', more, h'')
    ensures forall p :: Valid(At(h', p)) ==> Complete(At(h', p), p, claim) && At(h'', p) == At(h', p)
    ensures forall i :: 0 <= i < |h'.procs| && h'.procs[i].pc.Done? ==>
      Complete(At(h'', h'.procs[i].Target()), h'.procs[i].Target(), claim)
  {
    RunKeeps(h, steps, h', claim);
    RunKeeps(h', more, h'', claim);
    forall i | 0 <= i < |h'.procs| && h'.procs[i].pc.Done?
      ensures Complete(At(h'', h'.procs[i].Target()), h'.procs[i].Target(), claim)
    {
      assert ProcKept(h'.procs[i], At(h', h'.procs[i].Target()));
    }
  }

  /** Requests whose paths coincide want one commit. */
  ghost predicate PathsTell(h: Host) {
    forall i, j :: 0 <= i < |h.procs| && 0 <= j < |h.procs| && h.procs[i].Target() == h.procs[j].Target() ==>
      h.procs[i].sha == h.procs[j].sha
  }

  /** A checkout at the commit every request for the path wants. */
  ghost predicate AtWanted(h: Host, p: Path, head: string) {
    forall i :: 0 <= i < |h.procs| && h.procs[i].Target() == p ==> h.procs[i].sha <= head
  }

  /** A call that returned names a checkout of the very commit it asked for, with
    * its submodules, provided the paths tell the requests' commits apart.
    */
  lemma ReturnedIsRequested(h: Host, steps: seq<Step>, h': Host, i: nat)
    requires PathsTell(h) && Initial(h, (p, head) => AtWanted(h, p, head)) && Leads(h, steps, h')
    requires i < |h'.procs| && h'.procs[i].pc.Done?
    ensures var tree := At(h', h'.procs[i].Target()).tree;
      tree.Checked? && tree.populated && h'.procs[i].sha <= tree.head
  {
    var claim := (p, head) => AtWanted(h, p, head);
    ValidIsCompleteForGood(h, steps, h', [], h', claim);
    SameRequests(h, steps, h');
    assert AtWanted(h, h'.procs[i].Target(), At(h', h'.procs[i].Target()).tree.head);
  }

  lemma {:induction false} SameRequests(h: Host, steps: seq<Step>, h': Host)
    requires Leads(h, steps, h')
    ensures |h'.procs| == |h.procs|
    ensures forall i :: 0 <= i < |h.procs| ==> h'.procs[i].sha == h.procs[i].sha && h'.procs[i].version == h.procs[i].version
    decreases |steps|
  {
    if steps != [] { SameRequests(Apply(h, steps[0]), steps[1..], h'); }
  }
}
