/** Materializing git worktrees in runs where anything can fail: exactly when a valid
  * worktree is complete, and exactly when it is at the commit asked for.
  */
module WorktreeRuns {
  import opened Worktree

  // ---------------------------------------------------------------------
  // Runs in which anything can fail
  // ---------------------------------------------------------------------

  /** The host after any steps that can be taken one after the other. */
  function Run(h: Host, steps: seq<Step>): (r: Option<Host>)
    decreases |steps|
  {
    if steps == [] then Some(h)
    else if Enabled(h, steps[0]) then Run(Apply(h, steps[0]), steps[1..]) else None
  }

  /** No process is to find a marker whose worktree somebody else took away. */
  ghost predicate NoStaleTarget(h: Host) {
    forall i :: 0 <= i < |h.procs| ==> !Stale(At(h, h.procs[i].Target()))
  }

  /** Then none is ever there to be removed, so the removal's result, which the program
    * ignores, does not matter.
    */
  lemma NoStaleMarkerNoRemoval(h: Host, step: Step, claim: Claim)
    requires Inv(h, claim) && Enabled(h, step) && NoStaleTarget(h)
    ensures !RemovalFails(h, step) && NoStaleTarget(Apply(h, step))
  {
    assert ProcKept(h.procs[step.i], At(h, h.procs[step.i].Target()));
    KeepsPlaces(h, step, claim);
    var h' := Apply(h, step);
    forall i | 0 <= i < |h'.procs| ensures !Stale(At(h', h'.procs[i].Target())) {
      assert h'.procs[i].Target() == h.procs[i].Target();
    }
  }

  /** Every run is then one in which no removal of a marker that is there fails. */
  lemma {:induction false} EveryRunLeads(h: Host, steps: seq<Step>, h': Host, claim: Claim)
    requires Inv(h, claim) && NoStaleTarget(h) && Run(h, steps) == Some(h')
    ensures Leads(h, steps, h')
    decreases |steps|
  {
    if steps != [] {
      NoStaleMarkerNoRemoval(h, steps[0], claim);
      StepKeeps(h, steps[0], claim);
      EveryRunLeads(Apply(h, steps[0]), steps[1..], h', claim);
    }
  }

  // ---------------------------------------------------------------------
  // A process on its own
  // ---------------------------------------------------------------------

  /** The host with what process `i` has come to. */
  function With(h: Host, i: nat, place: Place, lock: Option<nat>, pc: Pc): Host
    requires i < |h.procs|
  {
    Host(h.places[h.procs[i].Target() := place], lock, h.procs[i := h.procs[i].(pc := pc)])
  }

  lemma WithTwice(h: Host, i: nat, a: Place, lock: Option<nat>, pc: Pc, b: Place, held: Option<nat>, at: Pc)
    requires i < |h.procs|
    ensures With(With(h, i, a, lock, pc), i, b, held, at) == With(h, i, b, held, at)
  {
  }

  /** One step more of process `i`, alone since `h`. */
  lemma Advance(h: Host, i: nat, place: Place, lock: Option<nat>, pc: Pc, step: Step, rest: seq<Step>,
                left: Place, held: Option<nat>, at: Pc)
    requires i < |h.procs| && step.i == i && Enabled(With(h, i, place, lock, pc), step)
    requires var now := With(h, i, place, lock, pc);
      NextPlace(now, step) == left && NextPc(now, step) == at && Apply(now, step).lock == held
    ensures Run(With(h, i, place, lock, pc), [step] + rest) == Run(With(h, i, left, held, at), rest)
  {
    var now := With(h, i, place, lock, pc);
    assert ([step] + rest)[1..] == rest;
    assert Apply(now, step) == With(now, i, left, held, at);
    WithTwice(h, i, place, lock, pc, left, held, at);
  }

  /** From its start to having the lock with nothing to reuse. */
  lemma TakesOver(h: Host, i: nat, marker: bool, rest: seq<Step>) returns (steps: seq<Step>)
    requires i < |h.procs| && h.lock.None? && h.procs[i].pc.CheckDir? && At(h, h.procs[i].Target()) == Place(Missing, marker)
    ensures Run(h, steps) == Run(With(h, i, Place(Missing, marker), Some(i), Pc.RemoveMarker), rest)
  {
    var none := Place(Missing, marker);
    var s4 := [Ensured(i, true)] + rest;
    var s3 := [Look(i)] + s4;
    var s2 := [Lock(i)] + s3;
    Advance(h, i, none, Some(i), Ensure, Ensured(i, true), rest, none, Some(i), Pc.RemoveMarker);
    Advance(h, i, none, Some(i), RecheckDir, Look(i), s4, none, Some(i), Ensure);
    Advance(h, i, none, None, Acquire, Lock(i), s3, none, Some(i), RecheckDir);
    steps := [Look(i)] + s2;
    assert steps[1..] == s2;
    assert Apply(h, Look(i)) == With(h, i, none, None, Acquire);
  }

  /** From there to adding the worktree, the marker left where it is. */
  lemma ClearsAway(h: Host, i: nat, marker: bool, rest: seq<Step>) returns (steps: seq<Step>)
    requires i < |h.procs|
    ensures Run(With(h, i, Place(Missing, marker), Some(i), Pc.RemoveMarker), steps)
         == Run(With(h, i, Place(Missing, marker), Some(i), Add), rest)
  {
    var none := Place(Missing, marker);
    var s3 := [TreeRemoved(i, Missing)] + rest;
    var s2 := [Pruned(i)] + s3;
    Advance(h, i, none, Some(i), RemoveTree, TreeRemoved(i, Missing), rest, none, Some(i), Add);
    Advance(h, i, none, Some(i), Prune, Pruned(i), s3, none, Some(i), RemoveTree);
    Advance(h, i, none, Some(i), Pc.RemoveMarker, MarkerRemoved(i, false), s2, none, Some(i), Prune);
    steps := [MarkerRemoved(i, false)] + s2;
  }

  /** A stale marker whose removal fails does harm, whatever else the host holds: while
    * the worktree is being added, a partial one is reported valid, and a crash leaves
    * it so.
    */
  lemma StaleMarkerTrap(h: Host, i: nat) returns (steps: seq<Step>)
    requires i < |h.procs| && h.lock.None? && h.procs[i].pc.CheckDir? && Stale(At(h, h.procs[i].Target()))
    ensures Run(h, steps) == Some(With(h, i, Place(Partial, true), None, Failed))
    ensures Valid(Place(Partial, true))
  {
    var stale, partial := Place(Missing, true), Place(Partial, true);
    var last := [Crash(i)] + [];
    Advance(h, i, partial, Some(i), Add, Crash(i), [], partial, None, Failed);
    Advance(h, i, stale, Some(i), Add, Progress(i), last, partial, Some(i), Add);
    steps := ClearsAway(h, i, true, [Progress(i)] + last);
    steps := TakesOver(h, i, true, steps);
  }

  ghost predicate AllComplete(h: Host, claim: Claim) {
    forall p :: Valid(At(h, p)) ==> Complete(At(h, p), p, claim)
  }

  /** Whatever fails and crashes, every run keeps what is marked valid complete exactly
    * where no process's worktree has a stale marker at the start.
    */
  lemma CompleteIffNoStaleTarget(h: Host, claim: Claim)
    requires Initial(h, claim)
    ensures (forall steps :: Run(h, steps).Some? ==> AllComplete(Run(h, steps).value, claim)) <==> NoStaleTarget(h)
  {
    if NoStaleTarget(h) {
      forall steps | Run(h, steps).Some? ensures AllComplete(Run(h, steps).value, claim) {
        EveryRunLeads(h, steps, Run(h, steps).value, claim);
        RunKeeps(h, steps, Run(h, steps).value, claim);
      }
    } else {
      var i :| 0 <= i < |h.procs| && Stale(At(h, h.procs[i].Target()));
      var steps := StaleMarkerTrap(h, i);
      var p := h.procs[i].Target();
      assert At(Run(h, steps).value, p) == Place(Partial, true);
      assert !AllComplete(Run(h, steps).value, claim);
    }
  }

  // ---------------------------------------------------------------------
  // Whose commit a path is at
  // ---------------------------------------------------------------------

  /** A call that clones and checks out goes through undisturbed. */
  lemma Finishes(h: Host, i: nat, head: string, rest: seq<Step>) returns (steps: seq<Step>)
    requires i < |h.procs| && h.lock.None? && h.procs[i].pc.CheckDir? && h.procs[i].sha <= head
    requires At(h, h.procs[i].Target()) == Place(Missing, false)
    ensures Run(h, steps) == Run(With(h, i, Place(Checked(head, true), true), None, Done), rest)
  {
    steps := Publishes(h, i, head, rest);
    var added := Place(Checked(head, false), false);
    var s2 := [HeadVerified(i)] + steps;
    Advance(h, i, added, Some(i), VerifyHead, HeadVerified(i), steps, added, Some(i), Populate);
    Advance(h, i, Place(Missing, false), Some(i), Add, Added(i, Some(head)), s2, added, Some(i), VerifyHead);
    steps := ClearsAway(h, i, false, [Added(i, Some(head))] + s2);
    steps := TakesOver(h, i, false, steps);
  }

  lemma Publishes(h: Host, i: nat, head: string, rest: seq<Step>) returns (steps: seq<Step>)
    requires i < |h.procs|
    ensures Run(With(h, i, Place(Checked(head, false), false), Some(i), Populate), steps)
         == Run(With(h, i, Place(Checked(head, true), true), None, Done), rest)
  {
    var populated := Place(Checked(head, true), false);
    var s2 := [MarkerWritten(i, true, true)] + rest;
    Advance(h, i, populated, Some(i), WriteMarker, MarkerWritten(i, true, true), rest,
            Place(Checked(head, true), true), None, Done);
    Advance(h, i, Place(Checked(head, false), false), Some(i), Populate, Step.Populated(i, true), s2, populated, Some(i), WriteMarker);
    steps := [Step.Populated(i, true)] + s2;
  }

  /** A call that finds a valid worktree takes it as it is. */
  lemma FindsValid(h: Host, j: nat)
    requires j < |h.procs| && h.procs[j].pc.CheckDir? && Valid(At(h, h.procs[j].Target()))
    ensures Run(h, [Look(j), Look(j)]) == Some(With(h, j, At(h, h.procs[j].Target()), h.lock, Done))
  {
    var place := At(h, h.procs[j].Target());
    Advance(h, j, place, h.lock, Pc.CheckMarker, Look(j), [], place, h.lock, Done);
    assert [Look(j), Look(j)][1..] == [Look(j)] + [];
    assert Apply(h, Look(j)) == With(h, j, place, h.lock, Pc.CheckMarker);
  }

  /** Nobody has begun, and nothing is there. */
  ghost predicate Fresh(h: Host) {
    && h.lock.None? && (forall i :: 0 <= i < |h.procs| ==> h.procs[i].pc.CheckDir?)
    && forall p :: At(h, p) == Place(Missing, false)
  }

  /** One call checks out its commit, and another takes that for its own. */
  lemma SharedPathMisleads(h: Host, i: nat, j: nat) returns (steps: seq<Step>)
    requires Fresh(h) && i < |h.procs| && j < |h.procs| && i != j && h.procs[i].Target() == h.procs[j].Target()
    ensures Run(h, steps).Some?
    ensures var h' := Run(h, steps).value;
      && |h'.procs| == |h.procs| && h'.procs[j] == h.procs[j].(pc := Done)
      && At(h', h'.procs[j].Target()) == Place(Checked(h.procs[i].sha, true), true)
  {
    steps := Finishes(h, i, h.procs[i].sha, [Look(j), Look(j)]);
    FindsValid(With(h, i, Place(Checked(h.procs[i].sha, true), true), None, Done), j);
  }

  /** A call that returned names a checkout of the commit it asked for. */
  ghost predicate AtRequested(h: Host, i: nat)
    requires i < |h.procs|
  {
    var tree := At(h, h.procs[i].Target()).tree;
    h.procs[i].pc.Done? ==> tree.Checked? && tree.populated && h.procs[i].sha <= tree.head
  }

  ghost predicate AllAtRequested(h: Host) {
    forall i :: 0 <= i < |h.procs| ==> AtRequested(h, i)
  }

  /** From where nothing is checked out, every call that returns, in every run, is at the
    * commit it asked for exactly where requests whose paths coincide want one commit.
    */
  lemma RequestedIffPathsTell(h: Host)
    requires Fresh(h)
    ensures (forall steps :: Run(h, steps).Some? ==> AllAtRequested(Run(h, steps).value)) <==> PathsTell(h)
  {
    if PathsTell(h) {
      forall steps | Run(h, steps).Some? ensures AllAtRequested(Run(h, steps).value) {
        ToldRunsReturnRequested(h, steps);
      }
    } else {
      var i, j :| 0 <= i < |h.procs| && 0 <= j < |h.procs| && h.procs[i].Target() == h.procs[j].Target()
                  && h.procs[i].sha != h.procs[j].sha && !(h.procs[j].sha <= h.procs[i].sha);
      var steps := SharedPathMisleads(h, i, j);
      assert !AtRequested(Run(h, steps).value, j);
    }
  }

  lemma ToldRunsReturnRequested(h: Host, steps: seq<Step>)
    requires Fresh(h) && PathsTell(h) && Run(h, steps).Some?
    ensures AllAtRequested(Run(h, steps).value)
  {
    var claim := (p, head) => AtWanted(h, p, head);
    var h' := Run(h, steps).value;
    assert Initial(h, claim);
    EveryRunLeads(h, steps, h', claim);
    forall i | 0 <= i < |h'.procs| && h'.procs[i].pc.Done? ensures AtRequested(h', i) {
      ReturnedIsRequested(h, steps, h', i);
    }
  }

  /** The paths of requests coincide in particular where their commits share their first
    * eight digits.
    */
  lemma SharedDigitsSharePath(version: string, ours: string, theirs: string)
    requires |ours| >= 8 && |theirs| >= 8
    ensures PathOf(version, ours) == PathOf(version, theirs) <==> ours[..8] == theirs[..8]
  {
  }
}
