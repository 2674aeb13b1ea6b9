# Wado tooling, modelled and proved in Dafny

The project models the parts of the Wado repository's tooling and benchmarks that
carry real invariants, and proves what they are for. Every property below is
stated over every input, every run, or every reachable state.

| module | what it is about |
|---|---|
| `Calculus`, `Autograd`, `Gradient`, `Training`, `AdamLaws` | the scalar autograd of `microgpt`: reverse mode leaves the derivative, the training loop meets its precondition at every step, and what Adam's update means |
| `Totals`, `EvalProtocol`, `EvalOutcomes` | the `core:eval` host as one state machine: slots, CPU permits, strand permits, compiles past their limit, and whose outcome a call leaves with |
| `EvalCache`, `EvalKey` | the cache of outcomes: what was read vouches for an outcome, and the key tells its ingredients apart |
| `Worktree`, `WorktreeRuns` | materializing git worktrees, with crashes and lock-free readers |
| `Harvest` | the Kiln walk that acquires what it reaches and walks again |
| `Discover`, `DiscoverTree` | the source walk of a package, and of a tree of packages |
| `Prebuilt`, `Identities`, `Reuse` | comparing the unit graphs of two cargo builds |
| `CodeSpan`, `MarkdownLine`, `MarkdownDoc` | the Markdown printer of `wado doc` |
| `DriverCache` | the component that drivers share through a cache, in every order of their steps |
| `DomHandles` | the handle table of the DOM glue |
| `Sieve` | the sieve benchmark in 32-bit arithmetic |

The form follows the source. The graph, Adam, the read log, the outcome cache, the
hasher, the walker, the role visitor, the digest memo and the compiler host are
classes whose methods change their fields; the loops of the source are loops with
invariants; interleavings are steps of a state machine; what is an expression in
the source is a function. Each method is proved against a function of its inputs
or of its old state, and the lemmas say what that function means.

## How to read it

* **Reals for floats.** `Autograd` and `Training` compute over `real`. `pow`, `log`
  and `exp` are operators whose value and slope are given; that a recorded slope
  is the derivative is a hypothesis (`SlopesKnown`), and for `relu` it is proved
  where it holds. Derivatives are limits, defined by epsilon and delta in
  `Calculus`, which also proves the rules they obey.
* **The outside as parameters.** What a file system, a compile, a manifest, a
  glob or a hash gives is a parameter: worlds a lookup is answered by, a program
  that is a function of its lookups so far, a hash without collisions where the
  source relies on one, a matcher for patterns.
* **`EvalProtocol`** has one step per point where a call can be overtaken: a call
  finds or makes its slot, becomes its initializer or waits, takes permits, hits
  or misses the cache, compiles, runs, times out, leaves, and returns. A
  compile's vector of permits is kept alive by its caller and by its thread.
* **`Discover`** takes directories as numbered nodes and symlinks as entries that
  name a node already there, so a tree with cycles is a finite graph. What
  the package owns, where its sub-packages begin and what stops the walk are
  predicates on a path, told from the entries on the way to it; the walk is
  compared with them. The walk is one function in the source; `Walker.WalkDir`,
  `Walker.VisitEntry` and `Walker.EnterOnce` are its loop, the loop's body and
  the recursive call.
* **Fences.** The model re-scans with the source's own fence rules, which take
  any leading white space off a line. Section 4.5 of CommonMark 0.31.2 allows an
  indentation of at most three spaces; the printed opening and closing lines
  have none.

## Where it stops holding

Each of these is a lemma that says exactly when the code does what it is for, or
gives the input where it does not.

* `backward` needs every gradient but the root's to be 0
  (`Autograd.BackwardNeedsCleanGrads`), and the slope it records for `relu` is not
  a derivative at 0 (`Gradient.ReluIsSmooth`).
* `code_span` is read back as written exactly for text that is not empty, is on
  one line, and does not both begin and end with a space unless it is all spaces
  (`CodeSpan.ReadsBackIff`).
* `collapse_md_spaces` and `replace_md_emphasis` say they preserve code spans. They
  go by the parity of all backticks before, so a span in two backticks, and one in
  three that holds a backtick, can be rewritten like prose
  (`MarkdownLine.SpanKeptIff`, `MarkdownLine.SpansRewritten`).
* Lines of a fenced block are emitted verbatim, yet one that ends in a carriage
  return of its own loses it, or closes the fence, when the output is read
  (`MarkdownDoc.BlocksKeptIff`). Blank lines of the block can
  then come to stand outside it, two in a row (`MarkdownDoc.ReturnUntidies`).
* A worktree reported valid is complete in every run exactly where no request finds
  a stale marker at the start (`WorktreeRuns.CompleteIffNoStaleTarget`): the removal of a
  marker can fail, and the program ignores that. And every call gets the commit it
  asked for exactly where no two requests for different commits share a path
  (`WorktreeRuns.RequestedIffPathsTell`), as those with the same first eight digits do.
* The walk of one package is guarded against symlink cycles. The walk of the tree
  is not: it ends exactly where no package lies below itself, and one that a symlink
  puts there is listed again and again, until the system refuses the path
  (`DiscoverTree.EndsIff`).
* The report of a split unit says nothing where the two builds differ only in how
  often a dependency is listed (`Reuse.SaysNothingIff`, `Reuse.RepeatSaysNothing`).
* The key of an outcome leaves out packages nested in packages, and only those
  (`EvalKey.StreamTells`).
* The sieve tests `p * p <= limit` in `int`; that overflows exactly from the square
  of 46340 on (`Sieve.OverflowsIff`).

## Model

| member | source | states |
|---|---|---|
| Autograd.Graph.NewNode | benchmark/microgpt/microgpt.rs:147-155 | `value`: the node is appended with gradient 0, its index is the old length, children stay below their parents |
| Autograd.Graph.Leaf | benchmark/microgpt/microgpt.rs:157-159 | a node without children |
| Autograd.Graph.Add | benchmark/microgpt/microgpt.rs:161-164 | the sum of two nodes, with slopes 1 and 1, the same child allowed twice |
| Autograd.Graph.Mul | benchmark/microgpt/microgpt.rs:166-169 | the product of two nodes, each child with the other's value as its slope |
| Autograd.Graph.Apply | benchmark/microgpt/microgpt.rs:171-184 | `pow`, `log`, `exp`: one child, and the value and slope the library gave |
| Autograd.Graph.ReluOf | benchmark/microgpt/microgpt.rs:186-190 | the larger of the value and 0, with slope 1 above 0 and 0 elsewhere |
| Autograd.Graph.Rewind | benchmark/microgpt/microgpt.rs:232-234 | exactly the first nodes stay, all of them where there are fewer, and they are a graph |
| Autograd.Graph.BuildTopo | benchmark/microgpt/microgpt.rs:237-246 | the marked nodes and the list agree at every depth of the recursion, and the list is the depth-first post-order |
| Autograd.TopoOrders | benchmark/microgpt/microgpt.rs:237-246 | the order lists each node once and every child before its parents |
| Autograd.TopoIsReachableSet | benchmark/microgpt/microgpt.rs:237-246 | exactly the nodes reachable from the root are listed |
| Autograd.Graph.PushDown | benchmark/microgpt/microgpt.rs:254-261 | one node adds slope times its gradient to every child, a child listed twice twice |
| Autograd.Graph.Backward | benchmark/microgpt/microgpt.rs:248-262 | gradients become those of `BackwardGrads`; values, children and slopes stay |
| Autograd.PathsComplete | benchmark/microgpt/microgpt.rs:248-262 | the paths summed over are all paths from the root to the node, each once, by edge and not by node |
| Autograd.TangentIsPathSum | benchmark/microgpt/microgpt.rs:248-262 | the forward-mode tangent is the sum over all paths of the product of slopes along them |
| Autograd.SweepTotals | benchmark/microgpt/microgpt.rs:252-261 | what the reverse sweep leaves in a node, whatever gradients it starts from, is their total weighted by tangents |
| Autograd.BackwardInGeneral | benchmark/microgpt/microgpt.rs:248-262 | for any gradients before: a reachable node ends with the root's tangent and the weighted leftovers, an unreachable one with its own gradient |
| Autograd.BackwardIsTangent | benchmark/microgpt/microgpt.rs:248-262 | on every shared graph with clean gradients, `backward` leaves in every node the root's tangent with respect to it |
| Autograd.BackwardNeedsCleanGrads | benchmark/microgpt/microgpt.rs:248-262 | every node ends with its tangent if and only if every gradient but the root's was 0 |
| Gradient.MovedByNothing | benchmark/microgpt/microgpt.rs:147-190 | the graph holds what its operators compute |
| Gradient.TangentIsSlope | benchmark/microgpt/microgpt.rs:161-190 | the tangent is the derivative of what a node computes as another node's value moves, given each unary slope is its function's |
| Gradient.BackwardIsDerivative | benchmark/microgpt/microgpt.rs:248-262 | after `backward` from clean gradients a number is a node's gradient if and only if it is the derivative of the root's value |
| Gradient.ReluIsSmooth | benchmark/microgpt/microgpt.rs:186-190 | the slope recorded for `relu` is its derivative if and only if the input is not 0 |
| Training.NewMatrix | benchmark/microgpt/microgpt.rs:316-328 | a matrix has its rows and columns, holds the numbers drawn in order, and its handles, row by row, are the next indices |
| Training.NewStateDict | benchmark/microgpt/microgpt.rs:348-392 | the model is exactly the first nodes, every matrix has its rows and columns, and `params` lists 0, 1, 2, ... in order though it flattens matrix by matrix |
| Training.RunForward | benchmark/microgpt/microgpt.rs:506-521 | a forward pass of any operators appends to the graph, with clean gradients and children below parents |
| Training.Adam.Step | benchmark/microgpt/microgpt.rs:542-554 | each parameter and its moments take `NextCell`, which the rows of `AdamLaws` pin, by their own gradient; its gradient is cleared, other nodes and moments stay, and no square root of a negative number is taken |
| Training.TrainStep | benchmark/microgpt/microgpt.rs:574-587 | forward, backward, Adam and rewind together move every parameter along the forward-mode tangent of the loss, and restore exactly the parameters with clean gradients |
| Training.NewModel | benchmark/microgpt/microgpt.rs:567-572 | before the loop the graph is the parameters, in order, as drawn, and the moments are 0 |
| Training.Train | benchmark/microgpt/microgpt.rs:566-590 | at every head of the loop the graph is the parameters alone with clean gradients; what is learnt over all steps is Adam along the tangents of the losses; the loss returned is the last step's |
| AdamLaws.MovesAgainstMoment | benchmark/microgpt/microgpt.rs:546-552 | for a positive rate a parameter falls if and only if its new first moment is positive, and rises if and only if it is negative |
| AdamLaws.MomentsAreAverages | benchmark/microgpt/microgpt.rs:547-548 | after any gradients from moments of 0, the first moment is the sum of `(1 - beta) * beta ** age` times the gradients and the second that of their squares |
| AdamLaws.CorrectedMoments | benchmark/microgpt/microgpt.rs:543-550 | of a gradient that stays the same, the corrected moments are that gradient and its square after every number of steps |
| AdamLaws.FirstStep | benchmark/microgpt/microgpt.rs:543-551 | the first step goes by the rate times the gradient over its size |
| AdamLaws.TrainingAverages | benchmark/microgpt/microgpt.rs:574-587 | in training, after every number of steps, a parameter's moments are those averages over the derivatives of the losses so far |
| AdamLaws.RateFalls | benchmark/microgpt/microgpt.rs:582-582 | the rate starts at the constant and falls by the same amount every step, never to 0 |
| EvalProtocol.StepKeeps | wado-cli/src/eval_host.rs:186-307 | every step of tests, calls, compiles, runs, timeouts and thread ends keeps the invariant |
| EvalProtocol.RunKeeps | wado-cli/src/eval_host.rs:186-307 | so does every run, in every interleaving |
| EvalProtocol.PermitsAddUp | wado-cli/src/eval_host.rs:96-104 | in every reachable state each CPU permit is free or in one place, compiles past the limit keep at most one fewer than there are, and a call waiting inside `eval` holds none |
| EvalProtocol.StallShrinks | wado-cli/src/eval_host.rs:102-104 | with no permit free, every step that waits for no compile frees one or uses up one of a bounded number |
| EvalProtocol.KeepsCompile | wado-cli/src/eval_host.rs:298-307 | what a compile's vector holds, by whether it is awaited, its thread lives, and it is past the limit: a strand permit beside its CPU permit, or neither |
| EvalProtocol.OneEvaluationPerKey | wado-cli/src/eval_host.rs:93-95 | two calls evaluating one key are one call |
| EvalProtocol.SharedOutcome | wado-cli/src/eval_host.rs:186-200 | calls that shared a slot leave with one outcome, at whatever points of a run they leave |
| EvalOutcomes.ResolvedToOwnKey | wado-cli/src/eval_host.rs:188-193 | in every run a call is at a slot of the key it entered with, and its outcome is one that an earlier step of the run, by a call with that key at that slot, ended an evaluation in: a cache hit, a failure, an ended run, or a timeout |
| EvalOutcomes.ReturnsOwnKey | wado-cli/src/eval_host.rs:186-200 | so is the outcome it goes back to its test with |
| EvalOutcomes.CallsComeBy | wado-cli/src/eval_host.rs:202-260 | wherever a call is, it took the steps that lead there since it last entered: it runs only what a compile of its own reported, and only after missing the cache |
| EvalProtocol.OutcomeIsFinal | wado-cli/src/eval_host.rs:190-193 | an outcome put into a slot never changes, whatever steps follow |
| EvalProtocol.LateLeaverEvictsNothing | wado-cli/src/eval_host.rs:194-198 | a waiter that leaves late evicts no newer slot for its key |
| EvalProtocol.MapEmpties | wado-cli/src/eval_host.rs:93-95 | a slot is in the map only while some call is inside `eval` |
| EvalProtocol.NeverStuck | wado-cli/src/eval_host.rs:102-104 | while a test is not over, some step that waits for no compile to end can be taken |
| EvalProtocol.StallEnds | wado-cli/src/eval_host.rs:102-104 | no run of steps that wait for no compile, in whatever order, is longer than a bound with no CPU permit free throughout |
| EvalProtocol.PermitComesFree | wado-cli/src/eval_host.rs:102-104 | from every state, steps that wait for no compile to end lead to a free CPU permit, and with that bound on all of them |
| EvalCache.ReadLog.Record | wado-cli/src/run_cache.rs:195-205 | the first answer per key is kept; a second, different one and a failed lookup leave the log untracked |
| EvalCache.Evaluate | wado-cli/src/eval_host.rs:235-296 | while files change: it times out if and only if the program, answered as its lookups are, does not end within the limit; it ends as the program does; it has inputs if and only if it ended, no lookup failed and no key was answered twice otherwise; and those vouch for the whole log |
| EvalCache.EvaluationIsUnique | wado-cli/src/eval_host.rs:202-231 | in one state of the files a deterministic program has one log and one outcome |
| EvalCache.UnchangedIffReplays | wado-cli/src/fingerprint.rs:150-177 | the inputs of an evaluation are all unchanged if and only if evaluating again would see, lookup for lookup, what it saw |
| EvalCache.Cache.CachedOrEvaluate | wado-cli/src/eval_host.rs:202-231 | it hits if and only if the cache may be read and the key has an entry whose inputs all check, and that is an outcome of evaluating in the files as the checks found them; what ends on steady lookups is stored where the write succeeds; a timed-out outcome never is |
| EvalCache.HitIsEvaluatingNow | wado-cli/src/eval_host.rs:213-221 | an outcome that passes the test equals what evaluating now gives, though files changed while the recorded evaluation ran |
| EvalKey.LittleEndianRoundTrip | wado-cli/src/fingerprint.rs:88-91 | a length is read back from its eight bytes |
| EvalKey.FieldCut | wado-cli/src/fingerprint.rs:87-91 | equal streams that start with a length-prefixed field agree on the field and on what follows |
| EvalKey.BindingsCut | wado-cli/src/eval_host.rs:402-420 | the same of what one package's index binds, its packages aside |
| EvalKey.HashIndex | wado-cli/src/eval_host.rs:402-420 | the loops feed the hasher exactly that stream |
| EvalKey.Key | wado-cli/src/eval_host.rs:146-167 | the whole method feeds the hasher `Stream` |
| EvalKey.StreamTells | wado-cli/src/eval_host.rs:146-167 | two keys feed the hasher alike if and only if their digest, index, packages (nested ones aside), level, flags, fuel, ceiling and source are equal |
| EvalKey.StreamTellsFlat | wado-cli/src/eval_host.rs:146-167 | where no package nests another, if and only if all ingredients are equal |
| Worktree.OnlyHolderWrites | wado-cli/src/git.rs:110-118 | only who holds the repository's lock changes a worktree or its marker, and never a valid one |
| Worktree.StepKeeps | wado-cli/src/git.rs:101-156 | every step of every call, crashes included, keeps the invariant, unless the removal of an existing marker fails |
| Worktree.ValidIsCompleteForGood | wado-cli/src/git.rs:101-156 | in every run a directory with its marker is fully checked out with its submodules and never changes again, and so is what a call returned |
| Worktree.ReturnedIsRequested | wado-cli/src/git.rs:101-119 | what a call returned is at the very commit it asked for, provided paths tell the requested commits apart |
| WorktreeRuns.NoStaleMarkerNoRemoval | wado-cli/src/git.rs:124-126 | where no process's worktree has a stale marker none ever gets one, and no removal of a marker can fail that is there |
| WorktreeRuns.EveryRunLeads | wado-cli/src/git.rs:101-156 | from such a host every run, whatever fails, is one in which no removal of an existing marker fails, so all the above holds of it |
| WorktreeRuns.CompleteIffNoStaleTarget | wado-cli/src/git.rs:121-156 | over all runs, whatever fails and crashes: a directory with its marker is always complete if and only if no process's worktree has a stale marker at the start |
| WorktreeRuns.StaleMarkerTrap | wado-cli/src/git.rs:124-155 | in any host, for any process whose worktree has a stale marker: a run in which its removal fails and a crash leaves a partial worktree that is reported valid |
| WorktreeRuns.SharedPathMisleads | wado-manifest/src/cache.rs:74-78 | two calls whose paths coincide: one checks out its commit, and the other returns that |
| WorktreeRuns.RequestedIffPathsTell | wado-cli/src/git.rs:101-119 | from where nothing is checked out, every call that returns, in every run, is at the commit it asked for if and only if requests whose paths coincide want one commit |
| WorktreeRuns.SharedDigitsSharePath | wado-manifest/src/cache.rs:74-78 | of one version, two full commits share a path if and only if they share their first eight digits |
| Harvest.ResolvesMoreIff | wado-cli/src/compile.rs:646-660 | where acquiring only adds resolutions, the recursive counts differ if and only if some package on the way resolves something new |
| Harvest.CountResolved | wado-cli/src/compile.rs:656-660 | the recursive count over nested packages, whatever order they come in |
| Harvest.Host.PackageIndex | wado-cli/src/compiler_host.rs:404-420 | an acquired package is answered by its index; any other is answered offline, and recorded so where anything is to be acquired |
| Harvest.Walk | wado-cli/src/compile.rs:846-854 | a walk reaches exactly what the answers it was given lead to, past the settled modules |
| Harvest.AcquireUndeclared | wado-cli/src/compile.rs:620-644 | it fails if and only if some offline package fails to be acquired; otherwise every offline package becomes acquired, none acquired changes, and the result is true if and only if one of them resolves more |
| Harvest.Harvest | wado-cli/src/compile.rs:836-862 | the loop ends; on success what the last walk saw is what the final acquired answers reach, every package is acquired with what acquiring it gave, none failed, none moved back, and `settled` holds the last walk's modules alone |
| Harvest.BindOnce | wado-cli/src/compile.rs:716-733 | binding fails if and only if the name is bound to another path, and otherwise changes that name alone |
| Harvest.BindAll | wado-cli/src/compile.rs:578-596 | a build's bindings, of components and of sources, succeed if and only if no name of a kind gets two paths, in whatever order, and are then exactly those asked for |
| Discover.IsIgnored | wado-cli/src/discover.rs:623-637 | a path is ignored if and only if the last rule that matches it does not negate |
| Discover.RepositoryTopIsNearest | wado-cli/src/discover.rs:187-192 | the repository of a directory is the nearest one above with a `.git` |
| Discover.InForceWhereverStarted | wado-cli/src/discover.rs:185-197 | inside one repository the rules in force at a directory are the same whichever directory the walk started from |
| Discover.RulesComeDown | wado-cli/src/discover.rs:185-231 | the rules in force are those from above, then the directory's own |
| Discover.OwnRulesAreLines | wado-cli/src/discover.rs:566-616 | which are the lines of its `.gitignore`, in order, based at it |
| Discover.LoadAncestors | wado-cli/src/discover.rs:185-197 | the rules loaded before the walk are those from the repository's root down to just above the package, and it fails if and only if one of the files cannot be read |
| Discover.Walker.LoadIgnores | wado-cli/src/discover.rs:566-577 | a directory's rules go on top of the stack, and the number returned is how many |
| Discover.Walker.WalkDir | wado-cli/src/discover.rs:221-317 | the stack of rules is left as found; what is added lies below the directory; each canonical directory is gone into at most once, so the walk ends on cycles; where no directory is reached twice, all there is below is found |
| Discover.Walker.VisitEntry | wado-cli/src/discover.rs:241-313 | one entry gets the verdict its path has, with what that asks for |
| Discover.VerdictMeans | wado-cli/src/discover.rs:241-313 | what each verdict comes to, from the directory's listing, the submodules, the rules and the two filters alone |
| Discover.Walker.EnterOnce | wado-cli/src/discover.rs:300-309 | a canonical directory visited before is passed over, and any other is walked with the rules in force in it |
| Discover.DiscoverWadoFiles | wado-cli/src/discover.rs:168-317 | a success lists only the package's own files and nearest sub-packages, each once, told from the entries on the way alone: none hidden, dangling, a submodule, dropped by the last rule to match, or excluded and not included unless a directory that may hold what is, and no manifest above unless excluded; where no directory is reached by two paths it lists exactly those, and succeeds if and only if nothing on the way cannot be looked at or read |
| DiscoverTree.Discover | wado-cli/src/discover.rs:385-400 | where none does, the packages come root first and depth first, each with its sub-packages in order |
| DiscoverTree.EndsIff | wado-cli/src/discover.rs:387-400 | the loop ends if and only if no package that can be reached lies below itself |
| DiscoverTree.ShallowWithoutLoop | wado-cli/src/discover.rs:387-400 | where none does, packages nest no deeper than there are directories |
| Prebuilt.Roles.Visit | scripts/prebuilt.ts:111-126 | a unit and all below it get the role that comes in, each pair visited once |
| Prebuilt.RolesOf | scripts/prebuilt.ts:109-129 | a unit has the host's role if and only if some way down from a root passes a proc macro or a build script being compiled, and the program's if and only if some way passes none |
| Identities.AscendingIsUnique | scripts/prebuilt.ts:166-166 | sorting the digests forgets their order and nothing else |
| Identities.Memo.Identity | scripts/prebuilt.ts:160-172 | each digest remembered is the unit's own |
| Identities.IdentitiesOf | scripts/prebuilt.ts:158-174 | one digest per unit |
| Identities.DigestTells | scripts/prebuilt.ts:157-174 | digests of two units, of one graph or of two, are equal if and only if slot, features and the multiset of dependencies agree all the way down |
| Reuse.SplitsIffOtherwise | scripts/prebuilt.ts:222-229 | a unit splits if and only if the later build compiles it and nowhere with the same unfolding |
| Reuse.SplitHasCause | scripts/prebuilt.ts:236-245 | under every split unit, through split units, is one that is reported |
| Reuse.SaysNothingIff | scripts/prebuilt.ts:190-207 | what is reported of a split unit is empty if and only if the features are equal and the dependencies too, repeats aside; never where no dependency is listed twice |
| Reuse.DifferenceTells | scripts/prebuilt.ts:190-207 | added features are the later build's and dropped ones the earlier one's; dependencies are told only where features are the same, and then what is gained is the later build's and what is lost the earlier one's |
| Reuse.RepeatSaysNothing | scripts/prebuilt.ts:190-207 | a dependency listed more often by one build splits its unit, and nothing is said |
| Reuse.ReusedWhole | scripts/prebuilt.ts:157-174 | with a unit all there is below it is reused: every way down from it is one down from the unit with its digest, digest for digest and unfolding for unfolding |
| Reuse.FindSplit | scripts/prebuilt.ts:222-229 | exactly the split units, each with its counterparts |
| Reuse.Check | scripts/prebuilt.ts:222-248 | of one pair of builds it succeeds if and only if no unit splits, and has a line for every counterpart of every unit that is a cause, and no other |
| Reuse.CheckAll | scripts/prebuilt.ts:209-250 | over all pairs it succeeds if and only if no unit of any splits, with those lines for each |
| CodeSpan.CodeSpan | wado-cli/src/doc.rs:1099-1113 | the loop finds the longest run, and the fence outruns it |
| CodeSpan.RunWithin | wado-cli/src/doc.rs:1097-1107 | no run of backticks in the text is longer than the one found |
| CodeSpan.ReadsBackIff | wado-cli/src/doc.rs:1097-1113 | a reader by section 6.1 of CommonMark 0.31.2 recovers the text, and stops where the span ends, if and only if the text is not empty, on one line, and not spaced at both ends |
| MarkdownLine.CollapseSpaces | wado-cli/src/doc.rs:1288-1310 | the loop is `Collapsed` |
| MarkdownLine.ReplaceEmphasis | wado-cli/src/doc.rs:1314-1341 | the loop is `Emphasised` |
| MarkdownLine.NormalizedIsNormal | wado-cli/src/doc.rs:1281-1285 | outside backticks a normalised line has no two spaces in a row and stars only in pairs, and it starts with no white space |
| MarkdownLine.NormalizedTwice | wado-cli/src/doc.rs:1281-1285 | normalising twice is normalising once |
| MarkdownLine.NormalizedKeepsInk | wado-cli/src/doc.rs:1281-1341 | from the first character on, all text between backticks is kept, and all other but which of `*` and `_` was written and how many spaces there are where there are some |
| MarkdownLine.UnchangedIff | wado-cli/src/doc.rs:1281-1341 | a line is left as it is if and only if it starts with no white space and, outside backticks, has no two spaces in a row and stars only in pairs |
| MarkdownLine.RewrittenCut | wado-cli/src/doc.rs:1288-1341 | at any backtick a line falls into stretches that are rewritten each by itself, by the parity of all backticks before |
| MarkdownLine.SpanKeptIff | wado-cli/src/doc.rs:1287-1313 | wherever a span between backticks stands in a line and whatever it holds, its stretch is kept as written if and only if it is neat and its stars are in pairs, both told from the parity of all backticks before it |
| MarkdownLine.PlainSpanKeptIff | wado-cli/src/doc.rs:1287-1313 | where the text of the span holds no backtick: if and only if an odd number of backticks comes before the text, or the text is neat and paired as prose |
| MarkdownLine.SpansRewritten | wado-cli/src/doc.rs:1287-1313 | a code span in two backticks, and one in three that holds a backtick, are rewritten |
| MarkdownDoc.RenderLine | wado-cli/src/doc.rs:1158-1239 | one line of the loop prints and moves on as `Printed` and `Next` say |
| MarkdownDoc.RenderDoc | wado-cli/src/doc.rs:1151-1241 | the whole loop appends the printed lines to what was there |
| MarkdownDoc.NormalizedOpens | wado-cli/src/doc.rs:1180-1195 | normalising neither makes nor unmakes a fence |
| MarkdownDoc.BlocksKeptIff | wado-cli/src/doc.rs:1151-1279 | the output re-scans to the same fenced blocks, opening and inner lines and closing, if and only if none of those lines ends in a carriage return of its own |
| MarkdownDoc.TidyPrinted | wado-cli/src/doc.rs:1151-1241 | of any doc, from any point on: outside fences the printed lines have no two blank ones in a row, and none first |
| MarkdownDoc.SingleBlanks | wado-cli/src/doc.rs:1198-1205 | of any doc as it is printed; and as the output is read again, where no line of a fenced block ends in a carriage return of its own |
| MarkdownDoc.ReturnUntidies | wado-cli/src/doc.rs:1158-1177 | without that condition: a doc whose output, read again, has two blank lines in a row outside fences |
| Sieve.Mark | benchmark/sieve/sieve.c:78-82 | striking out from `p * p` leaves exactly the numbers without a divisor up to `p` that is at most their root; the buffer past the limit stays |
| Sieve.FreeNext | benchmark/sieve/sieve.c:75-84 | starting at `p * p`, and only for primes, leaves nothing out |
| Sieve.SieveCount | benchmark/sieve/sieve.c:65-94 | for every limit below 46340 squared the buffer marks exactly the primes, their number is returned, and no 32-bit expression overflows |
| Sieve.OverflowsIff | benchmark/sieve/sieve.c:75-75 | the square the loop tests overflows for some tested number if and only if the limit is at least 46340 squared |
| MarkdownDoc.ProsePrinted | wado-cli/src/doc.rs:1195-1225 | outside fences every line of prose is printed, normalised, once and in order, as it stands, indented, or quoted, and nothing else but blank lines is |
| MarkdownDoc.PrintedAsExpected | wado-cli/src/doc.rs:1151-1241 | from any point on, every line of prose and every line that opens a fence is printed once and in order; quoted, indented or neither by the nearest item or quotation it goes on with; after a blank line where there was one, after a heading, before a fence, and where an item or a quotation begins |
| MarkdownDoc.OpensMeans | wado-cli/src/doc.rs:1256-1271 | a line opens a fence if and only if it is three or more of one of its two characters, and an info string without a backtick after backticks |
| MarkdownDoc.ClosesMeans | wado-cli/src/doc.rs:1273-1279 | and closes it if and only if it is as many of the character at least, and blanks |
| MarkdownDoc.ItemMeans | wado-cli/src/doc.rs:1343-1346 | a line is an item if and only if a dash, or a number and a dot, and a space come first |
| CodeSpan.LongestRunAt | wado-cli/src/doc.rs:1100-1105 | some run of backticks in the text is as long as the one found |
| DriverCache.MatchMakes | wado-cli/src/build.rs:530-540 | a component file whose digest is the record's, whoever wrote it, is what compiling where the record's inputs check would make |
| DriverCache.StepKeeps | wado-cli/src/build.rs:481-547 | every step of concurrent drivers, crashes and files torn or replaced by others included, keeps the entry's record one of a compile that read what its inputs say |
| DriverCache.HitIsOwnComponent | wado-cli/src/build.rs:471-480 | in every interleaving what a driver takes from the cache is the component it would compile itself from the sources as its lookup found them, with its own metadata, and it was allowed to |
| DriverCache.BuiltIsOwnCompile | wado-cli/src/build.rs:509-547 | what a driver that compiled writes, records and answers is the component of its own compile, with its own metadata |
| DriverCache.HitsExactly | wado-cli/src/build.rs:503-540 | it answers from the cache if and only if it may, the record is of its binary and metadata, nothing the record lists has changed, and the component is the record's |
| DriverCache.NextDriverHits | wado-cli/src/build.rs:479-547 | after one driver has stored what it compiled, the next of the same binary and metadata answers with it |
| DomHandles.FirstIsMostDerived | package-web/glue/dom.js:5-28 | the first class of the list that an object is of has every other declared class of the object among its ancestors |
| DomHandles.Table.Handle | package-web/glue/dom.js:20-33 | an object gets one handle and keeps it, others keep theirs, and an object of no declared class changes nothing |
| DomHandles.Table.ObjectOfHandle | package-web/glue/dom.js:29-35 | an object's handle leads back to it |
| DomHandles.Table.HandlesDiffer | package-web/glue/dom.js:20-35 | distinct objects have distinct handles |
| DomHandles.Table.HandleTells | package-web/glue/dom.js:4-33 | the upper part of a handle is the number of the most derived declared class, and the handle is an exact JavaScript number |
| Discover.OrdinaryIsTreeLike | wado-cli/src/discover.rs:300-305 | where each directory is named by one entry at most, no walk goes into a directory by two paths, so all the above holds of an ordinary tree without conditions |

## Left out

- Training.RunForward: takes any operators in place of the GPT's, so what `gpt`, `softmax` and `forward_loss` compute beside their use of the graph is not modelled; floating-point rounding, the tokenizer, the random numbers and inference are not either.
- Autograd.Graph.Apply: takes the slope of `pow`, `log` and `exp` as given, whatever it is.
- Gradient.TangentIsSlope: supposes that the slopes recorded for `pow`, `log` and `exp` are their derivatives; their analysis is not modelled.
- EvalProtocol.StepKeeps: calls are not cancelled, and a panic on a compile's thread, which ends the run, is not a step; the test clock's arithmetic and dropping the host at the end of the run are left out.
- EvalCache.Evaluate: what the compile itself wrote (`ReadLog::wrote`) is left out, since an `eval` compile writes nothing.
- EvalKey.StreamTells: supposes that the debug renderings of the manifest and of the optimization level tell what they render, and says nothing of packages nested in packages, which the key leaves out.
- Worktree.StepKeeps: `wado clean`, which takes no lock, removing worktrees meanwhile; what git does inside one command is a step that leaves a partial tree at any crash, and a crash ends the command too, where the source starts git as a child process that can outlive it once the lock is gone; `list_tags` and reading manifests at a commit are left out.
- Harvest.Walk: stands for a walk of the compiler, which is not part of this model; it asks for an index at each package it reaches and goes on to what that resolves. `adopt_components` and the diagnostics of a walk are left out.
- Harvest.Harvest: keeps `settled` per package and not per module, and supposes that acquiring only adds resolutions and that a walk goes by resolutions alone, as the source's comments say.
- Discover.DiscoverWadoFiles: the entries come in the order listed, and the final sort and the re-spelling from the caller's root are left out; so are parsing `.gitignore` and `.gitmodules`, the glob matcher, and `retain_under`.
- Discover.Walker.WalkDir: a directory whose canonical path cannot be found is not modelled, and where a directory is reached by two paths it says what may be listed but not which of the two paths is.
- Reuse.Check: labels of units, and the order of the lines, are left out.
- DiscoverTree.Discover: which sub-packages a walk lists is given; the files of each package, its filters and a walk's errors are left out.
- Discover.Walker.EnterOnce: as above, a directory that cannot be canonicalized, which the source walks without marking it.
- MarkdownDoc.SingleBlanks: where a line of a fenced block ends in a carriage return of its own it speaks of the printed lines alone, and `MarkdownDoc.ReturnUntidies` shows why.
- MarkdownDoc.BlocksKeptIff: supposes `render_md_doc` starts at the beginning of a line; the section renderers and the dprint pass are left out, and so is idempotence of the whole printer, which a list item directly after a blockquote breaks.
- Sieve.SieveCount: the throughput loop and the allocation are left out.
- DomHandles.Table.Handle: supposes fewer than 2^37 objects, as the stride of a handle does; the callbacks, the member shims and their conversions are left out.
- DriverCache.StepKeeps: supposes that a driver's write replaces the whole component, as `write_atomic` is for, and that a record is stored whole or not at all; a compile that fails ends its driver.
- Option parsing, usage text, diagnostics, span timestamps, memory reporting, coverage, and the other benchmarks: plumbing without an invariant of its own.
