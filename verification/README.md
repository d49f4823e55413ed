# Rebuild planner and publication protocol, verified

A Dafny model of the factory that rebuilds Fedora sources for Utah: how it
orders a build, what a publication does to the repository and to the label on
its image, when an upstream bump merges itself, and the algorithms beside them
that read specs, order versions, re-import recipes and rewrite archives. Each
module follows one tool:

- `Tarjan`, `Components`, `BuildGraph`, `Waves`: `tools/build_graph.py`. The
  iterative strongly-connected-component search keeps its explicit work stack of
  resumable iterators (`Components`); why its low-link test is right is argued on
  a view of that stack (`Tarjan`). Cycles are broken by config stage and the
  waves are longest paths. `Reachability` and `Ordering` hold paths and Python's
  string order.
- `TarRecords`, `TarRewrite`, `TarLoop`, `TarHeaders`: the raw archive rewriter of
  `tools/generated_sources.py`, over 512-byte records of the "ustar Interchange
  Format" and "pax Header Block" of the `pax` utility in IEEE Std 1003.1.
  `TarRewrite` says what an archive holds and should be left with, `TarLoop` is the
  source's loop over Python's indices, turn by turn, and `TarHeaders` goes from the
  bytes of the headers to the members and what becomes of them. The last also reads
  UTF-8, RFC 3629.
- `FactoryState`, `PublishGate`, `RebuildPlan`, `StageOutputs`, `RebuildMatrix`: the
  state label, the publication, the plan and its job matrices, and one run prepared
  from them.
- `RunProtocol`, `RunRecords`, `PackageCache`: runs one after another with arbitrary
  failures, precedence losers, prunes, early publications, builds restored from the
  package cache, pushes to it from other runs, and inventory edits. An RPM carries
  the digest it was built at, so that "the label is true" can be said; the cache key
  of a build is any function of its package and that digest.
- `BumpGate`, `BumpLoop`: the decisions of `tools/bump_gate.py`, the trim in the
  checkout, and the loop the workflow makes of them.
- `BacklogSpec`: the three-valued reader of `tools/factory_build_backlog.py`
  against an evaluator that knows every condition, and that against the nested
  structure of a spec.
- `UpstreamBump`, `MacroSources`: version order, forge proposals and the macro
  closure of `tools/upstream_bump.py`.
- `RawhideReimport`: safe re-imports, and runs of them.
- `VendoredCrate`: the layout of one vendored crate.

Loops and objects that change in the source are methods and classes here, proved
against specification functions and predicates; lemmas then say what those mean.
Digests are opaque values with equality. Clocks, the network, Git, RPM, Koji and
the registry are parameters: parsed maps, reports and trees come in as arguments,
nondeterministic outcomes as arbitrary ones. A set the source iterates in an
unspecified order is iterated in any order.

## Where code and promise part

Each of these is proved with its exact condition and shown at an input.

- `waves` raises its AssertionError if and only if a node outside every cycle has
  an edge to itself; `break_cycles` skips components of one node. The graph
  builder never makes such an edge (`Waves.Waves`, `Waves.SelfEdgeExample`).
- The archive rewriter clears its pending extension headers at a leading global
  header without dropping their records. And a size field of -512 or less does not
  move its loop on: from -1023 up it stays where it is for ever, further down it
  steps back, and a negative index wraps to the end of the records. So a doomed
  member with size field -2000 before a zero record is counted and kept, and the
  source succeeds. A success is right if and only if the loop always moved on and no
  extension header was pending at a leading global header (`TarLoop.OutputReparses`,
  `TarLoop.TurnSlips`, `TarLoop.BackwardExample`, `TarLoop.StuckExample`,
  `TarLoop.StrandedExtension`).
- A pax record says its length, but its reader splits the data at newlines: a path
  with a newline in it is read up to there, and right if and only if it has none
  (`TarHeaders.PaxPathCut`, `TarHeaders.PaxFirstPath`).
- The label is said to record the inputs of every published build
  (`tools/rebuild_matrix.py:192-195`). But a run may restore a package it did not see
  change from the package cache, whose key holds less than the digest: not the whole
  inventory entry (`tools/package_cache_key.py:114-158`, `tools/factory_state.py:55-63`).
  What is recorded and what is published agree on the key, over all runs; they are the
  same if and only if no two builds of a package that occur share a key
  (`RunProtocol.LabelStaysTrue`, `PackageCache.ExactIff`,
  `PackageCache.CacheShowsThrough`).
- The stage lists lose an entry of negative wave, which `overflow` does not look
  for; `tools/package_inventory.py:166-168` refuses such stages earlier
  (`StageOutputs.StagesPartition`, `StageOutputs.NegativeStageIsLost`).
- A source is never a mixture of old and new files if and only if no accepted
  build overwrites a file of a source that stays (`PublishGate.NeverAMixture`,
  `PublishGate.MixtureExample`).
- `_cli_assemble` counts every bootstrap recipe of the build list as done once any
  bootstrap RPM is there. A failed one is then recorded as built if and only if
  another built, and the two jobs' failure lists differ if and only if one of those
  counted left no artifact or lost precedence (`RunRecords.BootstrapCredit`,
  `RunRecords.FailedBootstrapForgotten`, `PublishGate.FailuresAgree`).
- The publish workflow prunes RPMs by the shell pattern `"$source"-*` and the
  label by whole names; then it deletes bootstrap, `icu` and `libicu` files by their
  names and the label not at all. A record loses its RPMs if and only if, for a package
  that stays recorded, a pruned name and a dash begin its source, version and release,
  or all its files are deleted by name: pruning `foo` deletes the RPMs of `foo-bar`,
  `icu`, which is in the inventory, is built, recorded and deleted in one publication,
  and no later run rebuilds either (`RunRecords.BackingByNames`,
  `RunRecords.PruneTakesTheNeighbour`, `RunRecords.IcuVanishes`).
- A full retry converges if and only if it prunes nothing the inventory still
  carries (`RunRecords.RetryConverges`, `RunRecords.RetryNeverSettles`).
- `publish_allowed` refuses a run that only prunes and skipped the precedence job;
  the publish job publishes it, and only that (`RunProtocol.GateAndJob`,
  `RunRecords.PruneOnlyIsPublished`).
- When every bumped package is held the gate promises a holds-only merge. It
  merges if and only if the locks are otherwise the same, the holds are new and no
  other file changed, so not when the bump also carried
  `reports/multimedia-closure.json`, which it allows (`BumpLoop.AllHeldMerges`,
  `BumpLoop.ReportIsNotMerged`).
- The gate takes pull requests on `bump/upstream-sources` and on
  `bump/rawhide-imports`, but pushes and gates every hold on the first. One on the
  second is merged if and only if nothing in it breaks (`BumpLoop.OneTrimSuffices`,
  `BumpLoop.RawhideHoldIsLost`).
- The docstring of `holdable` wants at least one other bumped package built; the
  code holds even when all of them failed, and the model follows the code. One
  built exactly when the held packages are not all (`BumpGate.SomeBuilt`,
  `BumpGate.HoldsEvenAll`).
- The spec reader lets a later `%bcond` declaration win, as its docstring says; in
  RPM nothing turns a bcond off again. Its values are true if and only if it takes
  no declaration that turns off what is on. A name is then reported and not built if
  and only if every line it is reported from lies in a branch opened on a wrong value
  and the build reaches no other line of it (`BacklogSpec.HeldIsTrueIff`,
  `BacklogSpec.ReportedNotBuilt`, `BacklogSpec.ReversedIsReported`).
- `newer` is not irreflexive: `1.git` is newer than itself, so a feed that serves
  it proposes it again for ever (`UpstreamBump.AdoptedUpdateSettles`,
  `UpstreamBump.ProposedForEver`).
- A re-imported recipe also carries `.hummingbird-upstream.json`, which is a build
  input (`RawhideReimport.ReimportKeepsBuild`); a recipe matches its new pin if and
  only if the pin does not carry that file, and is stuck there if it does
  (`RawhideReimport.ReimportMatchesPin`, `RawhideReimport.StuckPin`).
- A crate emits a path twice if and only if one file is where another needs a
  directory (`VendoredCrate.EachPathOnce`, `VendoredCrate.ClashExample`).

## Model

| member | source | states |
|---|---|---|
| `Components.PopComponent` | tools/build_graph.py:179-187 | popping the search stack down to a root takes off exactly the stack members indexed at or above it |
| `Components.YieldChildren` | tools/build_graph.py:159-173 | resuming a child iterator either discovers exactly one new node, at the next index, or exhausts the children, and keeps the search invariant |
| `Components.Finish` | tools/build_graph.py:174-187 | closing a node keeps the search invariant, whether its low-link is folded into its caller or its component is emitted |
| `Components.Visit` | tools/build_graph.py:150-187 | one root visit of the iterative search terminates and leaves an idle search with the root explored |
| `Components.Components` | tools/build_graph.py:140-190 | for every graph: the result partitions the nodes, each part is a strongly connected component of the induced subgraph, and every edge leaving a part points into one listed earlier |
| `Tarjan.DiscoverKeeps` | tools/build_graph.py:151-168 | discovering a node keeps the low-link invariant |
| `Tarjan.LookKeeps` | tools/build_graph.py:169-170 | looking at an indexed child, on the stack or not, keeps the low-link invariant |
| `Tarjan.FoldKeeps` | tools/build_graph.py:173-177 | folding a finished non-root into its caller keeps the low-link invariant |
| `Tarjan.SegmentIsScc` | tools/build_graph.py:178-187 | when a node’s low-link equals its index, the stack from that node up is a strongly connected component |
| `Tarjan.SegmentClosed` | tools/build_graph.py:178-187 | no edge leaves that segment for a node not yet emitted |
| `Tarjan.EmitKeeps` | tools/build_graph.py:178-187 | emitting the segment keeps the low-link invariant for what stays on the stack |
| `BuildGraph.Providers` | tools/build_graph.py:112-120 | a recipe is listed under a capability exactly when its spec or its published binaries provide it |
| `BuildGraph.Edges` | tools/build_graph.py:103-128 | an edge is there exactly when the consumer BuildRequires a capability that another recipe’s spec or published binaries provide; never to itself |
| `BuildGraph.Dependents` | tools/build_graph.py:131-137 | exactly the reverse of the edges |
| `BuildGraph.BreakComponent` | tools/build_graph.py:210-219 | inside one component an edge survives exactly when it leaves the component or its provider is staged strictly earlier; levels group the members by stage |
| `BuildGraph.Report` | tools/build_graph.py:219-222 | the groups appended are exactly the levels with two or more members, each once |
| `BuildGraph.BreakCycles` | tools/build_graph.py:193-222 | an edge survives exactly when it is on no cycle or its provider is staged earlier; the reported groups are exactly the sets of cycle members that share a stage |
| `BuildGraph.DroppedEdge` | tools/build_graph.py:199-222 | a dropped edge lies inside one cycle, and its provider is staged later or its ends are together in a reported group |
| `BuildGraph.NoGroupMeansOrdered` | tools/build_graph.py:199-222 | with no group reported, any two members of a cycle have different stages |
| `BuildGraph.StagesFall` | tools/build_graph.py:201-205 | along a surviving path that could return to its start, stages strictly fall |
| `BuildGraph.AcyclicIff` | tools/build_graph.py:199-222 | what survives is acyclic if and only if no node outside every cycle has an edge to itself |
| `BuildGraph.BrokenByConfig` | tools/build_graph.py:211-218 | on the config’s own map: an edge between two members of one cycle survives if and only if its provider’s stage is the smaller, a package without one counting as 0; every other edge survives |
| `Waves.Depth` | tools/build_graph.py:236-245 | the memoised recursion gives a node its wave and adds only right entries, or stops on a trail that is a path of surviving edges ending in a node it already passed |
| `Waves.Waves` | tools/build_graph.py:225-250 | waves are solved for the whole build set if and only if no node outside every cycle needs itself; otherwise the AssertionError, printing a trail that closes a cycle |
| `Waves.LeastAssignment` | tools/build_graph.py:231-245 | no assignment that puts every surviving provider strictly earlier gives a node a smaller wave |
| `Waves.LongestPath` | tools/build_graph.py:231-245 | a wave is the length of a longest path of providers, and such a path exists |
| `Waves.WavesFall` | tools/build_graph.py:231-245 | waves fall by at least one at each step of a surviving path |
| `Waves.SolvedHasNoCycle` | tools/build_graph.py:225-250 | a solved graph has no cycle |
| `Waves.SelfEdgeExample` | tools/build_graph.py:208-209 | a lone package that needs itself keeps its edge |
| `Waves.FactoryGraphHasWaves` | tools/build_graph.py:122-128 | edges built by the graph builder never raise the AssertionError, for any build set and stages |
| `Waves.WavesByConfig` | tools/build_graph.py:211-246 | a provider is built in a strictly earlier wave if no cycle holds the two or the config stages it earlier |
| `Waves.StagedCycle` | tools/build_graph.py:199-218 | flatpak and malcontent need each other, staged 8, 9 and 10 with the bootstrap: waves 0, 1 and 2 |
| `TarRecords.RecordsJoin` | tools/generated_sources.py:688 | cutting a payload into records and joining them gives it back |
| `TarRecords.JoinRecords` | tools/generated_sources.py:725 | records of which only the last may be short are cut again the same way |
| `TarRewrite.ParseLossless` | tools/generated_sources.py:694-723 | the members, extension headers and end read off an archive are all of its records, in order |
| `TarRewrite.Reparse` | tools/generated_sources.py:694-723 | an archive laid out from what was read reads as the same again |
| `TarLoop.ResolveName` | tools/generated_sources.py:708-717 | the name loop over the pending headers, at any indices: prefix, pax path, GNU long name |
| `TarLoop.DropPending` | tools/generated_sources.py:720-721 | exactly the indices the pending headers span are dropped |
| `TarLoop.Transform` | tools/generated_sources.py:688-725 | the loop itself, over Python’s indices and for any number of turns: the output or the error it comes to, or none yet |
| `TarLoop.NamesResolve` | tools/generated_sources.py:708-717 | while the loop moves forward, the slices of its pending headers give the name the archive’s own rules give |
| `TarLoop.Follows` | tools/generated_sources.py:694-723 | from any point reached so far, the loop fails to move on at some later turn if and only if the archive has no reading; otherwise it comes to the archive’s outcome, in a turn for each record left at most |
| `TarRewrite.RewriteReparses` | tools/generated_sources.py:694-725 | the rewritten records read as the input’s items less the doomed member and leading global headers, if and only if no extension header is pending at a leading global header |
| `TarLoop.TransformedIsOutcome` | tools/generated_sources.py:688-725 | a loop that always moves on is over within a turn for each record, with the archive’s own error or count, or exactly the kept records |
| `TarLoop.OutputReparses` | tools/generated_sources.py:670-725 | the output bytes of a success of the source read as the input’s items less the doomed member and leading global headers, if and only if the loop always moved on and no extension header was pending at a leading global header |
| `TarLoop.OutputRecords` | tools/generated_sources.py:688-725 | the output is cut into the very records that were kept |
| `TarRewrite.WithoutNone` | tools/generated_sources.py:718-724 | no member of the doomed name is left |
| `TarRewrite.WithoutKeeps` | tools/generated_sources.py:718-724 | every member of another name is left |
| `TarLoop.SecondRunRefuses` | tools/generated_sources.py:724-725 | transforming a right output again is refused: nothing is found |
| `TarLoop.WalkSticks` | tools/generated_sources.py:694-723 | the archive has no reading if and only if the loop at some turn fails to move on |
| `TarLoop.TurnSlips` | tools/generated_sources.py:698 | a turn fails to move on exactly at a header whose size field is -512 or less, and stays where it is exactly from -1023 up |
| `TarLoop.SpinsForEver` | tools/generated_sources.py:694-723 | a turn that stays where it is is taken for ever |
| `TarLoop.StuckExample` | tools/generated_sources.py:655-657 | a member header whose size field reads -1000: the source never ends |
| `TarLoop.BackwardExample` | tools/generated_sources.py:694-725 | the doomed member with a size field of -2000, then a zero record: the index wraps to the end, and the source succeeds with every record kept |
| `TarLoop.StrandedExtension` | tools/generated_sources.py:699-702 | an archive whose output has a header too many: an extension header before a leading global header |
| `TarHeaders.HeaderName` | tools/generated_sources.py:707-709 | a header whose fields hold a prefix and a name, NUL-ended, carries prefix, slash and name, or the name alone; none if either does not decode |
| `TarHeaders.HeaderKind` | tools/generated_sources.py:697 | the type flag decides the kind of a header |
| `TarHeaders.HeaderSize` | tools/generated_sources.py:655-657 | a size field of octal digits among blanks is the number they write |
| `TarHeaders.OctalForms` | tools/generated_sources.py:657 | with a sign, an octal prefix, or underscores between digits it is that number too |
| `TarHeaders.Utf8Iff` | tools/generated_sources.py:667 | bytes decode if and only if they are the UTF-8 text of some scalar values |
| `TarHeaders.PaxFirstPath` | tools/generated_sources.py:660-667 | the data of a pax header yields the value of its first path record |
| `TarHeaders.PaxNoPath` | tools/generated_sources.py:660-667 | without a path record it yields none |
| `TarHeaders.PaxPathCut` | tools/generated_sources.py:661-667 | a path with a newline in it is read up to the newline |
| `TarHeaders.LastNamedResolves` | tools/generated_sources.py:711-717 | through any number of extension headers the last that names the member decides, or its own header |
| `TarHeaders.CutOut` | tools/generated_sources.py:688-725 | an archive of global headers and members written in bytes, exactly one of the doomed name: the source ends within a turn for each record, and its output is the other members, record for record, and the same end |
| `TarHeaders.PrefixedIsCut` | tools/generated_sources.py:706-721 | a member whose name lies half in the prefix field is found and cut out |
| `TarLoop.CutLaws` | tools/generated_sources.py:712 | slices of the records are plain within the list, clipped beyond it, and counted from the end below zero |
| `FactoryState.Default` | tools/factory_state.py:120-122 | trusted names get the current digest only where none was recorded |
| `FactoryState.Replace` | tools/factory_state.py:123-124 | replaced names get the current digest; a name outside the inventory is a KeyError |
| `FactoryState.PopAll` | tools/factory_state.py:129-131 | exactly the named entries go |
| `FactoryState.Record` | tools/factory_state.py:126-128 | failed names the inventory knows get the current digest |
| `FactoryState.MergeInputs` | tools/factory_state.py:118-134 | the recorded inputs after a publication: which names, at which digest |
| `FactoryState.MergeFailed` | tools/factory_state.py:119-135 | the recorded failures after a publication |
| `FactoryState.Merge` | tools/factory_state.py:101-136 | the whole label a publication leaves, or the KeyError exactly when a replaced name is not in the inventory |
| `FactoryState.MergedIsMerge` | tools/factory_state.py:118-136 | the label as a function of its inputs meets that description |
| `FactoryState.MergeUnique` | tools/factory_state.py:118-136 | the description admits one label only |
| `PublishGate.Store.Unlink` | tools/publish_gate.py:234-235 | exactly the listed files are removed |
| `PublishGate.Store.CopyIn` | tools/publish_gate.py:236-240 | exactly the listed built files are put in, over what was there |
| `PublishGate.Store.Apply` | tools/publish_gate.py:232-240 | removal, then copying, and nothing else |
| `PublishGate.Store.Replace` | tools/publish_gate.py:138-240 | assembling and applying leaves, path by path, the accepted builds and the seed files of the other sources |
| `PublishGate.CandidateIs` | tools/publish_gate.py:165-166 | the two file lists of the assembly produce that repository |
| `PublishGate.NeverAMixture` | tools/publish_gate.py:138-167 | every source owns exactly its new files if accepted and exactly its old ones otherwise, if and only if no accepted build lands on a file of a source that stays |
| `PublishGate.ReportAccounts` | tools/publish_gate.py:156-166 | every selected package is replaced or failed and every failure kept or absent; replaced are the built sources that did not lose, losers the covered ones that did; exactly the replaced sources’ files go and come |
| `PublishGate.FailuresFromArtifacts` | tools/publish_gate.py:185-202 | the failures are exactly the selected packages with no artifact, and the losers, in order |
| `PublishGate.ArtifactNameRoundTrip` | tools/publish_gate.py:64 | an artifact uploaded under the agreed name is read back as its package, dashes and digits in the name included |
| `PublishGate.ArtifactIff` | tools/publish_gate.py:64 | an artifact stands for a package if and only if it is named prefix, rpm-s, stage digits, dash and package |
| `PublishGate.BootstrapIff` | tools/publish_gate.py:176-182 | a file is a bootstrap RPM by its own name, whatever its directory; a recipe by how its name ends |
| `PublishGate.BootstrappedIff` | tools/publish_gate.py:523-527 | bootstrap recipes of the build list count as done exactly when some bootstrap file is there |
| `PublishGate.Store.Prune` | tools/rebuild_plan.py:468-479 | exactly the RPMs go whose source RPM some pruned name and a dash begin, the pattern of .github/workflows/publish-repository.yml, lines 470-482 |
| `PublishGate.PruneMatchesNames` | tools/rebuild_plan.py:468-479 | what that pattern matches, by names: the source itself, a source that goes on from the name with a dash, or a version that does |
| `PublishGate.Store.DeleteNamed` | tools/publish_gate.py:174-182 | exactly the files whose base name one of the shell patterns matches go, as find does in .github/workflows/publish-repository.yml, lines 487 and 496-497 |
| `PublishGate.Store.CleanUp` | tools/publish_gate.py:174-182 | after it no bootstrap, icu or libicu file of the factory is left, and nothing else is gone |
| `PublishGate.MatchesParts` | tools/publish_gate.py:174-176 | a shell pattern of two stars matches exactly the names that are its three texts with anything between |
| `PublishGate.SweptNames` | tools/publish_gate.py:174-182 | the clean-up takes a file exactly when its name is x-0.bootstrap.y.rpm, libicu-x.bfin.y.rpm or icu-x.bfin.y.rpm |
| `PublishGate.PublishableSwept` | tools/publish_gate.py:179-182 | of what publishable lets in, it takes exactly the icu and libicu files |
| `PublishGate.MixtureExample` | tools/publish_gate.py:156-166 | a build that lands on another source’s file leaves that source neither its old files nor new ones |
| `PublishGate.FailuresAgree` | tools/publish_gate.py:185-202 | the report job, from artifact names, and the publish job, from RPM headers, list the same failures if and only if every bootstrap recipe counted as done left an artifact of its own and lost no precedence |
| `RebuildPlan.Expand` | tools/rebuild_plan.py:297-303 | expanding one frontier entry keeps the invariant of the LIFO walk |
| `RebuildPlan.ReverseClosure` | tools/rebuild_plan.py:286-304 | exactly what the seeds reach when unbounded, exactly their direct dependents at depth one, and at any depth from one the direct dependents and only packages within that many hops |
| `RebuildPlan.SelectEntries` | tools/rebuild_plan.py:419-428 | the entries selected for their own sake, in inventory order |
| `RebuildPlan.NamedEntries` | tools/rebuild_plan.py:433-437 | the entries of the selected and dragged names, in inventory order |
| `RebuildPlan.Plan` | tools/rebuild_plan.py:388-438 | the plan is the inventory-order subsequence of the selected packages and their dependents, transitive or direct: it holds every package that is changed, stale, unmatched without a label, or in a full or unreadable run, and no other but what such a one leads to |
| `RebuildPlan.NothingLeftBehind` | tools/rebuild_plan.py:430-438 | unbounded, the plan holds every selected package, and no inventory package outside it depends on one inside |
| `RebuildPlan.Cacheable` | tools/rebuild_plan.py:441-465 | exactly the planned names that neither changed nor are stale |
| `StageOutputs.Compute` | tools/rebuild_plan.py:482-517 | the build list, the fourteen stage lists, their chunks, the through lists and the early waves |
| `StageOutputs.EarlyWaves` | tools/rebuild_plan.py:508-516 | an early wave is a non-empty wave below four with a later non-empty one; they are ascending |
| `StageOutputs.ChunksCover` | tools/rebuild_plan.py:500-503 | the chunks of a stage concatenate back to it and hold 1 to 250 names each |
| `StageOutputs.ChunksFull` | tools/rebuild_plan.py:500-503 | every chunk but the last holds 250 names |
| `StageOutputs.ListsOnEntries` | tools/rebuild_plan.py:489-513 | on the entries: fourteen lists of what is built at their wave, solved or by config stage, four of what is built up to theirs, and the overflow |
| `StageOutputs.BetweenInOrder` | tools/rebuild_plan.py:499-512 | within a list names keep the order of the build list |
| `StageOutputs.StagesPartition` | tools/rebuild_plan.py:497-499 | the stage lists together hold the build list, each entry once, if and only if nothing overflows and no wave is negative |
| `StageOutputs.NegativeStageIsLost` | tools/rebuild_plan.py:541-552 | `overflow` does not name an entry of stage -1, and no stage list has it |
| `StageOutputs.ThroughIsPrefix` | tools/rebuild_plan.py:510-513 | with no negative wave, a through list holds what the stages up to it hold |
| `StageOutputs.BagIsBetween` | tools/rebuild_plan.py:497-499 | the first stage lists together hold exactly the names of the waves they span |
| `StageOutputs.BetweenSplits` | tools/rebuild_plan.py:497-513 | splitting a range of waves neither loses nor doubles a name |
| `StageOutputs.ProvidersBuildEarlier` | tools/rebuild_plan.py:482-499 | with solved waves and no overflow, a surviving BuildRequires edge goes to a strictly earlier stage list |
| `RebuildMatrix.SolveWaves` | tools/rebuild_matrix.py:277-284 | waves are solved if and only if no planned package outside every cycle BuildRequires itself, and otherwise a trail closes a cycle; the groups warned about are exactly the planned cycle members that share a stage; an edge goes in order if no cycle holds it or the entries’ stages do |
| `RebuildMatrix.Prepare` | tools/rebuild_matrix.py:163-306 | one run, on image and request: exactly the packages due and those they drag, in inventory order; it ends on a cycle, on waves without a job, or prepared, each if and only if its condition holds; prepared, with the names held, trusted and cacheable, waves in order and nothing deeper than the jobs |
| `RebuildMatrix.SelectedIsDue` | tools/rebuild_plan.py:419-428 | selected are exactly the packages that changed against the label or by the diff, are stale, do not match without a label, or all where the run is full or cannot see what is published |
| `RebuildMatrix.DueIsBuilt` | tools/rebuild_plan.py:441-465 | every package due is in the build list and not trusted; cacheable is exactly what is built, did not change, and is not stale unless the run is full |
| `RebuildMatrix.TrustedIsCurrent` | tools/rebuild_matrix.py:304-306 | what a run trusts against a label is recorded at its digest now |
| `RebuildMatrix.StaleDrags` | tools/rebuild_plan.py:402-438 | a stale library drags the shell that needs it, though both match what is published |
| `RebuildMatrix.NothingUnaccounted` | tools/rebuild_matrix.py:296-306 | every name of the run is built, held or trusted; what is trusted is neither, and what is cacheable is built and did not change |
| `RebuildMatrix.JobsBuildThePlan` | tools/rebuild_matrix.py:286-292 | the stage jobs build the build list, each entry once, and a through list is what its stages build |
| `RebuildMatrix.EarlyWavesLeaveNoTrace` | tools/rebuild_plan.py:504-516 | with early publications covering exactly through lists, the run ends as its final publication alone would end it |
| `RunProtocol.PublishImage` | tools/publish_gate.py:517-543 | the publish job’s commands, pruning and clean-up included, leave exactly the image and label of the run model, or the image as it was |
| `RunProtocol.GateAndJob` | tools/publish_gate.py:74-102 | whatever publish_allowed lets pass the job publishes, and the one thing more is a run that only prunes and skipped precedence |
| `RunProtocol.CoveredWavesAgree` | tools/rebuild_plan.py:504-513 | publishing what the waves so far built, bootstrap recipes included, is an early publication that agrees with the final one |
| `RunProtocol.TrustIsEarned` | tools/rebuild_matrix.py:197-306 | whatever a run trusts is already recorded at its current digest |
| `RunProtocol.PublishKeepsTruth` | tools/publish_gate.py:517-543 | a publication of builds made now, or restored under the key of now, keeps record and RPMs in agreement on the key |
| `RunProtocol.LabelStaysTrue` | tools/rebuild_matrix.py:160-306 | over every sequence of runs, inventory edits and pushes to the package cache, .github/workflows/build-stage.yml lines 283-443, the recorded digest of a package and the ones its RPMs were built at have the same cache key, bootstrap recipes aside |
| `RunProtocol.TrustWritesNothing` | tools/factory_state.py:120-122 | trusting names gives no package a digest it did not have |
| `PackageCache.ExactIff` | tools/factory_state.py:55-63 | over all runs from an exact image and any cache, the recorded digest stays the very one the RPMs were built at if and only if, among the builds that occur, no two of a package share a cache key |
| `PackageCache.StepsStayIn` | tools/rebuild_plan.py:441-465 | runs publish and cache no build but those of the start, of the inventory edits and of what other runs pushed |
| `PackageCache.CacheShowsThrough` | tools/package_cache_key.py:114-158 | two digests of a package with one key: cached at the first, rebuilt at the second after an edit, then restored by a full rebuild; the label keeps the second, the RPM is of the first, and nothing is left to be done |
| `PackageCache.UnchangedMeansCurrent` | tools/factory_state.py:92-98 | where keys tell inputs apart, a run that finds nothing changed finds every inventory package published at its current digest |
| `RunProtocol.EarlyAbsorbed` | tools/factory_state.py:101-136 | one early publication is absorbed by the final one |
| `RunProtocol.EarlyPublicationsConfluent` | tools/rebuild_plan.py:504-516 | any sequence of agreeing early publications, whichever passed their gates, leaves no trace after the final one |
| `RunRecords.MovedIsBuiltOrHeld` | tools/factory_state.py:92-98 | a moved package is built or held, held only for a failure at this very digest, and never trusted |
| `RunRecords.OutcomeRecorded` | tools/factory_state.py:123-128 | a pushed publication records each package it covers as built or as failed |
| `RunRecords.FailureRemembered` | tools/factory_state.py:119-135 | over any runs and edits a failure record lasts until some publication, early or final, replaces the package, records it failed again, prunes it or finds it out of the inventory |
| `RunRecords.RetryConverges` | tools/factory_state.py:79-136 | a full retry in which all is replaced, early publications included, leaves nothing changed and nothing held, if and only if it pruned nothing the inventory still carries |
| `RunRecords.RetryNeverSettles` | tools/factory_state.py:129-131 | pruning a name of the inventory makes a settled label ask for it again |
| `RunRecords.BootstrapCredit` | tools/publish_gate.py:523-527 | a covered bootstrap recipe with no file of its own is recorded as built if and only if some other bootstrap RPM is there |
| `RunRecords.FailedBootstrapForgotten` | tools/publish_gate.py:523-527 | of two bootstrap recipes one fails: its failure is not recorded and no later run builds it |
| `RunRecords.FailedBootstrapExample` | tools/publish_gate.py:523-527 | the same at two such names and a bootstrap RPM |
| `RunRecords.CandidateBacks` | tools/publish_gate.py:156-166 | before anything is deleted, every name that will be recorded has an RPM |
| `RunRecords.PublishKeepsBacking` | tools/factory_state.py:118-136 | a publication keeps every recorded package backed by an RPM if and only if pruning and clean-up together take no retained package’s every RPM |
| `RunRecords.BackingByNames` | tools/rebuild_plan.py:468-479 | with one build of each source, some record loses its RPMs if and only if, for a retained package, a pruned name and a dash begin its source, version and release, or the clean-up takes all its files by their names |
| `RunRecords.NeighbourSwallowed` | tools/rebuild_plan.py:468-479 | a pruned name that goes on to a retained source with a dash takes all its RPMs, whatever the version |
| `RunRecords.RecordsStayBacked` | tools/rebuild_matrix.py:160-306 | over all runs whose builds keep to their paths and have a file the clean-up leaves, and whose pruned names stand apart from the inventory, record and RPMs agree on the key and every recorded package has an RPM that will stay |
| `RunRecords.UnchangedMeansPublished` | tools/factory_state.py:92-98 | then a run that finds nothing changed finds every inventory package published, as a build with the key of its current inputs |
| `RunRecords.PruneOnlyIsPublished` | tools/publish_gate.py:98-102 | a run that only prunes and skipped precedence is published, and publish_allowed refuses it |
| `RunRecords.PruneTakesTheNeighbour` | tools/rebuild_plan.py:468-479 | pruning foo deletes the RPMs of foo-bar while its record stays, and the next run sees nothing to build |
| `RunRecords.NeighbourLosesItsRpm` | tools/rebuild_plan.py:468-479 | the same for any name that a source extends with a dash, and any RPM of it |
| `RunRecords.SweptSourceVanishes` | tools/factory_state.py:118-136 | a package all of whose files the clean-up takes: built on an empty image, it is recorded with no RPM there, and the next run sees nothing to build |
| `RunRecords.IcuVanishes` | config/upstream-sources.json:1987-1996 | so the inventory’s own icu, whose four binary packages .github/workflows/publish-repository.yml, lines 496-497, deletes in the publication that records it |
| `BumpGate.Verdict` | tools/bump_gate.py:170-198 | the reasons are exactly those that apply, and there is none exactly when a successful build selected every bumped package and nothing failed |
| `BumpGate.HoldableMeaning` | tools/bump_gate.py:211-229 | what is held is exactly what failed, all of it bumped and selected; a reported full build is either mergeable or holdable, never both |
| `BumpGate.HeldIff` | tools/bump_gate.py:211-229 | a package is held if and only if it failed in a build that ended, selected the whole bump, and failed in nothing else |
| `BumpGate.SomeBuilt` | tools/bump_gate.py:214-220 | some bumped package built exactly when what is held is not the whole bump |
| `BumpGate.HoldsEvenAll` | tools/bump_gate.py:221-229 | every bumped package failed, and all are held |
| `BumpGate.Checkout.RewriteLock` | tools/bump_gate.py:309-316 | held entries go back to the base’s or out, the others stay in place |
| `BumpGate.Checkout.RestoreRecipes` | tools/bump_gate.py:317-321 | held recipe directories are exactly as the base has them, every other file untouched |
| `BumpGate.Checkout.RecordHolds` | tools/bump_gate.py:323-326 | every held package gets a hold at the version that failed |
| `BumpGate.Checkout.Run` | tools/bump_gate.py:294-327 | the three rewrites in place are the trimmed commit |
| `BumpGate.TrimFilesTwice` | tools/bump_gate.py:317-321 | trimming twice is trimming the union |
| `BumpLoop.LocksTrimmed` | tools/bump_gate.py:309-316 | after a trim a held name has the base’s entry or none, any other name the head’s |
| `BumpLoop.TrimBumped` | tools/bump_gate.py:141-150 | a trim makes the next bumped set exactly the old one less the held names |
| `BumpLoop.HeldShrinks` | tools/bump_gate.py:211-229 | every hold takes at least one package out of the bump, and the trim it asks for never refuses |
| `BumpLoop.GateEnds` | tools/bump_gate.py:294-390 | the decide, hold, trim and re-plan loop ends after at most one build per bumped package; its last commit is the pull request less exactly the held packages, each of which failed in one of the builds; it merges only what the last build proved; on bump/rawhide-imports it builds once and leaves the commit as it is |
| `BumpLoop.MergeIsEarned` | tools/bump_gate.py:330-390 | a merge changes only what a bump may, moves no review-only package, and had every package still bumped built with no failure, or changes only the holds |
| `BumpLoop.BumpedIff` | tools/bump_gate.py:141-150 | a package is bumped if and only if its last lock entry or a file of its recipe differs between the two commits |
| `BumpLoop.PlanOnCommits` | tools/bump_gate.py:330-370 | on the two commits, when a build is planned, and that it is of exactly the packages that differ |
| `BumpLoop.MergedIsBuilt` | tools/bump_gate.py:330-390 | on the two commits: whatever differs between the base and a merged commit was selected by a successful build in which nothing failed, no review-only package moved, and nothing differs but recipes, lock, holds and the multimedia report |
| `BumpLoop.HeldIsTakenBack` | tools/bump_gate.py:294-327 | on the commits: a held package has the base’s entry and recipe, every other entry and file is the pull request’s |
| `BumpLoop.PlanAfterTrim` | tools/bump_gate.py:330-370 | the plan of a trimmed commit: the packages left, or, when none is, a holds-only merge or a refusal |
| `BumpLoop.AllHeldMerges` | tools/bump_gate.py:351-367 | when the whole bump is held, read off base and head: what is left merges if and only if the locks are otherwise the same, the holds are not yet recorded, and no file outside the bumped recipes changed |
| `BumpLoop.SameLockByOrder` | tools/bump_gate.py:309-316 | without duplicate names the locks are otherwise the same exactly when their other keys are and the names they share stand in the base’s order |
| `BumpLoop.ReportIsNotMerged` | tools/bump_gate.py:359-366 | a bump of one package that also changes the multimedia report fails: nothing is merged on either branch |
| `BumpLoop.OneTrimSuffices` | tools/bump_gate.py:211-327 | when the same packages break in every build, a bump on bump/upstream-sources merges after at most one trim, holding exactly the broken ones, if not all of them break; one on bump/rawhide-imports merges if and only if none does |
| `BumpLoop.RawhideHoldIsLost` | tools/bump_gate.py:211-229 | of two packages one breaks: the other is merged on bump/upstream-sources, and nothing is on bump/rawhide-imports, since .github/workflows/bump-upstream-gate.yml, lines 238-241, pushes the hold to bump/upstream-sources |
| `BacklogSpec.Reader.BcondState` | tools/factory_build_backlog.py:152-176 | one declaration updates the held values as the three shapes say |
| `BacklogSpec.Reader.ReadLine` | tools/factory_build_backlog.py:248-309 | one line updates the held values, the frames and the names as the reader’s step does |
| `BacklogSpec.Reader.ReadSpec` | tools/factory_build_backlog.py:241-309 | a whole spec, line by line |
| `BacklogSpec.SubpackageNames` | tools/factory_build_backlog.py:204-310 | the names of all specs together |
| `BacklogSpec.DecidedLiveness` | tools/factory_build_backlog.py:249-288 | frames all known taken mean the line is reached; one known not taken means it is not |
| `BacklogSpec.ReadAgrees` | tools/factory_build_backlog.py:248-309 | one line keeps reader and evaluator in agreement, whatever settles the open conditions, unless it declares off a bcond that is on; then it ends the agreement |
| `BacklogSpec.Soundness` | tools/factory_build_backlog.py:204-310 | the simulation against RPM’s rules, over every well-nested spec and every assignment in which no declaration is reversed |
| `BacklogSpec.ReportsOnlyBuilt` | tools/factory_build_backlog.py:217-237 | then a reported name is on a %package line the default build reaches, and every held bcond value is the true one |
| `BacklogSpec.HeldIsTrueIff` | tools/factory_build_backlog.py:152-164 | the values held after every line are the true ones if and only if no declaration is reversed |
| `BacklogSpec.NeverMeansNothing` | tools/factory_build_backlog.py:152-164 | a spec that never declares a name off after on reverses nothing, under any assignment |
| `BacklogSpec.ReversedIsReported` | tools/factory_build_backlog.py:155-158 | a spec that turns a bcond on and declares it off has a subpackage reported that the build does not make |
| `BacklogSpec.DecidedIsExact` | tools/factory_build_backlog.py:217-237 | the report is exactly the evaluator’s names when moreover no %package line is left in doubt |
| `BacklogSpec.TakenIsLive` | tools/factory_build_backlog.py:249-309 | reversals or not: where the reader takes every open branch, the build does if and only if none was opened on a misread bcond |
| `BacklogSpec.ReportedNotBuilt` | tools/factory_build_backlog.py:217-237 | a name is reported and not built if and only if the reader takes a line of it, each such line lies in a branch opened on a misread bcond, and the build reaches none of its other lines |
| `BacklogSpec.NothingMisread` | tools/factory_build_backlog.py:152-164 | without a reversed declaration no open branch was misread |
| `BacklogSpec.SettledIsExact` | tools/factory_build_backlog.py:217-237 | from the lines alone: where every condition asks for a bcond declared literally, earlier and outside every %if, and nothing is reversed, the report is exactly what the default build declares |
| `BacklogSpec.PinnedIsReported` | tools/factory_build_backlog.py:217-237 | whatever is in doubt elsewhere, a package the build makes is reported if every %if open there asks for a bcond so declared and not again since |
| `BacklogSpec.EvaluatesAsMeant` | tools/factory_build_backlog.py:248-309 | the evaluator, line by line, does what the nested structure of a spec means |
| `BacklogSpec.ReportsWhatIsMeant` | tools/factory_build_backlog.py:217-237 | so for every spec of such declarations, packages and nested choices the names reported are the ones its structure means |
| `BacklogSpec.ElseIsReported` | tools/factory_build_backlog.py:275-279 | a bcond off by default: the package of the %else branch is reported, and that alone |
| `BacklogSpec.DeclaresShapes` | tools/factory_build_backlog.py:152-176 | the three shapes of a declaration, on their tokens |
| `BacklogSpec.TruthForms` | tools/factory_build_backlog.py:172-176 | a default of digits is true if and only if one is not zero, whatever its sign |
| `BacklogSpec.DeclaredShapes` | tools/factory_build_backlog.py:288-309 | a suffix goes behind the recipe’s name, an explicit name stands for itself |
| `BacklogSpec.SuffixExpandsToNothing` | tools/factory_build_backlog.py:146-149 | the two suffix macros of an explicit name expand to nothing |
| `UpstreamBump.NewerThanItself` | tools/upstream_bump.py:760-779 | a version is newer than itself if and only if digits are followed by a component that begins with none, as in 1.git |
| `UpstreamBump.NewerThanItselfExample` | tools/upstream_bump.py:760-779 | 1.git is newer than itself |
| `UpstreamBump.NewerRaisesKey` | tools/upstream_bump.py:760-779 | over digit-led versions newer means a higher key |
| `UpstreamBump.NewerTransitive` | tools/upstream_bump.py:760-779 | newer is transitive through a digit-led version |
| `UpstreamBump.UpdatesNeverReturn` | tools/upstream_bump.py:760-779 | a run of updates over digit-led versions never comes back to one it left |
| `UpstreamBump.LongerIsGreater` | tools/upstream_bump.py:136-144 | numerals without leading zeros order by length |
| `UpstreamBump.SameLengthOrder` | tools/upstream_bump.py:136-144 | numerals of one length order by their first difference |
| `UpstreamBump.ComponentRank` | tools/upstream_bump.py:144 | a component of digits ranks as its number, any other below every number |
| `UpstreamBump.KeysByRank` | tools/upstream_bump.py:136-144 | keys compare at the first component of different rank |
| `UpstreamBump.NewerThanNumbers` | tools/upstream_bump.py:760-776 | a lock of numbers is exceeded exactly by what ranks above it |
| `UpstreamBump.NewerThanSuffixed` | tools/upstream_bump.py:756-779 | one that goes on in letters behind its numbers is exceeded by what ranks above the numbers, and by the numbers too if the letters spell a prerelease |
| `UpstreamBump.NewerThanDotted` | tools/upstream_bump.py:756-779 | the same where the letters stand behind a dot |
| `UpstreamBump.TenAfterNine` | tools/upstream_bump.py:136-144 | 1.10 is newer than 1.9 |
| `UpstreamBump.NewestStableMeaning` | tools/upstream_bump.py:147-153 | a highest stable version of the list; none exactly when all are prereleases |
| `UpstreamBump.ProposalMeaning` | tools/upstream_bump.py:803-827 | an update is the highest stable version of the lock’s major and newer; a review is the highest of all, of another major; nothing means nothing stable is newer |
| `UpstreamBump.AdoptedUpdateSettles` | tools/upstream_bump.py:782-827 | after an update is adopted the same feed proposes it again if and only if it is newer than itself; digit-led versions settle |
| `UpstreamBump.ProposedForEver` | tools/upstream_bump.py:803-820 | a feed of 1.git alone proposes it to a lock at 1, and again to a lock at 1.git |
| `MacroSources.BindNames` | tools/upstream_bump.py:542-545 | the names not yet bound join the bound set and the pending list |
| `MacroSources.ReadMacros` | tools/upstream_bump.py:540-545 | exactly the macros the version reads, through any definitions |
| `MacroSources.Round` | tools/upstream_bump.py:549-553 | one round adds only macros that reach a bound one, and reports whether it added any |
| `MacroSources.GrowBound` | tools/upstream_bump.py:546-553 | exactly the macros that reach one the version reads, for cyclic definitions too and in any order |
| `MacroSources.VersionMacroSources` | tools/upstream_bump.py:529-557 | exactly the Source lines that reference such a macro, in order |
| `MacroSources.OnlyListedMove` | tools/upstream_bump.py:529-537 | whatever the macros the version reads are defined to anew, an unlisted Source line reads the same macros, unmoved; a listed one reads one of those |
| `RawhideReimport.Classify` | tools/rawhide_reimport.py:206-243 | exactly the reasons against a re-import, in order; none exactly when it is safe |
| `RawhideReimport.SafeOnTrees` | tools/rawhide_reimport.py:206-243 | no reason is given if and only if the lock is plain, the recipe does not diverge, one spec of one name stands on each side, sources and the four fields are the same, and what it needs to build only shrinks |
| `RawhideReimport.BuildInputsIff` | tools/rawhide_reimport.py:157-175 | a file is a build input if and only if it is not Fedora’s metadata or the spec names it |
| `RawhideReimport.MetadataIs` | tools/rawhide_reimport.py:81-85 | which files are metadata |
| `RawhideReimport.SingleSpecIff` | tools/rawhide_reimport.py:150-154 | a tree’s spec is its one file at the top whose name ends in .spec |
| `RawhideReimport.NoDivergenceIff` | tools/rawhide_reimport.py:188-203 | a recipe does not diverge if and only if, the factory’s file aside, it is its pin less some inert metadata |
| `RawhideReimport.Recipe.ImportSnapshot` | tools/import_rawhide.py:80-97 | the directory is the target and the provenance record, and nothing else |
| `RawhideReimport.Recipe.Reimport` | tools/rawhide_reimport.py:366-374 | import and unlinking leave the target, the record, and not the metadata the recipe lacked |
| `RawhideReimport.ReimportKeepsBuild` | tools/rawhide_reimport.py:171-175 | the build sees the target and the provenance record; the same as the target alone if and only if that carried the same record |
| `RawhideReimport.ReimportMatchesPin` | tools/rawhide_reimport.py:188-203 | the result does not diverge from its new pin if and only if the pin does not carry the factory’s file |
| `RawhideReimport.ReimportKeepsShape` | tools/rawhide_reimport.py:164-168 | metadata the recipe lacked stays absent, every other file of the target is there, byte for byte |
| `RawhideReimport.StuckPin` | tools/rawhide_reimport.py:188-203 | a recipe pinned to a commit that carries the factory’s file is never imported again |
| `RawhideReimport.StuckPinExample` | tools/rawhide_reimport.py:188-203 | such a commit, imported over a recipe that matched, diverges at once |
| `RawhideReimport.MatchingIsFaithful` | tools/rawhide_reimport.py:171-203 | a recipe that does not diverge from its pin has the pin’s spec and build inputs |
| `RawhideReimport.OfferedIsTaken` | tools/rawhide_reimport.py:340-374 | a day moves the recipe if and only if a build is offered, has other build inputs, and nothing is held against it |
| `RawhideReimport.RunsStayFaithful` | tools/rawhide_reimport.py:340-374 | over any sequence of Koji builds the recipe matches its pin, the source lock still describes it, its name, epoch, version and release do not move and its BuildRequires only shrink |
| `VendoredCrate.ReadCrate` | tools/generated_sources.py:821-834 | the last bytes of each carried name, and whether any regular member is outside the crate |
| `VendoredCrate.AncestorDirectories` | tools/generated_sources.py:840-844 | the crate’s directory and every ancestor of a file |
| `VendoredCrate.LayOut` | tools/generated_sources.py:845-852 | directories in order, then files in order |
| `VendoredCrate.VendoredCrateMembers` | tools/generated_sources.py:805-852 | the layout of every crate, or the digest or directory error |
| `VendoredCrate.EachPathOnce` | tools/generated_sources.py:840-852 | each path is laid out once if and only if no file is where another needs a directory |
| `VendoredCrate.ClashExample` | tools/generated_sources.py:840-852 | files a and a/b: the path of a is laid out twice |
| `VendoredCrate.ExactlyTheTree` | tools/generated_sources.py:840-852 | an entry is laid out exactly when it is the crate’s directory, an ancestor of a file, or a file with its bytes and mode |
| `VendoredCrate.ContentsSupplied` | tools/generated_sources.py:821-834 | a file’s bytes are those of the last regular member of its name |
| `VendoredCrate.OutsideIff` | tools/generated_sources.py:825-826 | a regular member is outside when its name does not go on from the directory and a slash |
| `VendoredCrate.TreeOfMembers` | tools/generated_sources.py:821-852 | on the members: the directories are the crate’s own and those some file lies in, the files each file’s last member at directory, slash and its path, with its bytes and mode, and the checksum file |
| `VendoredCrate.ParentsFirst` | tools/generated_sources.py:845-852 | every directory a path lies in comes before it |
| `VendoredCrate.OrderDoesNotMatter` | tools/generated_sources.py:821-852 | a crate of distinct names is laid out the same whatever the order of its members |

## Left out

- RebuildPlan.ReverseClosure: at depth two or more the LIFO walk with marks at first sight under-approximates, and what it finds depends on set order; the bounds from both sides are stated there. The planner uses no such depth.
- BuildGraph.Report: the order of the reported groups, which the source takes from set and dict order, is not stated.
- TarLoop.Transform: is given a number of turns, since the source's loop need not end; more turns change nothing once it has. The gzip streams around the payload are opaque.
- RunProtocol.LabelStaysTrue: assumes serialised runs, source names equal to recipe names except for `-bootstrap` recipes, and an image that starts empty or truthfully labelled; an unlabelled seed trusts the version comparison. A cache key also holds what dnf resolved in that run, and a restore needs that to agree as well; the model allows a restore wherever the parts fixed by the digest agree.
- RunProtocol.EarlyPublicationsConfluent: the final publication must pass its own gate, or accept nothing; when it is vetoed the early ones stay, as the source intends.
- BumpLoop.GateEnds: all attempts share one merge base and no one else pushes; a moved branch ends the loop in the workflow. What a hold of a `bump/rawhide-imports` pull request leaves on `bump/upstream-sources` is not followed. Git's rename detection and path quoting are not modelled.
- BacklogSpec.Soundness: `%bcond_override_default` and `--with`/`--without` on the command line are not part of the evaluator. Lines come tokenised.
- UpstreamBump.AdoptedUpdateSettles: the prerelease test is any predicate on versions; its regular expression, the GNOME cycle rules (`cycle_final`, `release_cycle`) and `held` are not modelled. Digits are ASCII.
- RawhideReimport.Classify: the lines and BuildRequires items read off a spec come from a parameter; `dependency_items` is not modelled.
- BumpLoop.SameLockByOrder: is about locks without duplicate names, which `tools/package_inventory.py:158-162` refuses; `BumpLoop.AllHeldMerges` is not.
- RebuildMatrix.Prepare: config stages are not negative, as the inventory demands; the reasons printed for each package and the prune list are not modelled.
- VendoredCrate.AncestorDirectories: a directory is the path up to a slash rather than its leading parts joined again; the two are the same text. Timestamps and modes other than the executable bit are constants.
- Python's recursion limit, which bounds the depth of the wave solver.
- `capabilities` and `read_rows`: tokenising RPM dependency lines.
- `is_published`, `published_from_primary`, `stale_from_primary` and the other readers of `primary.xml`: their results are inputs.
- `prunable_sources`, `changed_entries` and `restrict`: single comprehensions that would add easy members.
- How digests are computed: `shared_digest`, `input_digest`.
- Comments, summaries, Markdown, argument parsing and JSON encoding; the assertions on workflow shape.
- The catalog partition of the backlog report, and the audits, validators and metrics of the other tools.
