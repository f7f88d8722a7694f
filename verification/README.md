# Execution-ordering model

This project models how the zero-trust service decides whether a pipeline step
may run now, and proves what that decision guarantees.

A resolved pipeline is a series-parallel tree: stages, step groups, steps,
`parallel` blocks, a rollback sub-graph per stage, and fan-out strategies on any
of them. `BuildGraph` turns the decoded document into a graph and two name
indexes. `climb` finds a unit's direct predecessors, `ancestorInstances` finds
which of their runtime instances gate a step in the *same* branch, and
`EvaluateStep` steps over skipped units, prunes redundant ones and gates an AND
or OR join. The reference verifier reads run-state FQN by FQN from a shared
store, decides, and records what it allowed. Beside it stand two smaller
components: the deep merge of template inputs, and the second FQN resolver that
walks the YAML tree itself.

## The files

| file | content |
|---|---|
| `Common`, `Text`, `Digits` | options, sequences, products; dotted names; decimal numerals |
| `Strategy`, `Graph` | strategy specifications; positions, the positional order, the climb |
| `Entries`, `ClimbOrder` | which units a unit is the entry of; what one climb returns, exactly |
| `Naming`, `Instances`, `InstanceLoops` | how FQNs and instance FQNs are put together; same-branch pinning; the enumerating loops |
| `Lookup`, `LongestMatch` | resolving a raw name; exactly which names resolve |
| `Frontier`, `Evaluate`, `EvaluateLoops` | the live frontier and its pruning; the specified verdict; the loops that compute it |
| `Declared`, `Verdicts`, `Reports`, `Pinning` | when a unit may run, over fields, positions and ways back; that the verdict decides it; what it reports; the instances it waits on |
| `Pruning`, `Runs` | why pruning is sound; the concurrent protocol and its safety |
| `LinearExtensions`, `DocumentRun` | which runs are accepted; a complete accepted run |
| `Fanout`, `StrategySpecs`, `SpecLaws` | enumeration of matrix, repeat, parallelism and deployment fan-outs; its outcomes and names |
| `RawPipeline`, `Builder`, `BuiltGraphs` | decoded documents; the class that builds and indexes the graph; validity of every build |
| `Mirror`, `DocumentLaws` | the graph against the document, element by element; what the document's text decides |
| `RunStore`, `Conditions`, `OrderingVerifier` | the store, the guard checker and the verifier as classes |
| `YamlTree`, `Template`, `TemplateLaws`, `TemplateLoops` | YAML trees; the merge and its laws; which elements match; its loops |
| `FqnWalk`, `FqnAgreement`, `ElementAgreement` | the tree walk; agreement of the two resolvers, on the element and on what it says |

## Reading the model

- A graph node is its position: the sequence of kid indices from the root. The
  parent is the position without its last index, and that index is the node's
  `index` field, so `parent.children[n.index] == n` holds by construction. A
  stage's rollback container is the kid after its forward children, which makes
  document order the lexicographic order of positions.
- Code that loops or updates state is a method or a class proved against a
  specification function of the same file or of the file named after it; the
  laws are lemmas about those functions. The main laws are stated without those
  functions: over the fields of nodes, over positions, over ways back along
  direct predecessors, and over the elements of the document.
- Run-state and guard answers are functions. A guard answer is one of holds,
  fails and unevaluable.
- The protocol has one atomic step per request start, per run-state read and per
  decision with its record. One resolved pipeline and one guard function belong
  to each plan execution.
- Standing assumptions, stated where they are needed: `parallel` blocks are not
  empty (`NoEmptyParallel`), and enumerated instance FQNs are distinct from each
  other and from real FQNs (`Unambiguous`, which the built index decides). The
  tree walk also needs dot-free, non-empty identifiers and single-key wrappers
  (`GoodDocument`).

## Edge behaviour worth knowing

- The comment above `pinnedPrefix` (verifier/pipeline/graph.go:1465-1469) says
  that a raw name and its logical FQN align segment for segment. The lookup drops
  leading dots, so such a name resolves and does not align; the names align
  exactly without a leading dot (`LookupIsSuffixedName`, `PinnedPrefixAligns`).
- `statusGate` (examples/zts/ordering/conditionchecker.go:130-142) trims the
  guard's status to recognise an empty or `All` one and then compares the
  untrimmed text. `StatusGateIsTrimmed` says exactly when that differs from
  comparing the trimmed text.
- `mergeArraysByIdentifier` (resolver/template.go:84-97) rebuilds a matched
  wrapper around the merged unit alone, so keys beside the unit are dropped.
  `SelfMergeIs` and `IdempotentExactly` say that this is the one thing, where
  keys are unique, that keeps the merge from being idempotent.

## Model

| member | source | states |
|---|---|---|
| `Graph.ClimbComputesPositionalOrder` | verifier/pipeline/graph.go:1491-1562 | From a forward unit, repeated backward climbing reaches exactly the forward leaves whose lowest common ancestor with it is an ordered (non-`parallel`) container in which their branch index is smaller; so no forward unit ever reaches a rollback step. |
| `Graph.PredecessorsAreEarlier` | verifier/pipeline/graph.go:1491-1562 | The predecessor relation is acyclic: document-order rank strictly decreases along it, rollback triggers included, and the lowest common ancestor of a unit and any transitive predecessor is never a `parallel` node. |
| `Graph.ClimbDescends` | verifier/pipeline/graph.go:1491-1519 | Every single climb edge leads to a leaf of strictly smaller rank; this is what makes the climb, the frontier walk and the coverage walk terminate. |
| `Graph.TerminalsCover` | verifier/pipeline/graph.go:1523-1536 | Every leaf of a subtree is one of its terminal leaves or positionally before one: waiting on the terminal leaves waits on the whole subtree. |
| `Graph.ClimbCovers` | verifier/pipeline/graph.go:1491-1519 | Within the forward pipeline, or within one rollback container, whatever comes before a unit is one of its direct predecessors or comes before one of them. |
| `ClimbOrder.ClimbIs` | verifier/pipeline/graph.go:1491-1562 | One climb returns, each once and in document order, exactly what a unit directly waits on: the leaves of its own part that come immediately before it, or for a rollback entry every forward step of its stage; none is lost. |
| `ClimbOrder.ForwardLeavesAre` | verifier/pipeline/graph.go:1540-1562 | The forward leaves of a stage are exactly the steps below it outside its rollback container, through groups and `parallel` blocks. |
| `ClimbOrder.ClimbFromRollback` | verifier/pipeline/graph.go:1491-1562 | Repeated climbing from a rollback unit reaches exactly the leaves before it in its container, the forward steps of its stage, and whatever those wait on. |
| `Entries.AtRollbackEntryIs` | verifier/pipeline/graph.go:1567-1585 | A unit is a rollback entry exactly when, below some rollback container, every step of its way takes a first child or a concurrent one. |
| `Entries.OrJoinedIs` | verifier/pipeline/evaluate.go:939-944 | A unit fires on its first predecessor exactly when its own guard's status is Failure or All, or it is a rollback entry. |
| `Graph.BeforeTransitive` | verifier/pipeline/graph.go:1491-1519 | The positional order is transitive across containers. |
| `Instances.InstanceFqnsMembers` | verifier/pipeline/graph.go:1340-1370 | Instance enumeration yields exactly the names that choose one suffix for every strategy on the chain, each suffix at its own unit's boundary. |
| `Instances.SameBranchPinning` | verifier/pipeline/graph.go:1380-1447 | For a target requested by a full instance FQN, a predecessor contributes exactly those of its instances that carry the target's suffixes at and above their lowest common ancestor: no waiting on sibling branches. |
| `Pinning.BranchMembers` | verifier/pipeline/graph.go:1380-1447 | For every requested name, the instances of a predecessor are known exactly when its strategies below the common ancestor are, and all of them when the request names no branch of a fanned-out common ancestor; they are then the predecessor's names in the branch the request names, also when that branch's own strategy is unknown. |
| `Instances.LogicalTargetFallsBack` | verifier/pipeline/graph.go:1380-1447 | A target requested by its logical FQN waits on every instance of the predecessor. |
| `Instances.EffectiveMembers` | verifier/pipeline/graph.go:1380-1447 | With or without strategies, the FQNs gated on for an enumerable predecessor are its instances in the target's branch, and nothing else. |
| `Instances.KnownIsEnumerated` | verifier/pipeline/graph.go:1380-1447 | Whatever the target and however it was requested, a strategy-bearing predecessor is never enumerated as nothing, and a chain of enumerable strategies is always enumerated. |
| `Instances.PinnedPrefixOfInstance` | verifier/pipeline/graph.go:1470-1486 | The pinned prefix of a full instance FQN is its own rendering cut at the lowest common ancestor. |
| `Lookup.LookupIsSuffixedName` | verifier/pipeline/graph.go:1717-1763 | A raw name that resolves is, leading dots aside, the unit's FQN with `_…` suffixes only on segments that end a strategy-bearing unit's FQN; the segment counts agree if and only if the name has no leading dot. |
| `LongestMatch.ResolvesExactly` | verifier/pipeline/graph.go:1717-1763 | A raw name that is neither registered nor an indexed instance resolves to a unit if and only if, leading dots aside, its segments read as the unit's FQN, each taken as the longest registered name that fits it after dropping trailing `_…` groups of a strategy-bearing unit. |
| `LongestMatch.SuffixedNameResolves` | verifier/pipeline/graph.go:1717-1763 | The converse of lookup soundness: a suffixed spelling of any registered name, in which no other registered name fits a segment, resolves to that name's unit; units whose instances cannot be enumerated included. |
| `Lookup.LeadingDotStillResolves` | verifier/pipeline/graph.go:1717-1763 | The family that breaks segment alignment: with dot-free identifiers, a dot in front of any unit's FQN is dropped, not rejected, and still resolves to that unit. |
| `Lookup.InstanceLooksUp` | verifier/pipeline/graph.go:1119-1144 | Every unambiguous enumerated instance looks up to the unit that enumerates it. |
| `Lookup.PinnedPrefixAligns` | verifier/pipeline/graph.go:1470-1486 | For a resolved target and an enclosing named unit the pinned prefix exists if and only if the raw name has no leading dot. |
| `Pruning.UnambiguousIffIndexed` | verifier/pipeline/graph.go:1119-1144 | Instance names are unambiguous if and only if every enumerated name is indexed to the unit that enumerates it, which a caller can read off the built index. |
| `InstanceLoops.LowestCommonAncestor` | verifier/pipeline/graph.go:1451-1463 | The set-marking loop returns the longest common prefix of two positions. |
| `InstanceLoops.EnumerateInstances` | verifier/pipeline/graph.go:1340-1370 | The level-gathering and fan-out loops compute the specified instance list, and nothing exactly when there is no strategy or one is not enumerable. |
| `InstanceLoops.EnumerateAncestor` | verifier/pipeline/graph.go:1380-1447 | The loops over private levels, shared strategies and pinned names compute the specified ancestor instances, both fall-backs included. |
| `BuiltGraphs.BuildIsValid` | verifier/pipeline/graph.go:1076-1111 | Every document that builds yields a well-shaped graph whose units carry their document FQNs, whose strategy specifications are enumerable, excluded or non-enumerable with a cause, and whose two indexes are exact. |
| `Mirror.BuildMirrors` | verifier/pipeline/graph.go:1148-1274 | The graph has a node exactly where the document has an element, and the node carries the element's identifier, type, strategy and guard: owner, level, condition as written, stage status or else pipeline status, runtime input; a stage rolls the pipeline back if and only if some failure action is PipelineRollback in whatever case. |
| `Mirror.BuildFailsExactly` | verifier/pipeline/graph.go:1076-1111 | A document fails to build if and only if some strategy in it, rollback steps included, does not resolve, or two of its units have one FQN. |
| `DocumentLaws.SwitchedOffBlocks` | verifier/pipeline/graph.go:1259-1274 | A condition written on a step, or on a container it is an entry of, and overridden to false keeps the step from running. |
| `DocumentLaws.WaivedByDocument` | verifier/pipeline/graph.go:1310-1319 | A rollback entry's gate is left out if and only if its own stage declares a pipeline rollback among its failure actions. |
| `BuiltGraphs.FilledBuildsFull` | verifier/pipeline/graph.go:1148-1220 | A document without empty `parallel` blocks builds a graph without childless parallel nodes. |
| `Builder.PipelineGraph.RegisterName` | verifier/pipeline/graph.go:1644-1654 | Registering a name keeps the last unit and remembers each collision. |
| `Builder.PipelineGraph.BuildStage` | verifier/pipeline/graph.go:1163-1200 | One stage becomes the specified node; all names of its subtree are registered in order and the first unresolved strategy is remembered. |
| `Builder.PipelineGraph.BuildStages` | verifier/pipeline/graph.go:1148-1160 | A stage list, `parallel` blocks transparent, becomes the specified nodes with their registrations and first error. |
| `Builder.PipelineGraph.BuildSteps` | verifier/pipeline/graph.go:1205-1219 | A step list, `parallel` before `stepGroup` before `step`, becomes the specified nodes with their registrations and first error. |
| `Builder.PipelineGraph.BuildStepGroup` | verifier/pipeline/graph.go:1222-1236 | A step group becomes the specified node; its children are registered before it. |
| `Builder.PipelineGraph.BuildGraph` | verifier/pipeline/graph.go:1076-1111 | A build fails exactly on a missing root, on the first strategy that does not resolve, or on a repeated FQN; otherwise both indexes are complete. |
| `Builder.PipelineGraph.IndexInstances` | verifier/pipeline/graph.go:1119-1144 | Whatever order the units come in, the final map holds exactly the instance FQNs enumerated once over all units and equal to no real FQN, each mapped to its sole enumerator. |
| `Builder.PipelineGraph.Find` | verifier/pipeline/graph.go:1717-1763 | The lookup loop (exact name, enumerated instance, segment walk with suffix stripping) computes the specified result. |
| `Builder.DuplicatesMean` | verifier/pipeline/graph.go:1644-1654 | No duplicate is reported if and only if all registered names are distinct. |
| `OrderingVerifier.IndexIsDetermined` | verifier/pipeline/graph.go:1119-1144 | Two instance indexes of the same units are equal: map iteration order cannot be observed. |
| `StrategySpecs.ResolvedStrategyIsValid` | verifier/pipeline/graph.go:507-540 | Every strategy that resolves is exactly one of enumerable, excluded and non-enumerable with a real cause; enumerable suffixes are non-empty, pairwise distinct, start with `_`, contain no dot, and under value naming a matrix suffix respects the length cap. |
| `StrategySpecs.DeployFanoutIsValid` | verifier/pipeline/graph.go:751-870 | A multi-service or multi-environment fan-out obeys the same suffix rules, its suffixes capped behind the leading `_`. |
| `StrategySpecs.SortAxesSorts` | verifier/pipeline/graph.go:911-913 | Value naming orders the axes by key without losing or adding one. |
| `StrategySpecs.Resolve` | verifier/pipeline/graph.go:507-540 | Strategy resolution takes the specified branch and enumeration for matrix, parallelism and repeat, and fails exactly where specified. |
| `SpecLaws.CountedInstances` | verifier/pipeline/graph.go:714-736 | Without a matrix a strategy has exactly the instances that `parallelism`, `times` or `items` counts, numbered from zero; an empty `items` list skips the unit. |
| `SpecLaws.FailuresAre` | verifier/pipeline/graph.go:507-540 | Resolution fails as invalid exactly for a malformed matrix or one without axes, and as unsupported exactly for a block of no known kind. |
| `SpecLaws.CustomNamesAre` | verifier/pipeline/graph.go:614-650 | Instances are left to the engine's naming exactly for a node name, for values that are no scalars where values matter, or for value names that collide. |
| `SpecLaws.RuntimeInputIs` | verifier/pipeline/graph.go:507-540 | A count is left to run time exactly when the block, its matrix, or its count is given as runtime input or cannot be read off. |
| `SpecLaws.IndexNamesAre` | verifier/pipeline/graph.go:614-650 | A matrix named by index has the numerals of its combinations, without those an exclude entry matches. |
| `SpecLaws.ValueNamesAre` | verifier/pipeline/graph.go:911-927 | A matrix named by value has exactly the instances that spell one value of each axis, the axes in key order, cut at the cap, for the combinations not excluded. |
| `SpecLaws.DeployNameIs` | verifier/pipeline/graph.go:843-863 | A deployment instance spells environment, infrastructure and service in key order, dots dropped, other characters replaced and the whole capped. |
| `SpecLaws.DeployOutcomes` | verifier/pipeline/graph.go:751-840 | A stage fans out over deployment targets exactly when it names some; the instances are known exactly when there is no environment group, every reference is literal and no two are named alike. |
| `SpecLaws.DeployRowsAre` | verifier/pipeline/graph.go:751-840 | There is one deployment instance for each service in each environment and infrastructure, and no other. |
| `SpecLaws.LiteralRefIs` | verifier/pipeline/graph.go:876-885 | A reference is literal exactly when it is not blank and holds no `<+` that a `>` follows. |
| `Digits.ItoaReadsBack` | verifier/pipeline/graph.go:1020-1030 | An index suffix is the decimal numeral of its index, without leading zeros. |
| `StrategySpecs.MatrixValueSuffixes` | verifier/pipeline/graph.go:911-927 | The duplicate-detecting loop yields the truncated value names, or leaves the matrix to the engine exactly when two of them collide. |
| `StrategySpecs.MatrixSuffixes` | verifier/pipeline/graph.go:614-650 | Index naming takes the fast product path without excludes and the filtered product otherwise; value naming needs scalar axes. |
| `StrategySpecs.MultiDeploySpec` | verifier/pipeline/graph.go:751-840 | A deployment fan-out is enumerable exactly when every reference is literal and no two rows are named alike. |
| `Fanout.FastPathRefines` | verifier/pipeline/graph.go:625-649 | For scalar axes in index mode without excludes the fast product equals the general combination list. |
| `Fanout.ProductIsRadix` | verifier/pipeline/graph.go:1046-1058 | The k-th product suffix is the mixed-radix digit string of k. |
| `Fanout.ProductVolume` | verifier/pipeline/graph.go:1046-1058 | The product has exactly as many suffixes as the product of the axis lengths. |
| `Fanout.ProductDistinct` | verifier/pipeline/graph.go:1046-1058 | No two product suffixes are equal. |
| `Fanout.ExcludesOnlyFilter` | verifier/pipeline/graph.go:932-957 | With excludes, the result is the order-preserving filter of the whole product, without renumbering. |
| `Fanout.NumeralsKeptDistinct` | verifier/pipeline/graph.go:932-957 | The suffixes that survive the excludes are pairwise distinct numerals. |
| `Fanout.MatrixCombos` | verifier/pipeline/graph.go:932-957 | The nested loops that rebind the combination list compute the specified filtered product. |
| `Fanout.MatchesAnyExclude` | verifier/pipeline/graph.go:982-996 | An exclude set matches when all its axis values agree with the combination. |
| `Fanout.RangeSuffixes` | verifier/pipeline/graph.go:1020-1030 | A count fans out into `_0` to `_(n-1)`. |
| `Frontier.LiveFrontierIsExact` | verifier/pipeline/evaluate.go:825-866 | The `seen`-guarded walk returns, each exactly once, the units first met through stepped-over ones that are required, respectively undecided: it loses none and invents none. |
| `Frontier.GuardChainIsKleene` | verifier/pipeline/evaluate.go:795-816 | Over the whole parent chain a guard known false decides, and a unit is required exactly when every guard is known true. |
| `Declared.FrontierIs` | verifier/pipeline/evaluate.go:825-866 | The frontier walk's two lists hold exactly the units reached from the step through skipped units only and not skipped themselves, split by whether every guard on the way to them is known true; a unit is skipped when a strategy excludes it or an enclosing guard is known false. |
| `Declared.UndecidedIsInnermost` | verifier/pipeline/evaluate.go:795-816 | An undecided predecessor is reported with its innermost undecided guard. |
| `Declared.StatusIsInnermost` | verifier/pipeline/graph.go:1616-1627 | The reported fan-out status is that of the innermost strategy that cannot be enumerated. |
| `Declared.PrecedesIs` | verifier/pipeline/evaluate.go:911-934 | Coverage holds exactly along ways back through units that wait on all their predecessors. |
| `Frontier.SurvivorCovers` | verifier/pipeline/evaluate.go:895-934 | A covered unit is always covered by one that survives the pruning. |
| `Frontier.PrecedesTransitive` | verifier/pipeline/evaluate.go:911-934 | Coverage is transitive. |
| `Frontier.PrecedesIsReached` | verifier/pipeline/evaluate.go:911-934 | Coverage follows the climb, so it strictly decreases the rank and is acyclic. |
| `Pruning.PruningIsSound` | verifier/pipeline/evaluate.go:868-934 | If an AND-joined instance was admitted on a record whose entries were all admitted, then for every unit of its unpruned live frontier all instances in its own branch have run, across skipped units and fan-outs. |
| `EvaluateLoops.GuardSkip` | verifier/pipeline/evaluate.go:795-816 | The parent-chain loop classifies a predecessor as stepped over, undecided by its first undecided guard, or required. |
| `EvaluateLoops.FrontierWalk.VisitFrom` | verifier/pipeline/evaluate.go:825-866 | The recursive closure over `seen`, `out` and `unknowns` leaves exactly the specified state. |
| `EvaluateLoops.CoverWalk.Walk` | verifier/pipeline/evaluate.go:911-934 | The walk that never revisits a node still answers exactly whether the goal is reached through AND-joined units only. |
| `EvaluateLoops.CoveredByAnother` | verifier/pipeline/evaluate.go:895-905 | A node is dropped exactly when some other node of the list covers it. |
| `EvaluateLoops.LiveAncestors` | verifier/pipeline/evaluate.go:825-890 | The ancestor list is the live frontier, pruned under AND only, with its undecided guards reported in order. |
| `EvaluateLoops.CollectConditions` | verifier/pipeline/evaluate.go:544-562 | Every guard is reported and evaluated, each that does not hold raises its own settled violation, and none short-circuits the rest. |
| `EvaluateLoops.GateAncestorSet` | verifier/pipeline/evaluate.go:574-663 | The AND and OR loops raise exactly the specified violations, in order, for every run-state answer. |
| `EvaluateLoops.DecideStep` | verifier/pipeline/evaluate.go:425-535 | The whole evaluation of a requested FQN computes the specified verdict, for absent callbacks too. |
| `Verdicts.AllowedIff` | verifier/pipeline/evaluate.go:425-535 | Without policies a step is allowed if and only if no strategy on its chain excludes it or leaves its instances unknown, its own guard and that of every container it is an entry of are known true, it is no rollback entry of a stage that rolls the pipeline back, no frontier guard is undecided, and the join is met by the answers read; stated over node fields and positions. |
| `Verdicts.EvaluateStepAllows` | verifier/pipeline/evaluate.go:425-535 | The same over the run-state callback: each gating unit is verifiable and all its FQNs ran, or for a step that fires on any predecessor none gates or some verifiable one has begun. |
| `Verdicts.AllowedIsDeclared` | verifier/pipeline/evaluate.go:425-535 | Where `parallel` blocks are not empty, the verdict is the declarative one over ways back through skipped units: every frontier unit that no other one stands for is completed, or for a step that fires on any the frontier is empty or some unit of it has begun. |
| `Declared.ConditionsAre` | verifier/pipeline/graph.go:1299-1308 | The reported conditions are the step's own guard and those of exactly the containers it is an entry of. |
| `Declared.SeparatePlanIs` | verifier/pipeline/graph.go:1310-1319 | The separate-plan gate concerns exactly the rollback entries whose own stage rolls the pipeline back. |
| `Reports.OwnReports` | verifier/pipeline/evaluate.go:448-478 | About the step itself exactly these are reported: that every instance is excluded, or else that they are unknown and why, and each own or entry guard that fails or is undecided, with its owner, level, kind and text. |
| `Reports.AndReports` | verifier/pipeline/evaluate.go:629-661 | Under AND each ancestor is reported by itself: unverifiable, of unknown run-state, or with the instances it misses. |
| `Reports.OrReports` | verifier/pipeline/evaluate.go:578-628 | Under OR nothing is reported once a candidate ran or no ancestor is live; otherwise every unverifiable fan-out, every unknown run-state, and the remaining candidates as one group. |
| `Reports.AncestorsListed` | verifier/pipeline/evaluate.go:508-521 | The verdict lists, for each gating unit, the instances that stand for it in the step's branch. |
| `Reports.EachPolicyAnswersItsKind` | verifier/pipeline/evaluate.go:766-771 | A policy that accepts everything waives the violations of its own kind and no others. |
| `EvaluateLoops.DefaultsAre` | verifier/pipeline/evaluate.go:425-437 | Without a run-state callback nothing has run, and without a guard callback every guard holds. |
| `Verdicts.NoAndViolations` | verifier/pipeline/evaluate.go:629-661 | Under AND nothing is raised exactly when every ancestor that is not excluded is verifiable and every read says it ran. |
| `Verdicts.NoOrViolations` | verifier/pipeline/evaluate.go:578-628 | An unsatisfied OR always raises something: nothing is raised exactly when a candidate ran or no ancestor is live. |
| `Verdicts.StatusIsReal` | verifier/pipeline/graph.go:1601-1640 | A chain that is not excluded has runtime input or custom names as its status, or it is enumerable throughout. |
| `Verdicts.ExpandingAncestorIsGrounded` | verifier/pipeline/graph.go:1278-1332 | An ancestor that fans out and is not excluded always has instances, or runtime input or custom names as the status that says why they are unknown; for every target and requested name. |
| `Verdicts.AllowIgnoresUndecided` | verifier/pipeline/evaluate.go:544-562 | Any guard function that agrees wherever the first one is known gives an allowed step the same verdict, ancestors and empty violation list. |
| `Verdicts.PoliciesOnlyIgnore` | verifier/pipeline/evaluate.go:766-771 | Policies change only `ignored` flags, and a pointwise more accepting set never turns allow into deny. |
| `Verdicts.MoreRunsNeverDeny` | verifier/pipeline/evaluate.go:574-663 | Reporting more units as run never turns allow into deny, for AND and OR alike. |
| `Evaluate.LookupIsNode` | verifier/pipeline/evaluate.go:425-446 | A resolved request always names a registered unit. |
| `Runs.RunsAreSafe` | examples/zts/ordering/verifier.go:80-178 | In every state of every interleaving, each recorded request resolves to a unit whose own facts hold; one that waits on all predecessors has every unit of its unpruned frontier enumerable and recorded in its own branch; one that fires on any has an empty frontier or a verifiable unit of it recorded, unless it is a rollback entry of a stage that rolls the pipeline back; stated over fields, positions and ways back. |
| `Runs.RollbackWaits` | examples/zts/ordering/verifier.go:80-178 | A recorded rollback entry of a stage without pipeline rollback, some forward step of which is not skipped, has a unit of its frontier recorded. |
| `Runs.NextKeeps` | examples/zts/ordering/verifier.go:80-178 | Each atomic step (request, one read, one decision with its record) of any request preserves the invariant over all requests in flight. |
| `Runs.DecisionMeans` | examples/zts/ordering/verifier.go:100-114 | The verifier's decision is the fail-closed one except for the gate of a rollback entry whose stage rolls the pipeline back; stated over fields. |
| `Runs.DecidedIsAdmitted` | examples/zts/ordering/verifier.go:115-177 | A request decided on reads taken at different times is still admitted on the record present when it is stored. |
| `LinearExtensions.AcceptedRunsAreLinearExtensions` | examples/zts/ordering/verifier.go:121-177 | In a plain pipeline a sequence of leaf instances is accepted one by one from an empty store if and only if each of its prefixes is down-closed under the branch-aware positional order. |
| `LinearExtensions.AcceptedRunsExtend` | examples/zts/ordering/verifier.go:121-177 | No accepted run is stuck: while an instance is missing, some missing instance is accepted next. |
| `LinearExtensions.DocumentOrderIsAccepted` | examples/zts/ordering/verifier.go:121-177 | Requesting the units in document order is always accepted. |
| `DocumentRun.DocumentRunIsComplete` | examples/zts/ordering/verifier.go:121-177 | In a plain pipeline the list of all units in document order, each with its instances, requests every leaf instance exactly once and nothing else, and every request is accepted in turn: a full run always exists. |
| `LinearExtensions.NeedsIsStrict` | verifier/pipeline/graph.go:1491-1519 | An instance never needs itself, and what it needs has a smaller rank. |
| `OrderingVerifier.Verifier.constructor` | examples/zts/ordering/verifier.go:56-78 | Enforcement is on unless switched off; naming is by value only for the trimmed, case-folded text `value`; overrides alone create a checker and otherwise extend the given one. |
| `OrderingVerifier.Verifier.Handle` | examples/zts/ordering/verifier.go:80-178 | Exempt, unbuildable, unknown, refused and allowed requests get the specified answer; the store changes exactly as the protocol records, whatever deny_on_missing says. |
| `OrderingVerifier.VerifyStepOrder` | verifier/pipeline/evaluate.go:953-959 | Building and evaluating in one call gives the build's error or the verdict on the one graph that the document determines. |
| `OrderingVerifier.HandlerIsASchedule` | examples/zts/ordering/verifier.go:80-178 | A request handled alone is one schedule of the protocol: a path of atomic steps of that request only ends in the store the handler leaves. |
| `RunStore.Store.MarkRan` | examples/zts/ordering/ranstore.go:44-49 | Both views of one plan execution gain one name and nothing else changes. |
| `RunStore.Store.Ran` | examples/zts/ordering/ranstore.go:54-62 | A name has run when it is in either view of its own plan execution. |
| `RunStore.RanIsExact` | examples/zts/ordering/ranstore.go:44-62 | Recording an instance makes exactly its own and its logical name visible, in its own plan execution; no sibling instance ever matches. |
| `Conditions.ConditionChecker.Eval` | examples/zts/ordering/conditionchecker.go:108-122 | Guard evaluation returns the specified three-valued answer for the checker's present state. |
| `Conditions.EvalIsKleene` | examples/zts/ordering/conditionchecker.go:108-160 | A guard that is no runtime input is the Kleene conjunction of its status gate and its expression gate. |
| `Conditions.GuardIsDecidedBy` | examples/zts/ordering/conditionchecker.go:108-160 | A status that does not hold decides against the guard; a blank expression leaves the decision to the status; an override decides before any evaluator is asked; otherwise the evaluator decides as far as it knows. |
| `Conditions.StatusGateIs` | examples/zts/ordering/conditionchecker.go:130-142 | The status gate compares the recorded status of the guard's owner, or Success without a record, unless the guard asks for none or for All. |
| `Conditions.TrimSpaceSplits` | examples/zts/ordering/conditionchecker.go:130-160 | Trimming removes white space at both ends, all of it, and nothing else. |
| `Conditions.ConditionChecker.MarkStatus` | examples/zts/ordering/conditionchecker.go:91-100 | A recorded status is seen for exactly that owner and execution. |
| `Conditions.ConditionChecker.MergeOverrides` | examples/zts/ordering/conditionchecker.go:76-86 | Later overrides win over earlier ones, all others stay. |
| `Conditions.StatusGateIsTrimmed` | examples/zts/ordering/conditionchecker.go:130-142 | Against an observed status without outer white space, the gate agrees with the comparison of the trimmed status if and only if the status is not padded, is blank or `All` after trimming, or would not match anyway. |
| `Conditions.AllowSurvivesEvaluation` | examples/zts/ordering/conditionchecker.go:148-160 | A step allowed with a weaker expression evaluator gets the same verdict with every evaluator that decides more and no differently. |
| `Template.MergeIsIdempotent` | resolver/template.go:25-112 | For inputs with unique mapping keys and unique (wrapper, identifier) pairs and nothing beside a unit in a wrapper that can match, and for every template: merging twice is merging once, and a tree merged into itself is unchanged. |
| `Template.IdempotentExactly` | resolver/template.go:25-112 | Inputs with unique keys merge idempotently onto every template if and only if no wrapper that can match holds a second key. |
| `Template.SelfMergeIs` | resolver/template.go:25-112 | Where keys are unique, merging a tree into itself changes nothing if and only if nothing stands beside a unit in any wrapper that the merge matches. |
| `Template.MergedArray` | resolver/template.go:54-112 | A keyed array merge yields the template's elements in their order with their keys unchanged, unkeyed ones untouched, then exactly the inputs of no template element's key, in input order. |
| `Template.MergedKeys` | resolver/template.go:25-52 | A merged mapping keeps the template's keys in their order and appends the new ones in the order of their first occurrence in the inputs. |
| `Template.MergedFolds` | resolver/template.go:25-52 | Under every key the merged mapping holds the template's value with all the inputs' values of that key combined onto it in order, repeated keys included. |
| `Template.MergedElement` | resolver/template.go:84-97 | Merging two elements of one key keeps the wrapper and the identity, whichever of `identifier` and `name` supplied it. |
| `TemplateLaws.MatchesSameUnit` | resolver/template.go:114-141 | Two elements match exactly when they have one wrapper and one non-empty identifier, a name standing in only where there is no identifier. |
| `TemplateLaws.WrapperOf` | resolver/template.go:114-128 | An element's wrapper is the first of `stage`, `step`, `stepGroup` and `parallel` that holds a mapping; a named element without one is keyed by itself. |
| `TemplateLaws.ElementMerges` | resolver/template.go:77-100 | A template element is merged with the last input that is the same unit, in a wrapper of the same key. |
| `TemplateLaws.ElementStays` | resolver/template.go:77-100 | A template element that no input is the same unit as is kept as it is. |
| `TemplateLaws.ArrayMerges` | resolver/template.go:54-112 | An array whose inputs cannot be told apart replaces the template's; otherwise the template's elements come first, each merged by itself, and the new inputs follow. |
| `TemplateLaws.NewInputs` | resolver/template.go:101-110 | An input is appended exactly when it is some unit and no template element is the same one. |
| `TemplateLaws.ValuesMerge` | resolver/template.go:32-50 | Two mappings and two arrays are merged; in every other case the input replaces the value. |
| `Template.SiblingKeysAreLost` | resolver/template.go:84-97 | A matched wrapper is left with its wrapper key alone; it keeps its keys if and only if it had just that one. |
| `Template.RepeatedKeyIsOverwritten` | resolver/template.go:25-52 | Why keys have to be unique: merged into itself, a mapping with a repeated key has the first value overwritten by the second. |
| `Template.GetAfterSet` | resolver/yaml_helpers.go:24-50 | Setting a key changes that key's value and no other. |
| `TemplateLoops.MergeTemplateInputs` | resolver/template.go:25-52 | The key loop on the cloned template, with its recursive cases, computes the specified merge, nil nodes included. |
| `TemplateLoops.MergeArraysByIdentifier` | resolver/template.go:54-112 | The index, the matching loop with its used marks and the appending loop compute the specified array merge. |
| `TemplateLoops.NodeSet` | resolver/yaml_helpers.go:36-50 | The first occurrence of a key is overwritten in place, otherwise the key is appended. |
| `TemplateLoops.NodeDeepClone` | resolver/yaml_helpers.go:67-88 | A clone has the same content. |
| `FqnAgreement.ResolversAgree` | verifier/pipeline/yaml.go:35-169 | When a tree of single-key wrappers builds, every stage, group and step is indexed under its FQN, and that FQN leads the tree walk, through groups, `parallel` blocks and rollback steps, to exactly the element the unit was built from, with its identifier and type. |
| `ElementAgreement.UnitsAgree` | verifier/pipeline/yaml.go:35-169 | The element that a unit's FQN leads to in the tree is the one the unit is made of: the unit has its guard, its strategy and, for a stage, its failure actions. |
| `FqnAgreement.BuildsTwin` | verifier/pipeline/graph.go:1148-1254 | The graph built from a decoded tree mirrors it element by element. |
| `FqnAgreement.ItemsApart` | verifier/pipeline/yaml.go:124-169 | In a tree that builds, no identifier comes up under two items of one list. |
| `FqnWalk.WalkHits` | verifier/pipeline/yaml.go:124-169 | With identifiers kept apart, the list search ends in the one item that holds the name, backtracking out of `parallel` blocks included. |
| `FqnWalk.ItemSettles` | verifier/pipeline/yaml.go:139-160 | At one list item a wrapped unit of the identifier settles the search, a step before a stage before a group; else what a `parallel` block holds; else the bare item itself. |
| `FqnWalk.SplitFqn` | verifier/pipeline/yaml.go:84-99 | The scanning loop yields the non-empty dot-separated segments. |
| `FqnWalk.FindNode` | verifier/pipeline/yaml.go:35-41 | An absent root or an empty FQN finds nothing; otherwise the tree is walked along the segments. |

## Left out

- YAML text: parsing, printing, tags, styles, comments, anchors, aliases, partial decodes and explicit nulls. Trees and documents start decoded, and a clone is the same value.
- Decoding of strategies, guards and deployment targets from YAML (`parseMatrix`, `parseParallelism`, `parseRepeat`, `parseExcludeSets`, the custom unmarshallers): the tree model takes them as functions, and `Decoded` states what they deliver.
- In-place update of `yaml.Node` content and the sharing of nodes between the merge's inputs and its result: the merge is modelled on values.
- References between graph nodes: positions stand for them, so allocation and aliasing of `graphNode` are not modelled.
- Expression evaluation (JEXL) and the environment it reads: an abstract function. Its answers do not change during an execution.
- The mutexes of the store and the checker: each of their methods is one atomic step. `Handle` is proved for a request that runs alone; interleavings are the protocol of `Runs`.
- `Store.Instances`, the sorted audit view.
- Violation descriptions, log lines, human-readable FQNs and deny messages.
- `Resolve` as a public call: its parts (join, status, exclusion, guards, separate-plan flag) are used by the evaluation, and its own ancestor list is always replaced by the live ancestors.
- `MatchesAncestor`, `Tree`, `FQNs`, `GetParentNode`, `GetNodeKeys`: easy members.
- The order of matrix axes that repeat a key: `sort.Slice` leaves it unspecified, and `SortAxes` fixes one. The axes of a decoded mapping have distinct keys.
- Trees with repeated mapping keys are merged as the code merges them (`MergedFolds`, `MergedKeys`), but idempotence is stated for unique keys, as section 3.2.1.3 of YAML 1.2 requires them; `RepeatedKeyIsOverwritten` shows a self-merge that changes a tree without them.
- Case folding covers ASCII and the two other letters that fold to an ASCII one; other Unicode folding is not modelled.
- Slices that Go would fail on when a prefix is longer than the name it cuts get an arbitrary total value; `Instances.PinnedIsAgreeing` shows the cut is always within the name for what the enumeration produces.
- Guards of enclosing containers beyond the entry ones: the code does not check them for an allowed step, so nothing is claimed about them.
- Template reference expansion, scopes and depth limits (`resolver/resolver.go`).
- Other verifiers, chains, middleware, HTTP, SCM clients, metrics and audit files.
