# graphrun: a verified model of its analysis, builders, clock authority and codecs

graphrun runs durable workflows. A workflow is a tree of regions; a region is a graph of nodes joined by next and timeout edges. This project models the parts of graphrun that decide something before or beside execution, and proves what they guarantee:

- **Region analysis** (`Graph`, `CycleDetection`, `Availability`, `Exactness`, `PopOrder`, `LateEdges`, `FirstWalks`, `RegionAnalysis`, `RegionTheorems`, `RegionReads`, `TreeScopes`, `Skeletons`, `EdgeRule`, `Diamond`). The rule the analysis enforces is that a node may read an output only if it is available on every walk from the start. The worklist is measured against that meaning. Rejections are always justified by a real walk. The sets it checks with are the meet over the walks that go up in pop order, and they are exact if and only if no edge takes a reference away from a node that was popped already. What the nodes of a region read does not change the order of the worklist, so how far the analysis can be trusted depends on the skeleton of the region alone, and `NeverMisledIffRisingSuffice` says exactly on which skeletons, in terms of edges and outputs: the pop order is the order of first walks (`PopOrderIsEarlier`), and the analysis looks at the walks that rise in it.
- **The compiler** (`CompilerSpec`, `Compiler`, `Decompiler`, `Validation`, `CompilerTheorems`, `CompilerRules`, `NodePlaces`). It starts from a parsed tree. What compiles is exactly what the rules admit, and the document can be told from what it compiled to. Everything compiled validates again, because the contexts of the two recursions agree at every nested region. The node budget, nesting bound, saga rules and unique region paths hold over the whole tree.
- **The builders** (`Builder`, `Chain`, `FluentFlow`, `Scripts`, `OpenExits`). The draft graph is mutated call by call. A chain is accepted in a context exactly if each step reads what the context offers or an earlier step produces; a finished script of fluent calls, with any bodies and any case conditions, validates exactly if every call fits its place, and says step by step what its calls say. A build that succeeds has every next port connected at every level, and no exit unconnected exactly if every timed wait has its timeout target.
- **The clock authority** (`ClockCore`, `ClockLatch`, `ClockAuthority`, `ClockRuns`, `ClockSteps`, `QuorumCalls`, `ClockLocks`, `ClockWitnesses`, `Quorum`). One call at a time it is a class. All interleavings of calls over its two locks form a state machine, with failing writes, membership changes, crashes, and callers that are dropped at any point where a call waits; its invariant holds in every reachable state. Whenever a lock is held, some holder can go on if and only if the locks are not crossed.
- **Snapshots and canonical JSON** (`Framing`, `FramingLayout`, `CanonicalJson`, `JsonReader`). The framing round-trips both ways, the incremental reader agrees with its specification, and what is accepted is laid out byte by byte. Canonical text is read back by an independent JSON reader, with the keys of every object in dictionary order.
- **Small codecs, conditions and the retry loop** (`Decimal`, `Codecs`, `Names`, `BindingPaths`, `Evaluation`, `Retry`, `RetryLaws`). What a binding reads and what a condition tests is told by position; a log of attempts is lawful if and only if every attempt in it obeys rules in plain numbers.

`Prelude`, `Bindings` and `Ir` hold the shared data: options and results, references, bindings and conditions, and the thirteen node kinds with their successors (graphrun/src/ir.rs:243-266) and nested regions (graphrun/src/ir.rs:268-287).

Where the code and its own words differ, the model follows the code:

- The analysis says that a reference "is not available on every incoming path" (graphrun/src/compiler.rs:1203-1207), but a node is checked once, when first popped. `Diamond` holds a region that is accepted although one path lacks the reference. `NeverMisledIffReadersKeep` and `NeverMisledIffRisingSuffice` say exactly when this cannot happen: every accepted region with the same edges, kinds and bodies follows the rule if and only if no node that can read anything loses a reference after its check, and that is so if and only if at each such node every output on all rising walks is on all walks. A walk rises if each hop goes to a node that comes later in the order of first walks, which take the timeout port of a wait whenever its timeout side still leads to the goal. A simpler condition that is sufficient is `CrossingsHarmless`: each edge from the next side of a timed wait into its timeout side ends at the timeout port and starts at a node entered only through the wait.
- A timed wait is declared with an open timeout port (graphrun/src/builder.rs:781-791), and neither validation nor the build asks for it to be connected. `BuildOpenWait` publishes such a workflow; `AcceptedExitsSetIff` says exactly when a validated tree has no open exit. The compiler does ask for it, at every depth (`CompiledTimeoutsPaired`).
- A region whose start node is missing makes the analysis panic; the compiler and the builder both rule it out beforehand. The model returns the error `StartMissing` instead.
- Acknowledging takes the monitor lock and then the cache lock; a quorum call holds the cache lock while it takes the monitor lock. `CrossedLocksReachable` and `CrossedLocksStay` show that the two can wait for each other until the process restarts or one of the two callers is dropped, and `ProgressIffUncrossed` that nothing else ever blocks the holders of the locks.
- Between clearing the monitor and clearing the cache an acknowledgement leaves a cached quorum that can be ahead of every boot time observed since the fault (`StaleCacheReachable`), and a waiting quorum call is answered from it (`StaleAnswerReachable`). `CacheNeverAhead` shows that only a quorum sampled before that clearing is affected: one sampled since is never ahead. A caller dropped in that window leaves the signal latched over a monitor that is not faulted (`DroppedAckLeavesLatched`), and then samples succeed although no acknowledgement of the fault ever succeeded (`SampleWithoutAckSuccess`).
- A fault that was observed but not yet written is forgotten by a crash (`UnrecordedFaultLost`), and so is a recorded one whose acknowledgement was dropped during its write (`DroppedAckForgets`); a restart is faulted exactly when the last write of the flag set it (`RestartKeepsStored`).

`dafny verify dfyconfig.toml` checks the whole project.

## Model

| member | source | states |
|---|---|---|
| CycleDetection.Visit | graphrun/src/compiler.rs:1220-1241 | on success the stack is as before, the visited node and all it leads to are settled without a cycle; on failure the named node is reachable from the start and leads back to itself; unseen nodes are the termination measure |
| CycleDetection.VisitTargets | graphrun/src/compiler.rs:1231-1236 | the loop over the targets of a node on the stack settles all of them, or names a reachable node on a cycle |
| CycleDetection.DetectCycle | graphrun/src/compiler.rs:1216-1243 | succeeds if and only if nothing reachable from the start lies on a cycle, on every finite graph; an error names a reachable node on a cycle |
| Availability.PushEdgesMeet | graphrun/src/compiler.rs:1085-1101 | after the edges of a popped node are pushed, a reference is kept at a target exactly if it was there before (when the target was known) and arrives over every pushed edge to it |
| Availability.StepSound | graphrun/src/compiler.rs:1078-1105 | every pop keeps the worklist invariant: the running set of each node is the meet over the edges of the nodes popped so far, and each checked set the meet over those popped before it |
| Availability.ExploreSound | graphrun/src/compiler.rs:1075-1105 | the invariant holds when the worklist runs dry, which it does on every closed graph |
| Exactness.CheckedIsIncreasingMeet | graphrun/src/compiler.rs:1078-1105 | in every state a node was checked with exactly the references available on all walks to it that go up in pop order |
| Exactness.MissingWalk | graphrun/src/compiler.rs:1082-1082 | a reference missing from a checked set is missing on a concrete walk of earlier popped nodes |
| Exactness.RejectionHasWalk | graphrun/src/compiler.rs:1203-1207 | a reference available on every walk is never found missing, so a rejection has a witness |
| Exactness.FinalReached | graphrun/src/compiler.rs:1106-1108 | the popped nodes are exactly the nodes reachable from the start |
| Exactness.ExactIffNeverShrunk | graphrun/src/compiler.rs:1096-1101 | all checked sets are the true availability if and only if no edge took a reference from an already popped node |
| Exactness.TopologicalExact | graphrun/src/compiler.rs:1075-1105 | if every node is popped after all its predecessors, the checked sets equal the meet over all walks |
| PopOrder.TopologicalIffForksRejoin | graphrun/src/compiler.rs:1072-1105 | on an acyclic graph with next and timeout ports, nodes are popped after all their predecessors if and only if at every reachable timed wait the timeout side leads into the next port or the two sides never meet |
| PopOrder.StepGuards | graphrun/src/compiler.rs:1078-1105 | on every acyclic graph each pop keeps the shape of the stack: every entry below the top is the next port of a popped wait, and all that is left of that wait's timeout side is above it |
| LateEdges.ExploreLateCross | graphrun/src/compiler.rs:1078-1105 | in every run, an edge whose target was popped before its source leads from the next side of an earlier popped timed wait into its timeout side |
| LateEdges.HarmlessNeverShrinks | graphrun/src/compiler.rs:1096-1101 | if each such edge ends at the timeout port and starts at a node entered only through the wait, no popped node loses a reference |
| LateEdges.RejoiningHarmless | graphrun/src/compiler.rs:1072-1105 | waits whose sides rejoin at the next port, or never, have no such edge |
| LateEdges.BypassIsHarmless | graphrun/src/compiler.rs:1072-1105 | the wait that skips a step on a timeout is harmless although its pop order is not topological |
| FirstWalks.FirstPopped | graphrun/src/compiler.rs:1078-1105 | when a node is popped, every other node on the first walk to it has been popped |
| FirstWalks.OneIsEarlier | graphrun/src/compiler.rs:1072-1105 | of two reachable nodes of an acyclic graph, one is earlier in the order of first walks |
| FirstWalks.PopOrderIsEarlier | graphrun/src/compiler.rs:1072-1105 | on every acyclic graph one node is popped before another if and only if it lies on the first walk to it, or on the timeout side of a wait that this walk passes |
| BindingPaths.ReferencesAreReads | graphrun/src/binding.rs:125-132 | a reference is listed exactly if it stands at some path of the binding, through fields and items of any depth |
| BindingPaths.DepthIsLongestPath | graphrun/src/binding.rs:117-123 | the depth is one more than the length of the longest path |
| BindingPaths.ConditionBindingsAreTests | graphrun/src/binding.rs:186-200 | a binding is listed exactly if some comparison or existence test, under any operators, has it as an operand |
| BindingPaths.OperatorsCounted | graphrun/src/binding.rs:176-184 | the operator count is the number of places in the condition, the whole one included |
| Evaluation.EvalIffResolves | graphrun/src/domain.rs:3752-3777 | a binding has a value exactly if every reference in it, at any depth, has one and every pointer leads somewhere |
| Evaluation.UntilMeans | graphrun/src/domain.rs:3824-3839 | all and any are decided by the first operand that fails or settles them; the later ones are not evaluated |
| Evaluation.EqInputMeans | graphrun/src/binding.rs:151-156 | the condition fails exactly if the input is not there, and else tells whether it equals the literal |
| Evaluation.FlagTrueMeans | graphrun/src/binding.rs:165-174 | the condition never fails: it holds exactly if the input is there and true |
| Evaluation.LtLoopMeans | graphrun/src/binding.rs:158-163 | the condition fails exactly if the loop state is not there or either side is no integer, and else compares the integers |
| RegionAnalysis.CheckReferences | graphrun/src/compiler.rs:1175-1211 | no error exactly if every reference is allowed in its context and available; an error belongs to one of the references |
| RegionAnalysis.CheckEach | graphrun/src/compiler.rs:1171-1214 | no error exactly if every binding is within the depth limit and all its references pass; what is listed is what stands in the bindings (`ReferencesAreReads`) |
| RegionAnalysis.CheckTargets | graphrun/src/compiler.rs:1015-1021 | no error if and only if all targets of the node exist; an error names a missing one |
| RegionAnalysis.CheckCases | graphrun/src/compiler.rs:1049-1055 | passes exactly if every case condition is within the operator limit |
| RegionAnalysis.CheckOperators | graphrun/src/compiler.rs:1043-1058 | passes exactly if every condition of the node is within the operator limit |
| RegionAnalysis.CheckLimits | graphrun/src/compiler.rs:1036-1058 | no error if and only if the node is within the depth and operator limits |
| RegionAnalysis.CollectEdges | graphrun/src/compiler.rs:1014-1059 | succeeds if and only if all targets exist and all node limits hold, and then returns the outgoing edges; an error names a fault that is there |
| RegionAnalysis.PushTargets | graphrun/src/compiler.rs:1083-1103 | the loop over a node's edges computes the pushed stack and the intersected sets |
| RegionAnalysis.VisitNode | graphrun/src/compiler.rs:1079-1104 | one pop advances the worklist, or reports a failure that the whole sweep would also find, with a justified error |
| RegionAnalysis.SweepRegion | graphrun/src/compiler.rs:1072-1108 | succeeds if and only if every node is popped and passes against the set it is checked with |
| RegionAnalysis.Reached | graphrun/src/compiler.rs:1106-1108 | comparing the numbers of seen and declared nodes decides whether all nodes are reachable |
| RegionAnalysis.AnalyzeRegion | graphrun/src/compiler.rs:1011-1112 | accepts exactly the regions that are well shaped, fully reachable and pass everywhere; every error comes with a fault that is really in the region, for availability a walk without the reference; `AcceptedIffReads` says what that is in terms of fields and paths |
| RegionReads.NodeBindingsAreEvaluated | graphrun/src/compiler.rs:1124-1170 | for each of the thirteen kinds, the checked bindings are exactly those in the fields a node of that kind evaluates, conditions and compensation included |
| RegionReads.InScopeIff | graphrun/src/compiler.rs:1176-1203 | loop, item and forward references pass exactly inside a loop, an iteration or a compensation, or on the node that makes one |
| RegionReads.HopsOfRegion | graphrun/src/ir.rs:243-266 | the edges of a region are exactly the next and timeout fields of its nodes |
| RegionReads.AvailableIffPassed | graphrun/src/compiler.rs:1072-1105 | an output is available on every walk to a node exactly if every walk leaves the node that produces it on its next edge |
| RegionReads.ValidIffRule | graphrun/src/compiler.rs:1011-1112 | the rule the analysis is for, in terms of fields, paths and walks alone |
| RegionReads.AcceptedIffReads | graphrun/src/compiler.rs:1011-1112 | a region is accepted exactly if it is well shaped, all nodes are popped, and each reads, at every path of every field it evaluates, only what is in scope or in the set it was checked with, no deeper than 32, with at most 256 operators |
| RegionReads.AcceptedReads | graphrun/src/compiler.rs:1124-1214 | in an accepted region every node output at any path of any evaluated field is in that node's checked set, and every other reference is in scope |
| RegionTheorems.ValidIsAccepted | graphrun/src/compiler.rs:1011-1112 | a region that follows the rule (every use available on every walk) is never rejected |
| RegionTheorems.AcceptedIffValidUnlessShrunk | graphrun/src/compiler.rs:1096-1101 | the check is exact if and only if no checked node loses a reference later; if no node that can read loses one, accepted and valid are the same |
| RegionTheorems.HarmlessIsExact | graphrun/src/compiler.rs:1072-1105 | a well-shaped region whose edges into timeout sides are harmless is checked exactly, whatever its nodes read |
| RegionTheorems.AcceptedIffValid | graphrun/src/compiler.rs:1011-1112 | for such regions acceptance is equivalent to the rule |
| RegionTheorems.AcceptedWalkBound | graphrun/src/compiler.rs:1060-1060 | in an accepted region every walk from the start stays inside and has at most one edge fewer than there are nodes |
| RegionTheorems.TerminalAhead | graphrun/src/compiler.rs:1011-1112 | from the end of every walk a Complete or Fail node can be reached |
| RegionTheorems.AcceptedWalksEnd | graphrun/src/compiler.rs:1011-1112 | every walk is bounded and ends in, or continues to, a terminal node |
| RegionTheorems.AcceptedNodesUsed | graphrun/src/compiler.rs:1106-1108 | every node lies on a walk from the start to a terminal node |
| RegionTheorems.AcceptedHasNoSelfLoop | graphrun/src/compiler.rs:1060-1060 | no non-terminal node of an accepted region has itself as its next node |
| Skeletons.SameFlow | graphrun/src/compiler.rs:1011-1112 | regions that differ only in what their nodes read give the worklist the same problem |
| Skeletons.ShrinkingMisleads | graphrun/src/compiler.rs:1096-1101 | where a node that can read loses a reference after its check, the region in which that node reads it and all others read the scope input is accepted and breaks the rule |
| Skeletons.NeverMisledIffReadersKeep | graphrun/src/compiler.rs:1011-1112 | every accepted region with a given skeleton follows the rule if and only if the skeleton is cyclic, unreachable or broken somewhere, or no node that can read loses a reference after its check |
| EdgeRule.CheckedIsRisingMeet | graphrun/src/compiler.rs:1078-1105 | a node is checked with exactly the references on all walks that rise in the order of first walks |
| EdgeRule.ReadersKeepIffRisingSuffice | graphrun/src/compiler.rs:1096-1101 | no node that can read loses a reference after its check if and only if, at each of them, what is on all rising walks is on all walks |
| EdgeRule.NeverMisledIffRisingSuffice | graphrun/src/compiler.rs:1011-1112 | every accepted region with a given skeleton follows the rule if and only if the skeleton cannot be walked through or the rising walks suffice: a condition on edges and outputs alone |
| Diamond.DiamondAcceptedButInvalid | graphrun/src/compiler.rs:1072-1105 | a four-node region is accepted although a node reads an output that one of the two paths to it lacks |
| Validation.AnalyzeEach | graphrun/src/compiler.rs:141-186 | the nested regions of a node are analyzed in turn; success if and only if each is accepted in its own context |
| Validation.AnalyzeChildren | graphrun/src/compiler.rs:141-186 | success if and only if all regions nested in the node are accepted |
| Validation.AnalyzeNodes | graphrun/src/compiler.rs:141-187 | success if and only if that holds for every node |
| Validation.AnalyzeTree | graphrun/src/compiler.rs:139-188 | success if and only if every region of the tree is accepted in the context of its place |
| Validation.ValidateDefinition | graphrun/src/compiler.rs:127-137 | success if and only if the whole tree is accepted from the root context |
| Validation.AcceptedNextsSet | graphrun/src/compiler.rs:139-188 | in a tree that validates no non-terminal node at any level still points at itself |
| Validation.AcceptedExitsSetIff | graphrun/src/compiler.rs:139-188 | a tree that validates has no unconnected exit at any level if and only if every timed wait in it has its timeout target |
| TreeScopes.ContextIsEnclosure | graphrun/src/compiler.rs:139-188 | at every position of the tree, the context says that a loop, an iteration or a saga encloses it exactly if one of the nodes on the way down is one |
| TreeScopes.TreeIffEverywhere | graphrun/src/compiler.rs:139-188 | a tree validates exactly if the region at every position is accepted in the context of its position |
| TreeScopes.ReadsAreEnclosed | graphrun/src/compiler.rs:127-188 | in a valid definition a node that reads loop state or an item, at any position, has a loop or an iteration around it or is one, and one that reads a forward value is an activity with a compensation |
| Compiler.CheckNames | graphrun/src/compiler.rs:824-837 | succeeds if and only if all names are valid and distinct |
| Compiler.CheckBodySchemas | graphrun/src/compiler.rs:841-846 | succeeds if and only if every body's schemas are in the catalog |
| Compiler.SharedOutput | graphrun/src/compiler.rs:912-918 | the common output schema of the cases, if there are cases and they agree |
| Compiler.CheckCompensation | graphrun/src/compiler.rs:344-361 | passes exactly if compensation occurs only in a saga, external activities in a saga have one, handlers are known and their inputs use only forward references; `CompilesIffLawful` and `CompiledSagaRules` name the two forward references |
| Compiler.CheckChoose | graphrun/src/compiler.rs:870-965 | passes exactly on the fields the rules admit for a choice |
| Compiler.CheckParallel | graphrun/src/compiler.rs:803-868 | passes exactly on the fields the rules admit for parallel branches |
| Compiler.CheckWait | graphrun/src/compiler.rs:548-612 | passes exactly if the signal is declared and a timeout and its target come together |
| Compiler.CheckLoop | graphrun/src/compiler.rs:669-687 | passes exactly if the state schema is known, the iteration limit is in range and the body maps the state to itself |
| Compiler.CheckForeach | graphrun/src/compiler.rs:756-777 | passes exactly if the item schema is known, both limits are in range and the body takes an item |
| Compiler.CheckFields | graphrun/src/compiler.rs:259-317 | passes exactly on the fields the rules admit, for every node kind |
| Compiler.CompileBody | graphrun/src/compiler.rs:688-702 | one body compiles exactly if it may in its place; the counter grows by its nodes |
| Compiler.CompileBodies | graphrun/src/compiler.rs:688-702 | all bodies of a node compile exactly if each may in its place, and the threaded counter grows by the nodes of all of them |
| Compiler.CompileNode | graphrun/src/compiler.rs:259-317 | a node compiles exactly if its fields and bodies do; the counter grows by the nodes nested in it; `RegionGivesBack` reads the node's document back |
| Compiler.CompileNodes | graphrun/src/compiler.rs:227-240 | all nodes of a region compile exactly if each does; the counter grows by the size of the whole region tree |
| Compiler.FinishRegion | graphrun/src/compiler.rs:241-257 | the assembled region is returned exactly if its start exists and the analysis accepts it |
| Compiler.CompileRegion | graphrun/src/compiler.rs:205-257 | a region compiles exactly if the rules admit it at its depth; the counter equals the total node count of the tree |
| Compiler.CompileDefinition | graphrun/src/compiler.rs:46-125 | compiles exactly the documents that `DefinitionCompilesIff` describes and whose canonical text can be hashed; the document can be read back from the definition |
| Decompiler.RegionGivesBack | graphrun/src/compiler.rs:205-317 | every region document is read back from the region it compiles to, node by node and body by body: no kind, field, case, branch or exit is confused or lost |
| Compiler.DefinitionGivesBack | graphrun/src/compiler.rs:46-125 | so is the whole document, with its header |
| CompilerRules.NodeLawIff | graphrun/src/compiler.rs:259-317 | a node's fields compile exactly if the compiled node obeys the rules for its kind, with all limits in numbers |
| CompilerRules.CompilesIffLawful | graphrun/src/compiler.rs:205-257 | a region document compiles exactly if the compiled tree obeys the node and saga rules at every level, nests at most 8 deep, and is accepted everywhere |
| CompilerRules.DefinitionCompilesIff | graphrun/src/compiler.rs:46-125 | a document compiles exactly if its header is lawful, it has at most 512 nodes, and its root is such a tree |
| NodePlaces.NodesCounted | graphrun/src/compiler.rs:228-240 | the node count is the number of places a node has in the tree, a place being the way down to a region and a key in it |
| Validation.DigestibleIff | graphrun/src/compiler.rs:1245-1257 | a definition can be hashed exactly if it has canonical text of at most 256 KiB |
| CompilerTheorems.ContextsAgree | graphrun/src/compiler.rs:688-702 | the context the compiler passes to a nested region is the one validation computes from the compiled node |
| CompilerTheorems.CompiledTreeAccepted | graphrun/src/compiler.rs:205-257 | every region of a compiled tree is accepted in the context of its place |
| CompilerTheorems.CompiledDefinitionValidates | graphrun/src/compiler.rs:127-188 | whatever compiles passes validation |
| CompilerTheorems.NestingBounded | graphrun/src/compiler.rs:216-218 | no position in a compiled tree is deeper than the nesting limit |
| CompilerTheorems.SubPathExtends | graphrun/src/compiler.rs:235-235 | the path of a nested region extends its ancestor's path by two segments per level |
| CompilerTheorems.SegmentsDistinct | graphrun/src/compiler.rs:832-953 | the bodies of one node have distinct path segments |
| CompilerTheorems.PathsUnique | graphrun/src/compiler.rs:228-240 | no two regions of a compiled tree, at any depth, carry the same path |
| CompilerTheorems.PathIsSpelled | graphrun/src/compiler.rs:228-240 | the path of every compiled region spells out the way down to it: node keys, and body, case, branch or default |
| CompilerTheorems.CompiledSagaRules | graphrun/src/compiler.rs:344-361 | at every depth compensation occurs only under an enclosing saga, every external activity under a saga has one, and compensation inputs are forward references |
| CompilerTheorems.CompiledTimeoutsPaired | graphrun/src/compiler.rs:582-592 | at every depth of a compiled tree a wait has a timeout target exactly if it has a timeout |
| CompilerTheorems.CompiledDefinitionInvariants | graphrun/src/compiler.rs:108-110 | every compiled definition has at most 512 nodes in all, at most 8 levels, unique region paths, lawful sagas, timeouts paired with their targets and no unconnected exit at any level |
| Builder.RegionGraphBuilder.constructor | graphrun/src/builder.rs:634-646 | a new draft is empty |
| Builder.RegionGraphBuilder.StartAt | graphrun/src/builder.rs:685-692 | sets the start exactly once, and only to an entry of the same draft |
| Builder.RegionGraphBuilder.Connect | graphrun/src/builder.rs:694-735 | redirects exactly the named port, or refuses and changes nothing: foreign ports, missing nodes and terminal sources fail |
| Builder.RedirectLaw | graphrun/src/builder.rs:704-735 | an exit can be connected exactly if it is there and, for a timeout, still free; then it leads to the target and nothing else of the node changes |
| Ir.WithNextLaws | graphrun/src/builder.rs:715-733 | setting the next node sets it and nothing else, and the last setting counts; a terminal node stays as it is |
| Builder.RegionGraphBuilder.Declare | graphrun/src/builder.rs:737-764 | adds one node, exactly if the key is valid and new; its next port, if it has one, points at the node itself |
| Builder.RegionGraphBuilder.SetCompensation | graphrun/src/builder.rs:1199-1211 | attaches a compensation exactly to activities and changes nothing else |
| Builder.RegionGraphBuilder.Finish | graphrun/src/builder.rs:1100-1118 | returns the draft as a region exactly if a start was set |
| Builder.RegionGraphBuilder.LinkTail | graphrun/src/builder.rs:611-624 | connects the tail to the new entry, or makes it the start of an empty chain |
| Builder.RegionGraphBuilder.Append | graphrun/src/builder.rs:369-383 | keeps the draft one simple chain from start to tail over all its keys, longer by the new key |
| Builder.RegionGraphBuilder.Close | graphrun/src/builder.rs:512-555 | ends the chain with a terminal node and returns a complete chain |
| Builder.Build | graphrun/src/builder.rs:1282-1301 | succeeds exactly if both schemas are in the catalog, the definition validates and its canonical text exists and is at most 256 KiB; then every next port at every level is connected, and no exit is unconnected exactly if every timed wait has its timeout target |
| OpenExits.OpenWaitValidates | graphrun/src/builder.rs:781-791 | a timed wait with an open timeout port validates in every context |
| OpenExits.DraftOpenWait | graphrun/src/builder.rs:766-797 | declaring a timed wait and an end and connecting only the success port finishes as that region |
| OpenExits.BuildOpenWait | graphrun/src/builder.rs:1282-1301 | the build publishes it, with an exit unconnected |
| Chain.AvailableIffEarlier | graphrun/src/compiler.rs:1072-1105 | on a chain an output is available on every walk to a step exactly if an earlier step produces it |
| Chain.ChainAcceptedIff | graphrun/src/builder.rs:350-625 | a complete chain is accepted in a context if and only if each step is within the limits and reads only what the context offers and earlier steps produce |
| FluentFlow.Sequence.constructor | graphrun/src/flow.rs:21-29 | a fresh sequence is empty and its value is the workflow's or the scope's input |
| FluentFlow.Sequence.Step | graphrun/src/flow.rs:93-104 | appends the node at the end of the chain exactly if the key is valid and new, and then the current value is that node's output; else nothing changes |
| FluentFlow.Sequence.Activity | graphrun/src/flow.rs:93-104 | appends an activity on the current value |
| FluentFlow.Sequence.WaitSignal | graphrun/src/flow.rs:130-143 | appends a wait with a literal correlation key |
| FluentFlow.Sequence.WhileLt | graphrun/src/flow.rs:145-165 | appends a loop with a bound on its own state |
| FluentFlow.Sequence.Repeat | graphrun/src/flow.rs:167-183 | appends a counted loop on the current value |
| FluentFlow.Sequence.Foreach | graphrun/src/flow.rs:235-250 | appends an iteration over the current value |
| FluentFlow.Sequence.Saga | graphrun/src/flow.rs:185-196 | appends a saga on the current value |
| FluentFlow.Sequence.Choose | graphrun/src/flow.rs:425-438 | appends a choice exactly if there are cases with valid, distinct names |
| FluentFlow.Sequence.Parallel | graphrun/src/flow.rs:537-552 | appends branches that all get the current value, exactly if their names are valid and distinct |
| FluentFlow.Sequence.Compensate | graphrun/src/flow.rs:106-113 | attaches an undo to the step just appended, exactly if that was an activity |
| FluentFlow.Sequence.Complete | graphrun/src/flow.rs:224-226 | completes with the current value and yields a finished chain |
| FluentFlow.Sequence.Fail | graphrun/src/flow.rs:215-222 | ends the chain with a failure |
| FluentFlow.EqInputFits | graphrun/src/binding.rs:151-156 | the equality condition fits a case in every context |
| FluentFlow.FlagTrueFits | graphrun/src/binding.rs:165-174 | the flag condition fits a case in every context |
| FluentFlow.LtLoopFitsIff | graphrun/src/binding.rs:158-163 | the loop condition fits a case if and only if a loop is around it |
| FluentFlow.DeclareTimedWait | graphrun/src/flow.rs:354-371 | the three nodes are declared exactly if their keys are valid and distinct |
| FluentFlow.ConnectTimedWait | graphrun/src/flow.rs:627-646 | starts at the wait and connects exactly its two ports and the recovery |
| FluentFlow.TimedWaitFlow | graphrun/src/flow.rs:627-646 | yields the wait, its recovery and the common end, connected on both ports |
| FluentFlow.TimedWaitAccepted | graphrun/src/flow.rs:627-646 | that region is accepted in every context |
| FluentFlow.TimedWaitPortable | graphrun/src/flow.rs:627-646 | and its whole tree validates in every context |
| FluentFlow.Apply | graphrun/src/flow.rs:92-251 | each fluent call succeeds exactly if it is allowed on the chain so far, and then changes it as specified; otherwise it changes nothing |
| FluentFlow.RunCalls | graphrun/src/flow.rs:92-251 | a sequence of calls runs through exactly if each is allowed in its turn, and leaves the specified chain |
| Scripts.PlayIff | graphrun/src/flow.rs:92-251 | a script runs exactly if every compensation follows an activity, every other call brings a valid new key, choices have cases, and cases and branches have distinct valid names |
| Scripts.ScriptSays | graphrun/src/flow.rs:92-251 | a finished script is one chain of exactly its steps in order: each node is what its call asks for, takes the output of the step before it (the first one workflow.input at the root and scope.input elsewhere), and carries the undo asked for last; the end takes the output of the last step |
| Scripts.RunScript | graphrun/src/flow.rs:92-251 | for every script, run through the class: succeeds exactly for the lawful ones, with a region that says what the calls say |
| FluentFlow.AfterFluent | graphrun/src/builder.rs:694-735 | every allowed call, whatever its bodies and conditions, keeps the draft one chain of producing steps whose current value is readable by the next |
| FluentFlow.AfterSoundIff | graphrun/src/flow.rs:92-251 | a call keeps the draft valid in a context exactly if its conditions read only their scope and earlier outputs and its bodies validate at their place |
| FluentFlow.ScriptValidatesIff | graphrun/src/flow.rs:92-251 | any script of calls, of any length, completed or failed at the end, validates in a context if and only if every call fits there |
| FluentFlow.ScriptPortable | graphrun/src/flow.rs:92-251 | a script whose bodies validate everywhere and whose conditions test the workflow input validates everywhere itself |
| Quorum.QuorumsIntersect | graphrun/src/clock.rs:366-371 | two passing sets share a voter in every configuration they both cover (joint consensus, section 6 of the Raft paper) |
| Quorum.QuorumGrows | graphrun/src/clock.rs:366-371 | a larger set still passes |
| Quorum.JointQuorumIff | graphrun/src/clock.rs:366-371 | a joint quorum is more healthy members than others in every configuration, of which there is one: a bare majority suffices and half does not |
| Quorum.VotersIff | graphrun/src/clock.rs:230-231 | the voters are the members of any configuration |
| Quorum.ProbeVoters | graphrun/src/clock.rs:294-315 | the early-exit probe loop reaches the verdict of probing every voter; sampled voters are committed voters |
| Quorum.SingleVoterQuorum | graphrun/src/clock.rs:239-253 | a lone voter that passes is the committed voter |
| ClockCore.ObserveRemembers | graphrun/src/clock.rs:25-53 | the monitor's fields stay a summary of the whole observation history, in which exactly the untrue readings are marked as faults, each against the last reading seen before it |
| ClockCore.DeltaFaultIff | graphrun/src/time.rs:88-106 | two readings are at fault exactly if boot time falls, advances by more than 2000 ms, or differs from the advance of wall time by more than 250 ms and a thousandth |
| ClockCore.FaultyIffUntrue | graphrun/src/clock.rs:25-46 | an observation is at fault exactly if wall time is more than 2000 ms behind the watermark or it is out of step with the reading before |
| ClockCore.HealthyStretch | graphrun/src/time.rs:88-106 | over consecutive healthy observations boot time never goes back, gaps are at most 2 s each, and wall and boot time drift apart by at most 252 ms per step |
| ClockCore.AckIffEvidence | graphrun/src/clock.rs:185-196 | an acknowledgement passes if and only if it ends at least six consecutive healthy observations over at least 10 s, with the wall reading less 1 s at or above the watermark |
| ClockAuthority.Authority.constructor | graphrun/src/clock.rs:80-102 | starts faulted and recorded exactly if the flag was stored |
| ClockAuthority.Authority.Observe | graphrun/src/clock.rs:25-53 | reports a fault exactly if, in numbers, wall time is more than 2000 ms behind the watermark or the reading is out of step with the previous one; updates the monitor accordingly |
| ClockAuthority.Authority.Look | graphrun/src/clock.rs:112-149 | observes the clocks or notes that they could not be read, and latches the signal exactly on a new fault |
| ClockAuthority.Authority.Report | graphrun/src/clock.rs:150-166 | writes a new fault, or returns a good reading |
| ClockAuthority.Authority.Sample | graphrun/src/clock.rs:112-166 | returns the reading exactly if there was no fault before, the clocks could be read, and the reading is neither behind the watermark nor out of step; keeps the latch invariant; a new fault is signalled and written once |
| ClockAuthority.Authority.Confirm | graphrun/src/clock.rs:185-196 | passes if and only if the observations end in at least ten healthy seconds |
| ClockAuthority.Authority.Clear | graphrun/src/clock.rs:197-204 | clears the stored flag, the monitor, the cached quorum and the signal, and nothing else |
| ClockAuthority.Authority.Acknowledge | graphrun/src/clock.rs:168-204 | succeeds exactly from a recorded fault, with a reason, readable clocks, a working write and evidence, and then clears monitor, stored flag, cached quorum and signal; otherwise nothing but the observation changes |
| ClockRuns.StepInv | graphrun/src/clock.rs:112-349 | every step of sample, acknowledge and quorum calls, every dropped caller, every membership change and every crash keeps the invariant |
| ClockRuns.RunInv | graphrun/src/clock.rs:80-349 | the invariant holds after every interleaving of events from every start |
| ClockRuns.SignalMatchesAtRelease | graphrun/src/clock.rs:129-143 | in every reachable state with the monitor lock free, the published signal is latched exactly if the monitor is faulted or an acknowledgement that cleared it was dropped before it finished |
| ClockRuns.CacheNeverAhead | graphrun/src/clock.rs:254-263 | in every reachable state, a cached quorum sampled since the monitor was last cleared is not newer than the last observed boot time while the monitor is not faulted; every cached quorum is such a one unless an acknowledgement has cleared the monitor and none has finished since |
| ClockRuns.AnswersAreFresh | graphrun/src/clock.rs:316-341 | every answer is a real joint quorum of the membership the call saw; a cached one is younger than its limit (at most 10 s) at that call's own reading; one sampled since the last clearing is, while not faulted, no newer than the last observed boot time, and outside the window of an unfinished acknowledgement all but single-voter answers are such |
| ClockRuns.NoSuccessAfterFaultInRuns | graphrun/src/clock.rs:112-166 | in every run, between a fault and a later successful sample there is an acknowledgement that has cleared the flag and the monitor, or a restart without the stored flag |
| ClockRuns.RecordedFaultSurvivesRuns | graphrun/src/clock.rs:80-102 | in every run, after a recorded fault no sample succeeds, across any restarts, before an acknowledgement with evidence has cleared the flag |
| ClockRuns.AcknowledgementsHaveEvidence | graphrun/src/clock.rs:168-204 | in every run, whatever clears the flag rests on a stretch of at least ten healthy seconds |
| ClockRuns.MarksAreRight | graphrun/src/clock.rs:25-53 | in every run an observation is marked faulty exactly if it is untrue, against the last reading seen before it, whatever ran or failed in between |
| ClockRuns.SuccessesAreTrue | graphrun/src/clock.rs:150-164 | in every run every successful sample had wall time plus 2000 ms at or above the watermark, and boot and wall time in step with the last reading before it |
| ClockRuns.FaultsAreRedeemed | graphrun/src/clock.rs:112-204 | in every run whatever went wrong in the process before a successful sample was followed by at least six consecutive healthy observations over at least 10 s |
| ClockRuns.RestartKeepsStored | graphrun/src/clock.rs:80-102 | from every reachable state a restart is faulted, and signals it, exactly if the last write of the flag set it |
| ClockSteps.StoredLaw | graphrun/src/clock.rs:112-204 | in every reachable state, the flag is set exactly by a finished write of a fault and cleared exactly by that of an acknowledgement, dropped callers included |
| ClockSteps.FaultLaw | graphrun/src/clock.rs:112-204 | a fault begins exactly with a sample that reads no clock or an untrue one, ends exactly with the write of an acknowledgement that is still there, and outlasts a crash exactly if stored |
| ClockSteps.SampleLaw | graphrun/src/clock.rs:112-166 | where a call stands after a sample: it goes on with the reading, or writes the fault under the lock, or fails |
| QuorumCalls.ReadMembersLaw | graphrun/src/clock.rs:222-253 | a call is answered at once exactly if this node is the only voter of every configuration, and goes on exactly if there are several voters |
| QuorumCalls.TakeCacheLaw | graphrun/src/clock.rs:254-315 | answered from the cache exactly if allowed, for the same membership and a quorum younger than 5 s; else the voters that respond are asked exactly if the roster agrees and this node votes |
| QuorumCalls.ConcludeLaw | graphrun/src/clock.rs:316-348 | with the membership unchanged, a fresh quorum exactly if the healthy outnumber the others everywhere, which is then cached; else the cached one exactly if allowed, of that membership and younger than 10 s |
| ClockLocks.ProgressIffUncrossed | graphrun/src/clock.rs:168-330 | in every reachable state with a lock held, some call that holds one can take a step if and only if the locks are not crossed |
| ClockLocks.CrossedStep | graphrun/src/clock.rs:201-201 | a crossing survives a step exactly if that is neither a restart nor the dropping of one of the two callers |
| ClockLocks.CrossedLocksStay | graphrun/src/clock.rs:201-201 | once an acknowledgement and a probing quorum call each hold the lock the other needs, no run without these events changes that |
| ClockWitnesses.CrossedLocksReachable | graphrun/src/clock.rs:254-330 | such a state is reached from a fresh start |
| ClockWitnesses.StaleCacheReachable | graphrun/src/clock.rs:197-204 | the exception of the cache bound is reached: not faulted, last boot time 12000, cache checked at 100000 before the clearing |
| ClockWitnesses.StaleAnswerReachable | graphrun/src/clock.rs:254-263 | and a waiting quorum call is answered from that cache |
| ClockWitnesses.DroppedAckLeavesLatched | graphrun/src/clock.rs:197-204 | dropping the acknowledgement there frees the monitor with the signal still latched |
| ClockWitnesses.SampleWithoutAckSuccess | graphrun/src/clock.rs:198-201 | a sample succeeds after a recorded fault, with the signal latched, although the only acknowledgement that cleared the monitor was dropped |
| ClockWitnesses.DroppedAckForgets | graphrun/src/clock.rs:197-197 | an acknowledgement dropped during its write lets a process sample after a crash although none ever finished |
| ClockWitnesses.UnrecordedFaultLost | graphrun/src/clock.rs:145-151 | a crash between observing a fault and writing it lets the next process sample |
| Framing.LeOfValue | graphrun-e2e/src/main.rs:7375-7375 | decoding an encoded 32-bit length gives it back |
| Framing.ValueOfLe | graphrun-e2e/src/main.rs:7295-7299 | encoding a decoded length gives the bytes back |
| Framing.Take | graphrun-e2e/src/main.rs:7259-7268 | returns the slice and advances exactly if it lies inside, else moves nothing |
| Framing.ReadData | graphrun-e2e/src/main.rs:7300-7314 | recognizes a frame exactly within the limits and with a matching checksum |
| Framing.ReadFrame | graphrun-e2e/src/main.rs:7293-7315 | reads one frame or the closing length off the front |
| Framing.ReadAllFrames | graphrun-e2e/src/main.rs:7288-7315 | the loop reads what the recursive description reads, and has fed the digest exactly the bytes before the footer |
| Framing.ReadHeader | graphrun-e2e/src/main.rs:7274-7287 | finds the header exactly after the right magic and a length within the limit |
| Framing.ReadSnapshot | graphrun-e2e/src/main.rs:7270-7325 | the incremental reader accepts and returns exactly what the description accepts |
| Framing.ReadAfterWrite | graphrun-e2e/src/main.rs:7270-7325 | for every valid header, frame sizes and payload, and every digest function, reading what was written returns them |
| Framing.WriteAfterRead | graphrun-e2e/src/main.rs:7270-7325 | every accepted byte string is exactly what the writer makes of the parsed snapshot |
| Framing.AcceptedDigestMatches | graphrun-e2e/src/main.rs:1509-1520 | the reader's incremental footer is the one-shot digest of all but the last 32 bytes |
| Framing.RemainingMeans | graphrun-e2e/src/main.rs:7373-7387 | cutting the payload by the sizes succeeds exactly if they cover it, and then yields the frames |
| Framing.WriteFrames | graphrun-e2e/src/main.rs:7370-7387 | the writing loop produces the header followed by the frames, or refuses |
| Framing.WriteSnapshot | graphrun-e2e/src/main.rs:7370-7393 | the rewriter produces the whole snapshot exactly if the sizes cover the payload |
| FramingLayout.FramesLaidIff | graphrun-e2e/src/main.rs:7293-7315 | the bytes after the header are the writer's frames exactly if frame i stands 36 bytes per earlier frame and their sizes further on: its size in four bytes, its part of the payload, the digest of that part |
| FramingLayout.ReadIffLaid | graphrun-e2e/src/main.rs:7270-7325 | the reader accepts exactly the bytes with the title, a zero byte, a header of 1 to 1048576 bytes, such frames of at most 16777216 bytes in all, four zero bytes and the digest of everything before, and returns what they hold |
| CanonicalJson.AscendingUnique | graphrun-e2e/src/main.rs:5886-5887 | the same keys have only one ascending order, so the order they are met in does not matter |
| CanonicalJson.SortKeys | graphrun-e2e/src/main.rs:5886-5887 | whatever order the entries come in, the result is all keys in the one order in which each precedes the later ones, by dictionary order |
| CanonicalJson.AppendItems | graphrun-e2e/src/main.rs:5874-5883 | the array loop appends the canonical items, or refuses exactly on a non-integer number |
| CanonicalJson.AppendField | graphrun-e2e/src/main.rs:5889-5894 | appends a comma if needed, the quoted key, a colon and the value's text, or refuses |
| CanonicalJson.AppendFields | graphrun-e2e/src/main.rs:5888-5895 | the object loop appends the canonical fields in the given key order, or refuses |
| CanonicalJson.Append | graphrun-e2e/src/main.rs:5859-5900 | succeeds if and only if the value holds no non-integer number, and appends its canonical text, which `CanonRead` reads back |
| CanonicalJson.BeforeIff | graphrun-e2e/src/main.rs:5887-5887 | the order of keys is dictionary order: one is a proper prefix of the other, or the first character in which they differ is smaller |
| JsonReader.NumbersNotPrefixFree | graphrun-e2e/src/main.rs:5865-5870 | the text of one number can start the text of another |
| JsonReader.IntegerRead | graphrun-e2e/src/main.rs:5865-5870 | a reader that adds up decimal digits from the left reads every integer back before a delimiter or the end |
| JsonReader.EscapeLengths | graphrun-e2e/src/main.rs:5871-5873 | two characters for the seven named escapes, six for the other control characters, and every other character stands for itself |
| JsonReader.RestRead | graphrun-e2e/src/main.rs:5871-5873 | a reader of the escapes of section 7 of RFC 8259 reads every quoted string back, whatever follows it |
| JsonReader.CanonRead | graphrun-e2e/src/main.rs:5859-5900 | a reader of compact JSON reads the text of every value without non-integer numbers back as a document that is the value, with the keys of every object at every depth in ascending dictionary order |
| JsonReader.FloatFreeIffSpellable | graphrun-e2e/src/main.rs:5865-5869 | the printer refuses exactly the values that no such document spells |
| JsonReader.CanonUnique | graphrun-e2e/src/main.rs:5859-5900 | canonical text followed by a delimiter can be split in only one way, for nested values of any shape |
| JsonReader.CanonInjective | graphrun-e2e/src/main.rs:5859-5900 | two values without non-integer numbers have the same canonical text if and only if they are equal |
| JsonReader.CanonicalText | graphrun-e2e/src/main.rs:5902-5906 | text exactly for the values that can be spelled; it reads back as the value with ascending keys |
| Codecs.ReferenceRoundTrip | graphrun/src/binding.rs:24-76 | parsing the stable text of a reference gives it back if and only if its node key, if any, is valid; otherwise parsing fails |
| Codecs.ReferenceTextUnique | graphrun/src/binding.rs:24-76 | every accepted text is the stable text of the reference it denotes |
| Codecs.LastMarker | graphrun/src/ids.rs:209-217 | finds the last version marker, if there is one |
| Codecs.ActivityKeyRoundTrip | graphrun/src/ids.rs:205-217 | parsing inverts printing for every name, even one that contains the marker, and every 32-bit version |
| Codecs.ActivityTextRoundTrip | graphrun/src/ids.rs:205-217 | printing inverts parsing if and only if the version text is canonical decimal |
| Codecs.LeadingZeroAccepted | graphrun/src/ids.rs:209-217 | for every name there is an accepted text that does not round-trip |
| Codecs.ReferenceTable | graphrun/src/binding.rs:24-60 | what each of the ten reference texts names, and that a node text names its node exactly if the key is valid |
| Codecs.ActivityTextIff | graphrun/src/ids.rs:209-217 | a text is read as a key exactly if it is the name, "/v" and decimal digits, perhaps after one plus sign, of a number below 2^32 |
| Names.NodeKeyIff | graphrun/src/ids.rs:243-256 | a node key is 1 to 64 lower-case letters, digits and underscores, a letter first |
| Names.AsciiNameIff | graphrun/src/ids.rs:269-275 | a name is 1 to 64 letters, digits, underscores, full stops and hyphens |
| Retry.BackoffBounded | graphrun/src/client.rs:276-327 | after any number of sleeps the back-off is between 250 and 5000 ms, never falls, and is at its ceiling from the fifth sleep on; the modulus is never zero |
| Retry.JitterBounded | graphrun/src/client.rs:321-326 | every jitter is between 250 ms and the back-off; a sleep asked for before the deadline does not pass it; on waking the deadline is over or 250 ms have gone by |
| Retry.SleepsBounded | graphrun/src/client.rs:275-328 | these bounds hold for every sleep of every run |
| Retry.WaitsTakeTime | graphrun/src/client.rs:275-328 | while there is time left, each sleep so far has taken its 250 ms and each redirect its own least time |
| Retry.AttemptsBounded | graphrun/src/client.rs:275-328 | whatever clocks, replies and random draws do, attempts that are not redirected number at most the budget divided by 250 ms, rounded up |
| Retry.RedirectsBounded | graphrun/src/client.rs:275-328 | if every redirect takes at least d, all attempts together number at most the budget over 250 ms plus the budget over d, each rounded up |
| Retry.RedirectRunFits | graphrun/src/client.rs:312-312 | n redirects without a sleep need (n - 1) d to be less than the budget |
| Retry.RedirectRunExists | graphrun/src/client.rs:312-312 | and whenever that holds there is such a run: with d = 0 of any length |
| Retry.Pause | graphrun/src/client.rs:319-327 | sleeps for the jittered back-off or until the deadline, whichever is sooner |
| Retry.GrpcClient.constructor | graphrun/src/client.rs:74-95 | a client starts with its endpoint and budget |
| Retry.GrpcClient.FollowRedirect | graphrun/src/client.rs:331-367 | only an unavailable reply that names a reachable leader moves the client there; a malformed one is an error |
| Retry.GrpcClient.Settle | graphrun/src/client.rs:298-318 | decides between answering, refusing, following and waiting |
| Retry.GrpcClient.TakeTurn | graphrun/src/client.rs:277-327 | one turn makes exactly the attempt, redirect or sleep that the record of the call prescribes |
| Retry.GrpcClient.Retry | graphrun/src/client.rs:270-329 | every call leaves a lawful record, goes to the last leader it followed, and ends for the reason it states |
| RetryLaws.BackoffIs | graphrun/src/client.rs:276-327 | 250, 500, 1000, 2000, 4000 and from then on 5000 ms |
| RetryLaws.WaitsIff | graphrun/src/client.rs:298-318 | only the four named codes are tried again, Unavailable only without a leader to go to or with an unreachable one, and so is an attempt that times out |
| RetryLaws.LawfulIff | graphrun/src/client.rs:270-329 | a log is lawful exactly if each attempt starts where and when the one before says, is limited by 5 s or the deadline, follows the leader exactly when refused with one, and sleeps exactly on a reply to try again, for the drawn number of milliseconds up to the ceiling but not past the deadline |
| RetryLaws.EndsIff | graphrun/src/client.rs:270-329 | how a call comes back, told by the last reply, the last draw and the clock |
| RetryLaws.EndsOnce | graphrun/src/client.rs:270-329 | a lawful log ends in only one way |

## Left out

- YAML text, source spans, unknown-field checks and error messages: the compiler model starts from a parsed tree.
- Which of several faults is reported first: contracts say when there is an error and that the reported one is real.
- Retry policies, attempt timeouts and delays as values: they add only easy range checks.
- Schemas beyond their names, literal values and pointers into values: opaque text in the model; a literal `true` is the text of that value.
- The definition digest itself (graphrun/src/compiler.rs:1245-1257): it rests on serialization and SHA-256. Whether a definition has canonical text, and how long it is, is an arbitrary function given to the compiler and the builder.
- Signal declarations collected by the builders: a map carried along and merged, not looked at by the analysis.
- Builder parity with the compiler's limits: validation does not enforce node count, nesting, loop limits or saga coverage, so these are stated for compiled definitions only.
- Region paths of builder-made regions: every one carries the root path (graphrun/src/builder.rs:1106-1106), so unique paths are stated for compiled definitions only.
- The split of the draft into a graph builder and a chain builder: one class in the model, whose chain methods keep a tail.
- The stack vector of the cycle search and the per-edge availability map of the analysis: both are written and never read.
- SHA-256: any function to 32 bytes stands for it, so nothing rests on collisions being hard to find.
- Overflow of offsets in the frame reader: lengths are unbounded integers, and the checked addition never fails on real buffers.
- Integers beyond 64 bits in JSON: the parser turns them into floating-point numbers, which the printer refuses.
- UTF-8: JSON text is characters, compared by code point, which is the order of their bytes.
- Reasons and log lines of clock faults: only whether there is a fault matters to the latch.
- The pause of an acknowledgement while it reads the committed watermark under the monitor lock (graphrun/src/clock.rs:187-187): one step with the observation and the test; a caller dropped in that pause has changed nothing.
- How long probes take and how the network answers: an arbitrary set of responding voters.
- Calls that never return: the world's part of a retried call is a finite sequence of turns, of any length.
- Evaluation of bindings at run time beyond bindings and conditions themselves: which values a scope holds is arbitrary in the model.
- Workflow execution, storage, cluster membership, TLS and the gRPC surface: not part of this model.
