# Verified model of the semstreams admission, port, stream and loop core

semstreams boots a composition of components that exchange data through typed ports. This project
models, in Dafny, the parts of it whose correctness spans several functions or a whole run, and
proves what they promise for every input, every interleaving or every reachable state.

- **Port grammar** (`PortGrammar`, `PortCodec`, `PortResolver`, `PortMerge`): the closed codec of twelve
  port kinds at JSON-object level, direction rules, the facts projection, the JSON envelopes and
  override merging. `time.ParseDuration(s) > 0` is the parameter `positive`.
- **Admission** (`Exclusive`, `Admission`, `Registry`, `RegistryProtocol`): preparing and declaring a
  component, the `Registry` object, and the registry as a transition system in which any number of
  creators, registrations and seals interleave at the granularity of the registry's lock sections. A factory
  call and the owner callback return whatever the step says they return.
- **Offline judge** (`Validate`, `Subjects`, `SubjectOverlap`, `Analyze`, `Findings`, `Composition`): the loop
  of `composition.Validate` with its `claimed` index, NATS subject coverage and overlap, the graph-level
  analysis over an abstract flow graph, the finalised report, and the whole of `Validate` joining them.
- **Stream planning** (`Duration`, `StreamBounds`, `StreamPlan`): the three sources of stream
  declarations and their precedence, both kinds of exemption, and acceptance as the clock moves.
- **Loop lifecycle** (`LoopEntity`): the mutable loop entity and every run of its stepping methods.
- **Scanners and truncators** (`JsonDepth`, `Utf8`): the JSON depth scanner over raw bytes, and the two
  UTF-8 truncation algorithms.
- **Configuration** (`DeepMerge`, `SafeConfig`): recursive layer merging, and the lock-held
  read-modify-write with its interleavings.
- **Canonical order** (`Text`, `Sorting`, `Ordering`, `Trajectory`): stable sorting and the key orders that
  make outputs independent of input order.

`dafny verify dfyconfig.toml` checks the whole project.

## Where the code and its description differ

The model follows the code. Each difference has a lemma that shows it and one that says exactly when the
description holds.

- `component/doc.go:16-18` says factory registration fails after the seal. `RegisterFactory` does not look
  at the seal, so only the declarations freeze (`RegistryProtocol.RegisteredAfterSeal`,
  `RegistryProtocol.RegisterWhenSealed`, `RegistryProtocol.FactoriesIgnoreSeal`).
- `composition/validate.go:76-78` says `declareInstance` mirrors the checks of `prepareComponent`. Taken
  alone it also checks the component-type vocabulary, which `prepareComponent` does not
  (`Validate.VocabularyGap`, `Validate.PreparedAcceptedIffTypeKnown`). In the program both sit behind
  `Config.Validate`, whose component clause (config/config.go:253-261) applies the same check before a
  boot creates anything; behind that gate the two agree (`Validate.GateClosesGap`).
- The parity check compares kind, resource ID and subjects. Two http-client ports can agree on these and
  still connect differently when a method contains a colon (`Admission.AmbiguousHttpResource`,
  `Admission.ParityConnections`).
- `matchTokens` lets a trailing `>` match no token at all, although its comment asks for one or more
  (`Subjects.TailMatchesNothing`, `Subjects.MatchTokens`).
- `matchNATSPattern` works "bidirectionally" by trying each pattern against the other. It misses patterns
  each of which is wider than the other somewhere, such as "a.*" and "*.b"
  (`SubjectOverlap.CrossedWildcardsMissed`, `SubjectOverlap.MatchIsOverlapIff`).
- `explicitStreamCovers` asks for one covering filter per subject, so it reports a `>` subscriber that
  several filters feed between them (`Subjects.TailNeedsOneFilter`, `Subjects.FedYetReportedIff`).
- `truncateLoopDescription` cuts inside its own marker for limits of one and two bytes, so the result is
  not valid UTF-8 there. Its only caller passes 8*1024 (agentic/loop_execution_entity.go:158), where it
  is (`Utf8.TruncatesInsideMarker`, `Utf8.TruncationValid`).
- `parseDurationWithDays` multiplies in 64 bits without a guard; "213504d" is read as less than a day
  and still counts as a declared bound (`StreamPlan.WrappedMaxAge`, `Duration.DaysReadBack`).
- "An awaiting loop has a pending approval" is not kept by the stepping methods; the transitions that
  break it are exactly `LoopEntity.Detaches` (`LoopEntity.AwaitsNothing`,
  `LoopEntity.InStepUnlessDetached`).
- `interfaceFindings` indexes inputs and outputs of a component under one name, so an input that shares
  its name with an output is judged by the output's contract (`Analyze.SharedNameMisjudged`,
  `Analyze.EdgeJudgedByItsPorts`).

Two further laws that a reader might expect do not hold of the code, and have their exact conditions:
layer merging is not associative when an object is replaced by a scalar and then by an object again
(`DeepMerge.OrderShows`, `DeepMerge.AssociativeIff`), and reading a configuration, changing it and storing it
is not a mutation once another change has come in between (`SafeConfig.GetThenUpdateLosesOne`,
`SafeConfig.UpdateIsMutateIff`).

## Model

| member | source | states |
|---|---|---|
| PortGrammar.KindSpelling | component/port_codec.go:43-70 | the twelve kind tags and the twelve kinds correspond one to one |
| PortGrammar.GatherConnections | component/port_facts.go:220-252 | the loop collects the stream name when set and every non-empty subject, in order |
| PortCodec.StructRoundTrip | component/port_codec.go:206-228 | strict decoding inverts struct encoding for every config of all twelve kinds, with zero fields omitted |
| PortCodec.LayoutNames | component/port_codec.go:142-161 | field names are distinct within each kind and none is "kind", so the tag never collides |
| PortCodec.NormalizeIdempotent | component/port_codec.go:273-463 | normalising an accepted config again changes nothing |
| PortCodec.CanonicalForm | component/port_codec.go:191-204 | canonicalising through JSON is normalising, and is idempotent |
| PortCodec.CodecRoundTrip | component/port_codec.go:142-189 | marshalling succeeds exactly when the config has a canonical form, and what is written decodes to that form |
| PortCodec.DecodedIsCanonical | component/port_codec.go:163-189 | whatever decodes is its own canonical form, re-marshals, has only fields of its kind, and carries the kind of its tag |
| PortResolver.ResolveFixpoint | component/port_resolver.go:16-63 | resolving the definition of a resolved port in its own direction gives the identical port and facts |
| PortResolver.CanonicalSettles | component/port_resolver.go:16-90 | for every definition and direction, resolution keeps the name, projects the facts of its config, gives JetStream ports subjects, and is a fixpoint |
| PortResolver.ResolvedMeaning | component/port_resolver.go:16-152 | a resolved port has a name with a rune that is not white space and a known direction, meets its direction requirements and field constraints, and is canonical |
| Text.BlankMeaning | component/port_resolver.go:17-19 | text that trims to nothing is exactly text of white space only |
| PortResolver.ResolvedJetStream | component/port_resolver.go:65-121 | a resolved JetStream input names a stream, an output sets neither max_ack_pending nor import, and an import lane is an external input |
| PortResolver.DefinitionRoundTrip | component/ports.go:68-116 | a port definition marshals exactly when its config canonicalises, and reads back with that canonical config |
| PortResolver.PortRoundTrip | component/port.go:75-127 | every resolved port survives its JSON envelope unchanged |
| PortMerge.ResolveLane | component/ports.go:206-225 | the defaults resolve in order exactly when names are distinct and each resolves; the index finds each name |
| PortMerge.MergePortDirection | component/ports.go:206-246 | merging succeeds exactly when defaults are sound and overrides are distinct, known and kind-preserving; every slot is then the resolved override of its name or the resolved default |
| PortMerge.SlotKeepsNameAndKind | component/ports.go:226-246 | each merged slot keeps the default's name and kind and is already resolved |
| PortMerge.MergeIdempotent | component/ports.go:184-246 | merging the same overrides into the result is accepted and changes nothing |
| Exclusive.CompactStrings | component/registry.go:788-801 | in place, the prefix left is the input with adjacent duplicates removed |
| Exclusive.CompactSorted | component/registry.go:788-801 | on a sorted list that is the strictly increasing listing of the same elements |
| Exclusive.ComputeExclusive | component/registry.go:763-772 | the result is the sorted set of resource IDs of the exclusive ports |
| Admission.ResolveEach | component/registry.go:377-389 | all definitions resolve, in order, or the whole list fails |
| Admission.ParityConnections | component/registry.go:422-447 | equal kind, resource ID and subjects give equal connection-ID sets for every kind but http-client, and there exactly when the methods are equal |
| Admission.PreparedIsDeclared | component/registry.go:233-375 | if a component prepares, Declare succeeds on it with the same instance, the same exclusive resources and, port by port, agreeing ports |
| Admission.AmbiguousHttpResource | component/port_facts.go:197-202 | two http-client configs that parity cannot tell apart and that connect differently |
| Admission.PreparedIsRetained | component/registry.go:740-761 | every port of a prepared declaration re-resolves to itself |
| Admission.RetainedClones | component/registry.go:868-888 | cloning a retained declaration cannot fail and gives it back |
| Registry.AdmitKeepsCoherence | component/registry.go:449-470 | admission keeps names in place and exclusive resources pairwise disjoint, and only adds |
| Registry.Registry.constructor | component/registry.go:149-154 | an empty, unsealed registry |
| Registry.Registry.RegisterFactory | component/registry.go:158-187 | a factory is stored exactly when its name is new and it is complete, sealed or not; nothing else changes |
| Registry.Registry.SealComposition | component/registry.go:475-479 | the registry is sealed and nothing else changes |
| Registry.Registry.CheckResourceConflicts | component/registry.go:723-738 | the scan finds a conflict exactly when another admitted declaration holds one of the resources |
| Registry.Registry.AdmitPrepared | component/registry.go:449-470 | exactly one of: admitted, or refused as sealed, duplicate or conflicting with nothing changed |
| Registry.Registry.CreateComponent | component/registry.go:203-312 | run alone, creation succeeds exactly when preparation, the owner and admission do, and otherwise changes nothing |
| Registry.Registry.DeclarationsSnapshot | component/registry.go:855-888 | the snapshot lists every admitted declaration once, in name order, and no clone fails |
| RegistryProtocol.NextSound | component/registry.go:203-231 | every step keeps disjointness, and everything in flight or admitted re-resolves to itself |
| RegistryProtocol.NextAccounted | component/registry.go:449-470 | every step keeps successful calls and admitted declarations in one-to-one correspondence |
| RegistryProtocol.EveryRunIsSafe | component/registry.go:203-231 | in every interleaving names are distinct, exclusive resources pairwise disjoint, successes are exactly the admissions, and cloning any admitted declaration succeeds |
| RegistryProtocol.BootIsSafe | component/registry.go:149-154 | all of that for every run from an empty registry |
| RegistryProtocol.RunsOnlyGrow | component/registry.go:449-479 | in every run admitted declarations and factories are never changed or dropped, and nothing is admitted once sealed |
| RegistryProtocol.RegisterWhenSealed | component/registry.go:158-187 | in a sealed registry a new factory name is registered exactly when the offer is acceptable |
| RegistryProtocol.FactoriesIgnoreSeal | component/registry.go:158-187 | over every run the factory table gains exactly the names offered acceptably, wherever the seal stands |
| RegistryProtocol.RegisteredAfterSeal | component/registry.go:158-187 | a run in which a registration succeeds after the seal |
| RegistryProtocol.SealIsFinal | component/registry.go:449-479 | whatever follows the seal, also from creators that read it as open, the declarations are those at the seal |
| RegistryProtocol.RunLinearises | component/registry.go:449-470 | every interleaving admits what sequential admission in write-lock order admits |
| Validate.DeclareInstanceExact | composition/validate.go:79-137 | an instance is declared exactly when Declare accepts it and its type is in the vocabulary, with the same declaration |
| Validate.PreparedAcceptedIffTypeKnown | composition/validate.go:79-137 | of what prepareComponent accepts, declareInstance accepts exactly the known types, with the same exclusive resources |
| Validate.GateClosesGap | config/config.go:253-261 | when every entry passes the component clause of Config.Validate, declareInstance accepts exactly what Declare accepts, and everything prepareComponent accepts |
| Validate.VocabularyGap | types/component.go:98-117 | an entry that prepareComponent accepts and declareInstance refuses, and that Config.Validate refuses before either |
| Validate.ExclusiveConflict | composition/validate.go:139-156 | a conflict is reported exactly when a resource is claimed, naming the resource and its holder |
| Validate.IndexIsScan | composition/validate.go:139-156 | the claimed index refuses exactly what the pairwise scan over accepted declarations refuses |
| Validate.Visit | composition/validate.go:46-66 | one turn of the loop keeps everything the judge promises |
| Validate.Judge | composition/validate.go:19-74 | what passes is exactly what the registry keeps of the same declarations in the same order; a conflict is reported exactly when one is not kept; every enabled component is accepted or named by a finding, never both |
| Validate.KeptIsAdmitted | component/registry.go:449-470 | the kept list is what sequential admission admits |
| Validate.ScanRefusal | component/registry.go:723-738 | a new name is admitted exactly when it shares no resource with what is kept |
| Validate.AllKeptIffDisjoint | composition/validate.go:46-66 | a conflict-free verdict means exactly that the declarations are pairwise disjoint |
| Validate.JudgePredictsBoot | composition/validate.go:12-74 | when the configuration passes the gate and every enabled component prepares, the judge keeps the same instances with the same claims as boot admission |
| Validate.ConflictFreeAdmitsAll | component/registry.go:449-470 | sequential admission admits all of a conflict-free set |
| Validate.ConflictFreeRunAdmitsAll | component/registry.go:203-231 | every interleaving admits all of a conflict-free set of attempts |
| Validate.RunAdmitsAllIff | component/registry.go:203-231 | an interleaving that offers each declaration once before the seal admits all of them exactly when they are pairwise disjoint |
| Validate.VerdictDecidesBoot | composition/validate.go:12-74 | when the configuration passes the gate and every enabled component prepares, the judge reports no conflict exactly when an interleaving of boot that offers each once before the seal admits all of them, whichever it is |
| Composition.Validate | composition/validate.go:19-74 | gate, judge and analysis together give the report of all their findings added at once, although the analysis is sorted, appended and sorted again |
| Composition.JudgeSilentIff | composition/validate.go:46-66 | the judge finds nothing exactly when every enabled component is declared and no two share an exclusive resource |
| Composition.ValidateErrorsIff | composition/validate.go:19-74 | the status is "errors" exactly when the configuration is refused, an enabled component is refused, two share an exclusive resource, or the accepted graph does not connect or is faulty |
| Composition.ValidateCanonical | composition/validate.go:68-73 | status and finding keys do not depend on the order the flow graph walks its maps, nor the whole report when no two different findings of one severity share their keys |
| Composition.CleanVerdictBoots | composition/validate.go:12-74 | if Validate reports no errors and every enabled component prepares, every interleaving of boot that offers each once before the seal admits them all |
| Subjects.SplitJoin | component/flowgraph/flowgraph.go:389-423 | splitting a joined token list gives the tokens back |
| Subjects.CoverIsContainment | component/flowgraph/flowgraph.go:381-443 | a filter covers a pattern exactly when both are well formed and every concrete subject the pattern matches is matched by the filter |
| Subjects.MatchTokens | component/flowgraph/flowgraph.go:485-519 | the matching loop decides NATS matching except that a trailing `>` also matches nothing, and exactly then it differs |
| Subjects.ExplicitStreamCovers | composition/analyze.go:114-135 | the two loops decide whether the named stream is declared and covers every subject of a non-empty list |
| Subjects.CoveredSubscriberIsFed | composition/analyze.go:108-135 | a covered subscriber's stream captures every message it can be sent |
| Subjects.TailMatchesNothing | component/flowgraph/flowgraph.go:485-519 | "data.>" matches "data" |
| SubjectOverlap.MatchNATSPattern | component/flowgraph/flowgraph.go:445-483 | whichever branch is taken, the answer is whether one pattern matches the other token by token |
| SubjectOverlap.OverlapIff | component/flowgraph/flowgraph.go:445-483 | two patterns share a publishable subject exactly when both are well formed, their lengths allow it and the tokens both fix agree up to `*` |
| SubjectOverlap.MatchDecides | component/flowgraph/flowgraph.go:445-519 | well-formed patterns are matched exactly when they overlap and one of them is nowhere wider, or when one ends where the other's `>` begins |
| SubjectOverlap.MatchIsOverlapIff | component/flowgraph/flowgraph.go:445-519 | the exact condition under which matching is overlap, for all strings |
| SubjectOverlap.CrossedWildcardsMissed | component/flowgraph/flowgraph.go:445-519 | "a.*" and "*.b" overlap and are not matched |
| Subjects.FedIffCovered | composition/analyze.go:108-135 | for a subject without `>`, the stream captures every message the subscriber can be sent exactly when one filter covers the subject |
| Subjects.TailFedIff | composition/analyze.go:108-135 | for a subject ending in `>`, it does exactly when every unfolding of the tail, up to a length the filters bound, has a covering filter |
| Subjects.FedYetReportedIff | composition/analyze.go:108-135 | a fed subscriber is reported exactly when its subject is malformed, or ends in `>` with every unfolding covered and no one filter covering it |
| Subjects.TailNeedsOneFilter | composition/analyze.go:108-135 | with `>`, two filters can feed a subscriber that neither covers |
| Analyze.ExternalInputs | composition/analyze.go:157-167 | the index holds exactly the inputs declared external |
| Analyze.SubscriberStreamNames | composition/analyze.go:141-154 | the index maps each JetStream input to the stream it binds, later ports winning |
| Analyze.InterfaceContracts | composition/analyze.go:215-229 | the two-level index of contract types, outputs over inputs |
| Analyze.AddConnected | composition/analyze.go:58-102 | the four loops add exactly the findings the connected graph calls for, in order |
| Analyze.Analyze | composition/analyze.go:23-106 | the report, the nodes in instance order and the edges in canonical order, in the empty, the unconnectable and the connected case |
| Analyze.RefusedIffFaulty | composition/analyze.go:58-106 | status "errors" holds exactly when a required stream input lacks a publisher and is not external, a subscriber has no covering stream, or two declared contracts differ |
| Analyze.ImportLaneNeverOrphaned | composition/analyze.go:68-78 | a resolved import lane is never reported for want of a publisher |
| Analyze.AnalyzeCanonical | composition/analyze.go:23-106 | nodes, edges, status and finding keys do not depend on the order of declarations, of the flow graph's maps, or of the publishers listed for a subscriber; nor does the whole report when no two different findings of one severity share their keys |
| Analyze.PermutedPublishers | composition/analyze.go:85-86 | subscribers that differ only in the order of their publishers count as the same flow |
| Analyze.StreamNameLookup | composition/analyze.go:137-154 | a subscriber is judged by the stream its own last JetStream input of that name binds, and by no stream when there is none |
| Analyze.ContractLookup | composition/analyze.go:215-229 | a port name finds the last output so named, or else the last input |
| Analyze.SharedNameMisjudged | composition/analyze.go:215-262 | an edge whose two ports agree and that is reported as a mismatch, because an output shares the input's name |
| Analyze.EdgeJudgedByItsPorts | composition/analyze.go:231-247 | an edge is judged by its own two ports exactly when no output with a different contract shadows the target input |
| Findings.Result.constructor | composition/findings.go:93-100 | a valid result with no findings |
| Findings.Result.Add | composition/findings.go:102-111 | the finding is appended to the list of its severity and nothing else changes |
| Findings.Result.Append | composition/validate.go:68-73 | the lists of another result are appended, list by list |
| Findings.Result.Finalize | composition/findings.go:114-125 | both lists are sorted stably and the status derived |
| Findings.FindingKeyed | composition/findings.go:127-141 | the comparison is the lexicographic order of type, component, port and message |
| Findings.ReportConserves | composition/findings.go:102-125 | every finding is reported once, in the list of its severity, in key order |
| Findings.StatusMeaning | composition/findings.go:114-125 | status is "errors" exactly when an error was found, "valid" exactly when nothing was |
| Findings.ReportCanonical | composition/findings.go:114-141 | equal multisets of findings give the same status and the same key sequences |
| Findings.ListDetermined | composition/findings.go:127-141 | a severity list is the same for every arrival order exactly when no two different findings in it share all four keys |
| Findings.ReportDetermined | composition/findings.go:114-141 | under that condition the whole report is the same |
| Findings.ReportAbsorbs | composition/validate.go:68-73 | reporting part of the findings first, then appending and reporting again, gives the report of all of them |
| Findings.EdgesCanonical | composition/graph.go:92-121 | equal edge multisets project to the identical, sorted edge sequence |
| Trajectory.SortTrajectoryFacts | agentic/trajectory_query.go:47-64 | in place, the slice becomes a permutation of itself in key order with every class of equal keys in its former order |
| Trajectory.FactsInCausalOrder | agentic/trajectory_query.go:47-85 | the facts are permuted into iteration, phase and ordinal order |
| Trajectory.FactsCanonical | agentic/trajectory_query.go:47-85 | facts with distinct attempt IDs have one display order |
| Trajectory.FactsCanonicalIff | agentic/trajectory_query.go:47-85 | the display order is unique exactly when no two different facts share the whole sort tuple |
| Sorting.StableSortUnique | composition/findings.go:127-141 | whatever is sorted and keeps each class of ties in order is the one stable sort |
| Sorting.CanonicalIffNoTies | composition/graph.go:103-121 | a stable sort forgets the input order exactly when no two different elements tie |
| Duration.DaysRead | config/config.go:666-676 | whatever Atoi reads as N, signed or padded, followed by "d" is N days wrapped to 64 bits, exact exactly for N from -106751 to 106751; what Atoi refuses is refused |
| Duration.DaysReadBack | config/config.go:666-676 | a count written in plain digits is read so, exactly up to 106751 |
| StreamBounds.ResolveStreamDeclarations | config/stream_bounds.go:218-329 | resolution fails exactly on a refused operator entry or port, and otherwise yields one declaration per name, names in order |
| StreamBounds.ResolutionMeaning | config/stream_bounds.go:218-355 | names strictly increase; the operator entry beats the framework constant, which beats the first port in component order; nothing redeclares a fixed stream; attributions are sorted |
| StreamBounds.NoPortIsFixed | config/stream_bounds.go:270-310 | no port derives a fixed or non-ordinary stream, and none sets a discard policy |
| StreamBounds.AttributionConserved | config/stream_bounds.go:218-329 | together the declarations attribute every JetStream output of every enabled component exactly once, and nothing else |
| StreamPlan.ValidateExceptionDeclarations | config/stream_bounds.go:507-579 | accepted exactly when every archival entry and override is well formed and every override in force; the exemptions and both reports are listed in name order |
| StreamPlan.MarkExemptions | config/stream_bounds.go:440-465 | every declaration carries its exemption, and nothing is undeclared exactly when each is bounded or exempt |
| StreamPlan.PlanStreams | config/stream_bounds.go:440-497 | a plan is returned exactly when declarations resolve, exceptions hold and every stream is bounded or exempt |
| StreamPlan.ExpiredMigrationOverrides | config/stream_bounds.go:671-699 | lists exactly the lapsed overrides, in name order, with saturated remaining time that is never positive and zero only at the instant of expiry |
| StreamPlan.AcceptedIff | config/stream_bounds.go:440-465 | the clock enters acceptance only through the set of lapsed overrides |
| StreamPlan.AcceptanceOverTime | config/stream_bounds.go:440-465 | a plan accepted once is accepted at every earlier time, later exactly while nothing has lapsed, and the lapsed set only grows |
| StreamPlan.AcceptedStreams | config/stream_bounds.go:482-579 | every stream of an accepted plan is bounded or exempt for exactly one reason, and a stream known only from ports is exempt |
| StreamPlan.PortPolicyReadsBack | config/stream_bounds.go:385-425 | a port's retention days and size are read back exactly, without overflow |
| StreamPlan.WrappedMaxAge | config/config.go:666-676 | an operator max_age that wraps to under a day and still counts as declared |
| LoopEntity.Entity.constructor | agentic/state.go:340-354 | a fresh loop in the first phase, with the default or the given iteration limit |
| LoopEntity.Entity.TransitionTo | agentic/state.go:223-242 | succeeds and moves exactly as the step relation says, touching only the state |
| LoopEntity.Entity.BeginAwaitingApproval | agentic/state.go:267-292 | succeeds and records the call and the prior state exactly as the step relation says |
| LoopEntity.Entity.ResolveApproval | agentic/state.go:298-316 | succeeds and restores exactly as the step relation says |
| LoopEntity.Entity.IncrementIteration | agentic/state.go:331-337 | increments exactly while below the limit |
| LoopEntity.EveryRun | agentic/state.go:223-337 | in every run the state stays in the vocabulary, terminal states are never left, iterations count the successful increments within a fixed limit, and a pending call ID changes only through a successful resolve |
| LoopEntity.EveryRunFromNew | agentic/state.go:340-354 | all of that over every run of a newly made loop and every continuation of it |
| LoopEntity.ResolveLands | agentic/state.go:298-316 | a successful resolve in any reachable state lands in a valid state that is neither terminal nor awaiting |
| LoopEntity.ApprovalRestores | agentic/state.go:267-316 | begin then resolve returns to the prior state exactly when that was not awaiting approval |
| LoopEntity.RepeatedBeginForgets | agentic/state.go:267-316 | a repeated begin for the same call makes resolve land in executing |
| LoopEntity.AwaitsNothing | agentic/state.go:223-242 | a new loop moved to awaiting approval with nothing pending |
| LoopEntity.InStepUnlessDetached | agentic/state.go:223-316 | awaiting and pending stay in step exactly for the steps that do not enter or leave awaiting on their own |
| LoopEntity.InStepThroughout | agentic/state.go:223-316 | the same over whole runs |
| JsonDepth.ValidateJSONDepth | config/security.go:136-188 | arbitrary bytes are accepted exactly when every prefix depth outside strings is within 0..100 and the final depth is 0 |
| JsonDepth.TextPeaks | config/security.go:136-188 | every serialisation of a value, with escapes and white space, peaks at its container nesting and returns to zero |
| JsonDepth.AcceptsByNesting | config/security.go:136-188 | a serialised JSON value is accepted exactly when its nesting is at most 100 |
| Utf8.BoundedTrajectoryText | agentic/trajectory_fact.go:307-316 | text within the limit is unchanged, otherwise the result is the longest valid prefix within it |
| Utf8.BoundaryIffRuneStart | agentic/loop_execution_entity.go:58-63 | in valid UTF-8 a prefix is valid exactly when it ends at a rune start |
| Utf8.WalkBackIsLongest | agentic/loop_execution_entity.go:58-63 | the rune-start walk back is the longest valid prefix, and drops at most three bytes |
| Utf8.TruncateLoopDescription | agentic/loop_execution_entity.go:51-64 | the result fits the limit and is the whole text, a piece of the marker, or the walked-back text and the marker |
| Utf8.MarkedTruncation | agentic/loop_execution_entity.go:51-64 | past the marker's length, whatever valid marker is used, the longest valid prefix that leaves room for it is kept and the result is valid |
| Utf8.TruncationValid | agentic/loop_execution_entity.go:51-64 | valid text stays valid exactly when it fits or the limit is neither one nor two |
| Utf8.TruncatesInsideMarker | agentic/loop_execution_entity.go:51-64 | a valid text that a limit of one makes invalid |
| DeepMerge.DeepMergeMaps | config/config.go:595-622 | whatever order the override is walked in, the result is the key-by-key merge; terminates on any nesting |
| DeepMerge.EmptyOverride | config/config.go:595-622 | the empty override changes nothing |
| DeepMerge.Idempotent | config/config.go:595-622 | applying a layer twice is applying it once |
| DeepMerge.PathsKept | config/config.go:595-622 | paths the override omits or nulls keep the base value; paths it sets to a scalar take it |
| DeepMerge.AssociativeIff | config/config.go:595-622 | three layers associate exactly when the stated structural condition on them holds |
| DeepMerge.UniformLayersAssociate | config/config.go:595-622 | layers that never disagree on whether a key is an object associate |
| DeepMerge.OrderShows | config/config.go:595-622 | three layers that do not associate |
| SafeConfig.SafeConfig.Update | config/config.go:95-109 | stores the validated configuration, or refuses nil and what does not validate and changes nothing |
| SafeConfig.SafeConfig.Mutate | config/config.go:131-144 | stores the validated result of the function on the stored configuration, or fails and changes nothing |
| SafeConfig.NextExclusive | config/config.go:131-144 | every step keeps the lock discipline, under which a draft is always of the configuration still stored |
| SafeConfig.NoChangeIsLost | config/config.go:111-144 | in every interleaving the stored configuration is the composition, in lock order, of exactly the calls that returned success |
| SafeConfig.NoChangeIsLostFromStart | config/config.go:78-144 | the same for every interleaving from a fresh SafeConfig |
| SafeConfig.GetReturnsCurrent | config/config.go:88-92 | in every interleaving a Get returns a configuration that was the stored one at some point between its start and its return |
| SafeConfig.UpdateIsMutateIff | config/config.go:111-144 | reading, computing and then calling Update does what Mutate would, whatever is computed, exactly when the configuration read is still the one stored, and so when nothing was stored in between |
| SafeConfig.GetThenUpdateLosesOne | config/config.go:111-118 | an interleaving of two such clients in which both succeed and one change is lost |

## Left out

- The flow graph (component/flowgraph) except subject coverage, matching and overlap: what it reports is a parameter of `Analyze`.
- Framework streams, the ordinary-stream check, stream-name derivation from subjects, port extraction from raw config, and the duration and date parsers of the Go library are parameters of the stream planner.
- JSON is modelled as objects with exact member names: text syntax, case-insensitive member matching, duplicate members and invalid UTF-8 in strings are not covered. Only `JsonDepth` works on text.
- Nil and empty slices are identified, and the port grammar is closed to its twelve config types.
- Error text, suggestions, logging and which of several faults is reported first inside one error; `Analyze` takes the wording as a parameter.
- Factories, their dependencies, the owner callback and the deployment client are outcomes given to the model; a port declarer is a pure function of its arguments.
- The raw-config security check (`ValidateFactoryConfig`), file, environment and TLS checks are parameters or absent.
- Reference aliasing: Go maps nested in a merged layer and the slices inside clones are values here, and so are registrations, although RegisterFactory stores the caller's pointer (component/registry.go:185).
- Instants are integers of nanoseconds without Go's limits on representable times.
- Utf8.TruncateLoopDescription: limits are natural numbers; a negative limit is outside the model.
- LoopEntity: direct field assignments from other packages, Validate on the entity and the continuation protocol around published requests.
- SafeConfig.SafeConfig.Update: does not model that Update and NewSafeConfig keep the caller's pointer (config/config.go:78-85, 107), so a later write by the caller would bypass the lock; configurations are values here.
- Re-entrant use of SafeConfig inside a mutation, which deadlocks.
- Hashing of long correlation values and the 8 KiB fact size check rest on library behaviour. Entity projections, payload registration, schema generation and metrics are field copies with no property across functions.
