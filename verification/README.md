# Verified model of the reviewed-document pipeline and its graph store

The system takes a legal document, normalises its text and splits it into anchored
articles and paragraphs, turns normative paragraphs into obligation records, has
reviewers accept, edit, reject or escalate them, maps reviewed obligations to a
typed graph, and publishes such graphs as snapshots of a versioned store. This
project models the parts that carry its guarantees and proves what they promise.

**Publish protocol and store.** `GraphStore` is the in-memory store, `Changesets`
the change-set table with its validate and approve actions. `Publisher` splits a
publish call into load, check, read head, write and status update, and validations
and approvals into a read and a write, so that runs can interleave calls and stop
them anywhere; `store.publish` and the update of one row are single steps, and a new
snapshot id is one that was never used. `PublishRuns` proves lineage and optimistic
concurrency over all runs, `StatusRuns` the lifecycle and which snapshots end up
without a published row; `PublishCall` ties the whole call to the steps, and
`StoreSearches` says by position what the store's two searches find.

**Mapping, constraints, query, export.** `Mapping` compiles obligations to nodes
and edges, `MappingShape` says where each of them comes from, and `MappedGraph` says
which they are without the mapper's own functions. `Constraints` is the six-rule type
checker, `RuleMeanings` says what each rule reports, and `MappingTypeChecks` decides
exactly when the mapper's output passes. `ProofPath` is the nested-loop query, `ProofPathPattern` compares it with the declarative pattern, `ExportAgrees`
with what the export reads, and `MappedPaths` with what the mapper can contribute.
`SupersededRegulation` follows mapped versions into the store, `LatestLoop` repeats
that over a sequence of publishes, `ClauseLookup` decides when a clause's latest
change set is found, and `ArticleHistory` walks superseded versions.

**Review.** `Diffs`, `Validator` and `Review` model a decision; `ReportMeanings` and
`DecisionMeanings` say exactly what a report contains and when a decision is refused;
`ReviewRuns` proves replay, append-only history and evidence fidelity over whole runs
of decisions.

**Text and parsing.** `Canonicalizer`, `Structure` and `StructureShape` cover
normalisation and anchors; `Extraction`, `ExtractionMeanings`, `ParseJobs` and
`PipelineRuns` the parse pipeline, alone and mixed with decisions.

**Two small pieces.** `RateLimiter` is the sliding-window limiter; `Layout` and
`LayoutGeometry` the proof-path drawing over the reals.

Code that changes state is modelled by classes and methods, each proved equal to a
specification function; the properties are lemmas about those functions. A Python
exception is an error value, `None` an option, and a dictionary keeps its insertion
order where the code depends on it. Equality of JSON values is Python's, so a
boolean equals the number it converts to, and slicing is Python's, total on all
integers.

## Where code and documentation differ

The model follows the code in each case.

- The store and the mapper call the result of `find_latest_regulation` the most
  recently published version. Right after a publish it is, per instrument, the last
  version that got a node (`LatestAfterPublishing`). For an instrument published in
  one version that is this version exactly when the mapper was given no latest version
  or that same one, and the superseded version otherwise (`LatestIsNewestIff`). So a
  caller who passes the store's own answer, as documented, keeps getting the first
  version: all later ones supersede it, and histories skip those in between
  (`NeverMovesIff`, `LoopLinks`, `HistorySkips`).
- The mapper documents its latest version as one of the same instrument, and applies it
  to the obligations of every instrument (`BorrowedVersion`, `BorrowedExample`).
- The repository documents its status transitions as draft, validated, approved,
  published. A validation reads the row and writes it later, so one that overlaps a
  publish call can put a published row back to approved (`LifecycleIff`,
  `PublishedFallsBack`).
- The publisher keeps the link from change set to snapshot "persisted and queryable";
  a call that stops between its two writes leaves a snapshot whose change set can never
  be published again, since every retry is refused (`StopStrands`, `StrandedIff`).
- The mapper takes the id of any existing entity as an actor; one that is also a
  regulation, provision, obligation, control or asset id of the proposal makes it fail
  the rules (`ProposalPassesIff`, `TypedIffApart`).
- `find_published_by_clause_id` promises the most recently published change set and
  returns the last row in table order. The two can differ (`LookupMissesLatest`); when
  they do is `FoundIsMostRecentIff`, and `FoundIsMostRecent` gives runs where they agree.
- An escalated record is said not to be presentable for accept or edit; a rejection
  reopens it, and nothing else does (`OpenIffReopened`, `RejectReopens`).
- The publisher's comment calls the graph unchanged between the head comparison and
  the write; overlapping calls break this, and with it both promises that rest on it
  (`OverlapWritesBoth`). Bases stay unique exactly when no write finds a moved head
  (`BasesDifferIffNeverStale`); a second snapshot of a change set needs two of its own
  calls between head read and write (`OneSnapshotPerChangeSet`, `DoubleReadDoubles`).
- The dangling rule speaks of nodes already published; validation and publishing
  always pass the empty set, so every endpoint must be in the change set itself.
- The canonicaliser's comment speaks of three or more blank lines; the code reduces
  three or more newlines, that is two or more blank lines, to one blank line.
- The mapper draws asset edges from obligations, the proof path follows them from
  controls; and the mapper draws no evidence edges at all. So no snapshot built by
  the mapper alone has a complete proof path (`MappedPathsEndAtControl`).
- The layout shifts boxes for very wide pairs; with truncated labels this never
  happens (`TruncationKeepsEdgesClear`).
- The nested loops treat an empty evidence id as absent, which the declarative
  pattern does not (`QueryRefinesPattern` excludes exactly those paths).

## Model

| member | source | states |
|---|---|---|
| GraphStore.InMemoryGraphStore.Publish | compliance_graph/src/publisher/in_memory_store.py:30-53 | one new snapshot whose superseded link is the old head becomes the head; every earlier snapshot and its content stay; the chain is kept |
| GraphStore.InMemoryGraphStore.QueryProofPath | compliance_graph/src/publisher/in_memory_store.py:61-112 | the query of the stored content; nothing for an unknown snapshot |
| GraphStore.InMemoryGraphStore.Lineage | compliance_graph/src/api/snapshots.py:14-33 | the unguarded cursor loop terminates and returns that snapshot and all earlier ones, newest first |
| GraphStore.InMemoryGraphStore.FindSupersedesTarget | compliance_graph/src/publisher/in_memory_store.py:130-146 | the first SUPERSEDES target found by the nested scan |
| GraphStore.SupersedesTargetMeaning | compliance_graph/src/publisher/in_memory_store.py:130-146 | the scan finds a target if and only if some snapshot links the version, and then it is the target of such a link |
| StoreSearches.TargetIsFirst | compliance_graph/src/publisher/in_memory_store.py:130-146 | what the scan finds is the first link in publish order, then node order, then edge order; it finds none only if there is none |
| GraphStore.InMemoryGraphStore.FindLatestRegulation | compliance_graph/src/publisher/in_memory_store.py:114-128 | the last matching node of the last snapshot that has one |
| StoreSearches.LatestIsLast | compliance_graph/src/publisher/in_memory_store.py:114-128 | the answer names the last regulation node of the instrument in publish order, then node order, with its snapshot and version; none only if there is none |
| SupersededRegulation.LatestAfterPublishing | compliance_graph/src/publisher/in_memory_store.py:114-128 | for any obligations, of whatever instruments and versions, mapped and published: the "latest" regulation of an instrument is the last of the versions that got a node, and what it was before when none did; for this the ids of the instrument's regulations must stand for nothing else |
| SupersededRegulation.PassingIsOwn | compliance_graph/src/graph_mapping_agent/agent.py:126-159 | they do in every proposal that passes the rules, when instruments contain no colon |
| SupersededRegulation.LinkAfterPublishing | compliance_graph/src/graph_mapping_agent/agent.py:136-159 | each mapped version other than the given latest one links to that version of its own instrument, whatever the store held before |
| SupersededRegulation.LatestIsLastIntroducedIff | compliance_graph/src/graph_mapping_agent/agent.py:126-159 | the latest regulation of an instrument is the version its obligations introduced last if and only if there is no given latest version, or it is met first, or it is the second and last of two, or it is not the last of several |
| SupersededRegulation.LatestIsNewestIff | compliance_graph/src/graph_mapping_agent/agent.py:136-159 | for an instrument whose obligations carry one version, it is that version if and only if the caller passed the mapper no latest version, or that same one |
| SupersededRegulation.BorrowedVersion | compliance_graph/src/graph_mapping_agent/agent.py:136-159 | the one latest version is superseded for every instrument: one that was never published is linked to that version of its own, which the store then calls its latest |
| SupersededRegulation.BorrowedExample | compliance_graph/src/graph_mapping_agent/agent.py:136-159 | two passing publishes on the empty store after which the latest CRA regulation is a version that was never mapped |
| LatestLoop.NeverMovesIff | compliance_graph/src/graph_mapping_agent/agent.py:73-85 | over any number of publishes mapped with the store's own latest version, that answer never moves if and only if each brings at most one version of the instrument, or one and then the latest one itself |
| LatestLoop.LoopLinks | compliance_graph/src/graph_mapping_agent/agent.py:73-85 | in such a loop every version but the first links to the first, and no version links to another one |
| LatestLoop.LoopTargets | compliance_graph/src/publisher/in_memory_store.py:130-146 | so on a store built from nothing the search finds the first version for every other one and nothing for the first |
| LatestLoop.HistorySkips | compliance_graph/src/query/article_history.py:69-106 | so a resolved history names the first version at most and skips all in between |
| GraphStore.PublishKeepsChain | compliance_graph/src/publisher/in_memory_store.py:41-53 | a publish with an unused id extends the chain and rewrites nothing |
| GraphStore.SupersededIsInjective | compliance_graph/src/publisher/in_memory_store.py:41-52 | no two snapshots supersede the same one |
| Publisher.StepKeeps | compliance_graph/src/publisher/publisher.py:41-89 | every step of every operation, at any moment, keeps the store chained, the calls consistent with their rows and all published content |
| Publisher.LineageUnderInterleaving | compliance_graph/src/publisher/publisher.py:41-89 | with calls split into load, check, read head, write and status update, interleaved and stopped anywhere, the superseded links always form one chain ending at the head and published content never changes |
| PublishRuns.LinksMatchIffNeverStale | compliance_graph/src/publisher/publisher.py:64-78 | in any interleaving, every snapshot supersedes its change set's base if and only if no write came after the head had moved |
| PublishRuns.BasesDifferIffNeverStale | compliance_graph/src/publisher/publisher.py:64-78 | in any interleaving, no two snapshots were written from the same base if and only if no write came after the head had moved |
| PublishRuns.PublishedBases | compliance_graph/src/publisher/publisher.py:64-87 | without such a write a published base is the superseded id, and no two published change sets share a base |
| PublishRuns.NoOverlapNeverStale | compliance_graph/src/publisher/publisher.py:64-78 | calls that do not overlap never write on a moved head |
| PublishRuns.OnceIffNeverRepeats | compliance_graph/src/publisher/publisher.py:72-78 | in any interleaving, each change set has at most one snapshot if and only if no write was made for a change set that had one |
| PublishRuns.OneSnapshotPerChangeSet | compliance_graph/src/publisher/publisher.py:64-87 | even when calls stop after the write, and whatever other change sets' calls do: at most one snapshot per change set, unless two calls of it were between head read and write together |
| PublishRuns.DoubleReadDoubles | compliance_graph/src/publisher/publisher.py:64-78 | from every world where two are, their writes give it two snapshots |
| PublishRuns.OverlapWritesBoth | compliance_graph/src/publisher/publisher.py:64-78 | from every world with two ready change sets on one base, overlapping calls write both; with one change set twice, it gets two snapshots |
| PublishRuns.OverlapIsReachable | compliance_graph/src/publisher/publisher.py:41-89 | such worlds are reached from the empty system |
| PublishRuns.HeadNeverReturns | compliance_graph/src/publisher/in_memory_store.py:41-52 | over any run the same head means that nothing was published in between |
| PublishRuns.RetryIsRefused | compliance_graph/src/publisher/publisher.py:64-70 | in any interleaving, a change set that already has a snapshot fails every later head check |
| PublishRuns.WholeValidation | compliance_graph/src/api/changesets.py:33-48 | a validation whose read and write have nothing in between is the validate operation |
| PublishRuns.WholeApproval | compliance_graph/src/review/changeset_approval.py:16-27 | the same for an approval |
| StatusRuns.StatusTellsRules | compliance_graph/src/constraints/engine.py:241-250 | in any interleaving of reads and writes, a status past draft tells whether the six rules pass |
| StatusRuns.LifecycleIff | compliance_graph/src/api/changesets.py:33-46 | in any interleaving, statuses move only along draft to validated or rejected, validated to approved, approved to published, if and only if no validation, approval or publish call ends on a row that has left the status it saw for a third one |
| StatusRuns.RejectedIsFinal | compliance_graph/src/constraints/engine.py:241-250 | rejected is final in every continuation of every run |
| StatusRuns.PublishedStaysIff | compliance_graph/src/api/changesets.py:33-46 | a published change set stays published throughout a continuation if and only if no call of it ends there that saw another status and writes another one |
| StatusRuns.PublishedFallsBack | compliance_graph/src/api/changesets.py:33-46 | from every world with a ready change set, a validation that reads before the publish call and writes after it puts the published row back to approved for good |
| StatusRuns.StrandedIff | compliance_graph/src/publisher/publisher.py:74-87 | in any interleaving, a change set that has a snapshot can still become or be published if and only if it is published, or a call of it is between head read and status update, or a validation of it that saw it published has yet to write |
| StatusRuns.StrandedForever | compliance_graph/src/publisher/publisher.py:74-87 | otherwise its snapshots have no published row in any continuation |
| StatusRuns.StopStrands | compliance_graph/src/publisher/publisher.py:74-87 | a call that stops between its write and the status update leaves a change set like that |
| StatusRuns.FreshCheckNeverFails | compliance_graph/src/publisher/publisher.py:53-62 | the re-check before a write never fails for a change set loaded as approved |
| PublishCall.WholeCall | compliance_graph/src/publisher/publisher.py:41-89 | the five steps of one undisturbed call refuse without effect unless the change set is approved, passes and sits on the head; then they write one snapshot and mark the row |
| PublishCall.PublishChangeSet | compliance_graph/src/publisher/publisher.py:41-89 | the call does what its five steps do; each of the four errors arises exactly in its case and leaves store and table unchanged |
| Changesets.ChangesetRepository.Create | compliance_graph/src/db/changeset_repository.py:22-30 | inserts a new row; an existing id is refused and nothing changes |
| Changesets.ChangesetRepository.Update | compliance_graph/src/db/changeset_repository.py:40-53 | replaces exactly one row, or reports a missing one |
| Changesets.ChangesetRepository.ListPublishedBySnapshot | compliance_graph/src/db/changeset_repository.py:63-69 | exactly the published rows of the snapshot |
| Changesets.ValidateChangeset | compliance_graph/src/api/changesets.py:33-48 | returns the fresh report and stores it with the resolved status; nothing else changes |
| Changesets.ApproveChangeSet | compliance_graph/src/review/changeset_approval.py:16-27 | only a validated change set becomes approved |
| Constraints.CheckObligationDerivedFromProvision | compliance_graph/src/constraints/engine.py:60-91 | reports exactly the obligations without exactly one DERIVED_FROM edge to a provision |
| Constraints.CheckObligationImposesOnActor | compliance_graph/src/constraints/engine.py:94-125 | reports exactly the obligations without an IMPOSES_ON edge to an actor |
| Constraints.CheckMapsToControl | compliance_graph/src/constraints/engine.py:128-155 | reports the first misplaced MAPS_TO_CONTROL edge, passes when there is none |
| Constraints.CheckEvidencedBy | compliance_graph/src/constraints/engine.py:158-184 | reports the first misplaced EVIDENCED_BY edge, passes when there is none |
| Constraints.CheckNoDangling | compliance_graph/src/constraints/engine.py:187-219 | reports the first edge with an unknown endpoint, passes when there is none |
| Constraints.CheckPairAllowed | compliance_graph/src/constraints/engine.py:27-57 | reports the first edge between known nodes whose pair is not allowed |
| Constraints.ProduceReport | compliance_graph/src/constraints/report.py:14-28 | six rule results in order; overall fail if any rule fails |
| RuleMeanings.NodeRulesMeaning | compliance_graph/src/constraints/engine.py:60-125 | the first two results name exactly the obligations with not exactly one edge to a provision, and those with no edge to an actor |
| RuleMeanings.NodeRulesList | compliance_graph/src/constraints/engine.py:60-125 | they list them in the order of the nodes, repetitions included |
| RuleMeanings.EdgeRulesMeaning | compliance_graph/src/constraints/engine.py:27-57 | each of the other four passes when no edge is at fault, said about the nodes' types alone, and else names the first that is |
| RuleMeanings.OverallMeaning | compliance_graph/src/constraints/engine.py:222-238 | the report passes when all six results do |
| RuleMeanings.PairTable | compliance_graph/src/constraints/ontology.py:44-76 | the pairs allowed for each relationship type, and no others |
| Constraints.PassIffWellFormed | compliance_graph/src/constraints/engine.py:222-238 | with nothing published, the report passes if and only if every edge joins known nodes by an allowed pair and every obligation has exactly one provision and some actor |
| Constraints.EndpointRulesFollow | compliance_graph/src/constraints/engine.py:128-184 | the two endpoint rules follow from the dangling and pair rules when nothing is published |
| Constraints.EndpointRulesNeedNothingPublished | compliance_graph/src/constraints/engine.py:187-219 | with a published endpoint that implication fails |
| ProofPath.QueryContent | compliance_graph/src/publisher/in_memory_store.py:69-112 | the nested loops compute the nested outer join, row for row |
| ProofPathPattern.CountRows | compliance_graph/src/publisher/in_memory_store.py:69-112 | on any content each combination of stops, partial or complete, is reported as often as there are combinations of parallel edges between them: a stop that is there counts its parallel edges, a missing one counts once if no edge leads on and else not at all, and an absent or empty evidence id leads to no test |
| ProofPathPattern.PathMeaning | compliance_graph/src/publisher/in_memory_store.py:97-112 | a reported path is provision, obligation and control, then those of asset, evidence and test that are there, in this order |
| ProofPathPattern.QueryCountsMatches | compliance_graph/src/publisher/in_memory_store.py:61-112 | on a passing change set, a six-entry path that matches the pattern occurs as often as the product of its four edge multiplicities, provided its evidence id is not empty; no other six-entry path occurs |
| ProofPathPattern.QueryRefinesPattern | compliance_graph/src/publisher/neo4j_store.py:108-116 | the six-entry paths are, as a set, exactly the matches of the declarative pattern with a non-empty evidence id |
| ProofPathPattern.QueryPaths | compliance_graph/src/publisher/in_memory_store.py:97-112 | the reported rows are those stops, each with its path and the clause id of its obligation; the query raises exactly when an obligation node has no clause id |
| Mapping.ProposeChangeSet | compliance_graph/src/graph_mapping_agent/agent.py:61-288 | refuses obligations that are neither accepted nor edited; otherwise returns the mapped proposal |
| MappedGraph.ProposalEdges | compliance_graph/src/graph_mapping_agent/agent.py:117-264 | the proposal has exactly the edges its obligations ask for: to the provision, to each resolved actor, to each control and asset that the caller lists for the clause, and to a given latest version other than the obligation's own |
| MappedGraph.FixtureEdges | compliance_graph/src/graph_mapping_agent/agent.py:222-264 | so a control or asset listed for a clause is never dropped, and none is invented |
| MappedGraph.FixtureTimes | compliance_graph/src/graph_mapping_agent/agent.py:222-264 | and each gets one edge per time it is listed and per time the clause occurs |
| MappedGraph.ProposalNodes | compliance_graph/src/graph_mapping_agent/agent.py:117-264 | every node is one that an obligation asks for, with its id, type and properties; ids differ; every obligation has its own node and its regulation's |
| MappedGraph.FirstProvision | compliance_graph/src/graph_mapping_agent/agent.py:161-178 | a provision keeps the instrument and version of the first obligation with its anchor |
| MappingTypeChecks.ProposalPassesIff | compliance_graph/src/graph_mapping_agent/agent.py:61-288 | for any obligations, fixture, prior regulation and existing actors: the proposal passes all six rules if and only if clause ids are distinct, every obligation names an actor, and no actor resolves to an id that the proposal uses for a node of another type |
| MappingTypeChecks.TypedIffApart | compliance_graph/src/graph_mapping_agent/agent.py:117-264 | every edge of the proposal is well typed if and only if no actor resolves to such an id |
| MappingTypeChecks.KnownActorsApart | compliance_graph/src/graph_mapping_agent/agent.py:57-58 | none does when the id of every existing actor has no other node type's prefix |
| MappingShape.MapAllShape | compliance_graph/src/graph_mapping_agent/agent.py:117-264 | every node and edge stems from one of the obligations, every edge of every obligation is there, regulations and obligations keep their types, and no edge dangles |
| MappingShape.MapAllDegrees | compliance_graph/src/graph_mapping_agent/agent.py:161-264 | each clause has one DERIVED_FROM edge per occurrence, one IMPOSES_ON edge per actor it names, and with each occurrence one MAPS_TO_CONTROL and one AFFECTS_ASSET edge per entry the caller listed for it |
| EntityResolution.ResolveEntity | compliance_graph/src/entity_resolution/matcher.py:36-73 | the first exact match, else the first closest one at or above the threshold |
| EntityResolution.ResolveMeaning | compliance_graph/src/entity_resolution/matcher.py:36-73 | a match names the first entity with the same normalised name, with confidence one; without one the first closest entity, with its ratio, if that is at least 0.6; otherwise there is none |
| Export.BuildExport | compliance_graph/src/export/exporter.py:29-121 | an unknown snapshot is refused; otherwise a clause is included exactly when some change set published as the snapshot carries it and makes it exportable, and excluded exactly when some such change set carries it and does not |
| Export.ExportChangeSet | compliance_graph/src/export/exporter.py:47-121 | the gates in order, then the mapped controls, assets and evidence |
| Export.ExportPartitions | compliance_graph/src/export/exporter.py:51-121 | as multisets, source clauses of a change set are the included and the excluded ones; included are exactly those that pass every gate |
| Export.GatesMeaning | compliance_graph/src/export/provenance.py:44-105 | the gates ask exactly for an accepted or edited newest revision, a registered document with a checksum, a run id, a logged agent call, a report on this clause, a decision, a snapshot named by the last published row that carries the clause, and an obligation node for it |
| Export.ExportMeaning | compliance_graph/src/export/exporter.py:47-121 | over all change sets of a snapshot the same partition holds, with a clause on the side that these conditions decide |
| Export.ExportedMeaning | compliance_graph/src/export/exporter.py:75-121 | an exported clause names its first obligation node, the controls and assets that node maps to, the evidence requirements of those controls, and the newest status and anchor |
| ExportAgrees.TargetsTimes | compliance_graph/src/export/exporter.py:81-103 | each mapped id is exported once per parallel edge |
| ExportAgrees.QueryAgreesWithExport | compliance_graph/src/export/exporter.py:81-103 | for an exported obligation, the controls and evidence requirements on its query paths are exactly its mapped controls and evidence |
| ExportAgrees.MappedQueryAgreesWithExport | compliance_graph/src/export/exporter.py:47-127 | so for every proposal of the mapper that passes the rules |
| ExportAgrees.PublishedContent | compliance_graph/src/export/exporter.py:42-49 | in any interleaving a snapshot with a published change set has exactly that one; it passes and its proposal is the stored content |
| ExportAgrees.PublishedExport | compliance_graph/src/export/exporter.py:42-127 | so the export of the snapshot is that change set on the stored content, and each of its source clauses lands on exactly one side, the included one exactly when it is exportable |
| ExportAgrees.PublishedSnapshotAgrees | compliance_graph/src/export/exporter.py:81-103 | for every published snapshot whose clause ids name one obligation node each and whose query does not raise, the controls and evidence of each exported obligation are those on its query paths in the stored content |
| ExportAgrees.MappedSnapshotAgrees | compliance_graph/src/export/exporter.py:81-103 | every published snapshot that the mapper built is of that kind, so its query and its export agree |
| ClauseLookup.FoundIsLast | compliance_graph/src/db/changeset_repository.py:71-83 | the published row found for a clause is the last one in table order; none is found only when there is none |
| ClauseLookup.FoundIsMostRecentIff | compliance_graph/src/db/changeset_repository.py:71-83 | in any interleaving the row found is the most recently published one if and only if one published row with the clause was both created and published last |
| ClauseLookup.LookupMissesLatest | compliance_graph/src/db/changeset_repository.py:71-83 | a run from the empty system where the row created first is published last and the other one is found |
| ClauseLookup.FoundIsMostRecent | compliance_graph/src/db/changeset_repository.py:71-83 | when drafts are based on existing snapshots and no write comes after the head had moved, the one found is always the most recently published |
| MappedPaths.MappedPathsEndAtControl | compliance_graph/src/graph_mapping_agent/agent.py:222-264 | every proof path of a snapshot that only the mapper built ends at its control: no asset, evidence or test entry |
| MappedPaths.NoMappedPathIsDrawn | compliance_graph/src/visualization/proof_path_renderer.py:88-114 | so none of them is complete enough to be drawn |
| MappedPaths.MappedRowCount | compliance_graph/src/publisher/in_memory_store.py:76-112 | each row of such a snapshot is reported as often as its MAPS_TO_CONTROL edge times its DERIVED_FROM edge |
| MappedPaths.MappedPathCount | compliance_graph/src/publisher/in_memory_store.py:76-112 | so on a passing proposal the path from an obligation's provision to a control is reported as often as the caller lists the control for the clause |
| Anchors.SplitMake | compliance_graph/src/query/article_history.py:31-38 | splitting an identifier made of colon-free parts gives them back |
| Anchors.SplitIff | compliance_graph/src/query/article_history.py:31-38 | a split succeeds exactly on two colons and takes the parts around the first two |
| Anchors.LastPartMeaning | clause_parser/src/extract/extractor.py:16-18 | the part of an anchor that goes into a clause id is what stands behind its second colon, or its only one, or all of it |
| Anchors.ClauseIdIsAnchorId | clause_parser/src/extract/extractor.py:16-18 | for a colon-free document id and version the clause id is the anchor id |
| Anchors.SuffixMatchIsPath | compliance_graph/src/query/article_history.py:84-91 | a suffix match finds exactly the anchor of the same colon-free path |
| Anchors.SuffixMatchIff | compliance_graph/src/query/article_history.py:84-91 | for any path, a suffix match with a colon-free path succeeds exactly when the paths are equal or the anchor's ends with it after a colon |
| Anchors.SuffixMatchNeedsColonFreePaths | compliance_graph/src/query/article_history.py:84-91 | so with a colon in the path it can find another anchor |
| ArticleHistory.NextPrior | compliance_graph/src/query/article_history.py:69-106 | a next entry is a good step to an unvisited registered version; no entry means a genuine break |
| ArticleHistory.AnchorMeaning | compliance_graph/src/query/article_history.py:84-91 | a document has the article exactly when some anchor of it is that path behind a colon |
| ArticleHistory.ResolveHistory | compliance_graph/src/query/article_history.py:42-109 | the walk terminates; it starts at the first registered document with the clause's id and version, and is empty if there is none; its versions are pairwise distinct, linked step by step by SUPERSEDES within the document's instrument, and it stops only at a genuine break |
| ArticleHistory.PriorClauseIsAnchor | compliance_graph/src/query/article_history.py:84-95 | each returned clause id is the anchor of the same structural path in the prior document |
| Diffs.ComputeDiff | clause_parser/src/review/diff.py:21-33 | the loop computes the diff of the edits |
| Diffs.DiffMeaning | clause_parser/src/review/diff.py:21-33 | the diff logs every field of the two editable groups whose value the edits change, with old and new value, and nothing else |
| Diffs.ApplyEditsToProposal | clause_parser/src/review/diff.py:36-55 | patches only the two editable groups and recomputes the hash of new text |
| Diffs.PatchMeaning | clause_parser/src/review/diff.py:36-55 | each patched field gets its new value, every other field of the record stays, and only the hash of new text is recomputed |
| Diffs.GroupsMeaning | clause_parser/src/review/diff.py:21-46 | the editable groups are legal_semantics and source_evidence, anything that is no dictionary is skipped, and log keys join group and field with a dot |
| Json.SameMeaning | clause_parser/src/review/diff.py:21-33 | values count as unchanged when they are the same number or boolean by value, the same string, or lists and dictionaries of such values |
| Diffs.EditFailsIff | clause_parser/src/review/diff.py:48-53 | an edit raises exactly on new text that is no string and brings no hash |
| Validator.ReportMeaning | clause_parser/src/validate/validator.py:38-57 | the fidelity check passes exactly on evidence that replays; hard failures are broken evidence or a broken schema, and exactly these are routed to escalated |
| ReportMeanings.ChecksMeaning | clause_parser/src/validate/validator.py:20-128 | seven checks in order, each with the status that the fields of the record call for |
| ReportMeanings.OverallMeaning | clause_parser/src/validate/routing.py:17-37 | a report fails for good exactly on a broken schema or evidence, and passes exactly when vocabulary, references and actor are fine too |
| ReportMeanings.RaisesIff | clause_parser/src/validate/validator.py:28-80 | validation raises exactly on a list or dictionary where a word is looked up, on text that is no string, on a bound that is no number behind a matching hash, and on a malformed deadline |
| Review.ObligationRepository.CreateRevision | clause_parser/src/db/obligation_repository.py:32-51 | inserts one row if the record passes every write check, else reports which fails |
| Review.ObligationRepository.GetRevision | clause_parser/src/db/obligation_repository.py:53-63 | finds the row by its id |
| Review.ObligationRepository.ListRevisionsForClause | clause_parser/src/db/obligation_repository.py:65-84 | exactly the clause's revisions, oldest first |
| Review.ObligationRepository.ApplyDecision | clause_parser/src/db/obligation_repository.py:86-137 | appends to the stored history, never to the caller's, and rewrites one row if every write check passes |
| Review.ApplyReviewDecision | clause_parser/src/review/decision_service.py:52-115 | the gates in order, then the edit and the write; any error leaves the table unchanged |
| DecisionMeanings.DecideIff | clause_parser/src/review/decision_service.py:63-115 | a decision goes through exactly when its action is known, its rationale has a character that is no whitespace, the record is presentable for it, the edits are there and keep the evidence faithful, and the record it writes can be stored |
| DecisionMeanings.RefusedBy | clause_parser/src/review/decision_service.py:63-101 | which of these gates refuses it, error by error |
| DecisionMeanings.StripMeaning | clause_parser/src/review/decision_service.py:63-64 | stripping takes away exactly the whitespace at both ends, and a rationale is blank exactly when nothing is left |
| DecisionMeanings.WritableMeaning | clause_parser/src/db/obligation_repository.py:32-51 | a write goes through exactly on a record that fits the schema, has a clause id of its document and version, a hash of its own text and, once reviewed, a history with rationales; else the first failing check is named |
| ReviewRuns.DecideMeaning | clause_parser/src/review/decision_service.py:63-115 | an accepted decision appends one entry, takes the action's status, and touches the record only by an edit |
| ReviewRuns.HistoryReplays | clause_parser/src/review/decision_service.py:82-115 | over any run, the logged new values folded over the initial record give the current value of every editable field except the evidence hash |
| ReviewRuns.HashIsRecovered | clause_parser/src/review/diff.py:48-53 | the unlogged hash is the hash of the text that the log replays to |
| ReviewRuns.RunIsTrace | clause_parser/src/db/obligation_repository.py:107-137 | history only grows by suffix, identity and references never change, the status is that of the last entry, and accept or edit never directly follows an escalation |
| ReviewRuns.ReviewedIsEarned | shared_contracts/py/invariants.py:70-81 | an accepted or edited record has a history ending in an accept or edit, and every rationale is more than whitespace |
| ReviewRuns.OpenIffReopened | clause_parser/src/review/decision_service.py:73-77 | over any run, a record that starts escalated is open to acceptance exactly when a rejection went through and no escalation did since |
| ReviewRuns.StaysEscalated | clause_parser/src/review/decision_service.py:73-77 | in a run without a rejection it stays escalated |
| ReviewRuns.AcceptIffReopened | clause_parser/src/review/decision_service.py:73-115 | after any decisions an acceptance goes through if and only if the record was reopened, the rationale is more than whitespace, and the record it writes passes the write checks |
| ReviewRuns.ReviewNeedsReopening | clause_parser/src/review/decision_service.py:73-77 | acceptances and edits alike wait for that |
| ReviewRuns.RejectReopens | clause_parser/src/review/decision_service.py:73-77 | an escalated record cannot be accepted; after one rejection it is, if the two records written pass the write checks |
| ReviewRuns.EscalatedCanBeReopened | shared_contracts/schemas/ObligationObject.schema.json:67-90 | under every schema that asks of the governance part what the shipped one asks, each storable escalated record can be reopened and accepted |
| ReviewRuns.RunKeepsEvidence | clause_parser/src/review/decision_service.py:90-100 | evidence that replays against the document still does after any decisions |
| ReviewRuns.RowsAreRecords | clause_parser/src/db/obligation_repository.py:86-137 | after any decisions on the table, each row is its record after the decisions addressed to it |
| ReviewRuns.TableKeepsEvidence | clause_parser/src/review/decision_service.py:90-100 | no decisions on the table can store evidence that does not replay |
| Extraction.DetectNormativeSpans | clause_parser/src/detect/deterministic_detector.py:34-61 | one detection per paragraph anchor, with its slice and first modal |
| Extraction.DecomposeNormativeSpans | clause_parser/src/decompose/decomposer.py:35-53 | one span per normative detection |
| Extraction.SpansAreNormativeParagraphs | clause_parser/src/pipeline.py:67-72 | the spans are exactly the paragraphs that carry a modal verb, in order, each with its slice of the text |
| ExtractionMeanings.NormativeMeaning | clause_parser/src/detect/deterministic_detector.py:20-61 | a paragraph carries one when shall, must, may or should stands between spaces in its lowered and padded slice |
| ExtractionMeanings.DetectionMeaning | clause_parser/src/detect/deterministic_detector.py:34-61 | a detection has the anchor's place, its slice and the first of those verbs that occurs |
| ExtractionMeanings.ProposalMeaning | clause_parser/src/extract/extractor.py:21-67 | a new record has the job's document, version and instrument, the clause id built from them, the span with its offsets and hash as evidence, the article mentions, no resolved target, and no history |
| ExtractionMeanings.FixtureMeaning | clause_parser/src/agents/extraction_agent.py:99-159 | the rule-based semantics: modality and norm type, actors, stripped text up to 200 characters, title or else anchor, and the deadline found in those two |
| ExtractionMeanings.ActorsMeaning | clause_parser/src/agents/extraction_agent.py:85-88 | the actors are the vocabulary terms that the lowered text mentions, or a placeholder |
| ExtractionMeanings.ModalityMeaning | clause_parser/src/agents/extraction_agent.py:91-96 | the modality is the first of shall, must, should and may that occurs, or else shall |
| ParseJobs.RunParseJob | clause_parser/src/pipeline.py:67-110 | stores the rows in order up to the first failure and tallies them |
| ParseJobs.CreateParseJob | clause_parser/src/api/parse_jobs.py:64-87 | without the document an error and no job; else the job is completed with the tally and its id returned, or it is failed with an empty summary, the rows stored before stay, and the error is raised on |
| ParseJobs.StoreAllMeaning | clause_parser/src/pipeline.py:78-110 | the stored rows are those of a prefix of the spans, all of them unless one fails |
| ParseJobs.StoredSpan | clause_parser/src/pipeline.py:99-105 | a span is stored exactly when validation does not raise and its record fits the schema; then its evidence replays and its report is no hard failure |
| ParseJobs.CompletedJob | clause_parser/src/pipeline.py:76-110 | total is the number of normative paragraphs and equals pass plus needs_review, fail is zero; every row is pending with its paragraph's evidence and clause id |
| PipelineRuns.StoredRecords | clause_parser/src/review/decision_service.py:52-115 | after any mix of parse jobs and decisions, every stored text is the document sliced at its offsets, its hash matches, and a reviewed status is earned |
| PipelineRuns.FixturePasses | clause_parser/src/agents/extraction_agent.py:99-159 | the rule-based extractor's proposals pass every check but, at most, the schema |
| PipelineRuns.FixtureJob | clause_parser/src/pipeline.py:76-110 | a job with it completes exactly when every record fits the schema, and then needs_review is zero too |
| PipelineRuns.RecordedModality | clause_parser/src/agents/extraction_agent.py:91-96 | the recorded modality is a word of the paragraph, and a permission exactly when it is "may" |
| PipelineRuns.ClauseIdsDiffer | clause_parser/src/extract/extractor.py:16-18 | different anchors of a document get different clause ids, whatever characters the id and version contain |
| PipelineRuns.JobClauseIdsDistinct | clause_parser/src/pipeline.py:78-105 | the rows of one job have pairwise distinct clause ids |
| PipelineRuns.BuiltAnchors | clause_parser/src/canonicalize/canonicalizer.py:51-124 | every structure the builder returns, with or without articles, has different anchor ids of the document |
| PipelineRuns.BuiltJobClauseIdsDistinct | clause_parser/src/pipeline.py:78-105 | so a job on a structure the builder returned stores rows with pairwise distinct clause ids |
| Canonicalizer.ResultIsCanonical | clause_parser/src/canonicalize/canonicalizer.py:40-48 | no carriage return, no trailing whitespace on any line, no three newlines in a row, one final newline |
| Canonicalizer.FixedIffCanonical | clause_parser/src/canonicalize/canonicalizer.py:40-48 | a text is left alone if and only if it is canonical |
| Canonicalizer.Idempotent | clause_parser/src/canonicalize/canonicalizer.py:40-48 | canonicalising twice is canonicalising once |
| Canonicalizer.KeepsInk | clause_parser/src/canonicalize/canonicalizer.py:40-48 | the exact sequence of non-whitespace characters is kept |
| Canonicalizer.KeepsTextLines | clause_parser/src/canonicalize/canonicalizer.py:43-48 | every non-empty line is kept in order up to its trailing whitespace |
| Canonicalizer.CollapseKeepsTwo | clause_parser/src/canonicalize/canonicalizer.py:47 | exactly the newlines that follow two others are dropped |
| Canonicalizer.LineEndingsAreUniversal | clause_parser/src/canonicalize/canonicalizer.py:43 | every kind of line ending becomes one newline |
| Structure.BuildStructure | clause_parser/src/canonicalize/canonicalizer.py:56-124 | the anchors of all articles, or a collision error exactly when identifiers repeat; one anchor without articles |
| Structure.BuildParagraphAnchors | clause_parser/src/canonicalize/canonicalizer.py:154-186 | the paragraph anchors of an article |
| Structure.NoCollisions | clause_parser/src/canonicalize/canonicalizer.py:140-151 | the check accepts exactly lists of pairwise distinct identifiers |
| StructureShape.ArticlesTile | clause_parser/src/canonicalize/canonicalizer.py:88-111 | each position from the first heading to the first annex or the end is in exactly one article, any other in none |
| StructureShape.ParagraphsTile | clause_parser/src/canonicalize/canonicalizer.py:164-186 | each position from an article's first paragraph to its end is in exactly one paragraph, any other in none |
| StructureShape.ParagraphsNest | clause_parser/src/canonicalize/canonicalizer.py:164-186 | a paragraph is not empty, lies in its article and before the first annex, and names its article as parent |
| StructureShape.LateArticlesAreEmpty | clause_parser/src/canonicalize/canonicalizer.py:88-98 | articles from the first annex on, and only these, have no positive extent; they end where the annex starts and get no paragraphs |
| StructureShape.NoCollisionIff | clause_parser/src/canonicalize/canonicalizer.py:140-151 | the check passes exactly when no article number repeats and no paragraph number repeats within an article |
| StructureShape.BuiltIff | clause_parser/src/canonicalize/canonicalizer.py:56-124 | the builder succeeds exactly when no number repeats where it must not, and then all anchor ids differ |
| StructureShape.BuiltIsWellAnchored | clause_parser/src/canonicalize/canonicalizer.py:51-53 | built anchors have colon-free structural paths, which the article-history walk relies on |
| StructureShape.BuiltMeaning | clause_parser/src/canonicalize/canonicalizer.py:56-186 | what is built: one anchor for a text without articles, else exactly the articles and their paragraphs, each with its id, title, interval and parent |
| StructureShape.NothingPassesAnnex | clause_parser/src/canonicalize/canonicalizer.py:88-111 | with an annex heading no anchor of a built structure with articles ends behind it, and what starts there is an empty article |
| RateLimiter.RateLimiterState.Check | shared_contracts/py/middleware.py:30-36 | prunes and appends for one client and answers for the list it stored |
| RateLimiter.PrunedIsHistory | shared_contracts/py/middleware.py:32-35 | with a monotonic clock the pruned list is the client's whole history restricted to the window of its last call |
| RateLimiter.AllowedIff | shared_contracts/py/middleware.py:30-36 | a call is allowed exactly when the client's calls in its window, refused ones included, are within the limit |
| RateLimiter.AtMostLimit | shared_contracts/py/middleware.py:30-36 | no interval of the window's length holds more allowed calls of a client than the limit |
| RateLimiter.ClientsAreIndependent | shared_contracts/py/middleware.py:33-35 | a client's list depends on its own calls alone |
| Layout.DrawnIff | compliance_graph/src/visualization/proof_path_renderer.py:88-114 | a path is drawn exactly when its six entries name the six types in order, each with a non-empty id |
| Layout.ComputeLayout | compliance_graph/src/visualization/proof_path_renderer.py:139-188 | the boxes are placed and, if one starts outside the margin, all shifted |
| LayoutGeometry.BoxesApart | compliance_graph/src/visualization/proof_path_renderer.py:139-188 | for any label widths the boxes are pairwise disjoint and not left of the margin |
| LayoutGeometry.BoxesMeaning | compliance_graph/src/visualization/proof_path_renderer.py:139-188 | three boxes in each of two rows with the gaps their edge labels need, asset and evidence centred at equal distance on either side of the control, and the provision or the asset at the left margin |
| LayoutGeometry.TextFits | compliance_graph/src/visualization/proof_path_renderer.py:131-136 | every label fits its box, and the gap between neighbours in a row fits the label of their edge |
| LayoutGeometry.AnchorMeaning | compliance_graph/src/visualization/proof_path_renderer.py:195-210 | an edge ends on its box's boundary, on the segment between the two centres |
| LayoutGeometry.ClearIffSteep | compliance_graph/src/visualization/proof_path_renderer.py:157-178 | for any widths, edges keep clear of third boxes exactly when the branch offset is small enough for the control box |
| LayoutGeometry.TruncationKeepsEdgesClear | compliance_graph/src/visualization/proof_path_renderer.py:82-85 | for ids of any length the truncated labels keep every edge clear, and the shift is never needed |
| LayoutGeometry.DrawnLineIsClear | compliance_graph/src/visualization/proof_path_renderer.py:249-257 | the drawn line joins the two boundaries and has no point in a third box |

## Left out

- HTTP routers, request models, error envelopes, sessions and review panes: transport and display.
- SQL tables: modelled as insertion-ordered rows; transactions and isolation levels are not modelled.
- The Neo4j store: only its proof-path pattern is used, as the specification of the query.
- Identifiers, clocks and SHA-256: parameters; snapshot ids are unused ones, revision ids a function of the insertion count, the hash an uninterpreted function. Encoding errors on lone surrogates are not modelled.
- Regular expressions for headings, paragraphs, annexes, deadlines, conditions, exceptions and mentions: parameters. Heading matchers return matches from left to right whose numbers contain no slash, colon or hyphen.
- Unicode composition and lower-casing: composition is the identity, lower-casing a parameter.
- JSON Schema validation: an abstract predicate on obligation records. Where `StatusBlind` is assumed, it is the fact that the schema does not tie the review status to anything else. The schema of validation and constraint reports is not modelled.
- JSON numbers are integers; floating-point values in records are not modelled.
- Record fields that no modelled operation reads: language, jurisdiction, confidences, model versions, timestamps, messages, and node properties other than clause id, instrument and source version. Provenance links on nodes and edges are not modelled.
- Rounding of the fuzzy match confidence and the confidence of exported obligations: display values.
- The repository's update of one row reads it again and writes it; the two are one step here.
- The latest regulation handed to the mapper always has a source version.
- Agent call logs, manifests and document registry: the export reads them as given sets.
- Detection refinement: the default, which changes nothing. Reference resolution: the pipeline offers no candidate mentions, so no target is resolved.
- The layout is over real numbers; printing to one decimal, HTML and SVG text and escaping are left out.
- The LLM gateway, the evaluation harness, the command line and the demos.
- Review.ObligationRepository.ListRevisionsForClause: rows with the same creation time keep their insertion order, which the database does not promise.
