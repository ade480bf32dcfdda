# Verified core of codex-agents

A Dafny 4.11 model of the parts of codex-agents whose correctness is more than
one function deep, with proofs about every input, every run or every reachable
state.  `dafny verify dfyconfig.toml` checks the whole project.

| module | models |
|---|---|
| `Batching`, `Pipeline`, `Dedupe` | the analytics client: batching of events, the bounded queue with its worker and flush barrier, the two de-duplicating sets |
| `ComplianceReport`, `ComplianceGate`, `ComplianceBaseline`, `ComplianceEvidence` | MCP conformance reports, the regression gate between two of them, compact baselines, and what in a report can change a verdict |
| `ReviewReport`, `ReviewGate` | the same for the reports of the production review suite |
| `RpcClient` | the JSON-RPC client that drives the app server |
| `McpServer` | the fixture server: dispatch, handshake and HTTP sessions |
| `SemVer`, `AutoUpdate` | version comparison and the self-updating launcher |
| `ReleaseVersion` | Python package versions and release tags |
| `DiffSummary`, `GitDiff` | accepted-line counts and fingerprints of a unified diff |
| `ArtifactCache` | checksummed downloads into a cache |
| `LintArgs` | the argument-comment-lint wrapper |
| `ServerPath` | paths on a server whose operating system is known from the path |
| `Options`, `Json`, `Strings`, `Orders` | shared helpers |

The main results:

- **Analytics.** In every interleaving of callers and worker the queue conserves
  messages, and an acknowledged flush means that everything accepted before it
  was reduced and posted (`Pipeline.EveryRunIsSafe`, `Pipeline.FlushBarrier`).
  The class methods are proved to take the steps of that state machine.  Batching
  uses the fewest requests and is the only partition that does
  (`Batching.TightIsOptimal`, `Batching.TightIsTheOnlyOne`).
- **Gates.** Both report readers are proved against declarative meanings: which
  status a report gives each check, and exactly when nothing is wrong with it; the gate is transitive, so a chain of gated releases of any
  length never loses a passing check (`ChainsNeverRegress`), and a compact
  baseline gives the same verdict as the report it was made from, for all
  candidates, exactly under a stated condition (`CompactionKeepsVerdictsIff`).
  Chains gated through compact baselines do not regress either.  Order, repetition
  and arrival numbers of checks never change a verdict (`RerunsGetTheSameVerdict`).
- **Diffs.** Writing a list of file changes as a git diff and summarizing it
  recovers the counts of the list and the fingerprints of its lines
  (`GitDiff.SummaryRecoversDiff`).
- **Versions.** On arbitrary texts the comparison is a strict order; which
  versions it leaves unordered is characterised exactly (`SemVer.UnorderedExactly`).
  Installed versions only rise over any run of launches (`AutoUpdate.VersionsOnlyRise`).
- **Server and client.** Sessions are isolated over every run, and a request is
  served if and only if its session has completed the handshake since its id was
  issued; every message the client consumes is handed out
  or logged, once, and every server request is answered once.

Where the code does not do what its surroundings suggest, the model follows the
code and the exact condition is proved:

- Compaction drops skipped checks.  When only skipped checks cover some required
  case or scenario, the compact baseline cannot be read back
  (`ComplianceBaseline.CompactionMeaning`, `ComplianceBaseline.SkippedReportIsLost`).
- A live wait does not return a matching server request that a scan of the log
  would return (`RpcClient.WaitReturnsTheEarliest`, `RpcClient.ServerRequestsAreSkippedLive`).
- A wait whose cursor is past the end of the log can return an event from before
  the cursor (`RpcClient.WaitReturnsTheEarliest`, `RpcClient.CursorPastTheEndIsIgnored`).
- A path that ends in white space loses it, and with it the file its own path; an
  unusual path is filed under its quoted spelling (`GitDiff.KeepsItsPathExactly`,
  `GitDiff.TrailingBlankIsLost`, `GitDiff.QuotedPathIsKept`).
- A fact can be dropped while the queue is not full, when the free place is kept
  for a waiting flush (`Pipeline.FactLostBesideFreePlace`).
- An executable is extracted in place.  It can be seen in part on the way, and one
  whose extraction breaks off stays behind in part
  (`ArtifactCache.ExecutableIntactExactly`, `ArtifactCache.HalfAnExecutable`).
- Pre-release numbers written with leading zeros are left unordered
  (`SemVer.UnorderedExactly`, `SemVer.LeadingZeroIsUnordered`).
- A notification posted to an unknown session gets an error body
  (`McpServer.NotificationAnsweredExactlyWhenUnknown`, `McpServer.StrayCancellationIsAnswered`).
- A manifest path that reads as the separator makes every rebuild of the lint
  arguments grow (`LintArgs.RebuildIsFixedPointExactly`).
- Joining a segment to a bare root can change which kind of host the path
  belongs to (`ServerPath.JoinKeepsHostExactly`, `ServerPath.RootJoinFlipsHost`).

The pinned conformance catalog, modes and review cases, the analytics reducer,
SHA-256, the Unicode white-space tables, `splitlines`, archive extraction, the
network, the clock and session ids are parameters; every theorem holds for all
of their values, except that white space is assumed to contain the blank (and,
for diffs and versions, the few further facts in the `Sane` predicates).

## Model

| member | source | states |
|---|---|---|
| `Batching.TightIsOptimal` | codex-rs/analytics/src/client.rs:677-698 | A partition in which no two neighbouring batches could be merged has the least number of batches of all admissible partitions of the same events, and is the only one of that size |
| `Batching.PrefixWithinFirst` | codex-rs/analytics/src/client.rs:677-698 | No admissible batch at the front of the events reaches further than the first batch of a tight partition |
| `Batching.BatchesAreTight` | codex-rs/analytics/src/client.rs:677-698 | The batches partition the events in order, are admissible, and no two neighbours could be merged |
| `Batching.BatchesAreOptimal` | codex-rs/analytics/src/client.rs:677-698 | Order kept, nothing lost, no empty request, isolated events alone, and no partition does with fewer requests |
| `Batching.TightIsTheOnlyOne` | codex-rs/analytics/src/client.rs:677-698 | Every tight partition of the events is the one the code makes |
| `Batching.TrackEventRequestBatches` | codex-rs/analytics/src/client.rs:677-698 | The accumulating loop returns an optimal partition |
| `Batching.Filter` | codex-rs/analytics/src/client.rs:663-665 | Only events that may be sent with an API key survive the retain |
| `Batching.FilterCounts` | codex-rs/analytics/src/client.rs:663-665 | Retaining keeps each sendable event as often as it occurred and no other event |
| `Batching.FilterConcat` | codex-rs/analytics/src/client.rs:663-665 | Retaining keeps the order: it distributes over concatenation |
| `Batching.ApiKeySendsOneRequest` | codex-rs/analytics/src/events.rs:152-166 | Under an API key nothing isolated survives, so what survives goes out as one request |
| `Batching.SendTrackEvents` | codex-rs/analytics/src/client.rs:651-675 | The early returns, the retain and the posting loop post exactly the batches of the retained events |
| `Batching.PostBatches` | codex-rs/analytics/src/client.rs:672-674 | The posting loop posts every batch once, in order |
| `Pipeline.EveryRunIsSafe` | codex-rs/analytics/src/client.rs:138-174 | In every interleaving of recording, flushing, cancelling, abandoning and worker steps: no place in the queue is given out twice and no flusher waits while there is one, messages are conserved in order, reducer and network hold exactly the fold of what was processed, and flushes are told only after their turn |
| `Pipeline.StepConserves` | codex-rs/analytics/src/client.rs:138-174 | Each step keeps the conservation of messages, the bound of 256 places, that nobody waits beside a free place, and the numbering of flushes |
| `Pipeline.StepFolds` | codex-rs/analytics/src/client.rs:142-156 | Each step keeps the reducer equal to the fold of the reduced messages and the posted requests equal to a prefix of their deliveries |
| `Pipeline.StepAcknowledges` | codex-rs/analytics/src/client.rs:142-156 | Each step keeps: acknowledged flushes are finished ones, and finished ones are acknowledged or abandoned |
| `Pipeline.FactsAccountedFor` | codex-rs/analytics/src/client.rs:165-174 | After any run each recorded fact is dropped, queued, in the hands of the worker or reduced, and is counted once |
| `Pipeline.FactLostBesideFreePlace` | codex-rs/analytics/src/client.rs:165-174 | A run in which a fact is dropped although the channel is not full, because the free place is kept for a waiting flusher |
| `Pipeline.BarrierPosition` | codex-rs/analytics/src/client.rs:235-256 | A flush marker keeps its place: everything accepted before it stays before it, and it occurs there only |
| `Pipeline.AnsweredPosition` | codex-rs/analytics/src/client.rs:235-256 | An acknowledged flush has its whole prefix among the finished messages |
| `Pipeline.FinishedAreDelivered` | codex-rs/analytics/src/client.rs:142-156 | The requests of finished messages have all been posted, in order |
| `Pipeline.FlushBarrier` | codex-rs/analytics/src/client.rs:235-256 | When a flush is acknowledged, every message accepted before it was reduced and all its requests were posted, however the run interleaved |
| `Pipeline.FlushIsAnswered` | codex-rs/analytics/src/client.rs:235-256 | A flush is acknowledged or abandoned once the worker has done as many turns as were ahead of it |
| `Pipeline.AcknowledgedOnce` | codex-rs/analytics/src/client.rs:145-151 | In every run no flush is acknowledged twice |
| `Pipeline.AnalyticsEventsQueue.constructor` | codex-rs/analytics/src/client.rs:138-163 | A fresh queue matches the empty run |
| `Pipeline.AnalyticsEventsQueue.TrySend` | codex-rs/analytics/src/client.rs:165-174 | A fact is kept exactly when some place is neither taken nor kept for a flusher, and the object still matches a run of the state machine |
| `Pipeline.AnalyticsEventsQueue.BeginFlush` | codex-rs/analytics/src/client.rs:235-247 | A flusher gets a place exactly when there is one and otherwise stands in line |
| `Pipeline.AnalyticsEventsQueue.CancelFlush` | codex-rs/analytics/src/client.rs:239-256 | A flusher that times out before its marker is in leaves the line, or passes its place on |
| `Pipeline.AnalyticsEventsQueue.EnqueueFlush` | codex-rs/analytics/src/client.rs:235-247 | The marker fills the place it was given, at the end of the queue, under a new id |
| `Pipeline.AnalyticsEventsQueue.AbandonFlush` | codex-rs/analytics/src/client.rs:248-256 | A timed-out caller only gives up its acknowledgement |
| `Pipeline.AnalyticsEventsQueue.ReceiveMessage` | codex-rs/analytics/src/client.rs:142-144 | The oldest message is taken and its place goes to the first in line |
| `Pipeline.AnalyticsEventsQueue.ReduceMessage` | codex-rs/analytics/src/client.rs:143-156 | The reducer takes the message and its events become the requests to post |
| `Pipeline.AnalyticsEventsQueue.PostAll` | codex-rs/analytics/src/client.rs:672-674 | The requests are posted in order and nothing else changes |
| `Pipeline.AnalyticsEventsQueue.FinishTurn` | codex-rs/analytics/src/client.rs:145-151 | A flush that is still waited for is acknowledged after its requests |
| `Pipeline.AnalyticsEventsQueue.WorkerTurn` | codex-rs/analytics/src/client.rs:142-156 | One turn of the worker loop is the steps receive, reduce, posts, finish, with the new queue, reducer, network and acknowledgements |
| `Dedupe.EmittedKeys.ShouldEnqueueAppUsed` | codex-rs/analytics/src/client.rs:176-192 | Refines the shared acceptance rule on the app set; without a connector the call passes and nothing is stored |
| `Dedupe.EmittedKeys.ShouldEnqueuePluginUsed` | codex-rs/analytics/src/client.rs:194-215 | Refines the same rule on the plugin set, keyed by the plugin id or else the remote id; without either the call passes, nothing is stored, and a full set is still emptied |
| `Dedupe.AcceptancesFillEpochs` | codex-rs/analytics/src/client.rs:63 | After any run the set holds at most 4096 keys and acceptances are 4096 per clear plus the keys held |
| `Dedupe.OncePerEpoch` | codex-rs/analytics/src/client.rs:176-215 | A key is accepted at most once between two clears |
| `Dedupe.RepeatsAreBounded` | codex-rs/analytics/src/client.rs:176-215 | Of T acceptances one key accounts for at most T/4096 rounded up |
| `Dedupe.HoldsTheEpoch` | codex-rs/analytics/src/client.rs:176-215 | The set is exactly the keys asked for since the last clear |
| `Dedupe.PassesExactlyWhenNew` | codex-rs/analytics/src/client.rs:176-215 | A keyed call passes if and only if its key is new to the epoch or the set is full |
| `ComplianceReport.FirstCase` | scripts/mcp_conformance/run_codex_compliance.py:1593-1613 | The case kept for a mode and transport is the first one listed |
| `ComplianceReport.CollectCheck` | scripts/mcp_conformance/run_codex_compliance.py:1639-1664 | One check adds its status to its identity and its scenario to the catalog scenarios, or is malformed and adds an error |
| `ComplianceReport.RecordIdentity` | scripts/mcp_conformance/run_codex_compliance.py:1515-1554 | What a compact record is read as is a valid identity for the pinned modes |
| `ComplianceReport.CollectChecks` | scripts/mcp_conformance/run_codex_compliance.py:1639-1664 | The loop over the checks of one case groups exactly the statuses observed, collects exactly the catalog scenarios, and is silent if and only if every check is well formed |
| `ComplianceReport.CollectCases` | scripts/mcp_conformance/run_codex_compliance.py:1593-1613 | The case index maps each key to its first case, and is silent if and only if all cases are well formed and no key repeats |
| `ComplianceReport.ReadCase` | scripts/mcp_conformance/run_codex_compliance.py:1616-1679 | One required case contributes its observations, and is silent if and only if it is present, complete and, over HTTP, covers the catalog |
| `ComplianceReport.ReadMode` | scripts/mcp_conformance/run_codex_compliance.py:1616-1679 | One pinned mode contributes both its transports, silent if and only if the mode is complete |
| `ComplianceReport.ReadModes` | scripts/mcp_conformance/run_codex_compliance.py:1616-1679 | All pinned modes |
| `ComplianceReport.CompleteByMode` | scripts/mcp_conformance/run_codex_compliance.py:1593-1679 | Completeness of a full report, said once for the whole report, is completeness mode by mode |
| `ComplianceReport.ModesSetMember` | scripts/mcp_conformance/run_codex_compliance.py:1616-1664 | An observation belongs to a full report if and only if its own mode and transport are required and its case has it |
| `ComplianceReport.HttpScenarios` | scripts/mcp_conformance/run_codex_compliance.py:1666-1677 | The scenarios observed for a mode are those of its HTTP case alone |
| `ComplianceReport.ReadFull` | scripts/mcp_conformance/run_codex_compliance.py:1593-1679 | A full report is read into the grouping of its observations, silent if and only if it is complete |
| `ComplianceReport.ReadBucket` | scripts/mcp_conformance/run_codex_compliance.py:1515-1554 | A compact bucket is read into its records, silent if and only if all are valid and none repeats |
| `ComplianceReport.ReadCoverage` | scripts/mcp_conformance/run_codex_compliance.py:1556-1590 | Silent if and only if every mode selects the pinned catalog and the observations cover every case and scenario |
| `ComplianceReport.ReadCompact` | scripts/mcp_conformance/run_codex_compliance.py:1493-1591 | A compact baseline is read into the grouping of its observations, silent if and only if its shape is right and it covers the suite |
| `ComplianceReport.ReadHeader` | scripts/mcp_conformance/run_codex_compliance.py:1465-1491 | Silent if and only if schema, suite, versions and selection are the pinned ones |
| `ComplianceReport.RequiredRegressionChecks` | scripts/mcp_conformance/run_codex_compliance.py:1459-1679 | For every report, full or compact: the statuses are the grouping of a declaratively defined set of observations, and there are no errors if and only if the report is well formed |
| `ComplianceGate.CompareFailures` | scripts/mcp_conformance/run_codex_compliance.py:1772-1781 | The loop over the candidate lists new and known failures, each complete and sorted, and objects if and only if a shipping-mode check fails |
| `ComplianceGate.CompareBaseline` | scripts/mcp_conformance/run_codex_compliance.py:1783-1798 | The loop over the baseline lists missing and fixed checks, each complete and sorted, and objects if and only if the baseline fails in the shipping mode |
| `ComplianceGate.PolicyErrors` | scripts/mcp_conformance/run_codex_compliance.py:1758-1765 | No policy error if and only if both reports record the same boolean policy |
| `ComplianceGate.EvaluateRegressionGate` | scripts/mcp_conformance/run_codex_compliance.py:1744-1809 | Success if and only if both reports are well formed under one policy, the shipping mode is clean, nothing newly fails and nothing decided goes missing; all four lists are exact |
| `ComplianceGate.GateReflexive` | scripts/mcp_conformance/run_codex_compliance.py:1744-1809 | A report passes against itself if and only if it is well formed, records its policy and has no shipping failure |
| `ComplianceGate.NoWorseIsTheGate` | scripts/mcp_conformance/run_codex_compliance.py:1772-1798 | The two list conditions together say: no pass is lost and no check fails that was not failing |
| `ComplianceGate.GateTransitive` | scripts/mcp_conformance/run_codex_compliance.py:1744-1809 | The gate composes: passing against b, and b against c, is passing against c |
| `ComplianceGate.ChainsNeverRegress` | scripts/mcp_conformance/run_codex_compliance.py:1744-1809 | Along a chain of gated releases of any length passing checks are never lost and failing ones only shrink |
| `ComplianceBaseline.FillBucket` | scripts/mcp_conformance/run_codex_compliance.py:1714-1723 | The loop over the sorted statuses writes exactly the checks observed with one status, in order |
| `ComplianceBaseline.ShippingFails` | scripts/mcp_conformance/run_codex_compliance.py:1688-1691 | The scan finds a failure in the shipping mode if and only if there is one |
| `ComplianceBaseline.CompactRegressionBaseline` | scripts/mcp_conformance/run_codex_compliance.py:1682-1726 | Compaction raises if and only if the report is malformed, records no policy or fails in the shipping mode, and otherwise writes the specified baseline |
| `ComplianceBaseline.ObservationsValid` | scripts/mcp_conformance/run_codex_compliance.py:1425-1456 | Every identity read from a report can be written to and read from a compact record |
| `ComplianceBaseline.RecordsRoundTrip` | scripts/mcp_conformance/run_codex_compliance.py:1702-1726 | Written records read back as the same identities without complaint |
| `ComplianceBaseline.ChecksRoundTrip` | scripts/mcp_conformance/run_codex_compliance.py:1702-1726 | The two buckets read back as exactly the passed and failed observations |
| `ComplianceBaseline.CompactionMeaning` | scripts/mcp_conformance/run_codex_compliance.py:1682-1726 | Compaction erases exactly the skipped observations, and the result reads without errors if and only if the rest still covers the suite |
| `ComplianceBaseline.CompactionKeepsLists` | scripts/mcp_conformance/run_codex_compliance.py:1682-1726 | Every candidate gets the same four lists against the compact baseline as against the report |
| `ComplianceBaseline.CoveredKeepsVerdict` | scripts/mcp_conformance/run_codex_compliance.py:1682-1726 | Where the decided observations cover the suite, every verdict is kept |
| `ComplianceBaseline.CompactionKeepsVerdictsIff` | scripts/mcp_conformance/run_codex_compliance.py:1682-1726 | All candidates keep their verdict if and only if the decided observations cover the suite |
| `ComplianceBaseline.CompactionIdempotent` | scripts/mcp_conformance/run_codex_compliance.py:1682-1726 | Compacting a compact baseline gives it back, or raises exactly where it cannot be read |
| `ComplianceBaseline.SkippedReportIsLost` | scripts/mcp_conformance/run_codex_compliance.py:1682-1726 | In every suite, replacing the stdio case of any mode of any compactable report by one skipped check gives a report that passes against itself and can be compacted, and whose baseline cannot be read, so nothing passes against it |
| `ComplianceBaseline.BaselineGateIsTheGate` | scripts/mcp_conformance/run_codex_compliance.py:1744-1809 | Passing against a baseline is passing against the report it was made of |
| `ComplianceBaseline.BaselineChainsNeverRegress` | scripts/mcp_conformance/run_codex_compliance.py:1744-1809 | Along a chain in which each release is gated against the compact baseline of the one before, passing checks are never lost and failing ones only shrink |
| `ComplianceEvidence.SameReading` | scripts/mcp_conformance/run_codex_compliance.py:1634-1664 | Reports with the same evidence have the same observations and the same well-formedness |
| `ComplianceEvidence.EvidenceDecides` | scripts/mcp_conformance/run_codex_compliance.py:1772-1798 | Only evidence changes a verdict, on either side of the gate |
| `ComplianceEvidence.StemOfNumbered` | scripts/mcp_conformance/run_codex_compliance.py:1425-1456 | A name with an arrival number is known by its stem |
| `ComplianceEvidence.RenumberingIsNoEvidence` | scripts/mcp_conformance/run_codex_compliance.py:1425-1456 | Without an upstream id, a check that only changed its arrival number is the same observation |
| `ComplianceEvidence.UpstreamIdIsStable` | scripts/mcp_conformance/run_codex_compliance.py:1425-1456 | With an upstream id, a check that only changed its name is the same observation |
| `ComplianceEvidence.RerunsGetTheSameVerdict` | scripts/mcp_conformance/run_codex_compliance.py:1634-1664 | Reports whose cases list the same checks in any order, any number of times and under any arrival numbers get the same verdict, as candidate and as baseline |
| `ReviewReport.RecordId` | scripts/mcp_conformance/review_regressions.py:882-938 | What a compact record is read as is a valid identity |
| `ReviewReport.FirstEntry` | scripts/mcp_conformance/review_regressions.py:970-988 | The status of a name is that of the first well-formed entry of that name |
| `ReviewReport.FirstRecord` | scripts/mcp_conformance/review_regressions.py:944-961 | The record of a case is the first one listed |
| `ReviewReport.ChecksStatus` | scripts/mcp_conformance/review_regressions.py:970-988 | Reading the checks of a case gives each check the status of its first entry, unless it had one |
| `ReviewReport.ChecksCleanExactly` | scripts/mcp_conformance/review_regressions.py:970-993 | That reading is silent if and only if the checks are well formed, named once and new, and then reports the conjunction of their statuses |
| `ReviewReport.CasesStatus` | scripts/mcp_conformance/review_regressions.py:944-993 | Reading all cases gives each check the status of the first entry in the first record of its case |
| `ReviewReport.CasesCleanExactly` | scripts/mcp_conformance/review_regressions.py:944-993 | That reading is silent if and only if every case is required, listed once, has good checks and reports their conjunction |
| `ReviewReport.RecordsStatus` | scripts/mcp_conformance/review_regressions.py:911-938 | Reading a bucket gives exactly the recorded checks its status, unless they had one |
| `ReviewReport.RecordsCleanExactly` | scripts/mcp_conformance/review_regressions.py:911-938 | That reading is silent if and only if the records are valid, different and new |
| `ReviewReport.CaseListExactly` | scripts/mcp_conformance/review_regressions.py:886-905 | Reading the case list gives the set of listed cases, silent if and only if all are well formed and different |
| `ReviewReport.CollectCaseList` | scripts/mcp_conformance/review_regressions.py:886-905 | The loop over the case list computes that |
| `ReviewReport.ReadingExactly` | scripts/mcp_conformance/review_regressions.py:882-993 | For every report: the status of each check, when the shape is right, and which cases were seen, all said declaratively |
| `ReviewReport.CollectChecks` | scripts/mcp_conformance/review_regressions.py:970-993 | Silent if and only if all checks are well formed, named once and new; then its success is that of all checks; each check has the status of its first entry |
| `ReviewReport.CollectCases` | scripts/mcp_conformance/review_regressions.py:944-993 | Silent if and only if every case is required, listed once, has good checks and reports their conjunction; each check has the status of the first entry in the first record of its case |
| `ReviewReport.CollectRecords` | scripts/mcp_conformance/review_regressions.py:911-938 | Silent if and only if all records are valid, different and new; the recorded checks get the status of the bucket |
| `ReviewReport.CollectCompact` | scripts/mcp_conformance/review_regressions.py:882-938 | Silent if and only if the kind, the case list and both buckets are good; a check passes if recorded as passing, else fails if recorded as failing |
| `ReviewReport.ReadHeader` | scripts/mcp_conformance/review_regressions.py:859-878 | Silent if and only if schema, reviewer and modes are the pinned ones |
| `ReviewReport.ReadTotals` | scripts/mcp_conformance/review_regressions.py:1002-1028 | Silent if and only if the five totals and the overall success are those of the statuses read |
| `ReviewReport.RequiredReviewChecks` | scripts/mcp_conformance/review_regressions.py:859-1029 | For every report, full or compact, well formed or not: the status of each check is the declared one, and there are no errors if and only if header, shape, cases and totals are right |
| `ReviewGate.CasesMeaning` | scripts/mcp_conformance/review_regressions.py:939-993 | In a full report with good cases a check has a status if and only if some case record gives it that status |
| `ReviewGate.FillBucket` | scripts/mcp_conformance/review_regressions.py:1055-1066 | The loop over the sorted statuses writes exactly the checks of one status, in order |
| `ReviewGate.CompactReviewRegressionBaseline` | scripts/mcp_conformance/review_regressions.py:1032-1067 | Compaction raises if and only if the report is not well formed, and otherwise writes the specified baseline |
| `ReviewGate.ChecksInValid` | scripts/mcp_conformance/review_regressions.py:859-1029 | Every identity read from a report is valid |
| `ReviewGate.RecordsRoundTrip` | scripts/mcp_conformance/review_regressions.py:1032-1067 | Written records read back as the same statuses |
| `ReviewGate.BucketsRoundTrip` | scripts/mcp_conformance/review_regressions.py:1032-1067 | Both buckets together read back as the statuses they were made of |
| `ReviewGate.SortedCasesRoundTrip` | scripts/mcp_conformance/review_regressions.py:1032-1067 | The written case list reads back as the set of cases |
| `ReviewGate.SummarySurvives` | scripts/mcp_conformance/review_regressions.py:1002-1028 | The compacted totals pass the same test of totals |
| `ReviewGate.CompactionRoundTrip` | scripts/mcp_conformance/review_regressions.py:1032-1067 | A well-formed report survives compaction whole: same statuses, still without errors |
| `ReviewGate.CompactionIdempotent` | scripts/mcp_conformance/review_regressions.py:1032-1067 | Compacting twice is compacting once |
| `ReviewGate.CompactionKeepsVerdicts` | scripts/mcp_conformance/review_regressions.py:1032-1067 | Gating against the compact baseline is gating against the report, for every candidate |
| `ReviewGate.CompareFailures` | scripts/mcp_conformance/review_regressions.py:1086-1092 | Known and new failures, complete and sorted |
| `ReviewGate.CompareBaseline` | scripts/mcp_conformance/review_regressions.py:1094-1099 | Missing and fixed checks, complete and sorted |
| `ReviewGate.EvaluateReviewRegressionGate` | scripts/mcp_conformance/review_regressions.py:1070-1110 | Success if and only if both reports are well formed, nothing newly fails and nothing goes missing; all four lists are exact |
| `ReviewGate.GateReflexive` | scripts/mcp_conformance/review_regressions.py:1070-1110 | A report passes against itself if and only if it is well formed |
| `ReviewGate.NoWorseIsTheGate` | scripts/mcp_conformance/review_regressions.py:1070-1110 | The two list conditions say that no check is lost and that only checks fail that failed in the baseline |
| `ReviewGate.GateTransitive` | scripts/mcp_conformance/review_regressions.py:1070-1110 | The gate composes |
| `ReviewGate.ChainsNeverRegress` | scripts/mcp_conformance/review_regressions.py:1070-1110 | Along a chain of gated releases passing checks only grow and failing ones only shrink |
| `ReviewGate.BaselineChainsNeverRegress` | scripts/mcp_conformance/review_regressions.py:1070-1110 | Along a chain in which each release is gated against the compact baseline of the one before, passing checks only grow and failing ones only shrink |
| `RpcClient.AppServerClient.constructor` | scripts/mcp_conformance/run_codex_compliance.py:159-201 | A fresh client has id 1, an empty log and nothing sent |
| `RpcClient.AppServerClient.Send` | scripts/mcp_conformance/run_codex_compliance.py:228-237 | A message goes out exactly while the process takes writes |
| `RpcClient.AppServerClient.Notify` | scripts/mcp_conformance/run_codex_compliance.py:239-240 | A notification goes out and nothing else changes |
| `RpcClient.AppServerClient.HandleServerRequest` | scripts/mcp_conformance/run_codex_compliance.py:319-353 | A server request is logged and answered once under its own id, with the elicited content or a refusal |
| `RpcClient.AppServerClient.ReadOne` | scripts/mcp_conformance/run_codex_compliance.py:253-276 | One read of the loop hands out a response to the awaited id and files everything else |
| `RpcClient.AppServerClient.AwaitResponse` | scripts/mcp_conformance/run_codex_compliance.py:253-276 | The loop returns a response to the awaited id; every other message read is in the log, a failed wait has handed out nothing and failed because a write was refused or nothing more arrived |
| `RpcClient.AppServerClient.Call` | scripts/mcp_conformance/run_codex_compliance.py:242-276 | Each call uses a new id, its answer responds to that id, every message consumed is logged or handed out, once, in order, and it fails only when a write is refused or nothing more arrives |
| `RpcClient.AppServerClient.ScanLog` | scripts/mcp_conformance/run_codex_compliance.py:285-290 | The scan finds the first match in the log after the cursor, or there is none |
| `RpcClient.AppServerClient.AwaitNotification` | scripts/mcp_conformance/run_codex_compliance.py:292-317 | The reading loop returns the first matching notification that arrives |
| `RpcClient.AppServerClient.WaitForNotification` | scripts/mcp_conformance/run_codex_compliance.py:278-317 | The result is the first eligible event at or after the cursor, and on failure there is none, and a write was refused or nothing more arrived |
| `RpcClient.WaitReturnsTheEarliest` | scripts/mcp_conformance/run_codex_compliance.py:278-317 | The returned event is the earliest match if and only if it is not from before the cursor and no matching server request behind the cursor was skipped while reading live |
| `RpcClient.ServerRequestsAreSkippedLive` | scripts/mcp_conformance/run_codex_compliance.py:285-311 | The same two messages give one answer from the log and another live |
| `RpcClient.CursorPastTheEndIsIgnored` | scripts/mcp_conformance/run_codex_compliance.py:292-317 | With a cursor past the end of the log a live wait returns an event from before the cursor |
| `RpcClient.AnsweredOneForOne` | scripts/mcp_conformance/run_codex_compliance.py:319-353 | The server requests of a log have as many answers, in order, each under its own id |
| `SemVer.JoinSplit` | codex-cli/bin/codex-agents-update.js:9-18 | Joining the split pre-release text gives it back |
| `SemVer.ParseAccepts` | codex-cli/bin/codex-agents-update.js:9-18 | Every text of the grammar parses to the numbers and identifiers written in it |
| `SemVer.ParseRejects` | codex-cli/bin/codex-agents-update.js:9-18 | Whatever parses is a text of the grammar |
| `SemVer.CompareCore` | codex-cli/bin/codex-agents-update.js:27-31 | The loop decides exactly when the cores differ, by the first difference |
| `SemVer.ComparePrerelease` | codex-cli/bin/codex-agents-update.js:33-71 | The loop with its early returns computes pre-release precedence of section 11 of Semantic Versioning 2.0.0 |
| `SemVer.IsNewerVersion` | codex-cli/bin/codex-agents-update.js:20-72 | True if and only if both texts parse and the candidate has higher precedence |
| `SemVer.PrecedenceTransitive` | codex-cli/bin/codex-agents-update.js:20-72 | Precedence is transitive |
| `SemVer.PrecedenceIrreflexive` | codex-cli/bin/codex-agents-update.js:20-72 | No version precedes itself |
| `SemVer.NewerIsStrictOrder` | codex-cli/bin/codex-agents-update.js:20-72 | On any texts at all, valid or not, being newer is irreflexive, asymmetric and transitive |
| `SemVer.UnorderedExactly` | codex-cli/bin/codex-agents-update.js:33-71 | Two versions are left unordered if and only if they are equal or first differ in how one number is written |
| `SemVer.ValueInjective` | codex-cli/bin/codex-agents-update.js:33-71 | Without leading zeros a number is written in one way |
| `SemVer.CanonicalTotalOrder` | codex-cli/bin/codex-agents-update.js:20-72 | On versions without leading zeros precedence is a total order |
| `SemVer.LeadingZeroIsUnordered` | codex-cli/bin/codex-agents-update.js:33-71 | 1.0.0-01 and 1.0.0-1 both parse, differently, and neither is newer than the other |
| `AutoUpdate.Installation.FetchLatestVersion` | codex-cli/bin/codex-agents-update.js:102-131 | The registry answer is returned and recorded exactly when it is usable; otherwise the cache stays |
| `AutoUpdate.Installation.MaybeAutoUpdate` | codex-cli/bin/codex-agents-update.js:133-170 | One launch takes the installation to its specified next state and reports an update exactly when there was one |
| `AutoUpdate.Installation.Start` | codex-cli/bin/codex.js:124-147 | A launch that updated and started again does not update a second time |
| `AutoUpdate.VersionsOnlyRise` | codex-cli/bin/codex-agents-update.js:133-170 | Over any run of launches versions never go down, and one that was left never comes back |
| `AutoUpdate.CacheHoldsLastCheck` | codex-cli/bin/codex-agents-update.js:102-131 | The cache holds the last recorded check |
| `AutoUpdate.RecordsOnlyWhenStale` | codex-cli/bin/codex-agents-update.js:86-100 | A check is recorded over a usable cache only when that is 20 hours old |
| `AutoUpdate.NextCheckIsLate` | codex-cli/bin/codex-agents-update.js:86-131 | The next recorded check comes at least 20 hours after the last |
| `AutoUpdate.ChecksAreFarApart` | codex-cli/bin/codex-agents-update.js:86-131 | Neighbouring recorded checks of any run are at least 20 hours apart, whatever the clock did between |
| `AutoUpdate.UpdatesAreBoundedByChecks` | codex-cli/bin/codex-agents-update.js:133-170 | Over any run updates outnumber recorded checks by at most one, the cache found at the start |
| `DiffSummary.AcceptedLineFingerprints` | codex-rs/analytics/src/accepted_lines.rs:30-83 | The line loop computes the summary of the diff |
| `DiffSummary.WordsOfJoined` | codex-rs/analytics/src/accepted_lines.rs:157-169 | Words joined by single spaces split into the same words |
| `DiffSummary.NormalizationIsStable` | codex-rs/analytics/src/accepted_lines.rs:157-169 | Normalizing a line keeps its words and is done after one pass |
| `DiffSummary.SameWordsSameLine` | codex-rs/analytics/src/accepted_lines.rs:157-169 | Two counted lines normalize alike if and only if they have the same words |
| `DiffSummary.ScanShifts` | codex-rs/analytics/src/accepted_lines.rs:30-83 | The totals so far never influence how a line is read |
| `DiffSummary.LinesConcat` | codex-rs/analytics/src/accepted_lines.rs:39 | Lines of newline-terminated text and what follows are the lines of both |
| `DiffSummary.ScansAddUp` | codex-rs/analytics/src/accepted_lines.rs:39-83 | A file header starts afresh, so summaries of the two parts add up |
| `DiffSummary.ConcatenationAddsUp` | codex-rs/analytics/src/accepted_lines.rs:30-83 | The summary of concatenated git diffs is the sum of their summaries |
| `GitDiff.LinesOfRendered` | codex-rs/analytics/src/accepted_lines.rs:39 | Rendered lines read back as those lines without a final carriage return |
| `GitDiff.LineScans` | codex-rs/analytics/src/accepted_lines.rs:60-75 | A hunk line is counted and fingerprinted by its mark, even where its text looks like a header |
| `GitDiff.HunkScans` | codex-rs/analytics/src/accepted_lines.rs:46-75 | A hunk contributes the meaning of its lines under the path of its file |
| `GitDiff.TargetNormalizes` | codex-rs/analytics/src/accepted_lines.rs:143-155 | The target line of a file is read as its path without white space at the end, as its quoted spelling, or as none for a deleted file |
| `GitDiff.KeepsItsPathExactly` | codex-rs/analytics/src/accepted_lines.rs:143-155 | For every target: a file is filed under its own path if and only if git did not quote it and it does not end in white space |
| `GitDiff.PathsToldApartExactly` | codex-rs/analytics/src/accepted_lines.rs:143-155 | Any two targets are read alike if and only if their paths agree up to white space at the end, their quoted spellings agree, one is the quoted spelling of the other, or both are deleted |
| `GitDiff.TrailingBlankIsLost` | codex-rs/analytics/src/accepted_lines.rs:143-155 | The file foo with a blank behind it is filed under the path of foo |
| `GitDiff.QuotedPathIsKept` | codex-rs/analytics/src/accepted_lines.rs:143-155 | A path with a tab in it is filed under its quoted spelling |
| `GitDiff.FileScans` | codex-rs/analytics/src/accepted_lines.rs:40-75 | A file contributes its meaning, whatever was scanned before |
| `GitDiff.SummaryRecoversDiff` | codex-rs/analytics/src/accepted_lines.rs:30-83 | Writing any list of file changes as a git diff and summarizing it recovers the added and deleted counts of that list, and the fingerprints of its added lines under the path each file is read as |
| `ReleaseVersion.ParseText` | sdk/python/release_version.py:10-12 | Printing then parsing a normalized version gives it back |
| `ReleaseVersion.TextOfParse` | sdk/python/release_version.py:10-12 | Parsing then printing gives the text back |
| `ReleaseVersion.MatchesOnlyAtLastDash` | sdk/python/release_version.py:68-82 | An end-anchored pattern can only match at the last dash, so one replacement is all replacements |
| `ReleaseVersion.NormalizeText` | sdk/python/release_version.py:68-82 | A normalized version is its own normal form |
| `ReleaseVersion.NormalizeIdempotent` | sdk/python/release_version.py:68-82 | Normalizing twice is normalizing once, for every text that normalizes |
| `ReleaseVersion.RewriteRelease` | sdk/python/release_version.py:49-65 | The rewriting rules undo the release spelling of every normalized version |
| `ReleaseVersion.TagNormalizesBack` | sdk/python/release_version.py:45-65 | The tag of a version normalizes back to the version |
| `ReleaseVersion.TagsAreDistinct` | sdk/python/release_version.py:45-65 | Two versions share a tag if and only if they normalize alike |
| `ReleaseVersion.RuntimeReleaseLeadsBack` | sdk/python/release_version.py:34-42 | A text resolves if and only if it is a runtime version, and its tag normalizes back to the very version |
| `ReleaseVersion.RuntimeReleasesAreDistinct` | sdk/python/release_version.py:34-42 | Different runtime versions come from different releases |
| `McpServer.OneReplyPerRequest` | scripts/mcp_conformance/server.py:306-348 | A message gets no reply if and only if it is a notification, and a reply carries the id it answers |
| `McpServer.Handle` | scripts/mcp_conformance/server.py:306-362 | Dispatch moves the connection to its specified state and gives the specified reply and the notifications that go ahead of it, in both modes |
| `McpServer.HandleModern` | scripts/mcp_conformance/server.py:364-485 | A modern request is answered from its own metadata, whatever the state |
| `McpServer.HandleLegacy` | scripts/mcp_conformance/server.py:487-572 | The legacy handshake, likewise |
| `McpServer.FixtureServer.DoDelete` | scripts/mcp_conformance/server.py:1412-1431 | Not allowed off the endpoint or on a modern server, and then nothing changes; otherwise exactly the named session is removed and reported as known or unknown |
| `McpServer.FixtureServer.OpenSession` | scripts/mcp_conformance/server.py:1542-1555 | A new session under the issued id, in the state its initialize leaves it in |
| `McpServer.FixtureServer.DoPost` | scripts/mcp_conformance/server.py:1433-1568 | A posted message moves the session table to its specified next table and gets the specified reply |
| `McpServer.HandlePost` | scripts/mcp_conformance/server.py:1433-1540 | A request turned away for its path, origin, type, length or body touches no session and gets the code of the first failed check; a modern one never touches a session |
| `McpServer.StateRemembersHandshake` | scripts/mcp_conformance/server.py:487-572 | In every run a session counts as initialized if and only if an accepted initialize opened it and its notification followed, with no delete or re-issue of the id since the opening |
| `McpServer.NoResultBeforeHandshake` | scripts/mcp_conformance/server.py:487-572 | In every run no method but initialize yields a result on a session without a completed handshake |
| `McpServer.ServedExactlyAfterHandshake` | scripts/mcp_conformance/server.py:487-572 | In every run a well-formed request is served if and only if its session has completed the handshake, and is refused otherwise |
| `McpServer.StepIsLocal` | scripts/mcp_conformance/server.py:1542-1568 | An exchange reads and changes only the session it names |
| `McpServer.SessionsAreIsolated` | scripts/mcp_conformance/server.py:1433-1568 | In every run a session is what its own exchanges made of it |
| `McpServer.GoneStaysGone` | scripts/mcp_conformance/server.py:1412-1431 | A session that is not there comes back only if its id is issued again |
| `McpServer.DeletedSessionIsRefused` | scripts/mcp_conformance/server.py:1542-1568 | After a delete every later exchange on that session is refused |
| `McpServer.NotificationAnsweredExactlyWhenUnknown` | scripts/mcp_conformance/server.py:1433-1568 | Over HTTP a notification is answered if and only if it needs a session and names none that is known |
| `McpServer.StrayCancellationIsAnswered` | scripts/mcp_conformance/server.py:1542-1568 | A cancellation for a session that was never opened is answered with an error |
| `McpServer.PostRepliesCarryIds` | scripts/mcp_conformance/server.py:1433-1568 | Over HTTP everything but a notification is answered, and every answer carries the id of its message |
| `McpServer.RunStdio` | scripts/mcp_conformance/server.py:1641-1671 | The loop over the lines writes for each the notifications of its method and then its reply, one connection state for all; without the notifications the output is the replies |
| `McpServer.RepliesMatchRequests` | scripts/mcp_conformance/server.py:1641-1671 | Over a whole stdio session replies and requests correspond one to one, in order, each reply under the id of its request |
| `McpServer.StdioRemembersHandshake` | scripts/mcp_conformance/server.py:1641-1671 | The stdio connection counts as initialized if and only if its notification followed an accepted initialize |
| `ArtifactCache.Disk.CopyChunks` | scripts/codex_package/v8.py:169-179 | Chunk by chunk only the temporary file changes, and ends up with all of them |
| `ArtifactCache.Disk.DownloadFile` | scripts/codex_package/v8.py:169-179 | At every moment the destination holds its old content or the whole download; it is replaced if and only if the transfer completed; the temporary file is gone |
| `ArtifactCache.Refetch` | scripts/codex_package/v8.py:143-155 | At every moment the artifact is absent or whole; it stays if and only if it was delivered whole with the right digest |
| `ArtifactCache.EnsureValidArtifact` | scripts/codex_package/v8.py:143-166 | Afterwards the artifact matches the digest or is not there; other files are untouched; success if and only if it matched before or was delivered matching |
| `ArtifactCache.FieldsOfLine` | scripts/codex_package/v8.py:110-140 | A manifest line of digest, blanks and name reads back as digest and name |
| `ArtifactCache.OneLinePerArtifact` | scripts/codex_package/v8.py:110-140 | An accepted manifest names every artifact on exactly one line |
| `ArtifactCache.LoadChecksums` | scripts/codex_package/v8.py:110-140 | Accepted if and only if the lines are well formed and name exactly the artifacts, once each; the map holds the digest of each line |
| `ArtifactCache.LoadBoth` | scripts/codex_package/v8.py:110-140 | The manifest gives each of the two artifacts one digest, and that is the one looked up |
| `ArtifactCache.PathsDiffer` | scripts/codex_package/v8.py:59-76 | Manifest, archive, binding and their temporary files never collide, for every target and cache directory |
| `ArtifactCache.EnsureBoth` | scripts/codex_package/v8.py:78-83 | Both artifacts end up valid if and only if both can be had from the cache or the network; at every moment each is absent, as before or whole, and all other files are as before |
| `ArtifactCache.FetchCodexV8Artifacts` | scripts/codex_package/v8.py:52-85 | A pair is returned if and only if the manifest arrives, names exactly the two artifacts and each can be had with its digest; both files then have the digest of their manifest line; at every moment the three files are absent, as before or whole, and no other file is touched |
| `ArtifactCache.ArchiveIsValid` | scripts/codex_package/dotslash.py:125-162 | A cached archive is kept if and only if it has the declared size and digest, and is removed at once otherwise |
| `ArtifactCache.ObtainArchive` | scripts/codex_package/dotslash.py:49-55 | The archive is the verified cached one, or else the verified download, or is not there; at every moment it is absent, as before or the whole download, and nothing else changes |
| `ArtifactCache.ExtractMember` | scripts/codex_package/dotslash.py:178-222 | The old executable goes first and the new one is written in place, so that at every moment it is absent or some of its chunks; one that breaks off stays behind in part and is reported |
| `ArtifactCache.FetchDotslashExecutable` | scripts/codex_package/dotslash.py:28-62 | The executable is installed if and only if a verified archive can be had and its member reads to its end; what is at the destination afterwards is exact in every case; at every moment the archive is absent, as before or whole, the destination as before, absent or in part, and nothing else changes |
| `ArtifactCache.ExecutableIntactExactly` | scripts/codex_package/dotslash.py:28-62 | After a fetch with a verified archive the executable is absent or whole if and only if its member is missing or reads to its end; without one it is as before or gone |
| `ArtifactCache.HalfAnExecutable` | scripts/codex_package/dotslash.py:178-222 | A verified cached archive whose member breaks off after its first chunk leaves that chunk at the destination |
| `LintArgs.ParseWrapperArgs` | tools/argument-comment-lint/wrapper_common.py:55-104 | The scanning loop computes the declarative reading: everything before the first separator, everything after, and the flags seen |
| `LintArgs.BuildFinal` | tools/argument-comment-lint/wrapper_common.py:107-122 | The final arguments are the missing defaults, then the arguments of the user in order |
| `LintArgs.ParseOfFinal` | tools/argument-comment-lint/wrapper_common.py:55-122 | Reading back the built arguments finds the arguments of the user behind the defaults |
| `LintArgs.FinalIsComplete` | tools/argument-comment-lint/wrapper_common.py:107-122 | What is run always has a manifest, no-deps, and targets unless it fixes; it has a scope if and only if the user gave one or left the manifest to the wrapper; all arguments of the user are kept |
| `LintArgs.RebuildIsStable` | tools/argument-comment-lint/wrapper_common.py:55-122 | Building from the built arguments adds nothing |
| `LintArgs.RebuildGrows` | tools/argument-comment-lint/wrapper_common.py:55-122 | With a manifest path that reads as the separator every rebuild grows |
| `LintArgs.RebuildIsFixedPointExactly` | tools/argument-comment-lint/wrapper_common.py:55-122 | Rebuilding is a fixed point if and only if a manifest was given or the manifest path is not the separator |
| `LintArgs.Environment.AppendEnvFlag` | tools/argument-comment-lint/wrapper_common.py:125-131 | A flag is set, left alone or appended, and no other variable changes |
| `LintArgs.Environment.SetDefaultLintEnv` | tools/argument-comment-lint/wrapper_common.py:134-139 | The three flags and the incremental default |
| `LintArgs.AppendedFlag` | tools/argument-comment-lint/wrapper_common.py:125-131 | A flag once present stays present, appending it again does nothing, appending another keeps it, and other variables stay |
| `LintArgs.WithFlagsFlags` | tools/argument-comment-lint/wrapper_common.py:134-139 | All three lint flags are present afterwards |
| `LintArgs.LintEnvIdempotent` | tools/argument-comment-lint/wrapper_common.py:134-139 | The environment is complete after one pass and a second pass changes nothing |
| `ServerPath.JoinKeepsHostExactly` | codex-rs/app-server-client/src/path.rs:33-58 | A join keeps the kind of host if and only if the path has components or the segment cannot flip the bare root |
| `ServerPath.JoinAppendsComponents` | codex-rs/app-server-client/src/path.rs:21-41 | As long as the host is kept, a join appends exactly the components of the segment, split by the rules of the base path |
| `ServerPath.JoinAppendsExactly` | codex-rs/app-server-client/src/path.rs:21-58 | A join appends exactly the components of the segment if and only if it keeps the host, or goes from a bare slash to a share and has no backslash |
| `ServerPath.JoinStaysAbsoluteExactly` | codex-rs/app-server-client/src/path.rs:13-41 | A join of an absolute path is absolute unless it strips a bare Windows root of its second separator |
| `ServerPath.RootJoinFlipsHost` | codex-rs/app-server-client/src/path.rs:33-58 | Joining /x to / gives a Windows path, and joining x to // gives one that is not |
| `ServerPath.JoinsAppendComponents` | codex-rs/app-server-client/src/path.rs:21-41 | Any number of joins appends the component lists in order and stays on the host, as long as each segment joined to a bare root keeps it there |
| `ServerPath.PlainJoinsAreSafe` | codex-rs/app-server-client/src/path.rs:33-41 | That is so for any segments on a path with components, and for plain segments on any path |

## Left out

- Pipeline.AnalyticsEventsQueue.BeginFlush: time is not modelled; a timeout is the cancel or the abandon step, which may come at any moment.
- ComplianceReport.RequiredRegressionChecks: the texts and order of the error messages are not modelled, because callers only ask whether there are any.
- ReviewReport.RequiredReviewChecks: the texts and order of the error messages are not modelled, for the same reason.
- ComplianceReport.RecordIdentity: JSON values that Python cannot hash raise there; here they are malformed, so the gate does not pass either way.
- ComplianceEvidence.StemOfNumbered: arrival numbers are ASCII digits, not every Unicode decimal.
- RpcClient.AppServerClient.Read: the reader thread and its JSON decoding are a script of deliveries.
- AutoUpdate.Installation.FetchLatestVersion: a cache write that fails leaves the cache unchanged, and nothing else edits the file.
- SemVer.CompareCore: JavaScript numbers lose precision above 2^53; here they are unbounded.
- DiffSummary.AcceptedLineFingerprints: the u64 counters are unbounded here.
- GitDiff.SummaryRecoversDiff: covers diffs written with the default `a/` and `b/` prefixes, not other prefixes or none.
- McpServer.Handle: the result of each method and the notifications it sends ahead of it are parameters; which requests get as far as their method is not.
- McpServer.OneReplyPerRequest: the methods themselves are abstract, so that each of them passes the id it was given on to its reply is part of the model and not proved of their code.
- McpServer.HandlePost: whether the modern headers match is a parameter; HTTP status codes and event-stream encoding are not modelled.
- ArtifactCache.FetchDotslashExecutable: directory creation and file modes are not modelled.
- The disabled analytics client, a closed channel, the HTTP request itself and the capture file.
- Python equality between integers, booleans and floats in report fields.
- Substitution by regular expression is modelled at the last dash; `ReleaseVersion.MatchesOnlyAtLastDash` is why that is the same.
- Agent graph storage, agent identities, the npm and archive packaging scripts, the README table-of-contents and ASCII checkers, and the Rust core itself.
