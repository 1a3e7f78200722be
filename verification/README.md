# Verified models of the knora evaluation tooling

This project models the parts of the knora evaluation tooling whose correctness is an argument over whole runs
or over several functions, and proves that argument in Dafny 4.11. `dafny verify dfyconfig.toml` checks
everything.

- `OwnershipStore`: the fenced lease store. Two tables, the ownership rows and the operation log, change in
  atomic transactions; the class methods are the transactions, and every law is about the tables after any
  history of calls by any number of workers, each with its own clock reading.
- `CorpusClosure`, `EvaluationSeal`: the closure check of an evaluation corpus and the sealed run that brackets
  it with two ownership assertions while other workers keep calling the store.
- `ReportDispatch`: reserve, send, publish. Several processes share a directory whose only strong primitive is
  an exclusive link; a process can fail or crash between any two steps and reruns can start at any time.
- `PublishedRows`, `ProcessRuns`, `BatchRuns`: what every published row says about the step that produced it, and what a
  BM25 run, a canary run and a collection send and publish when nothing goes wrong.
- `FollowUps`: collections of a dataset with follow-up cases, which are sent only behind a good row of their parent,
  and exactly when a case that was reserved before a crash can be sent again.
- `Fractions`, `RetrievalMetrics`, `CategoryBreakdown`: the exact metric pipeline, its producer and the
  independent recomputation and reconciliation of its reports.
- `FrozenRestore`: page texts, ordinals and line numbers rebuilt from overlapping chunks.
- `Text`, `CitationMarkers`, `EvidenceExtraction`, `SourceSpans`, `SourceClauses`: answers printed with citation
  markers, the parser that reads them back, and the rendering that merges quotes.
- `SourceBinding`: occurrences of evidence anchors, their review, and the coverage computed from it.
- `CommandLine`: Windows argument quoting against the documented splitting rules.
- `BindMessage`, `CommitFault`: the Bind decoder and the one-shot fault of the PostgreSQL proxy.
- `FreeQuota`: persisted admission counters across restarts, failed saves and quota answers.
- `ThresholdFit`, `PhraseBoost`: an order-statistic threshold and a normalised blend with a total-order sort.
- `Sorting`, `Wrappers`: the stable sort of the modelled programs' standard library, and shared types.

Where the repository's code updates state, the model does too: classes with fields, methods with loops over accumulators.
Each such method is proved equal to a function of its inputs or of the old state, and the laws are lemmas about
that function.

## What the proofs brought to light

- `score_retrieval` compares case ids as sets, so it accepts the same case id twice; `_decision_metrics` then
  sees fewer cases than the report counts. The recomputation agrees if and only if no applicable case with a
  successful observation is followed by another case of its id (`RetrievalMetrics.CheckerReproducesTheMeans`);
  `ARepeatedCase` is a concrete report that disagrees.
- Merging quotes that touch can put a `[[` into an answer although no quote holds one. `render_source_clauses`
  then rejects its own rendering. `SourceClauses.RenderSourceClauses` states exactly when: the two brackets of
  a `[[` in the source both belong to selected quotes that occur once. `ARejectedRendering` is a concrete
  extraction on which it fails.
- A recorded `FREE_ACCESS_DENIED` is not final. Right after it, some continuation admits a request if and only
  if budget is left and another request that was let through before is still unanswered; every such continuation
  holds the 429 that answers one (`FreeQuota.DenialIsLiftedIff`). After any run, a continuation without a further
  429 admits something if and only if the file or the running guard holds neither a denial nor a request limit and
  budget is left (`FreeQuota.AdmitsAgainIff`). `DenialIsNotFinal` is a concrete run.
- In the repeat path of `release`, the branch "capability still matches the row" cannot be taken, whatever expiry
  the repeated capability carries (`OwnershipStore.ReleaseRetrySucceedsUntilReacquired`).
- "A rerun after a crash between reservation and row sends nothing for that case" holds for every case without a
  parent, and for a follow-up whose parent has a good row of its own once no collection is alive
  (`FollowUps.RerunAfterACrashSendsNothing`). It fails for a follow-up when a live collection still holds an older,
  paused row of the parent, or when the parent is good only by a reviewed selection that the next run omits: that
  collection publishes a row without a dispatch, a pause makes the row retryable, and a resumed run sends the next
  attempt. `FollowUps.NotSentAgainUnlessMissed` shows that these are the only ways, `FollowUps.CrashedCaseIsSentAgainIff`
  that each of them works, and `FollowUps.AStaleCollection` is a concrete run.
- Filtering by a threshold can move a relevant candidate from behind the fifth place into the first five. A fit
  case therefore misses exactly below its best score if and only if no relevant candidate behind the fifth place
  is better than that score with fewer than five earlier candidates at least as similar
  (`ThresholdFit.MissesBelowBestIff`). The fitted threshold never lets too many fit cases miss; it is the greatest
  such value if and only if at every relevant candidate's similarity above it the best scores below, less those of
  the cases that such a candidate rescues, are still too many (`ThresholdFit.FittedThresholdMissesFew`). `AnOvertakenCase` is a concrete case for which it is not.

## Model

| member | source | states |
|---|---|---|
| OwnershipStore.SqliteOwnershipStore.Acquire | evals/runners/evaluation_ownership.py:103-190 | One acquire transaction: repeats are answered from the log, a refusal is recorded and committed, a repeat mismatch rolls back; the object's tables stay those of its history |
| OwnershipStore.SqliteOwnershipStore.AssertCurrent | evals/runners/evaluation_ownership.py:192-197 | The assertion accepts exactly a capability that matches the row and has not expired, and changes nothing |
| OwnershipStore.SqliteOwnershipStore.Renew | evals/runners/evaluation_ownership.py:199-263 | One renew transaction, with the same treatment of repeats and refusals |
| OwnershipStore.SqliteOwnershipStore.Release | evals/runners/evaluation_ownership.py:265-315 | One release transaction; a repeat is judged by the current row, not by the recorded result |
| OwnershipStore.AssertionIff | evals/runners/evaluation_ownership.py:484-499 | An assertion is accepted exactly when the row names owner and version and its expiry lies after now |
| OwnershipStore.FirstAcquireIff | evals/runners/evaluation_ownership.py:128-190 | The first acquire of an operation id is granted if and only if run, owner and duration are given and the run has no row, no owner, no expiry or one that is over; the reply, the row and the record of either outcome are stated field by field |
| OwnershipStore.FirstRenewIff | evals/runners/evaluation_ownership.py:220-263 | The first renewal of an operation id is granted if and only if the duration is positive and an assertion of the capability would be accepted; only the expiry moves, to exactly now plus the duration |
| OwnershipStore.FirstReleaseIff | evals/runners/evaluation_ownership.py:290-315 | The first release of an operation id succeeds if and only if an assertion of the capability would be accepted; it frees the run and keeps its version |
| OwnershipStore.GrantIsCurrent | evals/runners/evaluation_ownership.py:103-263 | Whatever acquire or renew hands out, first time or repeated, is current at that moment and names the requested run, owner and version |
| OwnershipStore.StepCommits | evals/runners/evaluation_ownership.py:416-471 | A call appends at most one record, for an unused id and under its own id; a row changes only together with an OK record of its run |
| OwnershipStore.RowsAreFoldsOfTheLog | evals/runners/evaluation_ownership.py:103-315 | After any history every ownership row is the fold of its run's OK records in commit order, and its fencing version is the number of OK acquire records |
| OwnershipStore.EpochStep | evals/runners/evaluation_ownership.py:128-170 | Version and release state of a run only move forward, and move exactly when an acquire or a release is granted |
| OwnershipStore.CurrentTwiceMeansUninterrupted | evals/runners/evaluation_ownership.py:484-499 | A capability accepted at two points of any history was the owner throughout; no acquire or release of the run was granted in between |
| OwnershipStore.RecordedIffUsed | evals/runners/evaluation_ownership.py:375-401 | An operation id is in the log exactly when some earlier call has used it |
| OwnershipStore.RepeatsAreInvisible | evals/runners/evaluation_ownership.py:375-401 | Any history ends in the same two tables as that history with every later reuse of an operation id removed |
| OwnershipStore.RepeatIsAnswered | evals/runners/evaluation_ownership.py:375-471 | In any history a later call with a used id is refused as a mismatch unless it asks for the same thing; then a refusal is repeated, and a granted acquire or renewal returns the recorded capability exactly while that is current |
| OwnershipStore.ReleaseRetrySucceedsUntilReacquired | evals/runners/evaluation_ownership.py:279-289 | A repeat of a granted release for the same run, owner and version, whatever expiry it carries, succeeds exactly until the next granted acquire, and never because the capability still matches |
| OwnershipStore.HoldsAreDisjointAndOrdered | evals/runners/evaluation_ownership.py:128-301 | With clock readings that do not run backwards, the holding intervals of a run are disjoint and ordered by fencing version, however renewals move the expiry |
| OwnershipStore.AcceptedWhileHolding | evals/runners/evaluation_ownership.py:484-499 | A capability is accepted only inside the holding interval of its version |
| OwnershipStore.AcquireGrantedIffHoldIsOver | evals/runners/evaluation_ownership.py:128-170 | With an ordered clock a first acquire is granted if and only if the last holding interval of the run has ended |
| CorpusClosure.VerifyCorpusClosure | evals/runners/milestone_3.py:474-512 | The closure check succeeds exactly when binding, corpus and manifest agree in identities, sources and chunk references, and each error is returned for its own disagreement |
| CorpusClosure.SourceBindingOf | evals/runners/milestone_3.py:425-429 | A source is bound only when exactly one binding names it |
| CorpusClosure.SourceOfMeans | evals/runners/milestone_3.py:492-494 | A reference splits at its last "#" and nowhere else |
| CorpusClosure.ClosedCorpusIsTheManifest | evals/runners/milestone_3.py:474-512 | In a closed corpus every chunk of the manifest is in exactly one document and no document holds anything else |
| EvaluationSeal.EvaluationEnvironmentSeal.constructor | evals/runners/milestone_3.py:548-561 | A new seal holds neither capability nor captured environment |
| EvaluationSeal.EvaluationEnvironmentSeal.Acquire | evals/runners/milestone_3.py:569-587 | The seal asks the store once and returns what the store replies; a grant replaces capability and sealed state and is current, a refusal leaves both |
| EvaluationSeal.EvaluationEnvironmentSeal.AssertCurrent | evals/runners/milestone_3.py:675-681 | Accepts exactly when a capability is held and the row matches it |
| EvaluationSeal.EvaluationEnvironmentSeal.CapturePreflight | evals/runners/milestone_3.py:589-603 | Succeeds if and only if both assertions are accepted and the corpus is closed, whatever other workers committed in between; then ownership was uninterrupted |
| EvaluationSeal.EvaluationEnvironmentSeal.VerifyUnchanged | evals/runners/milestone_3.py:605-622 | Succeeds if and only if the binding is the captured one, the corpus is still closed and both assertions are accepted; then ownership was uninterrupted since the capture |
| EvaluationSeal.EvaluationEnvironmentSeal.Release | evals/runners/milestone_3.py:624-636 | Succeeds exactly when the store releases the held capability and then drops capability and seal; a refusal keeps both; without a capability the store is not asked |
| EvaluationSeal.EvaluationEnvironmentSeal.Renew | evals/runners/milestone_3.py:638-654 | Succeeds exactly when the store renews the held capability; run, owner and version stay, so a captured environment stays captured |
| EvaluationSeal.BracketedOwnership | evals/runners/milestone_3.py:589-622 | Two accepted assertions of one capability bracket a stretch without any granted acquire or release of the run |
| ReportDispatch.InvariantAlways | evals/runners/pdf_retrieval_v3.py:837-904 | In every reachable state published files are complete, reservations have one author, and every dispatch has its reservation |
| ReportDispatch.AtMostOneDispatch | evals/runners/pdf_retrieval_v3.py:837-904 | Each case and attempt is dispatched at most once for all time, and only by the process that wrote its reservation |
| ReportDispatch.CanarySendsWaitForTheFirst | evals/runners/cloudflare_p1_trial.py:71-80 | No other canary is dispatched before the first one was published as passed |
| ReportDispatch.PublishedFilesNeverChange | evals/runners/evaluation.py:619-635 | A published name keeps one author's complete document for ever |
| ReportDispatch.RerunSendsNothingUnpublished | evals/runners/pdf_retrieval_v3.py:956-1020 | After an attempt was reserved and its owner is past sending or gone, no later process of any kind dispatches the case as long as no retryable row of that attempt is published, and then only a later attempt |
| ReportDispatch.CrashedAttemptIsNeverRepeated | evals/runners/pdf_retrieval_v3.py:837-904 | For any mix of runners and datasets: after a crash between reservation and row, a later process dispatches the case only behind a published row of that attempt that claims no dispatch and may be retried |
| ReportDispatch.SelectedObservations | evals/runners/pdf_retrieval_v3.py:1023-1044 | A report uses per case the newest attempt, in whatever order files are listed, unless a reviewed selection replaces it |
| PublishedRows.PublishedSaysWhatWasSeen | evals/runners/pdf_retrieval_v3.py:980-1016 | In every reachable state a published row states what some process saw: a row with a dispatch, the outcome observed after that attempt was sent; a row without one, that a collection missed the parent of the case |
| PublishedRows.LeavesOnlyPublished | evals/runners/cloudflare_p1_trial.py:241-253 | In every reachable state a BM25 or canary run has left a case behind only if its complete row is published, and a canary only if it passed |
| PublishedRows.TemporariesAreInUse | evals/runners/evaluation.py:619-635 | In every reachable state a temporary file is being written by its process, or that process has failed or crashed; one that goes on leaves none behind |
| PublishedRows.TakenNameStops | evals/runners/evaluation.py:619-621 | A process that finds its name taken stops before it writes anything |
| BatchRuns.PreparationIff | evals/runners/pdf_retrieval_v3.py:835-849 | A BM25 run stops before sending anything exactly at a row of another run or at a reservation without a row |
| BatchRuns.Bm25RunCompletes | evals/runners/pdf_retrieval_v3.py:835-904 | From every reachable state in which some cases have their row and the others have no file, a new BM25 run can send exactly the others, once each and in list order, and publish a row with a dispatch for each, touching no other name |
| BatchRuns.CanaryIsTakenUpIff | evals/runners/cloudflare_p1_trial.py:71-80 | A canary is taken up if and only if it is the first one, or the first one is published as passed and the identity is right |
| BatchRuns.CanariesAreSent | evals/runners/cloudflare_p1_trial.py:71-135 | Canaries led by the first one, or behind its published pass, can all be sent in order and published as passed |
| BatchRuns.StartsIff | evals/runners/pdf_retrieval_v3.py:917-945 | A new process works through all its cases; a collection does not start exactly when its reviewed selection names a case outside the dataset or one whose newest complete row may not be replaced |
| BatchRuns.CollectionDecides | evals/runners/pdf_retrieval_v3.py:946-1016 | What a collection does with its next case follows from the newest row and the pause: it stops, passes the case by, or takes up the next attempt, without a reservation exactly when it misses the parent |
| BatchRuns.CollectionSendsAll | evals/runners/pdf_retrieval_v3.py:941-1020 | A collection of an untouched dataset can send every case, follow-ups included, once each and in order, and publish an answered row for each |
| FollowUps.CollectionsStep | evals/runners/pdf_retrieval_v3.py:941-1020 | Every step keeps: a collection works through the dataset in order, holds a case good only behind a published good row or a selection, and works on a follow-up without dispatching it exactly when it misses the parent |
| FollowUps.FinalRowIsNewest | evals/runners/pdf_retrieval_v3.py:946-980 | A row that cannot be retried stays the newest one of its case |
| FollowUps.NotSentAgainUnlessMissed | evals/runners/pdf_retrieval_v3.py:956-1020 | After a crash of a collection, unless the parent of the case can be missed, no later process sends the case and no process sends a later attempt of it, in any continuation over the dataset |
| FollowUps.RerunAfterACrashSendsNothing | evals/runners/pdf_retrieval_v3.py:973-1020 | With no collection alive and, for a follow-up, a good row of the parent published, a rerun sends nothing for the crashed case |
| FollowUps.MissedParentIsSentAgain | evals/runners/pdf_retrieval_v3.py:982-1016 | If the parent can be missed and no earlier case is blocked, some continuation lets a process started later send the crashed case |
| FollowUps.CrashedCaseIsSentAgainIff | evals/runners/pdf_retrieval_v3.py:973-1016 | With no earlier case blocked, a crashed case can be sent again if and only if it is a follow-up whose parent has no good row of its own, or a live collection is past that row without it and not yet past the case |
| FollowUps.ResumedRerunSends | evals/runners/pdf_retrieval_v3.py:955-1012 | A resumed collection that stands at a case whose newest row may be retried sends the next attempt if that is not reserved and, for a follow-up, it holds a good row of the parent |
| FollowUps.AStaleCollection | evals/runners/pdf_retrieval_v3.py:946-1016 | A concrete run with a published good parent: a collection that read the older parent row publishes the undispatched row of the crashed follow-up, and a fourth collection sends its second attempt |
| Fractions.NormIsLowest | evals/runners/milestone_3_comparison.py:735-749 | Reduction keeps the ratio and ends in lowest terms |
| Fractions.LowestUnique | evals/runners/milestone_3_comparison.py:741-748 | A ratio has one representation in lowest terms, so comparing numerators and denominators compares values |
| Fractions.ValueDetermines | evals/runners/milestone_3_comparison.py:1712-1713 | Fractions in lowest terms are equal exactly when their values are |
| RetrievalMetrics.ScoreRetrieval | evals/runners/milestone_3.py:1144-1242 | The scoring loop and its accumulators produce the specified report or the specified error |
| RetrievalMetrics.EntryMeansWhatItSays | evals/runners/milestone_3.py:1126-1201 | A case gets an entry if and only if it is not scored or its observation is usable; the entry holds the exact share, among the first k candidates, of the chunks the case itself lists as acceptable, and the inverse rank of the first of them, 0 when there is none |
| RetrievalMetrics.ReportMeansWhatItSays | evals/runners/milestone_3.py:1144-1242 | A run is accepted if and only if the observations are one per case and those of the scored cases are usable; the report then lists the cases by id, each described by its own observation |
| RetrievalMetrics.UnusableMeans | evals/runners/milestone_3.py:1126-1185 | Which error an unusable observation or case raises |
| RetrievalMetrics.MeansAreAverages | evals/runners/milestone_3.py:1215-1219 | The emitted means are the averages over the scored entries and the denominator is their number |
| RetrievalMetrics.EmittedFractionsAreProper | evals/runners/milestone_3.py:1190-1219 | Every emitted fraction, per case and mean, is in lowest terms and lies in [0, 1] |
| RetrievalMetrics.RationalIff | evals/runners/milestone_3_comparison.py:735-749 | A decision value is read if and only if it is a fraction in lowest terms within [0, 1], and then has its value |
| RetrievalMetrics.Recompute | evals/runners/milestone_3_comparison.py:1675-1717 | The recomputation succeeds exactly on the reports described by `Reproduced`, and returns the mean the report states |
| RetrievalMetrics.CheckerReproducesTheMeans | evals/runners/milestone_3_comparison.py:1675-1717 | On any accepted run with a scored case, in any case order, the recomputation returns the emitted means if and only if no applicable case with a successful observation is followed by another case of its id |
| RetrievalMetrics.DistinctCasesAreReproduced | evals/runners/milestone_3_comparison.py:1675-1717 | With distinct case ids the recomputation always agrees |
| RetrievalMetrics.RepeatedCaseIsNotReproduced | evals/runners/milestone_3.py:1153-1155 | A scored case given twice is accepted by the producer and rejected by the recomputation |
| RetrievalMetrics.ARepeatedCase | evals/runners/milestone_3.py:1153-1155 | A concrete instance of that disagreement |
| CategoryBreakdown.ExpectedReportMetric | evals/runners/milestone_3_comparison.py:1102-1178 | The counting loop succeeds exactly when every listed case can be counted, and returns the recount on the fields of the report: inapplicable cases, failures, scored cases, and the sum of the true flags or of the decision values |
| CategoryBreakdown.TallyIsRecount | evals/runners/milestone_3_comparison.py:1102-1178 | The one-pass classification agrees, in success and in every figure, with counting each kind of case on its own |
| CategoryBreakdown.ValidateCategoryBreakdown | evals/runners/milestone_3_comparison.py:1203-1280 | The validator accepts exactly the breakdowns whose every record fits its case count and equals the recount, and raises the reconciliation error exactly when shapes are right, cases countable and some figure differs |
| CategoryBreakdown.AcceptsIff | evals/runners/milestone_3_comparison.py:1203-1280 | A breakdown is accepted if and only if it is well shaped and every record, of every category and of the aggregate, is what the fields of the report give for its cases |
| CategoryBreakdown.RecountedIsValid | evals/runners/milestone_3_comparison.py:1075-1100 | A record that agrees with the recount passes every check of its own shape, so those checks never reject a correct record |
| CategoryBreakdown.TallyPermutes | evals/runners/milestone_3_comparison.py:1102-1178 | Figures do not depend on the order in which cases are visited |
| CategoryBreakdown.AcceptedBreakdownAdds | evals/runners/milestone_3_comparison.py:1257-1280 | In any accepted breakdown every aggregate figure of every metric is the sum of the categories' figures, though no line compares them |
| CategoryBreakdown.AcceptedBreakdownPartitions | evals/runners/milestone_3_comparison.py:1246-1250 | A breakdown accepted against an expected case set puts every expected case into exactly one category and nothing else anywhere |
| FrozenRestore.FrozenChunkMetadata | backend/runtime_test/s2_frozen_restore.py:25-70 | The chunks are accepted exactly when some page texts exist of which they are gapless slices; then every restored chunk has its place in the rebuilt pages |
| FrozenRestore.RestorableIsNotRefused | backend/runtime_test/s2_frozen_restore.py:44-57 | Valid slices of any page texts that cover a prefix without gaps meet none of the three refusals |
| FrozenRestore.RebuiltIsPrefix | backend/runtime_test/s2_frozen_restore.py:50-59 | A rebuilt page is a prefix of every text its chunks are slices of |
| FrozenRestore.RebuiltTextIsUnique | backend/runtime_test/s2_frozen_restore.py:50-59 | Each page has exactly one text of the rebuilt length of which every chunk is the slice at its offsets |
| FrozenRestore.LinesAreThoseOfTheFullPage | backend/runtime_test/s2_frozen_restore.py:65-66 | The line numbers are those counted in the full page although the loop counts in a partly built one |
| FrozenRestore.OrdinalsAreConsecutive | backend/runtime_test/s2_frozen_restore.py:63-69 | The ordinals of a chunk set are exactly 0 to k-1 |
| FrozenRestore.OrdinalsGrow | backend/runtime_test/s2_frozen_restore.py:63-69 | Later chunks of a set get larger ordinals |
| FrozenRestore.ChunkMeans | backend/runtime_test/s2_frozen_restore.py:42-51 | Chunks share a rebuilt page exactly when set and page agree; a usable chunk lies on one page and holds exactly the characters between its offsets, at least one |
| FrozenRestore.NewlinesCount | backend/runtime_test/s2_frozen_restore.py:65-66 | The count behind the line numbers is the number of positions that hold a line break |
| FrozenRestore.VisitOrder | backend/runtime_test/s2_frozen_restore.py:29-37 | Chunks are visited by set, page, start and end, in this order |
| CitationMarkers.ParsePublicMarkers | evals/runners/milestone_3.py:956-971 | The cursor loop returns the markers of the answer in order, or the structural error |
| CitationMarkers.MarkerMeans | evals/runners/milestone_3.py:34-34 | The markers are exactly E followed by the numeral of a positive number |
| CitationMarkers.MarkersRoundTrip | evals/runners/milestone_3.py:956-971 | Parsing a printed answer returns exactly its cited ids in order if and only if no printed text holds "[[" |
| CitationMarkers.BlockMarkers | evals/runners/milestone_3.py:956-971 | A text that holds "[[" adds a marker of its own whenever the answer parses at all |
| CitationMarkers.PrintedIsValid | backend/src/knora/answering/generation_validation.py:754-788 | The structural check passes on a printed answer exactly when it is not empty, its cited ids are distinct and available, and no printed text holds "[[" |
| EvidenceExtraction.RenderResult | evals/runners/ollama_evidence_first_probe.py:193-247 | An extraction is rendered exactly when it is an acceptable refusal or answer; the markers of the rendered answer are its cited ids in order, without duplicates, so the closing check rejects only answers without entries; a source error is that of the first refused entry |
| EvidenceExtraction.GroupTexts | evals/runners/ollama_evidence_first_probe.py:213-237 | The dictionary of the loop holds the trimmed texts per source, sources in the order of first use, unless an entry is refused; the error is that of the first refused entry |
| Text.SpaceMeans | evals/runners/ollama_evidence_first_probe.py:226-236 | Trimming removes exactly the 29 code points that `str.strip` removes |
| EvidenceExtraction.SourcesSize | evals/runners/ollama_evidence_first_probe.py:210-212 | Comparing the size of the source dictionary with the evidence detects exactly a repeated id |
| EvidenceExtraction.FirstUsesAre | evals/runners/ollama_evidence_first_probe.py:237-242 | The cited ids are distinct and are the sources that some entry uses |
| EvidenceExtraction.EveryTextIsPrinted | evals/runners/ollama_evidence_first_probe.py:237-241 | Every extracted text, trimmed, stands in one piece in the paragraph of its source |
| EvidenceExtraction.ItemsAre | evals/runners/ollama_evidence_first_probe.py:213-237 | The entries are facts, rules and exceptions in this order; a fact prints its text, a rule or an exception its quote |
| EvidenceExtraction.TextsInOrder | evals/runners/ollama_evidence_first_probe.py:213-237 | Inside a paragraph the texts of a source stand in the order of extraction, every entry of the source exactly once |
| EvidenceExtraction.FirstUsesInOrder | evals/runners/ollama_evidence_first_probe.py:237-242 | Of two cited sources the one cited first is used before any entry of the other |
| EvidenceExtraction.ParagraphsAre | evals/runners/ollama_evidence_first_probe.py:237-241 | There is one paragraph per cited source, its texts joined by single spaces |
| SourceSpans.MergeSpans | evals/runners/source_clause_projection.py:36-46 | The loop that overwrites the last stretch yields sorted, strictly separated stretches that cover exactly the union of the spans, each ranked by its earliest selection |
| SourceSpans.UnionUnique | evals/runners/source_clause_projection.py:36-46 | Separated stretches are determined by what they cover |
| SourceClauses.RenderParagraph | evals/runners/source_clause_projection.py:22-48 | The two loops and the final sort compute the specified paragraph |
| SourceClauses.PrintedOnce | evals/runners/source_clause_projection.py:31-46 | A source position is covered exactly when a selected quote that occurs once stands there, and no position is printed twice |
| SourceClauses.OnMeans | evals/runners/source_clause_projection.py:28-33 | A quote stands on a position alone exactly when it has one occurrence, overlapping ones counted, and that one holds the position |
| SourceClauses.RepeatsAre | evals/runners/source_clause_projection.py:24-31 | Every quote with several occurrences gives one fragment, its trimmed text at its first selection, in the order of selection |
| SourceClauses.SelectionOrderIsIrrelevant | evals/runners/source_clause_projection.py:24-46 | The merged stretches depend on the set of selected quotes only |
| SourceClauses.EveryQuoteIsPrinted | evals/runners/source_clause_projection.py:22-48 | Every selected quote, trimmed, appears in one piece in the paragraph of its source |
| SourceClauses.FragmentsInSelectionOrder | evals/runners/source_clause_projection.py:47-48 | Fragments stand in the order of the earliest selection they hold |
| SourceClauses.ParagraphBrackets | evals/runners/source_clause_projection.py:47-50 | A paragraph of clean quotes holds "[[" exactly when the brackets of two selected quotes meet in the source |
| SourceClauses.RenderSourceClauses | evals/runners/source_clause_projection.py:10-51 | The rendering succeeds exactly on acceptable verbatim answers in whose sources no brackets meet, its markers are the cited ids in order, and of the other acceptable answers each gets its own error |
| SourceClauses.PlainSourcesNeverFail | evals/runners/source_clause_projection.py:49-51 | When no cited source holds "[[", an acceptable verbatim answer is always rendered |
| SourceClauses.BracketsCanMeet | evals/runners/source_clause_projection.py:36-47 | A concrete source and two clean quotes whose merged stretch holds "[[" |
| SourceClauses.ARejectedRendering | evals/runners/source_clause_projection.py:10-51 | A concrete acceptable verbatim extraction on which the rendering fails |
| SourceBinding.FindMatches | evals/runners/pdf_source_binding.py:68-95 | The search loop and its dictionary compute the specified matches |
| SourceBinding.PositionsAre | evals/runners/pdf_source_binding.py:72-94 | Moving the cursor one past each hit visits every occurrence once, overlapping ones included |
| SourceBinding.MatchesAre | evals/runners/pdf_source_binding.py:68-95 | The matches are the source positions at which the anchor's text occurs, each once, and each lists exactly the chunks that hold it, each once |
| SourceBinding.MatchesInOrder | evals/runners/pdf_source_binding.py:68-95 | The matches, into which the choices of a review are indexes, stand in the order of their first chunks and inside a chunk from left to right; a match lists its chunks in their order |
| SourceBinding.SearchOrder | evals/runners/pdf_source_binding.py:35-35 | The chunks are searched in the order of their ids |
| SourceBinding.HoldsMeans | evals/runners/pdf_source_binding.py:72-92 | A chunk holds an anchor at a position exactly when source and page agree and the chunk shows the text of the anchor at that offset of the source |
| SourceBinding.StatusMeans | evals/runners/pdf_source_binding.py:96-112 | An anchor is missing, proposed or ambiguous as its text is shown at no, one or several source positions |
| SourceBinding.CheckChunks | evals/runners/pdf_source_binding.py:37-65 | Chunks are accepted exactly when they share a workspace, have distinct ids and derive from the listed sources; each of the three errors is returned exactly for its own failure |
| SourceBinding.ValidChunkMeans | evals/runners/pdf_source_binding.py:37-65 | A chunk derives from the sources exactly when the last source listed under its id has its digest, no identity is empty, it lies on one page, and offsets and checksum fit its content |
| SourceBinding.ProposeBindings | evals/runners/pdf_source_binding.py:34-114 | Exactly the ids of the anchors get a proposal, each that of the last anchor with the id |
| SourceBinding.ValidateBindingReview | evals/runners/pdf_source_binding.py:117-148 | A review is accepted exactly when it is approved, matches the digests and picks one existing occurrence for every anchor that has any; the bindings are the chunks of the picked occurrences, and an error names the first check that fails |
| SourceBinding.CoveredMeans | evals/runners/pdf_source_binding.py:151-155 | A group whose lookups all succeed is covered exactly when some bound alternative shares a chunk with the selection |
| SourceBinding.CoverageFailsIff | evals/runners/pdf_source_binding.py:151-155 | The coverage of the groups fails exactly when in some group an unknown anchor comes before every covered one |
| SourceBinding.CoveredGroupsShowTheText | evals/runners/pdf_source_binding.py:151-155 | After an accepted review a group is covered exactly when, for one of its anchors, a selected chunk of the right source and page shows the anchor's text at the reviewed position |
| CommandLine.Quote | scripts/dev-process-job.cs:179-191 | The counter loop computes the quoted form |
| CommandLine.Command | scripts/dev-process-job.cs:42-43 | The assembly loop joins program and arguments, each quoted, by single spaces |
| CommandLine.ArgumentsRoundTrip | scripts/dev-process-job.cs:179-191 | Splitting the quoted arguments by the documented rules returns exactly the argument list, for every list of strings, under either reading of a doubled quotation mark |
| CommandLine.CommandRoundTrip | scripts/dev-process-job.cs:42-43 | The whole command line reads back as program and arguments if and only if the program's path holds no quotation mark and does not end in a backslash |
| BindMessage.BindParameters | scripts/figma-otp-pg-commit-proxy.py:18-39 | On any bytes the decoder returns: the non-NULL parameters in order when the bytes decode as a message, nothing otherwise |
| BindMessage.DecodeOfEncode | scripts/figma-otp-pg-commit-proxy.py:18-39 | Decoding the encoding of a message gives the message back; this covers every Bind (F) message of the "Message Formats" section, protocol 3.0 |
| BindMessage.EncodeOfDecode | scripts/figma-otp-pg-commit-proxy.py:18-39 | Whatever decodes is byte for byte the encoding of the message it decodes to |
| BindMessage.DecodesExactlyTheMessages | scripts/figma-otp-pg-commit-proxy.py:18-39 | Bytes decode if and only if they are the encoding of a message of the modelled format, which is looser than Bind (F): the number and values of format codes and everything behind the parameters are left unchecked, as the decoder leaves them |
| BindMessage.AMessage | scripts/figma-otp-pg-commit-proxy.py:18-39 | A concrete message, byte by byte |
| BindMessage.BytesWeigh | scripts/figma-otp-pg-commit-proxy.py:18-39 | Integers are in network byte order, four bytes in two's complement |
| BindMessage.ParamMeans | scripts/figma-otp-pg-commit-proxy.py:27-36 | A NULL is the length -1; any other parameter is its length and its bytes |
| CommitFault.Fault.constructor | scripts/figma-otp-pg-commit-proxy.py:43-45 | A new fault is disarmed and has an empty history |
| CommitFault.Fault.DisarmFault | scripts/figma-otp-pg-commit-proxy.py:47-50 | Disarming clears target, deadline and connection and keeps the counter |
| CommitFault.Fault.ArmTarget | scripts/figma-otp-pg-commit-proxy.py:52-62 | Arming needs a target of the namespace and no unexpired arm, and clears connection and counter |
| CommitFault.Fault.ArmRequest | scripts/figma-otp-pg-commit-proxy.py:72-84 | A request names exactly one identity; an activation is armed under its own bytes |
| CommitFault.Fault.ClaimConnection | scripts/figma-otp-pg-commit-proxy.py:64-70 | A connection is claimed exactly by the first unexpired Bind that carries the target as a parameter |
| CommitFault.Fault.SuppressReply | scripts/figma-otp-pg-commit-proxy.py:86-93 | A reply is dropped exactly when it is the COMMIT completion of the claimed connection before the deadline; dropping disarms |
| CommitFault.ChallengeMeans | scripts/figma-otp-pg-commit-proxy.py:53-56 | A challenge is the namespace and 1 to 100 letters, digits, colons or hyphens |
| CommitFault.ActivationMeans | scripts/figma-otp-pg-commit-proxy.py:79-82 | An activation is five groups of lower-case hexadecimal digits of the lengths 8, 4, 4, 4 and 12 |
| CommitFault.TargetMeans | scripts/figma-otp-pg-commit-proxy.py:52-84 | Exactly the challenges and activations are armed, each under its own characters |
| CommitFault.ArmGrantedIff | scripts/figma-otp-pg-commit-proxy.py:52-62 | In any run an arm is granted if and only if it names an identity and no earlier arm is in force and unexpired |
| CommitFault.ClaimGrantedIff | scripts/figma-otp-pg-commit-proxy.py:64-70 | In any run a connection is claimed exactly by the first call that binds the target of the arm in force |
| CommitFault.DroppedIffEntitled | scripts/figma-otp-pg-commit-proxy.py:52-93 | Over every run a reply is dropped exactly when its connection was the first to bind the exact target of the arm in force, before the deadline |
| CommitFault.AtMostOneDropPerArm | scripts/figma-otp-pg-commit-proxy.py:52-93 | Between two dropped replies the fault was armed again |
| CommitFault.ConfirmedIsTheDrop | scripts/figma-otp-pg-commit-proxy.py:86-93 | The counter never exceeds one and reports whether a reply was dropped since the last arm |
| FreeQuota.FreeOnlyGuard.Open | evals/runners/pdf_baseline_runtime.py:13-58 | Construction checks the preflight and the persisted counters, lifts expired pauses, and saves |
| FreeQuota.FreeOnlyGuard.Save | evals/runners/pdf_baseline_runtime.py:60-66 | The file is replaced as a whole or keeps its old content |
| FreeQuota.FreeOnlyGuard.BeforeRequest | evals/runners/pdf_baseline_runtime.py:68-116 | A request is admitted only after its amount was counted and saved; every refusal leaves the stated counters and file |
| FreeQuota.FreeOnlyGuard.AfterResponse | evals/runners/pdf_baseline_runtime.py:118-130 | A 429 pauses until the next UTC day, a 402 or 403 denies, nothing else changes |
| FreeQuota.StartIff | evals/runners/pdf_baseline_runtime.py:14-58 | A guard starts if and only if the preflight is fresh and free, the counters are of its own run, and they are saved; counts are kept, only an expired preflight and a pause that is over are forgotten |
| FreeQuota.AdmittedIff | evals/runners/pdf_baseline_runtime.py:68-116 | A request is admitted if and only if the guard runs, holds no lasting stop and no unexpired pause, is on the day of its preflight, and the request is one of the two approved ones and fits the budget with all its texts |
| FreeQuota.AdmittedIsCounted | evals/runners/pdf_baseline_runtime.py:102-116 | An admitted embedding request raises the inputs by exactly its number of texts, a chat request the generations by one, in guard and file, and nothing else |
| FreeQuota.RefusedIsNotCounted | evals/runners/pdf_baseline_runtime.py:68-112 | A refused request changes no counter; only an expired preflight or a spent budget is recorded |
| FreeQuota.UnsavedMeans | evals/runners/pdf_baseline_runtime.py:60-116 | A failed save leaves the file as it was and is what the caller sees, while the running guard has changed all the same; calls with nothing to save do not notice |
| FreeQuota.RefusalMeans | evals/runners/pdf_baseline_runtime.py:71-112 | Which refusal is raised, for each of them exactly when |
| FreeQuota.ResponseMeans | evals/runners/pdf_baseline_runtime.py:118-130 | A 429 pauses until the first instant of the next UTC day, a 402 or 403 denies, every other response leaves guard and file alone |
| FreeQuota.CountersCoverAdmissions | evals/runners/pdf_baseline_runtime.py:34-116 | From a fresh file, across restarts, failed saves and any responses, the persisted counters never fall below the chat requests and the texts of the embedding requests that were admitted, which therefore never exceed 70 and 2500 |
| FreeQuota.NothingAdmittedThatDay | evals/runners/pdf_baseline_runtime.py:68-130 | After a 429 that reached a running guard, with a clock that does not run backwards, nothing is admitted for the rest of that UTC day, whatever responses follow: across restarts when its save went through, otherwise as long as no restart reads the stale file |
| FreeQuota.AdmitsAgainIff | evals/runners/pdf_baseline_runtime.py:48-130 | After any run, a continuation without a further 429 admits something if and only if the file or the running guard holds neither a denial nor a request limit and budget is left |
| FreeQuota.DenialHoldsUntilAQuotaAnswer | evals/runners/pdf_baseline_runtime.py:71-130 | After a saved 402 or 403 nothing is admitted unless a 429 reached a running guard in between |
| FreeQuota.DenialIsLiftedIff | evals/runners/pdf_baseline_runtime.py:71-130 | Right after a saved 402 or 403 some continuation admits a request if and only if budget is left and another request that was let through is unanswered; every such continuation holds a 429 that answers one |
| FreeQuota.QuotaAnswerLiftsIff | evals/runners/pdf_baseline_runtime.py:71-130 | Right after a saved 429 a continuation without another one admits a request if and only if budget is left |
| FreeQuota.DenialIsNotFinal | evals/runners/pdf_baseline_runtime.py:118-130 | A concrete run with two admitted requests: the 429 to the second replaces the denial of the first, and the next day admits a third |
| ThresholdFit.BestGoldScore | evals/calibration/vietnamese_qwen_v1.py:112-122 | The best similarity of a candidate among the first five that has the source, the page and an acceptable checksum of the case, none when there is no such candidate |
| ThresholdFit.FitThreshold | evals/calibration/vietnamese_qwen_v1.py:111-124 | The fitted value is the entry of the sorted best scores at the rounded-down tolerated share; the two errors are raised exactly as stated |
| ThresholdFit.ThresholdIsGreatest | evals/calibration/vietnamese_qwen_v1.py:123-124 | The fitted value is the greatest one below which at most the tolerated number of fit scores lie |
| ThresholdFit.BestReachedMeansGold | evals/calibration/vietnamese_qwen_v1.py:53-66 | Filtering by the threshold never moves an eligible candidate of the first five out of them |
| ThresholdFit.HasGoldMeansShown | evals/calibration/vietnamese_qwen_v1.py:53-66 | A case has its relevant candidate exactly when some eligible relevant candidate has fewer than five eligible ones before it |
| ThresholdFit.MissesBelowBestIff | evals/calibration/vietnamese_qwen_v1.py:53-66 | A case misses exactly below its best score if and only if no relevant candidate behind the fifth place is better with fewer than five earlier candidates at least as similar |
| ThresholdFit.RankedIsNotOvertaken | evals/calibration/vietnamese_qwen_v1.py:53-66 | In a list ranked by similarity there is no such candidate |
| ThresholdFit.FittedThresholdMissesFew | evals/calibration/vietnamese_qwen_v1.py:111-124 | Up to the fitted threshold at most the tolerated number of fit cases misses; it is the greatest such value if and only if at each relevant similarity above it the best scores below, less those of the rescued cases, exceed that number, and so whenever no case has an overtaking candidate |
| ThresholdFit.MissesAreBelow | evals/calibration/vietnamese_qwen_v1.py:53-66 | At any threshold the missing cases are those whose best score lies below, without those rescued by a candidate behind the fifth place |
| ThresholdFit.AnOvertakenCase | evals/calibration/vietnamese_qwen_v1.py:111-124 | A concrete fit case whose fitted threshold is not the greatest one |
| ThresholdFit.RateSelects | evals/calibration/vietnamese_qwen_v1.py:124-124 | A tolerated rate from 0 up to but excluding 1 always selects an existing entry |
| ThresholdFit.IndexMeans | evals/calibration/vietnamese_qwen_v1.py:124-124 | The index is the tolerated share rounded down; a negative one counts from the end |
| PhraseBoost.MatchedPairs | evals/runners/phrase_boost.py:85-97 | The nested loops count the adjacent query pairs that stand next to each other in the candidate |
| PhraseBoost.Rerank | evals/runners/phrase_boost.py:51-124 | The results are the sorted evaluations, numbered from 1 |
| PhraseBoost.RankingIsSortedPermutation | evals/runners/phrase_boost.py:105-107 | The ranking holds every candidate once, sorted by a total order |
| PhraseBoost.RankingForgetsInputOrder | evals/runners/phrase_boost.py:105-107 | With distinct chunk ids the ranking does not depend on the order in which candidates are given |
| PhraseBoost.EvaluationMeans | evals/runners/phrase_boost.py:67-103 | Every evaluation states its raw score, the place of that score between the lowest and the highest, the number and the share of the query pairs found, and the point between both that the weight picks |
| PhraseBoost.MorePairsRankHigher | evals/runners/phrase_boost.py:85-107 | Of two candidates with equal raw scores the one with more matched pairs has the strictly higher combined score and rank whenever the phrase weight is positive |
| PhraseBoost.ScoresInUnit | evals/runners/phrase_boost.py:76-103 | Normalised score, phrase ratio and combined score lie in [0, 1] |
| PhraseBoost.RescalingKeepsTheRanking | evals/runners/phrase_boost.py:67-107 | Replacing every raw score r by a*r+b with a > 0 changes neither order nor any combined score |
| PhraseBoost.NoPhraseWeightIsBm25Order | evals/runners/phrase_boost.py:101-107 | With no phrase weight the ranking is the BM25 order |

## Left out

- SQLite, the file system, HTTP, asyncio, threads and Win32: only the atomic transaction, the exclusive link, the replace of a whole file and the points at which a process can stop are modelled.
- Clocks, generated ids and the results of provider calls are parameters of the modelled calls.
- Time stamps are integers (seconds; reals in `CommitFault`); the text form of time stamps, the range limit of `datetime` and the rounding of lease durations in the log are not modelled.
- `ReportDispatch` models its processes as program counters over single steps instead of methods, because the law is about interleaving and crashes; the measured and copied fields of a row are dropped, and the loss of a link by a power failure is not modelled.
- FollowUps.CrashedCaseIsSentAgainIff: the condition is exact when no case before the crashed one was abandoned itself; an abandoned case stops the collections that come to it, and which of several live collections still get past is not described. The direction that rules a second send out, `NotSentAgainUnlessMissed`, needs no such hypothesis.
- FollowUps.MissedParentIsSentAgain: has the same hypothesis on the cases before the crashed one.
- `FollowUps` takes all collections of a directory to work on one dataset; rows of another dataset are refused by the identity check.
- `ReportDispatch` covers the first-canary gate of `dispatch_first_canary`; its time window, the gate over all native canaries and the reading of the response body are left out.
- FreeQuota.FreeOnlyGuard.Save: the write of the temporary file and its replacement are one flag; nothing reads the temporary file, so a stop between the two leaves the same content as a failed save.
- The heartbeat thread of the sealed run: its renewals appear as calls of other workers.
- SHA-256 and canonical JSON are opaque: digests are parameters, and equality of digests is what is compared.
- Scores, similarities and ratios are exact rationals or reals; IEEE rounding of displayed values is not modelled.
- Checks that only reject values of a wrong type are done by Dafny's types.
- Tokenisation and the semantic validation of a generation are inputs or absent; only the structural check of a finished answer is modelled.
- `int` parsing of gold references: a reference arrives split into source key and ordinal, or as unsplittable.
- The agreement of the category builder with its validator on `semantic_citation_correctness`: they key on different fields, so only the validator is modelled.
- The string form of a rational accepted by `_rational`, and the policy projection that names the metrics: metric names are parameters.
- The held-out evaluation and provenance checks of `calibrate_qwen_threshold`: only the fit is modelled.
- The `cmd.exe` wrapping of batch files in `ProcessJob.Start`, and UTF-16 code units: characters are Unicode scalar values.
- The packet framing and the sockets of the commit proxy, and its control endpoint.
- `scripts/evaluate_terminal.py`, `scripts/aggregate_review.py`, the claim authority, bootstrap and readiness modules: chains of field checks that a reading of each branch settles.
