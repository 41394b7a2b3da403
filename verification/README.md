# Verified model of the engineering archive

The archive keeps construction documents that are uploaded, parsed, drafted (by
hand or by a language model), confirmed by a person, and then answered from. The
facts about one document live in three places: PostgreSQL rows, a vector store
(Chroma) and the file system. Only the first is transactional. This project models
the logic that keeps the three in step, and the algorithms around it, in Dafny, and
proves what holds in every run.

Verify it with `dafny verify dfyconfig.toml`.

## Parts

- `Archive`, `Transactions`, `Lifecycle`: the state of one document in its three
  stores; every database transaction and every external call of the services as a
  function of that state; and the state machine whose steps are the pieces of
  service calls between two commits or external calls. Steps of any number of calls
  interleave freely, each external call may break after touching any part of what
  it was to touch, and a process may stop between any two steps.
- `SuggestionReplies`: what the services take from the language model's reply.
- `LifecycleInvariant`, `LifecycleSafety`, `LifecycleRecovery`, `LifecycleDrafts`,
  `LifecycleStatus`, `LifecycleWitness`: what every step keeps; safety over all runs;
  recovery and the agreement of the index with the snapshot; what the seven fields
  hold; the status diagram; concrete runs that show the theorems are about something.
- `ProjectWorld`: all documents of a project over one vector store, with the
  capacity counter.
- `ServiceCalls`, `ServiceOutcomes`, `ArchiveStore`: the services as they change rows,
  operations, vector store and files step by step (`ArchiveStore`, a class with one
  method per service), each proved equal to a function of the old state; that function
  proved to be a run of the state machine; and what its caller can rely on.
- `ServiceAnswers`: which answer each of these calls gets, and what it leaves in every
  store, told by the stores' contents alone and by none of the functions above.
- `Text`, `Normalization`, `Parser`, `Parsed`, `FinalChunks`: from the original file
  to located fragments, to the stored snapshot, to the chunks of the index.
- `Retrieval`, `Catalog`, `Questions`: reading side: validation, ranking, the
  visibility gate, and the strict reading of the model's answer against the contract
  an evaluator checks.
- `Ordering`, `Scanner`, `ScannerMeaning`, `ScannerInput`, `Calibrators`: choosing score
  thresholds.
- `Checklists`: the completeness checklist (a class with one method per service, each
  equal to a function of the tables).
- `ProjectChecklist`, `ProjectWitness`: the checklist over a project whose documents are
  worked on; concrete histories.
- `Rebuild`: rebuilding the policy collection with recovery.

## Where the code does not do what it says

- **A stopped process blocks its document for good.** The comments at
  app/services/archive/deletion.py:192-193 and app/services/archive/indexing.py:287-288
  say that a retry goes on from the persisted operation after a restart. The code
  refuses whenever an operation is RUNNING, and nothing ever ends the operation of a
  process that is gone. `LifecycleRecovery.OrphansBlockForever` proves that every
  later delete and INDEX is refused in every run;
  `LifecycleWitness.StoppedDeleteBlocksForever` gives the run. A retry works exactly
  when no operation is RUNNING (`ServiceCalls.UninterruptedDeleteCompletesIff`), and
  that is so after a failure exactly when the failure could be recorded
  (`ServiceCalls.DeleteOutcome`).
- **A late clean-up empties the index of a formal document.** Cancelling takes no
  operation, so a document can be confirmed and indexed again before the clean-up of
  the earlier cancellation reaches the vector store.
  `LifecycleRecovery.IndexStaysDependableIff` names the only steps that can do so,
  exactly; `LifecycleWitness.EmptyIndexIsReachable` gives a run from upload.
- **A late record of a failed suggestion strands human work.** `_record_suggestion_failure`
  (app/services/archive/suggestions.py:276-292) gives up the row lock, reads the row
  again and sets SUGGESTION_FAILED whatever it finds. A manual draft that was waiting
  for the lock, and all that follows it up to a confirmation, can come in between. The
  status diagram (docs/design/技术架构.md:581-592) has no such arrow; every step of every
  call follows it except exactly this one and an edit that writes back the status from
  before (`LifecycleStatus.StatusFollowsDiagramIff`). Afterwards, unless an edit was already
  under way, no value can be edited, confirmed or suggested anew, in any run, until the
  document is deleted or a manual draft wipes it
  (`LifecycleStatus.LateRecordsStrandHumanWork`);
  `LifecycleWitness.LateRecordUndoesConfirmation` gives a run in which a formal document
  is lost that way. The version would have told: it is always newer than the one the
  failed call began with (`LifecycleStatus.LateRecordsHaveAnOldVersion`).
- **A delete does not wait for a suggestion.** docs/design/技术架构.md:604 has a delete
  refused while a suggestion runs. The code looks at operations only, and a suggestion
  has none (`LifecycleRecovery.BeginDeleteIffMay`,
  `LifecycleWitness.DeletesOvertakeRegeneration`); the two never harm each other
  (`LifecycleSafety.DeletedDocumentsStayGone`).
- **No formal value is the model's.** The example at docs/design/接口设计.md:295 shows a
  CONFIRMED value with source AI. Every value of a CONFIRMED document is a person's, and
  the check for AI values without evidence never fails (`LifecycleDrafts.ConfirmedValuesAreHuman`,
  `LifecycleDrafts.GuardsThatNeverFire`).
- **The distance ceiling does not always reject.** `score_at_no_evidence_ceiling` is
  described as the score at which all no-evidence candidates are rejected. It rejects
  them exactly when none is at distance 0; otherwise no threshold does, and none passes
  the gate (`Calibrators.ScoreAtCeiling`, `Calibrators.CeilingRejectsIffNoneAtZero`,
  `Calibrators.OneAtZeroSpoilsAll`).

## Where two readers differ

The design lets a delete hide a document from catalogue, retrieval and questions
(docs/design/数据库设计.md:353) and derives a checklist's fulfilment from CONFIRMED
documents and confirmed links alone (docs/design/接口设计.md:746). So an item can be
SATISFIED by documents that no reader shows. `ProjectChecklist.CountIsFormalIff` says
exactly when: what an item counts is what is formal if and only if no document it counts
is blocked by a delete. `ProjectWitness.HiddenDocumentCanSatisfy` gives the history.

The visibility gate itself is two queries. `Catalog.ShownThoughHiddenIff` says exactly
which document the scope shows although it is hidden by then: one whose block was
committed between the two (`ProjectWitness.ScopeCanLagBehind`).

## Model

| member | source | states |
|---|---|---|
| LifecycleInvariant.StepInv | app/models/archive_audit.py:51-60 | Every step of every call keeps: at most one RUNNING operation and one DELETE per document, deletes always block, every record in the vector store is one the current snapshot gives under INDEX's scope, CONFIRMED rests on all its conditions, and each call in flight holds what it believes it holds |
| LifecycleInvariant.RunInv | app/services/archive/deletion.py:88-253 | All of that holds in every state any run reaches |
| LifecycleInvariant.PurgeRemovesAll | app/services/archive/final_chunks.py:263-283 | A completed delete by the scope filter, be it the delete's or the cancellation's, removes every record of the document, since INDEX writes no other scope |
| LifecycleInvariant.EditStep | app/services/archive/drafts.py:261-289 | When the conditional update on the version succeeds, the edit's status, read without a lock, is the current one, or the one before a suggestion's failure was recorded |
| LifecycleInvariant.WriteIndexStep | app/services/archive/indexing.py:298-357 | The external part of INDEX, complete or broken half-way, adds only chunks of the current snapshot |
| LifecycleSafety.DeletedDocumentsStayGone | app/services/archive/deletion.py:214-253 | Once the row is gone, vector store and files hold nothing of the document, exactly one deletion is audited, no call in flight runs an operation, and no later step of any call changes that |
| LifecycleSafety.StartedDeletesHideForever | app/services/archive/deletion.py:157-168 | From the commit that starts a delete the document is blocked until it is gone, and never formal again: failed, retried, re-confirmed meanwhile, or removed |
| LifecycleSafety.FormalIffConfirmedAndNotBeingDeleted | app/services/archive/reads.py:168-188 | A document is behind the visibility gate exactly when no delete has started and it is CONFIRMED |
| LifecycleSafety.ConfirmedIsLegitimate | app/services/archive/confirmation.py:117-208 | In every reachable state a CONFIRMED document has its own current snapshot, that snapshot's hash, a confirmer and fully checked fields |
| LifecycleSafety.NoConfirmationErrorIffFullyChecked | app/services/archive/confirmation.py:68-114 | The ordered checks find no error exactly when seven fields are checked, title and type are confirmed non-empty, and every non-empty AI value has evidence in this snapshot |
| LifecycleSafety.VersionMovesOnSuccess | app/services/archive/drafts.py:261-293 | A committed draft, suggestion, edit, confirmation or cancellation moves the version by one from the version its caller expected; any other step leaves version and fields alone |
| LifecycleSafety.StaleCallersChangeNothing | app/services/archive/cancellation.py:58-66 | A caller with an outdated version changes nothing in any store |
| LifecycleSafety.VersionIsOnePlusCommits | app/services/archive/suggestions.py:386-402 | The version is one plus the number of committed changes of the run |
| LifecycleSafety.OneWriterPerVersion | app/services/archive/confirmation.py:129-188 | Of two successes in one run the earlier expected the smaller version: one writer per version |
| LifecycleSafety.AuditTrailRecordsTheRun | app/services/archive/cancellation.py:75-85 | In every run the audit trail is never rewritten and grows by exactly one entry per audited success, in order |
| LifecycleSafety.SuggestionsKeepManualValues | app/services/archive/suggestions.py:434-447 | No suggestion, retry, regeneration or record of a failure, in whatever state and whatever the model answers, changes a manual value |
| LifecycleSafety.RegenerationSeesAFrozenDraft | app/services/archive/suggestions.py:539-598 | Regeneration succeeds only if nothing was committed since it read the draft, and then replaces only unchecked, non-manual fields; otherwise it leaves every store as it is |
| LifecycleRecovery.BeginDeleteIffMay | app/services/archive/deletion.py:107-132 | A delete may start exactly when the caller owns the project and no operation is RUNNING |
| LifecycleRecovery.RecordedFailureCanBeRetried | app/services/archive/deletion.py:42-85 | A recorded failure leaves the document hidden, marked DELETE_FAILED and deletable again |
| LifecycleRecovery.StoppedRunnersLeaveOrphans | app/services/archive/indexing.py:283-296 | A process that stops leaves its operation RUNNING with nobody running it |
| LifecycleRecovery.OrphansBlockForever | app/services/archive/deletion.py:116-132 | From then on, in every run, every delete and every INDEX of the document is refused |
| LifecycleRecovery.RecordsComeFromTheSnapshot | app/services/archive/final_chunks.py:211-260 | In every reachable state every record of the document is one that its current, acceptable snapshot gives |
| LifecycleRecovery.IndexStaysDependableIff | app/services/archive/cancellation.py:99-115 | The index is taken from somebody who counts on it by exactly one kind of step: a clean-up that removes records after the document was indexed again |
| LifecycleRecovery.IndexAgreesWithSnapshot | app/services/archive/indexing.py:359-376 | While cancellations do not overlap INDEX, a formal document with a positive chunk count has exactly its snapshot's chunks in the vector store, and the count is their number |
| LifecycleRecovery.OverlappingCancelEmptiesTheIndex | app/services/archive/cancellation.py:73-115 | From every formal, indexed, quiet state the overlap leads to a formal document that claims its chunks and has none |
| LifecycleDrafts.FieldsAreSound | app/services/archive/suggestions.py:331-402 | In every reachable state a document has no field or the seven, the seven while drafted or CONFIRMED and none before; each is blank, a non-empty value of the model in its own column whose every piece of evidence is bound to the current snapshot at one of its places, or a sound value of a person |
| LifecycleDrafts.ConfirmedValuesAreHuman | app/services/archive/confirmation.py:68-114 | In every run each of the seven values of a CONFIRMED document was entered or taken over by a person's edit |
| LifecycleDrafts.GuardsThatNeverFire | app/services/archive/suggestions.py:432-451 | Which refusals no reachable state runs into, the one for AI values without evidence among them; an edit finds no draft exactly while there are no fields |
| LifecycleDrafts.SnapshotsAreImmutable | app/services/archive/documents.py:206-241 | While the document exists no call replaces its snapshot, in any run |
| LifecycleStatus.StatusFollowsDiagramIff | app/services/archive/suggestions.py:276-292 | Every step moves the status along the documented diagram, except exactly a late record of a failed suggestion and an edit that writes back the status from before it |
| LifecycleStatus.LateRecordsHaveAnOldVersion | app/services/archive/suggestions.py:276-292 | A late record always finds a newer version than its call began with |
| LifecycleStatus.LateRecordsStrandHumanWork | app/services/archive/suggestions.py:276-292 | After a late record, in every run, nothing but a manual draft, which wipes them, takes the person's values up again |
| LifecycleWitness.LateRecordUndoesConfirmation | app/services/archive/suggestions.py:464-475 | From every upload there is a run in which a formal document is taken out of the archive that way |
| LifecycleWitness.DeletesOvertakeRegeneration | app/services/archive/deletion.py:107-132 | A delete starts although a regeneration waits for the model |
| LifecycleWitness.FormalIsReachable | app/services/archive/confirmation.py:117-208 | From every upload of a sound project there is a run that ends formal and fully indexed |
| LifecycleWitness.EmptyIndexIsReachable | app/services/archive/cancellation.py:73-115 | From every such upload there is a run that ends formal, claiming chunks, with an empty index |
| LifecycleWitness.StoppedDeleteBlocksForever | app/services/archive/deletion.py:192-193 | A delete that stops after its first commit blocks all later deletes and INDEX in every run |
| ProjectWorld.OtherDocumentsUndisturbed | app/services/archive/final_chunks.py:103-106 | No step of one document touches a record of another, chunk ids included |
| ProjectWorld.ChunkIdsAreForeign | app/services/archive/final_chunks.py:103-106 | An id INDEX writes for one document is borne by no record of another |
| ProjectWorld.CounterAndAuditsAreExact | app/services/archive/documents.py:65-128 | In every history of a project the counter is the number of documents, between 0 and 100, and each removed document has exactly one deletion audit, and no two documents have the same file |
| ProjectWorld.ProjectStore.CreateUploadedDocument | app/services/archive/documents.py:51-140 | A new uploaded document at version 1 and the raised counter, or the first refusal, each exactly: capacity, duplicate, failed save, failed commit; the file stays on disk exactly after a success, or when neither commit nor clean-up worked |
| ProjectWorld.CounterNeverClips | app/services/archive/deletion.py:250 | When a row is removed the counter is positive and falls by one: the guard never clips |
| ProjectWitness.UploadedDocumentsCanGo | app/services/archive/deletion.py:214-253 | From an empty project there is a history of upload and delete with a step that removes the row, which the theorem on the counter is about |
| ServiceOutcomes.ReachableIsSound | app/services/archive/drafts.py:55-121 | Every state any run reaches meets what the outcomes below ask for |
| ServiceOutcomes.ParseOutcome | app/services/archive/documents.py:167-274 | Parsing succeeds exactly when the document waits for it and the parser raises nothing; it replaces no snapshot, makes the parser's result the document's, and opens both ways to a draft; a recorded failure opens the retry and only that |
| ServiceOutcomes.ManualDraftOutcome | app/services/archive/drafts.py:55-121 | A manual draft is made exactly of a parsed document or one whose suggestion failed: seven blank unchecked fields one version later, nothing else changed, no second draft and no confirmation before an edit; a refusal changes nothing |
| ServiceOutcomes.SuggestionOutcome | app/services/archive/suggestions.py:411-494 | A suggestion succeeds exactly when the document waits for one, nothing of a person's would go, the snapshot can be read and the reply is understood; the draft is then exactly the reply; a failure changes status and error only and leaves retry and manual draft |
| ServiceOutcomes.SuggestionCallIsARun | app/services/archive/suggestions.py:411-494 | A suggestion nobody interrupts is a run |
| ServiceOutcomes.RegenerateOutcome | app/services/archive/suggestions.py:527-598 | Regeneration succeeds exactly when its caller saw the current draft, no field was edited, the snapshot can be read and the reply is understood; the draft is then exactly the new reply; otherwise every store is as it was |
| ServiceOutcomes.CancelOutcome | app/services/archive/cancellation.py:50-124 | Cancelling raises exactly when it changes nothing or its clean-up breaks; once committed the document is not formal, keeps its fields, passes every check of confirmation again, and after a complete clean-up has no chunk left |
| ServiceAnswers.ParseAnswers | app/services/archive/documents.py:167-274 | Which error parsing gets, exactly; a snapshot whose fragments are the parser's one by one, or the recorded failure |
| ServiceAnswers.DraftAnswers | app/services/archive/drafts.py:55-121 | Which error a manual draft gets, exactly, and the whole row it leaves |
| ServiceAnswers.SuggestAnswers | app/services/archive/suggestions.py:331-494 | Which error a suggestion gets, exactly; each suggested field holds the suggested columns and evidence as the model's, unchecked, the others are blank |
| ServiceAnswers.RegenerateAnswers | app/services/archive/suggestions.py:319-598 | Which error a regeneration gets, exactly, and the same of the draft it leaves |
| ServiceCalls.DeleteCallIsARun | app/services/archive/deletion.py:88-292 | An uninterrupted delete call, whatever fails in it, is a run of the state machine |
| ServiceCalls.UninterruptedDeleteCompletesIff | app/services/archive/deletion.py:107-253 | In every reachable state an uninterrupted delete completes exactly when the owner calls it, nothing is RUNNING and nothing breaks; then nothing is left |
| ServiceCalls.DeleteOutcome | app/services/archive/deletion.py:260-292 | DOCUMENT_NOT_FOUND exactly for a missing row or a caller who is not the owner; DOCUMENT_OPERATION_IN_PROGRESS exactly for the owner while an operation is RUNNING; both change nothing. No error exactly if nothing breaks: nothing is left. DOCUMENT_DELETE_INCOMPLETE otherwise: hidden, and deletable again exactly when the failure was recorded |
| ServiceAnswers.DeleteLeaves | app/services/archive/deletion.py:134-292 | A delete that breaks leaves the row but for the file status, one DELETE operation, new or taken up with one attempt more, with the last step it reached, and of records and files exactly what the broken call had not touched |
| ServiceAnswers.DeleteLeavesTheRest | app/services/archive/deletion.py:190-253 | A delete that completes leaves exactly the records of other documents and one entry more in the audit trail |
| ServiceCalls.ConfirmCallIsARun | app/services/archive/confirmation.py:136-204 | A confirmation with the INDEX it goes on to, whatever fails, is a run |
| ServiceCalls.CleanConfirmCompletesIff | app/services/archive/confirmation.py:117-208 | A confirmation in which nothing breaks completes exactly when version and checks allow and INDEX has run or can run; then the document is CONFIRMED and completely indexed, and formal unless blocked |
| ServiceCalls.BrokenIndexCanBeRetried | app/services/archive/indexing.py:377-396 | If INDEX breaks, the document stays CONFIRMED with no chunk count, confirming it again is allowed, and no operation is RUNNING exactly when the failure was recorded |
| ServiceAnswers.ConfirmAnswers | app/services/archive/confirmation.py:68-208 | Which of its errors a confirmation gets, INDEX included, exactly, from version, status, snapshot, operations and the seven fields |
| ServiceAnswers.ConfirmLeaves | app/services/archive/indexing.py:215-403 | What it leaves: the caller as confirmer, the hash of the snapshot, one audit entry, one INDEX operation with the next attempt, and for each written fragment a record filed under the project that says what the fragment says; nothing else is new or different |
| ServiceAnswers.CancelAnswers | app/services/archive/cancellation.py:50-124 | Which of its errors a cancellation gets, exactly; a document without confirmer, hash and chunk count, all else as it was, and of its records what a broken clean-up had not touched |
| ServiceCalls.CancelCallIsARun | app/services/archive/cancellation.py:50-124 | An uninterrupted cancellation, whatever fails, is a run |
| ServiceCalls.DraftingCallsAreRuns | app/services/archive/drafts.py:186-319 | Uninterrupted edits and regenerations are runs |
| ServiceCalls.CanonicalIsStable | app/services/archive/drafts.py:143-165 | A canonical value uses only its field's column, is a fixed point, and is what was sent: date and keywords as they are, an empty list as none, the text without the white space around it |
| ServiceCalls.EditRefusals | app/services/archive/drafts.py:195-228 | Which error an edit gets while the document may not be edited, exactly, in the order of the checks |
| ServiceCalls.EditAnswers | app/services/archive/drafts.py:143-183 | Which error it gets for a value that does not fit field or review, exactly, told by what was sent |
| ServiceCalls.EditEvidenceAnswers | app/services/archive/drafts.py:229-289 | Which error it gets for its evidence, exactly, and that it succeeds exactly when no rule is broken |
| ServiceCalls.EditOutcome | app/services/archive/drafts.py:186-319 | An edit raises exactly when it changes nothing; otherwise one field holds what was sent, with the review, the mark and each piece of evidence that were sent, bound to the current snapshot; the version moves on; a document that was CONFIRMED loses status, confirmer, hash and chunk count; all else stays |
| ArchiveStore.DocumentStore.DeleteArchiveDocument | app/services/archive/deletion.py:88-292 | The three stores and the error after the staged delete, for every combination of failures; which of the two refusals the caller gets, by row, owner and operations |
| ArchiveStore.DocumentStore.StartDeletion | app/services/archive/deletion.py:91-171 | The checks and the commit of the visibility block before any external call; a stranger is told the document is not there, the owner that an operation is RUNNING |
| ArchiveStore.DocumentStore.MarkDeleteFailed | app/services/archive/deletion.py:42-85 | The failure marker, or nothing when its commit fails |
| ArchiveStore.DocumentStore.IndexConfirmedDocument | app/services/archive/indexing.py:215-403 | Stores and result of INDEX, for every combination of failures |
| ArchiveStore.DocumentStore.WriteFinalChunks | app/services/archive/indexing.py:301-357 | Building and writing chunks, complete or broken |
| ArchiveStore.DocumentStore.MarkIndexFailed | app/services/archive/indexing.py:184-212 | The failure marker of INDEX |
| ArchiveStore.DocumentStore.ConfirmArchiveDocument | app/services/archive/confirmation.py:117-208 | Stores and error of confirming, replay included |
| ArchiveStore.DocumentStore.CancelArchiveConfirmation | app/services/archive/cancellation.py:50-124 | Stores and error of cancelling: the commit first, the clean-up after |
| ArchiveStore.DocumentStore.CheckEdit | app/services/archive/drafts.py:195-242 | Every refusal of an edit in its order |
| ArchiveStore.DocumentStore.UpdateField | app/services/archive/drafts.py:186-319 | Stores and error of an edit; after a success the field holds what was sent |
| ArchiveStore.DocumentStore.GenerateSuggestionDraft | app/services/archive/suggestions.py:411-494 | Stores and error of a first or repeated suggestion |
| ArchiveStore.DocumentStore.RegenerateSuggestionDraft | app/services/archive/suggestions.py:527-598 | Stores and error of a regeneration |
| SuggestionReplies.ValidateEvidences | app/services/archive/suggestions.py:162-199 | The trimmed evidence in order, or none exactly if some piece is malformed or at no place of the snapshot |
| SuggestionReplies.ParseSuggestedFields | app/services/archive/suggestions.py:202-273 | The suggestions of the seven names, or none exactly if some field of the reply is unusable; what is taken is sound |
| SuggestionReplies.ParsedRepliesAreSound | app/services/archive/suggestions.py:259-272 | Whatever the model sends, each value taken from it is not empty, in its own column, from the known lists, and has evidence, each piece at a place of the snapshot |
| SuggestionReplies.RepliesAreTaken | app/services/archive/suggestions.py:162-273 | A reply is refused exactly if it has no fields or one of them has evidence that is malformed or at no place of the snapshot, or a value that misuses its columns; otherwise exactly the fields that give a value are taken, each with its own day, trimmed text or trimmed keywords and its evidence in order |
| FinalChunks.BuildFinalChunks | app/services/archive/final_chunks.py:68-123 | Succeeds exactly on acceptable snapshots, with one chunk per fragment in order, each made from its own fragment: text, anchor, place, hash, version, id |
| FinalChunks.ChunksSay | app/services/archive/final_chunks.py:68-123 | Which snapshots are acceptable, told by their entries, and what each chunk takes from its fragment |
| FinalChunks.IdentityTextInjective | app/services/archive/final_chunks.py:103-106 | The identity text determines document, place and content, although content may hold the separator |
| FinalChunks.ChunkIdsDistinctIffFragmentsDistinct | app/services/archive/final_chunks.py:99-123 | Chunk ids are distinct exactly when no two fragments share place and text |
| FinalChunks.DocumentsNeverShareIds | app/services/archive/final_chunks.py:103-106 | Chunks of different documents never share an id |
| Normalization.SplittingFindsTheLines | app/services/archive/parser.py:234-236 | Replacing line ends and splitting at LF gives the true lines for any mix of CR LF, CR and LF |
| Normalization.NormalizeJoinsWords | app/services/archive/parser.py:251-254 | Normalising equals joining the words with single spaces |
| Normalization.NormalizedText | app/services/archive/parser.py:251-254 | Normalised text is a fixed point, trimmed, with single blanks only, and empty exactly for blank text |
| Normalization.NormalizedIff | app/services/archive/parser.py:251-254 | Normalisation leaves alone exactly the texts that are trimmed and have single blanks for white space |
| Parser.CleanLineIsParsed | app/services/archive/parser.py:234-248 | A long enough text of one clean line is parsed to itself |
| Parser.TextFragments | app/services/archive/parser.py:218-248 | The loop yields the numbered non-blank lines |
| Parser.TextFragmentsAreLineAccurate | app/services/archive/parser.py:234-248 | A fragment's number is a true line number and its content the words of that very line |
| Text.StripStandsIn | app/services/archive/parser.py:251-254 | The stripped text is the one part of the whole that has only white space around it and none at its ends |
| Parser.LocatedIsExact | app/services/archive/parser.py:130-154 | Numbers rise, each fragment stands for its own page or line, and none that is not blank is dropped |
| Parser.DocxFragments | app/services/archive/parser.py:157-215 | Paragraphs and table rows in document order |
| Parser.NumberedIsExact | app/services/archive/parser.py:197-215 | DOCX fragments are exactly the non-blank blocks, numbered from 1 without a gap, anchored by their first 50 characters |
| Parser.FragmentsSay | app/services/archive/parser.py:130-248 | For each kind of file: which page, line or block each fragment is about, that it holds that one's words one space apart, and that no page, line or block that is not blank is missing |
| Parser.BodyTextsAre | app/services/archive/parser.py:157-194 | The texts of a body: each paragraph as it is, each table row as its distinct cells' texts in order with a bar between them, nothing of other elements |
| Parser.DistinctTableCellTexts | app/services/archive/parser.py:184-194 | Merged cells are read once |
| Parser.ParseArchiveDocument | app/services/archive/parser.py:76-108 | Result and each error code, exactly |
| Parser.ParsedSnapshotsMakeChunks | app/services/archive/documents.py:206-241 | Whatever the parser returns, its stored snapshot is accepted and gives one chunk per fragment, same text and place, ids distinct |
| Parser.ParsedDocumentsCanBeIndexed | app/services/archive/indexing.py:298-301 | INDEX finds chunks to write for every parsed document |
| Scanner.FilterThenCutIsCutThenFilter | scripts/p14_d4_threshold_feasibility.py:302-310 | Filtering by score and then cutting to rank ten selects the candidates of rank at most ten that reach the score |
| Scanner.ScoreSnapshot | scripts/p14_d4_threshold_feasibility.py:294-343 | The four counters and the gate |
| ScannerMeaning.MetricsCount | scripts/p14_d4_threshold_feasibility.py:294-343 | Each counter is the number of questions of its kind whose shown candidates meet what is asked of them, told by rank, score and label |
| Scanner.GateHasClosedForm | scripts/p14_d4_threshold_feasibility.py:440-493 | A threshold passes exactly above the blocking score and up to the required one |
| Scanner.Scan | scripts/p14_d4_threshold_feasibility.py:429-520 | Every entry of the report is what it is called |
| ScannerMeaning.ScanReports | scripts/p14_d4_threshold_feasibility.py:429-520 | What each entry of the report is about, told by the candidates' scores alone: thresholds, scores, margins, counts |
| Scanner.ThresholdCandidates | scripts/p14_d4_threshold_feasibility.py:410-426 | All scores and their next numbers, sorted, once each |
| Scanner.ScanIsComplete | scripts/p14_d4_threshold_feasibility.py:429-520 | Feasible exactly if any number at all passes, exactly if the margin is positive; the passing numbers are exactly those from the suggested to the greatest threshold; the count is exact |
| Scanner.ReportIgnoresOrder | scripts/p14_d4_threshold_feasibility.py:429-520 | The report does not depend on the order of questions or candidates |
| ScannerInput.ValidateSnapshot | scripts/p14_d4_threshold_feasibility.py:192-291 | Accepts exactly the files that are well formed entry by entry, which are those that encode a valid snapshot |
| ScannerInput.ReadExactlyTheWellFormed | scripts/p14_d4_threshold_feasibility.py:192-291 | A file encodes a valid snapshot exactly if it is well formed entry by entry, and the snapshot read holds what the entries say |
| ScannerInput.RankCheckIsExact | scripts/p14_d4_threshold_feasibility.py:274-275 | Comparing the sorted ranks with 1 to 30 is right |
| ScannerInput.NeighbourCheckIsExact | scripts/p14_d4_threshold_feasibility.py:276-289 | Comparing neighbours in rank order is enough |
| ScannerInput.AnalyzeSnapshot | scripts/p14_d4_threshold_feasibility.py:523-535 | A report of the snapshot read from the file, every entry of it as it is to be, or none exactly if the file is not well formed |
| Calibrators.ScoreOutcomes | scripts/archive_v1_p14_acceptance.py:2011-2071 | Totals, passes and gate, or an error exactly on unusable input; the gate passes exactly if 8, 2 and 2 outcomes are there, at most one grounded one has no matching item in reach, no no-evidence one has any, and no isolation one has an item in reach with its hidden or a not allowed file name |
| Calibrators.ScoreCounts | scripts/archive_v1_p14_acceptance.py:2034-2071 | Each of the six numbers counts the outcomes of its kind, and those of them whose items in reach meet what is asked |
| Calibrators.PassesIffGateIsMet | scripts/archive_v1_p14_acceptance.py:2048-2071 | The gate passes exactly if it is met by the outcomes' items, told without any counter |
| Calibrators.ChooseThreshold | scripts/archive_v1_p14_acceptance.py:2092-2131 | What is returned meets that gate and keeps all that any other passing number keeps; an error means no number passes |
| Calibrators.TriedThresholdsSuffice | scripts/archive_v1_p14_acceptance.py:2221-2271 | Any passing number cuts like one of the tried ones |
| Calibrators.ScoreAtCeiling | scripts/archive_v1_p14_acceptance.py:2074-2089 | The greatest grounded recall of any threshold that rejects all no-evidence items; it rejects them exactly unless one lies at distance 0; a failure exactly on unusable input, without such an item, or when the best has no next number |
| Calibrators.CeilingRejectsIffNoneAtZero | scripts/archive_v1_p14_acceptance.py:2074-2089 | Some threshold rejects every no-evidence item exactly when none is at distance 0; otherwise no number passes the gate |
| Calibrators.OneAtZeroSpoilsAll | scripts/archive_v1_p14_acceptance.py:2087-2089 | One no-evidence item at distance 0 added to any usable outcomes leaves them usable and without any passing threshold |
| Retrieval.BuildValidatedCandidates | app/services/archive/retrieval.py:88-130 | One candidate for each formal row in order, each with the text, distance, document, file name and place its own columns hold; an error exactly if columns differ in length or a row that must be read lacks an entry or holds an unusable one |
| Retrieval.CandidatesAreFormal | app/services/archive/retrieval.py:98-108 | Whatever the vector store returns, a candidate belongs to a formal document |
| Retrieval.Diagnose | app/services/archive/retrieval.py:325-364 | One entry per candidate in dense order, with its place in both orders |
| Retrieval.DiagnosesTell | app/services/archive/retrieval.py:325-364 | Each entry shows its own candidate with the reranker's score of its text; its ranks are one more than the number of candidates before it in either order |
| Retrieval.RanksAreBijective | app/services/archive/retrieval.py:325-341 | Both rank columns number the candidates from 1 on, each number once |
| Retrieval.PublicResultIsTopRanks | app/services/archive/retrieval.py:416-425 | Without a threshold the public result is exactly the candidates of reranker rank at most k, in that order |
| Retrieval.ThresholdCommutesWithCut | app/services/archive/retrieval.py:133-141 | Filtering by the threshold commutes with cutting to k |
| Retrieval.Retrieve | app/services/archive/retrieval.py:373-447 | As many items as reach the threshold, at most k, best first; each has the text, distance, document, file name and place of its own row and the reranker's score of that text; a formal row that reaches the threshold is missing only behind k others; a failure exactly on a bad k or a row that spoils the answer |
| Retrieval.RowOrderDoesNotMatter | app/services/archive/retrieval.py:144-163 | Ranking, public result and dense order do not depend on the order of the rows |
| Catalog.ListFormalArchives | app/services/archive/catalog.py:108-167 | The page of CONFIRMED documents, not blocked at the first query, that satisfy the filters, each entry with what its own document's fields hold, and their total |
| Catalog.SummaryIsShown | app/services/archive/catalog.py:33-60 | Each entry of a summary is the value of the field it is named after, or none if it has none |
| Catalog.PageIsShown | app/services/archive/catalog.py:108-167 | The page is the right slice of the visible documents that meet the filters, told by what the documents' fields hold |
| Catalog.ReadFormalArchive | app/services/archive/catalog.py:170-189 | Details exactly of formal documents, each entry from the field it is named after |
| Catalog.FormalDocumentIds | app/services/archive/retrieval.py:68-85 | Exactly the CONFIRMED documents of the knowledge base that were not blocked at the first query, each once, in order |
| Catalog.ReadersAgree | app/services/archive/catalog.py:127-137 | Retrieval scope and catalogue contain a document exactly when it is formal, the scope only in its knowledge base |
| Catalog.DeletingHidesFromEveryReader | app/services/archive/reads.py:168-188 | After a delete has started, in any run and whatever happens between a reader's two queries, no catalogue page, scope or vector-store answer shows the document |
| Catalog.ShownThoughHiddenIff | app/services/archive/retrieval.py:72-85 | The scope shows a document that is not formal any more exactly when its block was committed between the two queries |
| ProjectWitness.ScopeCanLagBehind | app/services/archive/retrieval.py:72-85 | There is a run in which it does |
| Catalog.PagesMakeTheList | app/services/archive/catalog.py:165-167 | The pages in order are the list, nothing lost or repeated |
| Checklists.CreateOutcome | app/services/project/checklists.py:38-100 | An item is made exactly under the project's current version, by one caller per version, and holds what was sent; it counts nothing, is MISSING or NOT_PROVIDED, and every other item counts what it did |
| Checklists.UpdateAnswers | app/services/project/checklists.py:147-232 | Which error an update gets, exactly; an entry that was sent is what was sent, any other what it was, and exactly the item's confirmed links lose their force on a matching change |
| Checklists.LinkAnswers | app/services/archive/checklist_links.py:100-174 | Which error a request for a link gets, exactly; the one link of the pair is confirmed by its caller, new or one version on, and every other link stays |
| Checklists.ReadTells | app/services/project/checklists.py:283-315 | An item is shown as it is, with the number of CONFIRMED documents of its project that confirmed links join to it, and SATISFIED exactly if there is one |
| Checklists.DeleteItemOutcome | app/services/project/checklists.py:235-267 | An item takes exactly its own links with it; nothing counts for it or can be linked to it any more, and every other item counts what it did |
| Checklists.DeleteLinkOutcome | app/services/archive/checklist_links.py:177-203 | A link takes exactly its document from what fulfils its item, if it counted, and nothing from any other item; the pair can be linked anew |
| Checklists.ChecklistStore.Update | app/services/project/checklists.py:147-232 | The patched item, its links invalidated exactly on a matching change, and its true count |
| Checklists.ChecklistStore.List | app/services/project/checklists.py:103-144 | Every item with its true count and fulfilment, from the grouped query |
| Checklists.ChecklistStore.CreateDocumentLink | app/services/archive/checklist_links.py:100-174 | A new or revived link, or the refusal |
| Checklists.GroupedCountIsItemCount | app/services/project/checklists.py:103-144 | The grouped count of an item, zero without a group, is its single count, in every state |
| Checklists.SatisfiedIff | app/services/project/checklists.py:283-315 | SATISFIED exactly if a confirmed link joins the item to a CONFIRMED document of the project |
| Checklists.MatchingChangeUnlinks | app/services/project/checklists.py:165-216 | A change of name, type or stage takes the force from exactly the item's links; other changes touch no link |
| Checklists.UnsatisfiedUntilLinkedAgain | app/services/project/checklists.py:199-214 | The item then stays unsatisfied in every run until somebody links a document to it |
| Checklists.LinkingSatisfies | app/services/archive/checklist_links.py:108-160 | A link is made exactly under both current versions to a CONFIRMED document of the project, and satisfies the item |
| Checklists.RunStaysConsistent | app/models/checklist.py:74-82 | In every run links join item and document of one project, at most one per pair |
| ProjectChecklist.CountedDocumentsAreShownIff | app/services/project/checklists.py:283-301 | In every history what counts is a living CONFIRMED document of the item's project; catalogue and scope show it exactly when no unfinished delete blocks it |
| ProjectChecklist.CountIsFormalIff | app/services/project/checklists.py:283-301 | In every history an item counts formal documents only, exactly when none it counts is blocked; it is SATISFIED without a formal document exactly when all it counts are |
| ProjectWitness.StartedDeletesKeepCounting | app/services/archive/deletion.py:157-168 | Starting a delete, in whatever project, hides the document and changes nothing of what the checklist counts |
| ProjectWitness.HiddenDocumentCanSatisfy | app/services/project/checklists.py:291-300 | There is a history after which an item is SATISFIED by a document no reader shows |
| Rebuild.ChromaServer.RunPreflight | scripts/policy_collection_embedding_rebuild.py:145-243 | Changes nothing and asks for a rebuild only of an empty 512-dimension collection; exactly so when calls work, and then each refusal has its own code |
| Rebuild.ChromaServer.RestoreOldCollection | scripts/policy_collection_embedding_rebuild.py:309-338 | Success means an empty 512-dimension cosine collection, whatever calls failed; when calls work it succeeds |
| Rebuild.ChromaServer.RunApply | scripts/policy_collection_embedding_rebuild.py:349-395 | Success: an empty 768-dimension collection. An error other than RESTORE_FAILED: the collection as it was. Only an empty 512-dimension collection is ever touched. When calls work it refuses what preflight refuses and otherwise succeeds exactly if the new collection is as asked for |
| Rebuild.RetryAfterRestore | scripts/policy_collection_embedding_rebuild.py:341-395 | After a failed run that restored, preflight asks for the rebuild again and the next run completes it |
| Rebuild.RebuildIsFinal | scripts/policy_collection_embedding_rebuild.py:349-353 | After a success no later run, whatever fails in it, changes the collection, rebuilds again or ends in RESTORE_FAILED; one whose calls work finds nothing to do |
| Questions.AcceptJson | app/services/archive/questions.py:80-89 | Rejects exactly the values with a repeated name in some object, however deep |
| Questions.ParseModelDecision | app/services/archive/questions.py:92-148 | A decision comes out exactly when the content is a decision object that says it |
| Questions.UsableIffItSaysSomething | app/services/archive/questions.py:92-148 | A content says something exactly if it is an object with the three members and no others, no name twice anywhere, that answers with a text that is not blank and numbers of distinct candidates, or refuses with none |
| Questions.OneMeaning | app/services/archive/questions.py:121-148 | One content says at most one decision |
| Questions.AnswerArchiveQuestion | app/services/archive/questions.py:151-290 | Refusal without evidence; otherwise ANSWERED exactly when the content's decision is, with its trimmed answer and, citation by citation, the item it numbers; else the refusal sentence and none; the records carry status, answer and citations; the one stable error exactly when the content is unusable |
| Questions.CitationsAreTheChosenItems | app/services/archive/questions.py:270-274 | Citations are the chosen items in the chosen order, no item twice |
| Questions.ArchiveAnswerContract | evals/archive/evaluators.py:272-354 | The list of problems found in the records, empty exactly when they meet the contract, or none exactly when the check itself raises |
| Questions.StatusProblemsMean | evals/archive/evaluators.py:272-354 | Which problem about status and sufficiency is reported, exactly when |
| Questions.ResponseProblemsMean | evals/archive/evaluators.py:272-354 | Which problem about the response is reported, exactly when |
| Questions.DecisionProblemsMean | evals/archive/evaluators.py:272-354 | Which problem about the decision is reported, exactly when |
| Questions.SufficiencyProblemsMean | evals/archive/evaluators.py:272-354 | Which problem about sufficiency and counts is reported, exactly when |
| Questions.ProblemsAreOfTheParts | evals/archive/evaluators.py:272-354 | A problem is in the list exactly if it is one of its parts', each found in the first record of its name |
| Questions.NoProblemIffContractMet | evals/archive/evaluators.py:272-354 | The check ends without a problem exactly when status, sufficiency, citation numbers, citations and counts agree and every record is well formed |
| Questions.ProducerMeetsChecker | evals/archive/evaluators.py:272-354 | Whatever was retrieved and whatever the model said, the records of an answered question meet the contract |
| Questions.AnswerAndCheck | app/services/archive/questions.py:201-290 | Service and evaluator together: the stable error, or no problem |
| Questions.DocumentReferences | app/services/archive/questions.py:42-49 | Prompt references are equal exactly when the documents are |

## Assumptions

- SHA-256 is injective: a digest is represented by what it is computed from.
- A database transaction is atomic. Where the services release a lock and read again
  (edits, regeneration, failed suggestions, INDEX, delete) the parts are separate steps.
- The vector store rejects an upsert whose ids repeat, and otherwise writes records
  one by one, so a broken call may have written or deleted any part.
- Scores and distances are represented by their place among the finite doubles.
- The project's owner and knowledge base do not change while a document lives.

## Left out

- Parsing is one step that ends before other calls start, although it takes no lock in
  the code: two parses at once, or one during a delete, are not modelled, and what is
  said of all runs says nothing of them.
- A write that reaches the vector store after its client has given up and another call
  has gone on is not modelled; a broken call has done what it does when it raises.
- Delete takes the project row, and checklist updates take their item, without a lock;
  their transactions are atomic here.
- ArchiveStore.DocumentStore.IndexConfirmedDocument: a failed INDEX is recorded and
  raised under one error code, because the codes of embedding and vector store are not
  part of the model.
- Embeddings and embedding contexts (`build_evidence_value_contexts`): they change
  vectors, which the model does not have.
- SuggestionReplies.ParseSuggestedFields: the conversions of single JSON values (`int`,
  `str`, dates) are not modelled; a value is what its conversion gives, or absent.
- Building and comparing scanner snapshots (`build_safe_snapshot`, `_same_candidates`).
- Scanner.Scan: margins are distances between places, so their sign is right and their
  size is not, because only the order of scores is modelled.
- ScannerInput.ValidateSnapshot: it says whether a file is refused, not with which text;
  integers in the JSON that no double represents are not modelled.
- Questions.ArchiveAnswerContract: numbers that no JSON has, infinite or not a number, are
  not modelled.
- Rebuild.ChromaServer.RunPreflight: the checks of the target's name are one flag, because
  names play no part in what follows.
- Retrieval.BuildValidatedCandidates: a distance that is not a number is not modelled.
- Catalog.ReadFormalArchive: its two reads are one database state.
- Times, audit actors, HTTP, authentication, logging, configuration, the chat agent and
  the older knowledge-base path.
