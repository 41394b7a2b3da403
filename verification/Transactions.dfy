/** The database transactions and the external calls of the archive services, each
    as a function of the stores. A transaction is atomic; between two of them any
    other call may run (app/services/archive/{drafts,suggestions,confirmation,
    indexing,cancellation,deletion,documents}.py). */
module Transactions {
  import opened Wrappers
  import opened Text
  import opened FinalChunks
  import P = Parsed
  import opened Archive
  import opened SuggestionReplies

  /** How a transaction ends: it raises and leaves the stores alone, it commits, or
      it commits the record of a failure and then raises. */
  datatype Txn = Refused(error: AppError) | Done(after: Store) | Recorded(after: Store, error: AppError) {
    function Result(before: Store): Store {
      if Refused? then before else after
    }
  }

  // ---- parsing (documents.py) -------------------------------------------

  /** `_parse_project_document`; `parsed` is `None` when the parser raises. */
  function ParseDocument(site: Site, s: Store, retry: bool, id: nat, parsed: Option<P.ParsedArchiveDocument>): Txn {
    if s.row.None? then Refused(ArchiveDocumentNotFound)
    else
      var row := s.row.value;
      if row.status != (if retry then ParseFailed else Uploaded) then Refused(ParseNotAllowed)
      else if parsed.None? then
        Recorded(s.(row := Some(row.(status := ParseFailed, lastError := Some(ParseFailedError)))), ParseFailedError)
      else
        Done(s.(row := Some(row.(currentSnapshot := Some(id), status := Parsed, lastError := None)),
             snapshot := Some(P.StoredSnapshot(id, site.documentId, parsed.value)),
             files := s.files + {SnapshotFile},
             audit := if retry then s.audit + [ParseRetried] else s.audit))
  }

  // ---- drafts (drafts.py) -----------------------------------------------

  const BLANK_FIELD := FieldValue(NO_VALUE, PendingCheck, None, false, [])

  function BlankDraft(): Fields { map n | n in FIELD_NAMES :: BLANK_FIELD }

  function CreateManualDraft(s: Store): Txn {
    if s.row.None? then Refused(ArchiveDocumentNotFound)
    else
      var row := s.row.value;
      if row.status != Parsed && row.status != SuggestionFailed then Refused(ManualDraftNotAllowed)
      else if row.fields != map[] && row.status == Parsed then Refused(ManualDraftAlreadyStarted)
      else Done(s.(row := Some(row.(fields := BlankDraft(), status := PendingConfirmation, version := row.version + 1))))
  }

  /** A field edit as the client sends it. */
  datatype FieldEdit = FieldEdit(
    name: FieldName, columns: Columns, review: ReviewStatus, source: Option<FieldSource>,
    noSourceEvidence: bool, evidences: seq<EvidenceInput>, expectedVersion: nat)

  /** What the first, unlocked part of `update_field` has read and decided. */
  datatype EditTicket = EditTicket(status: ArchiveStatus, snapshotId: Option<nat>, columns: Columns)

  /** `_canonical_value`: only the field's own column may be used. */
  function CanonicalValue(c: Columns, name: FieldName): Result<Columns, AppError> {
    match name
    case DocumentDate =>
      if c.text.Some? || c.words.Some? then Failure(FieldValueShapeInvalid) else Success(c)
    case Keywords =>
      if c.text.Some? || c.date.Some? then Failure(FieldValueShapeInvalid)
      else if c.words.Some? && exists i :: 0 <= i < |c.words.value| && Strip(c.words.value[i]) == "" then
        Failure(FieldValueShapeInvalid)
      else Success(if c.words == Some([]) then NO_VALUE else c)
    case _ =>
      if c.date.Some? || c.words.Some? then Failure(FieldValueShapeInvalid)
      else if c.text.None? then Success(c)
      else
        var text := Strip(c.text.value);
        if name == DocumentType && !KnownDocumentType(text) then Failure(InvalidFieldValue)
        else if name == ProjectStage && !KnownProjectStage(text) then Failure(InvalidFieldValue)
        else Success(c.(text := Some(text)))
  }

  predicate HasValue(c: Columns) { c.text.Some? || c.date.Some? || c.words.Some? }

  /** `_validate_review_value` on a canonical value. */
  function ReviewError(name: FieldName, review: ReviewStatus, c: Columns): Option<AppError> {
    match review
    case PendingCheck => None
    case EmptyAccepted =>
      if NonEmpty(name, c) then Some(EmptyAcceptedRequiresEmpty)
      else if name == Title || name == DocumentType then Some(RequiredFieldEmpty)
      else None
    case ValueConfirmed => if NonEmpty(name, c) then None else Some(ValueRequired)
  }

  /** The first part of `update_field`: plain reads, no lock. */
  function ReadForEdit(s: Store, e: FieldEdit): Result<EditTicket, AppError> {
    if s.row.None? then Failure(ArchiveDocumentNotFound)
    else
      var row := s.row.value;
      if row.fields == map[] && (row.status == Parsed || row.status == SuggestionFailed) then Failure(DraftNotStarted)
      else if row.status !in {PendingConfirmation, PendingReconfirmation, Confirmed} then Failure(FieldEditNotAllowed)
      else if e.source == Some(Ai) then Failure(AiSourceForbidden)
      else if row.version != e.expectedVersion then Failure(VersionConflict)
      else if e.name !in row.fields then Failure(DraftNotStarted)
      else
        var value :- CanonicalValue(e.columns, e.name);
        var reviewError := ReviewError(e.name, e.review, value);
        if reviewError.Some? then Failure(reviewError.value)
        else if e.evidences != [] && row.currentSnapshot.None? then Failure(FieldEvidenceSnapshotRequired)
        else if e.noSourceEvidence && e.evidences != [] then Failure(NoSourceEvidenceConflict)
        else if HasValue(value) && e.evidences == [] && !e.noSourceEvidence then Failure(ManualEvidenceRequired)
        else if exists i :: 0 <= i < |e.evidences| && BadLocation(e.evidences[i]) then Failure(FieldEvidenceLocationInvalid)
        else Success(EditTicket(row.status, row.currentSnapshot, value))
  }

  function BindEvidences(snapshotId: Option<nat>, inputs: seq<EvidenceInput>): seq<Evidence> {
    if snapshotId.None? then []
    else seq(|inputs|, i requires 0 <= i < |inputs| => Evidence(snapshotId.value, inputs[i]))
  }

  /** The second part of `update_field`: the conditional update on the version. The
      next status comes from the status read in the first part. The database rejects
      an accepted-as-empty field that holds an empty text. */
  function WriteEdit(s: Store, e: FieldEdit, t: EditTicket): Txn {
    if s.row.None? || s.row.value.version != e.expectedVersion then Refused(VersionConflict)
    else if e.review == EmptyAccepted && HasValue(t.columns) then Refused(FieldUpdateFailed)
    else
      var row := s.row.value;
      var field := FieldValue(t.columns, e.review, Some(Manual), e.noSourceEvidence, BindEvidences(t.snapshotId, e.evidences));
      var edited := row.(fields := row.fields[e.name := field], version := row.version + 1);
      var next := if t.status == Confirmed then PendingReconfirmation else t.status;
      Done(s.(row := Some(
             if next == PendingReconfirmation then
               edited.(status := next, confirmedBy := None, finalHash := None, finalChunkCount := 0)
             else edited.(status := next)),
           audit := s.audit + [FieldUpdated]))
  }

  // ---- suggestions (suggestions.py) -------------------------------------

  function SuggestedDraft(snapshotId: Option<nat>, suggestions: Suggestions): Fields {
    map n | n in FIELD_NAMES ::
      if n in suggestions then
        FieldValue(suggestions[n].columns, PendingCheck, Some(Ai), false, BindEvidences(snapshotId, suggestions[n].evidences))
      else BLANK_FIELD
  }

  /** `_persist_suggestion_draft`: every field of the draft is replaced. */
  function PersistDraft(s: Store, row: Row, suggestions: Suggestions, audit: seq<AuditKind>): Store {
    s.(row := Some(row.(fields := SuggestedDraft(row.currentSnapshot, suggestions),
                        status := PendingConfirmation, version := row.version + 1, lastError := None)),
       audit := s.audit + audit)
  }

  /** What the service makes of the reply, given the snapshot it was asked about;
      `None` when there is no reply or it is not understood. */
  function Understood(payload: Option<SnapshotPayload>, reply: Option<Reply>): Option<Suggestions> {
    if payload.Some? && reply.Some? then ParseReply(reply.value, payload.value) else None
  }

  function PayloadIn(s: Store): Option<SnapshotPayload> {
    if s.snapshot.Some? then Some(s.snapshot.value.payload) else None
  }

  /** `_record_suggestion_failure`: it gives up the lock and reads the row again, but looks
      at neither the status nor the version it finds. */
  function RecordSuggestionFailure(s: Store): Store {
    s.(row := if s.row.Some? then Some(s.row.value.(status := SuggestionFailed, lastError := Some(SuggestionFailedError))) else None)
  }

  /** `_generate_suggestions`, first attempt or retry, when nothing happens between the
      failure and its record; the row stays locked during the model call. `reply` is
      `None` when the model or its answer fails. */
  function GenerateSuggestions(s: Store, retry: bool, reply: Option<Suggestions>): Txn {
    if s.row.None? then Refused(ArchiveDocumentNotFound)
    else
      var row := s.row.value;
      if row.status != (if retry then SuggestionFailed else Parsed) then
        Refused(if retry then SuggestionRetryNotAllowed else SuggestionNotAllowed)
      else if !retry && row.fields != map[] then Refused(SuggestionAlreadyStarted)
      else if retry && exists n :: n in row.fields && row.fields[n].source == Some(Manual) then
        Refused(SuggestionWouldOverwriteManualDraft)
      else if row.currentSnapshot.None? then Refused(SuggestionSnapshotRequired)
      else if s.snapshot.None? || SnapshotFile !in s.files then Refused(SnapshotUnreadable)
      else if reply.None? then
        Recorded(RecordSuggestionFailure(s), SuggestionFailedError)
      else Done(PersistDraft(s, row, reply.value, if retry then [SuggestionRetried] else []))
  }

  /** `_ensure_regenerate_allowed`: still seven untouched fields. */
  predicate RegenerateAllowed(fields: Fields) {
    && fields.Keys == FIELD_NAMES
    && forall n :: n in fields ==>
                     fields[n].review == PendingCheck && fields[n].source != Some(Manual) && !fields[n].noSourceEvidence
  }

  /** What regeneration has read before the model call. */
  datatype RegenerateTicket = RegenerateTicket(snapshotId: nat, payload: SnapshotPayload)

  /** The part of `regenerate_suggestions` before the model call; its transaction
      is then given up. */
  function ReadForRegenerate(s: Store, expectedVersion: nat): Result<RegenerateTicket, AppError> {
    if s.row.None? then Failure(ArchiveDocumentNotFound)
    else
      var row := s.row.value;
      if row.status != PendingConfirmation then Failure(SuggestionRegenerateNotAllowed)
      else if row.version != expectedVersion then Failure(VersionConflict)
      else if !RegenerateAllowed(row.fields) then Failure(SuggestionWouldOverwriteManualDraft)
      else if row.currentSnapshot.None? then Failure(SuggestionSnapshotRequired)
      else if s.snapshot.None? || SnapshotFile !in s.files then Failure(SnapshotUnreadable)
      else Success(RegenerateTicket(row.currentSnapshot.value, s.snapshot.value.payload))
  }

  /** The part after the model call: everything is checked again under the lock. */
  function WriteRegenerated(s: Store, expectedVersion: nat, snapshotId: nat, suggestions: Suggestions): Txn {
    if s.row.None? then Refused(ArchiveDocumentNotFound)
    else
      var row := s.row.value;
      if row.version != expectedVersion then Refused(VersionConflict)
      else if row.status != PendingConfirmation then Refused(SuggestionRegenerateNotAllowed)
      else if row.currentSnapshot != Some(snapshotId) then Refused(VersionConflict)
      else if !RegenerateAllowed(row.fields) then Refused(SuggestionWouldOverwriteManualDraft)
      else Done(PersistDraft(s, row, suggestions, [SuggestionRegenerated]))
  }

  // ---- confirmation (confirmation.py) -----------------------------------

  predicate Backed(name: FieldName, v: FieldValue, snapshotId: nat) {
    v.source == Some(Ai) && NonEmpty(name, v.columns) ==>
      exists i :: 0 <= i < |v.evidences| && v.evidences[i].snapshotId == snapshotId
  }

  predicate ConfirmedWithValue(fields: Fields, name: FieldName)
    requires name in fields
  {
    fields[name].review == ValueConfirmed && NonEmpty(name, fields[name].columns)
  }

  /** `_validate_confirmation_fields`: the first check that fails, if one does. */
  function ConfirmationError(fields: Fields, snapshotId: nat): Option<AppError> {
    if !(FIELD_NAMES <= fields.Keys) then Some(ConfirmNotAllowed)
    else if exists n :: n in fields && fields[n].review == PendingCheck then Some(ConfirmNotAllowed)
    else if !ConfirmedWithValue(fields, Title) || !ConfirmedWithValue(fields, DocumentType) then Some(ConfirmNotAllowed)
    else if exists n :: n in fields && !Backed(n, fields[n], snapshotId) then Some(AiFieldEvidenceRequired)
    else None
  }

  /** Outcome of the committing part of `confirm_document`. */
  datatype Confirmation = Replayed(index: bool) | Promoted(after: Store)

  function ConfirmDocument(site: Site, s: Store, expectedVersion: nat, actor: nat): Result<Confirmation, AppError> {
    if s.row.None? then Failure(ArchiveDocumentNotFound)
    else
      var row := s.row.value;
      if row.version != expectedVersion then Failure(VersionConflict)
      else if row.status == Confirmed then Success(Replayed(row.finalChunkCount == 0))
      else if row.status != PendingConfirmation && row.status != PendingReconfirmation then Failure(ConfirmNotAllowed)
      else if row.currentSnapshot.None? then Failure(ConfirmNotAllowed)
      else if s.snapshot.None? || s.snapshot.value.row.id != row.currentSnapshot.value
              || s.snapshot.value.row.documentId != site.documentId then Failure(ConfirmNotAllowed)
      else
        var snapshot := s.snapshot.value.row;
        var error := ConfirmationError(row.fields, snapshot.id);
        if error.Some? then Failure(error.value)
        else
          Success(Promoted(
                    s.(row := Some(row.(status := Confirmed, confirmedBy := Some(actor),
                                        finalHash := Some(snapshot.snapshotHash), finalChunkCount := 0,
                                        lastError := None, version := row.version + 1)),
                    audit := s.audit + [ArchiveConfirmed])))
  }

  // ---- INDEX (indexing.py) ----------------------------------------------

  predicate AnyRunning(ops: seq<Operation>) {
    exists i :: 0 <= i < |ops| && ops[i].status == Running
  }

  /** The newest INDEX operation. */
  function LatestIndex(ops: seq<Operation>): (r: Option<nat>)
    ensures r.Some? ==> r.value < |ops| && ops[r.value].kind == Index
  {
    if ops == [] then None
    else if ops[|ops| - 1].kind == Index then Some(|ops| - 1)
    else LatestIndex(ops[..|ops| - 1])
  }

  datatype IndexStart = Reused | Begun(after: Store, op: nat, snapshot: P.Snapshot)

  /** The first transaction of `index_confirmed_document`: a RUNNING operation is
      committed before any external call. */
  function BeginIndex(site: Site, s: Store): Result<IndexStart, AppError> {
    if s.row.None? then Failure(ArchiveDocumentNotFound)
    else
      var row := s.row.value;
      if row.status != Confirmed then Failure(IndexNotAllowed)
      else if site.projectKbId != site.kbId then Failure(ProjectNotFound)
      else if row.currentSnapshot.None? then Failure(IndexNotAllowed)
      else if s.snapshot.None? || s.snapshot.value.row.id != row.currentSnapshot.value
              || s.snapshot.value.row.documentId != site.documentId then Failure(IndexNotAllowed)
      else if AnyRunning(s.ops) then Failure(OperationInProgress)
      else
        var snapshot := s.snapshot.value;
        var latest := LatestIndex(s.ops);
        if && latest.Some? && s.ops[latest.value].status == Succeeded
           && row.finalHash == Some(snapshot.row.snapshotHash) && row.finalChunkCount > 0 then
          Success(Reused)
        else
          var attempt := if latest.Some? then s.ops[latest.value].attempt + 1 else 1;
          Success(Begun(
                    s.(ops := s.ops + [Operation(Index, Running, false, attempt, Some(IndexStarted))]),
                    |s.ops|, snapshot))
  }

  /** A call to the vector store or the file system: it completes, or it raises
      after having touched any part of what it was to touch. */
  datatype Call<T> = Completes | Breaks(touched: set<T>)

  function RecordFor(site: Site, chunk: FinalChunk): Record {
    Record(IndexScope(site), site.filename, chunk)
  }

  function Upserted(site: Site, chroma: Chroma, chunks: seq<FinalChunk>): Chroma
    decreases |chunks|
  {
    if chunks == [] then chroma
    else
      var last := chunks[|chunks| - 1];
      Upserted(site, chroma, chunks[..|chunks| - 1])[last.chunkId := RecordFor(site, last)]
  }

  /** The part of the chunks a broken upsert has written. */
  function Touched(chunks: seq<FinalChunk>, touched: set<ChunkId>): seq<FinalChunk> {
    if chunks == [] then []
    else
      var rest := Touched(chunks[..|chunks| - 1], touched);
      if chunks[|chunks| - 1].chunkId in touched then rest + [chunks[|chunks| - 1]] else rest
  }

  /** What the external part of INDEX has to write: nothing when the snapshot file
      is gone or unusable, or when two chunks share an id, which the store rejects. */
  function ChunksToIndex(site: Site, s: Store, snapshot: P.Snapshot): Option<seq<FinalChunk>> {
    if SnapshotFile in s.files && Acceptable(site.documentId, snapshot.row, Some(snapshot.payload))
       && DistinctIds(Chunks(site.documentId, snapshot.row, snapshot.payload)) then
      Some(Chunks(site.documentId, snapshot.row, snapshot.payload))
    else None
  }

  /** Building, embedding and the upsert: how many chunks were written, or `None`
      when the call raised, and what is in the vector store afterwards. */
  function WriteIndex(site: Site, s: Store, snapshot: P.Snapshot, call: Call<ChunkId>): (Store, Option<nat>) {
    var chunks := ChunksToIndex(site, s, snapshot);
    if chunks.None? then (s, None)
    else
      match call
      case Completes => (s.(chroma := Upserted(site, s.chroma, chunks.value)), Some(|chunks.value|))
      case Breaks(touched) => (s.(chroma := Upserted(site, s.chroma, Touched(chunks.value, touched))), None)
  }

  /** The last transaction of INDEX. It looks at neither the status nor the version. */
  function FinishIndex(s: Store, op: nat, hash: string, count: nat): Txn {
    if s.row.None? || op >= |s.ops| then Refused(IndexOperationStateLost)
    else
      Done(s.(row := Some(s.row.value.(finalHash := Some(hash), finalChunkCount := count, lastError := None)),
           ops := s.ops[op := s.ops[op].(status := Succeeded, step := Some(ChromaUpsert))]))
  }

  /** `_mark_index_failed`. */
  function RecordIndexFailure(s: Store, op: nat): Store {
    s.(row := if s.row.Some? then Some(s.row.value.(lastError := Some(IndexFailed))) else None,
       ops := if op < |s.ops| then s.ops[op := s.ops[op].(status := Failed)] else s.ops)
  }

  // ---- cancellation (cancellation.py) -----------------------------------

  function CancelConfirmation(site: Site, s: Store, expectedVersion: nat): Txn {
    if s.row.None? then Refused(ArchiveDocumentNotFound)
    else
      var row := s.row.value;
      if row.version != expectedVersion then Refused(VersionConflict)
      else if row.status != Confirmed then Refused(CancelConfirmationNotAllowed)
      else if site.projectKbId != site.kbId then Refused(ProjectNotFound)
      else
        Done(s.(row := Some(row.(status := PendingReconfirmation, confirmedBy := None, finalHash := None,
                                 finalChunkCount := 0, lastError := None, version := row.version + 1)),
             audit := s.audit + [ConfirmationCancelled]))
  }

  /** `delete_final_chunks`: everything the scope filter matches, or only the
      touched part of it when the call raises. */
  function Purged(chroma: Chroma, filter: Scope, call: Call<ChunkId>): Chroma {
    map id | id in chroma && !(chroma[id].scope == filter && (call.Completes? || id in call.touched)) :: chroma[id]
  }

  function RecordCleanupFailure(s: Store): Store {
    s.(row := if s.row.Some? then Some(s.row.value.(lastError := Some(VectorUnavailable))) else None)
  }

  // ---- deletion (deletion.py) -------------------------------------------

  /** The first operation that satisfies the search, if there is one. */
  function FirstDelete(ops: seq<Operation>, status: OperationStatus): (r: Option<nat>)
    ensures r.Some? ==> r.value < |ops| && ops[r.value].kind == Delete && ops[r.value].status == status
    ensures r.None? ==> forall i :: 0 <= i < |ops| ==> !(ops[i].kind == Delete && ops[i].status == status)
  {
    if ops == [] then None
    else
      var earlier := FirstDelete(ops[..|ops| - 1], status);
      if earlier.Some? then earlier
      else if ops[|ops| - 1].kind == Delete && ops[|ops| - 1].status == status then Some(|ops| - 1)
      else None
  }

  datatype DeleteStart = DeleteStart(after: Store, op: nat)

  /** The first transaction of `delete_archive_document`: the visibility block is
      committed before any external call. */
  function BeginDelete(site: Site, s: Store, actor: nat): Result<DeleteStart, AppError> {
    if s.row.None? then Failure(DocumentNotFound)
    else if actor != site.ownerId then Failure(DocumentNotFound)
    else if exists i :: 0 <= i < |s.ops| && s.ops[i].status == Running && s.ops[i].kind != Delete then
      Failure(OperationInProgress)
    else if FirstDelete(s.ops, Running).Some? then Failure(OperationInProgress)
    else
      var failed := FirstDelete(s.ops, Failed);
      var hidden := s.(row := Some(s.row.value.(fileStatus := Deleting)));
      if failed.None? then
        Success(DeleteStart(hidden.(ops := s.ops + [Operation(Delete, Running, true, 1, None)]), |s.ops|))
      else
        var op := s.ops[failed.value];
        Success(DeleteStart(
                  hidden.(ops := s.ops[failed.value := op.(status := Running, blocking := true, attempt := op.attempt + 1)]),
                  failed.value))
  }

  function Checkpoint(s: Store, op: nat, step: OperationStep): Store {
    if op < |s.ops| then s.(ops := s.ops[op := s.ops[op].(step := Some(step))]) else s
  }

  /** Removing the original file, and the snapshot file when there is a snapshot. */
  function RemoveFiles(files: set<StoredFile>, hasSnapshot: bool, call: Call<StoredFile>): set<StoredFile> {
    var doomed := if hasSnapshot then {OriginalFile, SnapshotFile} else {OriginalFile};
    match call
    case Completes => files - doomed
    case Breaks(touched) => files - (doomed * touched)
  }

  /** The last transaction of a delete: every row goes, operations by cascade. */
  function FinishDelete(s: Store): Store {
    s.(row := None, snapshot := None, ops := [], audit := s.audit + [DocumentDeleted])
  }

  /** `_mark_delete_failed`. */
  function RecordDeleteFailure(s: Store, op: nat): Store {
    if s.row.None? || op >= |s.ops| then s
    else
      s.(row := Some(s.row.value.(fileStatus := DeleteFailed)),
         ops := s.ops[op := s.ops[op].(status := Failed, blocking := true)])
  }
}
