/** The facts kept about one archived document in its three stores: database rows,
    the vector store and the file system (app/models/archive.py, app/models/archive_audit.py). */
module Archive {
  import opened Wrappers
  import opened Text
  import opened FinalChunks
  import opened Parsed

  datatype AppError =
    | ArchiveDocumentNotFound | DocumentNotFound | ProjectNotFound
    | ParseNotAllowed | ParseFailedError
    | ManualDraftNotAllowed | ManualDraftAlreadyStarted
    | SuggestionNotAllowed | SuggestionRetryNotAllowed | SuggestionAlreadyStarted | SuggestionWouldOverwriteManualDraft
    | SuggestionSnapshotRequired | SnapshotUnreadable | SuggestionFailedError | SuggestionRegenerateNotAllowed
    | DraftNotStarted | FieldEditNotAllowed | AiSourceForbidden | VersionConflict
    | FieldValueShapeInvalid | InvalidFieldValue | EmptyAcceptedRequiresEmpty | RequiredFieldEmpty | ValueRequired
    | FieldEvidenceSnapshotRequired | NoSourceEvidenceConflict | ManualEvidenceRequired | FieldEvidenceLocationInvalid | FieldUpdateFailed
    | ConfirmNotAllowed | AiFieldEvidenceRequired
    | IndexNotAllowed | OperationInProgress | IndexOperationStateLost | IndexFailed
    | CancelConfirmationNotAllowed | VectorUnavailable
    | DocumentDeleteIncomplete

  // ---- fields -----------------------------------------------------------

  datatype FieldName = Title | DocumentType | DocumentDate | AuthoringOrganization | VersionNumber | ProjectStage | Keywords

  const FIELD_NAMES: set<FieldName> :=
    {Title, DocumentType, DocumentDate, AuthoringOrganization, VersionNumber, ProjectStage, Keywords}

  datatype ReviewStatus = PendingCheck | ValueConfirmed | EmptyAccepted

  datatype FieldSource = Ai | Manual

  /** The three value columns; a date is its day number. */
  datatype Columns = Columns(text: Option<string>, date: Option<int>, words: Option<seq<string>>)

  const NO_VALUE := Columns(None, None, None)

  datatype EvidenceInput = EvidenceInput(
    excerpt: string, locationType: LocationType, locationStart: int, locationEnd: int, anchor: Option<string>)

  predicate BadLocation(e: EvidenceInput) {
    || e.locationEnd < e.locationStart
    || (e.locationType != TextLineRange && e.locationEnd != e.locationStart)
  }

  predicate KnownDocumentType(t: string) {
    t in {"CONTRACT", "DESIGN", "CONSTRUCTION", "MEETING_MINUTES", "ACCEPTANCE", "OTHER"}
  }

  predicate KnownProjectStage(t: string) {
    t in {"PREPARATION", "DESIGN", "CONSTRUCTION", "ACCEPTANCE", "CROSS_STAGE", "OTHER_STAGE"}
  }

  datatype Evidence = Evidence(snapshotId: nat, input: EvidenceInput)

  datatype FieldValue = FieldValue(
    columns: Columns, review: ReviewStatus, source: Option<FieldSource>, noSourceEvidence: bool, evidences: seq<Evidence>)

  /** At most one value for each name: the unique constraint on (document, field name). */
  type Fields = map<FieldName, FieldValue>

  /** The field's own column holds a value worth confirming. */
  predicate NonEmpty(name: FieldName, c: Columns) {
    match name
    case DocumentDate => c.date.Some?
    case Keywords => c.words.Some? && c.words.value != []
    case _ => c.text.Some? && Strip(c.text.value) != ""
  }

  // ---- database rows ----------------------------------------------------

  datatype FileStatus = Stored | Deleting | DeleteFailed

  datatype ArchiveStatus =
    Uploaded | ParseFailed | Parsed | SuggestionFailed | PendingConfirmation | Confirmed | PendingReconfirmation

  /** The `documents` and `archive_documents` rows, created and deleted together. */
  datatype Row = Row(
    fileStatus: FileStatus,
    status: ArchiveStatus,
    currentSnapshot: Option<nat>,
    confirmedBy: Option<nat>,
    finalHash: Option<string>,
    finalChunkCount: nat,
    lastError: Option<AppError>,
    version: nat,
    fields: Fields)

  datatype OperationKind = Index | Delete

  datatype OperationStatus = Running | Succeeded | Failed

  datatype OperationStep = IndexStarted | ChromaUpsert | ChromaDelete | FileDelete

  /** An `ArchiveOperation` row; its position in creation order is its identity. */
  datatype Operation = Operation(
    kind: OperationKind, status: OperationStatus, blocking: bool, attempt: nat, step: Option<OperationStep>)

  datatype AuditKind =
    ParseRetried | SuggestionRetried | SuggestionRegenerated | FieldUpdated | ArchiveConfirmed | ConfirmationCancelled | DocumentDeleted

  // ---- the other two stores ---------------------------------------------

  datatype Scope = Scope(userId: nat, projectId: nat, kbId: nat, documentId: Uuid)

  datatype Record = Record(scope: Scope, filename: string, chunk: FinalChunk)

  type Chroma = map<ChunkId, Record>

  datatype StoredFile = OriginalFile | SnapshotFile

  // ---- one document, everywhere -----------------------------------------

  /** What never changes about the document: who owns its project and where it is filed. */
  datatype Site = Site(
    documentId: Uuid, projectId: nat, ownerId: nat, kbId: nat, projectKbId: nat, filename: string)

  datatype Store = Store(
    row: Option<Row>,
    snapshot: Option<Snapshot>,
    ops: seq<Operation>,
    audit: seq<AuditKind>,
    chroma: Chroma,
    files: set<StoredFile>)

  /** The scope INDEX writes. */
  function IndexScope(site: Site): Scope { Scope(site.ownerId, site.projectId, site.kbId, site.documentId) }

  /** The scope a delete filters by. */
  function DeleteScope(site: Site, actor: nat): Scope { Scope(actor, site.projectId, site.projectKbId, site.documentId) }

  ghost predicate NoRecords(site: Site, chroma: Chroma) {
    forall id :: id in chroma ==> chroma[id].scope.documentId != site.documentId
  }

  predicate Unfinished(op: Operation) { op.status == Running || op.status == Failed }

  /** The document is in the set `list_visibility_blocked_document_ids` returns. */
  predicate Blocked(ops: seq<Operation>) {
    exists i :: 0 <= i < |ops| && ops[i].blocking && Unfinished(ops[i])
  }

  /** The document is in the formal retrieval scope and in the formal catalogue. */
  predicate Formal(s: Store) {
    s.row.Some? && s.row.value.status == Confirmed && !Blocked(s.ops)
  }
}
