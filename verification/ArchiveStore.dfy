/** The services themselves, as they change one document's rows, operations, audit
    trail, vector store and files step by step
    (app/services/archive/{deletion,indexing,confirmation,cancellation,drafts,
    suggestions,documents}.py). */
module ArchiveStore {
  import opened Wrappers
  import opened Text
  import opened FinalChunks
  import P = Parsed
  import opened Archive
  import opened SuggestionReplies
  import opened Transactions
  import S = LifecycleSafety
  import opened ServiceCalls
  import opened LifecycleDrafts
  import opened ServiceOutcomes

  /** How `index_confirmed_document` goes on once it has looked at the operations. */
  datatype IndexTicket = Finished(count: nat) | Started(op: nat, current: P.Snapshot)

  class DocumentStore {
    const site: Site

    // The `documents` and `archive_documents` rows.
    var present: bool
    var fileStatus: FileStatus
    var status: ArchiveStatus
    var currentSnapshot: Option<nat>
    var confirmedBy: Option<nat>
    var finalHash: Option<string>
    var finalChunkCount: nat
    var lastError: Option<AppError>
    var version: nat
    var fields: Fields

    var snapshot: Option<P.Snapshot>
    var operations: seq<Operation>
    var audit: seq<AuditKind>

    // The other two stores.
    var chroma: Chroma
    var files: set<StoredFile>

    function CurrentRow(): Row
      reads this
    {
      Row(fileStatus, status, currentSnapshot, confirmedBy, finalHash, finalChunkCount, lastError, version, fields)
    }

    /** Everything the stores hold, as one value. */
    function View(): Store
      reads this
    {
      Store(if present then Some(CurrentRow()) else None, snapshot, operations, audit, chroma, files)
    }

    /** The rows of an upload that has just been committed. */
    constructor (site: Site, chroma: Chroma)
      ensures this.site == site
      ensures View() == Store(Some(Row(Stored, Uploaded, None, None, None, 0, None, 1, map[])), None, [], [], chroma, {OriginalFile})
    {
      this.site := site;
      present, fileStatus, status, version := true, Stored, Uploaded, 1;
      currentSnapshot, confirmedBy, finalHash, finalChunkCount, lastError := None, None, None, 0, None;
      fields, snapshot, operations, audit := map[], None, [], [];
      this.chroma, files := chroma, {OriginalFile};
    }

    // ---- deletion -------------------------------------------------------

    /** `delete_final_chunks` against a server that may break half-way. */
    method DeleteFinalChunks(filter: Scope, call: Call<ChunkId>) returns (ok: bool)
      modifies this`chroma
      ensures chroma == Purged(old(chroma), filter, call) && ok == call.Completes?
    {
      chroma := map id | id in chroma && !(chroma[id].scope == filter && (call.Completes? || id in call.touched)) :: chroma[id];
      ok := call.Completes?;
    }

    method DeleteStoredFiles(hasSnapshot: bool, call: Call<StoredFile>) returns (ok: bool)
      modifies this`files
      ensures files == RemoveFiles(old(files), hasSnapshot, call) && ok == call.Completes?
    {
      if call.Completes? || OriginalFile in call.touched {
        files := files - {OriginalFile};
      }
      if hasSnapshot && (call.Completes? || SnapshotFile in call.touched) {
        files := files - {SnapshotFile};
      }
      SameFiles(files, RemoveFiles(old(files), hasSnapshot, call));
      ok := call.Completes?;
    }

    /** `_mark_delete_failed`. */
    method MarkDeleteFailed(op: nat, commits: bool)
      modifies this`fileStatus, this`operations
      ensures View() == if commits then RecordDeleteFailure(old(View()), op) else old(View())
    {
      if !present || op >= |operations| || !commits {
        return;
      }
      fileStatus := DeleteFailed;
      operations := operations[op := operations[op].(status := Failed, blocking := true)];
    }

    /** Everything up to the commit of the visibility block. */
    method StartDeletion(actor: nat) returns (op: Result<nat, AppError>)
      modifies this`fileStatus, this`operations
      ensures
        var begin := BeginDelete(site, old(View()), actor);
        if begin.Success? then View() == begin.value.after && op == Success(begin.value.op)
        else View() == old(View()) && op == Failure(begin.error)
      ensures op.Success? ==> op.value < |operations|
      ensures op == Failure(DocumentNotFound) <==> !present || actor != site.ownerId
      ensures op == Failure(OperationInProgress) <==>
              present && actor == site.ownerId && exists i :: 0 <= i < |old(operations)| && old(operations)[i].status == Running
    {
      RefusedDelete(site, View(), actor);
      if !present || actor != site.ownerId {
        return Failure(DocumentNotFound);
      }
      for i := 0 to |operations|
        invariant forall j :: 0 <= j < i ==> !(operations[j].status == Running && operations[j].kind != Delete)
      {
        if operations[i].status == Running && operations[i].kind != Delete {
          return Failure(OperationInProgress);
        }
      }
      if FirstDelete(operations, Running).Some? {
        return Failure(OperationInProgress);
      }
      var failed := FirstDelete(operations, Failed);
      if failed.None? {
        op := Success(|operations|);
        operations := operations + [Operation(Delete, Running, true, 1, None)];
      } else {
        op := Success(failed.value);
        var before := operations[failed.value];
        operations := operations[failed.value := before.(status := Running, blocking := true, attempt := before.attempt + 1)];
      }
      fileStatus := Deleting;
    }

    method RecordStep(op: nat, step: OperationStep)
      requires op < |operations|
      modifies this`operations
      ensures View() == Checkpoint(old(View()), op, step) && |operations| == old(|operations|)
    {
      operations := operations[op := operations[op].(step := Some(step))];
    }

    /** The last transaction: every row goes. */
    method RemoveRows()
      modifies this
      ensures View() == FinishDelete(old(View()))
    {
      fields := map[];
      status := PendingReconfirmation;
      confirmedBy, finalHash, finalChunkCount, currentSnapshot := None, None, 0, None;
      snapshot := None;
      operations := [];
      audit := audit + [DocumentDeleted];
      present := false;
    }

    /** `delete_archive_document`. */
    method DeleteArchiveDocument(actor: nat, f: DeleteFaults) returns (error: Option<AppError>)
      modifies this
      ensures (View(), error) == DeleteCall(site, old(View()), actor, f)
      ensures error == Some(DocumentNotFound) <==> !old(present) || actor != site.ownerId
      ensures error == Some(OperationInProgress) <==>
              old(present) && actor == site.ownerId && exists i :: 0 <= i < |old(operations)| && old(operations)[i].status == Running
    {
      hide BeginDelete, Purged, RemoveFiles, RecordDeleteFailure, Checkpoint, FinishDelete;
      var begun := StartDeletion(actor);
      if begun.Failure? {
        return Some(begun.error);
      }
      var op := begun.value;
      var ok := DeleteFinalChunks(Scope(actor, site.projectId, site.projectKbId, site.documentId), f.chunks);
      if !ok || !f.firstCheckpoint {
        MarkDeleteFailed(op, f.marker);
        return Some(DocumentDeleteIncomplete);
      }
      RecordStep(op, ChromaDelete);
      ok := DeleteStoredFiles(snapshot.Some?, f.files);
      if !ok || !f.secondCheckpoint {
        MarkDeleteFailed(op, f.marker);
        return Some(DocumentDeleteIncomplete);
      }
      RecordStep(op, FileDelete);
      if !f.lastCommit {
        MarkDeleteFailed(op, f.marker);
        return Some(DocumentDeleteIncomplete);
      }
      RemoveRows();
      error := None;
    }

    // ---- INDEX and confirmation -----------------------------------------

    /** `_mark_index_failed`. */
    method MarkIndexFailed(op: nat, commits: bool)
      modifies this`lastError, this`operations
      ensures View() == if commits then RecordIndexFailure(old(View()), op) else old(View())
    {
      if commits {
        if op < |operations| {
          operations := operations[op := operations[op].(status := Failed)];
        }
        lastError := if present then Some(IndexFailed) else lastError;
      }
    }

    /** Building the chunks and the upsert; the count when both complete. */
    method WriteFinalChunks(current: P.Snapshot, call: Call<ChunkId>) returns (count: Option<nat>)
      modifies this`chroma
      ensures (View(), count) == WriteIndex(site, old(View()), current, call)
    {
      hide Acceptable, Chunks, DistinctIds, Upserted, Touched;
      var built := BuildFinalChunks(site.documentId, current.row, if SnapshotFile in files then Some(current.payload) else None);
      UnreadableSnapshot(site.documentId, current.row);
      if built.Failure? || !DistinctIds(built.value) {
        return None;
      }
      match call
      case Completes =>
        chroma := Upserted(site, chroma, built.value);
        count := Some(|built.value|);
      case Breaks(touched) =>
        chroma := Upserted(site, chroma, Touched(built.value, touched));
        count := None;
    }

    /** Everything up to the commit of the RUNNING operation. */
    method StartIndexing() returns (start: Result<IndexTicket, AppError>)
      modifies this`operations
      ensures
        match BeginIndex(site, old(View()))
        case Failure(error) => View() == old(View()) && start == Failure(error)
        case Success(Reused) => View() == old(View()) && start == Success(Finished(finalChunkCount))
        case Success(Begun(after, op, current)) => View() == after && start == Success(Started(op, current))
      ensures start.Success? ==> present && (start.value.Started? ==> start.value.op < |operations|)
    {
      if !present {
        return Failure(ArchiveDocumentNotFound);
      }
      if status != Confirmed {
        return Failure(IndexNotAllowed);
      }
      if site.projectKbId != site.kbId {
        return Failure(ProjectNotFound);
      }
      if currentSnapshot.None? || snapshot.None? || snapshot.value.row.id != currentSnapshot.value
         || snapshot.value.row.documentId != site.documentId {
        return Failure(IndexNotAllowed);
      }
      if AnyRunning(operations) {
        return Failure(OperationInProgress);
      }
      var current := snapshot.value;
      var latest := LatestIndex(operations);
      if && latest.Some? && operations[latest.value].status == Succeeded
         && finalHash == Some(current.row.snapshotHash) && finalChunkCount > 0 {
        return Success(Finished(finalChunkCount));
      }
      var attempt := if latest.Some? then operations[latest.value].attempt + 1 else 1;
      start := Success(Started(|operations|, current));
      operations := operations + [Operation(Index, Running, false, attempt, Some(IndexStarted))];
    }

    /** The transaction that records success. */
    method FinishIndexing(op: nat, hash: string, count: nat)
      requires present && op < |operations|
      modifies this`operations, this`finalHash, this`finalChunkCount, this`lastError
      ensures FinishIndex(old(View()), op, hash, count) == Done(View())
    {
      finalHash := Some(hash);
      finalChunkCount := count;
      lastError := None;
      operations := operations[op := operations[op].(status := Succeeded, step := Some(ChromaUpsert))];
    }

    /** `index_confirmed_document`. */
    method IndexConfirmedDocument(f: IndexFaults) returns (count: Result<nat, AppError>)
      modifies this`chroma, this`operations, this`finalHash, this`finalChunkCount, this`lastError
      ensures (View(), count) == IndexCall(site, old(View()), f)
    {
      hide BeginIndex, WriteIndex, RecordIndexFailure;
      var start := StartIndexing();
      if start.Failure? {
        return Failure(start.error);
      }
      if start.value.Finished? {
        return Success(start.value.count);
      }
      var op := start.value.op;
      var written := WriteFinalChunks(start.value.current, f.write);
      if written.None? || !f.commits {
        MarkIndexFailed(op, f.marker);
        return Failure(IndexFailed);
      }
      FinishIndexing(op, start.value.current.row.snapshotHash, written.value);
      count := Success(written.value);
    }

    /** The checks of `confirm_document`: whether it is a replay, or why it is refused. */
    method CheckConfirmation(expectedVersion: nat, ghost actor: nat) returns (replay: Result<bool, AppError>)
      ensures
        match ConfirmDocument(site, View(), expectedVersion, actor)
        case Failure(error) => replay == Failure(error)
        case Success(c) => replay == Success(c.Replayed?) && present && (c.Promoted? ==> snapshot.Some?)
    {
      hide ConfirmationError;
      if !present {
        return Failure(ArchiveDocumentNotFound);
      }
      if version != expectedVersion {
        return Failure(VersionConflict);
      }
      if status == Confirmed {
        return Success(true);
      }
      if status != PendingConfirmation && status != PendingReconfirmation {
        return Failure(ConfirmNotAllowed);
      }
      if currentSnapshot.None? || snapshot.None? || snapshot.value.row.id != currentSnapshot.value
         || snapshot.value.row.documentId != site.documentId {
        return Failure(ConfirmNotAllowed);
      }
      var invalid := ConfirmationError(fields, snapshot.value.row.id);
      replay := if invalid.Some? then Failure(invalid.value) else Success(false);
    }

    method SetConfirmed(actor: nat, hash: string)
      requires present
      modifies this`status, this`confirmedBy, this`finalHash, this`finalChunkCount, this`lastError, this`version, this`audit
      ensures
        var row := old(CurrentRow());
        View() == old(View()).(
          row := Some(row.(status := Confirmed, confirmedBy := Some(actor), finalHash := Some(hash), finalChunkCount := 0,
                           lastError := None, version := row.version + 1)),
          audit := old(audit) + [ArchiveConfirmed])
    {
      status := Confirmed;
      confirmedBy := Some(actor);
      finalHash := Some(hash);
      finalChunkCount := 0;
      lastError := None;
      version := version + 1;
      audit := audit + [ArchiveConfirmed];
    }

    /** The transaction of `confirm_document` that commits the confirmed facts. */
    method CommitConfirmation(expectedVersion: nat, actor: nat) returns (r: Result<bool, AppError>)
      modifies this`status, this`confirmedBy, this`finalHash, this`finalChunkCount, this`lastError, this`version, this`audit
      ensures
        match ConfirmDocument(site, old(View()), expectedVersion, actor)
        case Failure(error) => View() == old(View()) && r == Failure(error)
        case Success(Replayed(index)) => View() == old(View()) && r == Success(index)
        case Success(Promoted(after)) => View() == after && r == Success(true)
    {
      hide ConfirmationError;
      ghost var c := ConfirmDocument(site, View(), expectedVersion, actor);
      var replay := CheckConfirmation(expectedVersion, actor);
      if replay.Failure? {
        return Failure(replay.error);
      }
      if replay.value {
        return Success(finalChunkCount == 0);
      }
      SetConfirmed(actor, snapshot.value.row.snapshotHash);
      assert View() == c.value.after;
      r := Success(true);
    }

    /** `confirm_document`. */
    method ConfirmArchiveDocument(expectedVersion: nat, actor: nat, f: IndexFaults) returns (error: Option<AppError>)
      modifies this
      ensures (View(), error) == ConfirmCall(site, old(View()), expectedVersion, actor, f)
    {
      hide ConfirmDocument, IndexCall;
      var index := CommitConfirmation(expectedVersion, actor);
      if index.Failure? {
        return Some(index.error);
      }
      if !index.value {
        return None;
      }
      var count := IndexConfirmedDocument(f);
      error := if count.Success? then None else Some(count.error);
    }

    /** The transaction of `cancel_confirmation`. */
    method CommitCancellation(expectedVersion: nat) returns (error: Option<AppError>)
      modifies this`status, this`confirmedBy, this`finalHash, this`finalChunkCount, this`lastError, this`version, this`audit
      ensures
        var t := CancelConfirmation(site, old(View()), expectedVersion);
        View() == t.Result(old(View())) && !t.Recorded? && error == (if t.Done? then None else Some(t.error))
      ensures error.None? ==> present
    {
      if !present {
        return Some(ArchiveDocumentNotFound);
      }
      if version != expectedVersion {
        return Some(VersionConflict);
      }
      if status != Confirmed {
        return Some(CancelConfirmationNotAllowed);
      }
      if site.projectKbId != site.kbId {
        return Some(ProjectNotFound);
      }
      status := PendingReconfirmation;
      confirmedBy, finalHash, finalChunkCount, lastError := None, None, 0, None;
      version := version + 1;
      audit := audit + [ConfirmationCancelled];
      error := None;
    }

    /** `cancel_confirmation`: the commit, then the clean-up of the vector store. */
    method CancelArchiveConfirmation(expectedVersion: nat, cleanup: Call<ChunkId>, marker: bool) returns (error: Option<AppError>)
      modifies this
      ensures (View(), error) == CancelCall(site, old(View()), expectedVersion, cleanup, marker)
    {
      hide CancelConfirmation, Purged;
      error := CommitCancellation(expectedVersion);
      if error.Some? {
        return;
      }
      var cleaned := DeleteFinalChunks(Scope(site.ownerId, site.projectId, site.kbId, site.documentId), cleanup);
      if !cleaned {
        if marker {
          lastError := Some(VectorUnavailable);
        }
        error := Some(VectorUnavailable);
      }
    }

    // ---- drafting -------------------------------------------------------

    /** The seven rows `create_manual_draft` adds. */
    method AddBlankFields()
      modifies this`fields
      ensures fields == BlankDraft() && fields.Keys == FIELD_NAMES
      ensures forall n :: n in fields ==> fields[n] == BLANK_FIELD
    {
      fields := map[];
      for i := 0 to |ALL_NAMES|
        invariant forall n :: n in fields <==> n in ALL_NAMES[..i]
        invariant forall n :: n in fields ==> fields[n] == BLANK_FIELD
      {
        assert ALL_NAMES[..i + 1] == ALL_NAMES[..i] + [ALL_NAMES[i]];
        fields := fields[ALL_NAMES[i] := BLANK_FIELD];
      }
      assert ALL_NAMES[..|ALL_NAMES|] == ALL_NAMES;
      SevenBlankFields(fields);
    }

    /** `create_manual_draft`. */
    method CreateManualDraftRows() returns (error: Option<AppError>)
      modifies this`fields, this`status, this`version
      ensures
        var t := CreateManualDraft(old(View()));
        View() == t.Result(old(View())) && error == (if t.Refused? then Some(t.error) else None)
      ensures Sound(site, old(View())) ==> Sound(site, View()) && (error.None? <==> MayDraft(old(View())))
      ensures error.None? ==> fields.Keys == FIELD_NAMES && forall n :: n in fields ==> fields[n] == FieldValue(NO_VALUE, PendingCheck, None, false, [])
    {
      DraftMadeIff(site, View());
      hide Sound, BlankDraft, MayDraft;
      if !present {
        return Some(ArchiveDocumentNotFound);
      }
      if status != Parsed && status != SuggestionFailed {
        return Some(ManualDraftNotAllowed);
      }
      if fields != map[] && status == Parsed {
        return Some(ManualDraftAlreadyStarted);
      }
      AddBlankFields();
      status := PendingConfirmation;
      version := version + 1;
      error := None;
    }

    /** Every check of `update_field`, on what it reads without a lock. */
    method CheckEdit(e: FieldEdit) returns (ticket: Result<EditTicket, AppError>)
      ensures ticket == ReadForEdit(View(), e)
    {
      hide CanonicalValue, ReviewError;
      if !present {
        return Failure(ArchiveDocumentNotFound);
      }
      if fields == map[] && (status == Parsed || status == SuggestionFailed) {
        return Failure(DraftNotStarted);
      }
      if status !in {PendingConfirmation, PendingReconfirmation, Confirmed} {
        return Failure(FieldEditNotAllowed);
      }
      if e.source == Some(Ai) {
        return Failure(AiSourceForbidden);
      }
      if version != e.expectedVersion {
        return Failure(VersionConflict);
      }
      if e.name !in fields {
        return Failure(DraftNotStarted);
      }
      var value :- CanonicalValue(e.columns, e.name);
      var reviewError := ReviewError(e.name, e.review, value);
      if reviewError.Some? {
        return Failure(reviewError.value);
      }
      if e.evidences != [] && currentSnapshot.None? {
        return Failure(FieldEvidenceSnapshotRequired);
      }
      if e.noSourceEvidence && e.evidences != [] {
        return Failure(NoSourceEvidenceConflict);
      }
      if HasValue(value) && e.evidences == [] && !e.noSourceEvidence {
        return Failure(ManualEvidenceRequired);
      }
      for i := 0 to |e.evidences|
        invariant forall j :: 0 <= j < i ==> !BadLocation(e.evidences[j])
      {
        if e.evidences[i].locationEnd < e.evidences[i].locationStart {
          return Failure(FieldEvidenceLocationInvalid);
        }
        if e.evidences[i].locationType != TextLineRange && e.evidences[i].locationEnd != e.evidences[i].locationStart {
          return Failure(FieldEvidenceLocationInvalid);
        }
      }
      ticket := Success(EditTicket(status, currentSnapshot, value));
    }

    /** The evidence rows of one edited field. */
    method EvidenceRows(snapshotId: Option<nat>, inputs: seq<EvidenceInput>) returns (rows: seq<Evidence>)
      ensures rows == BindEvidences(snapshotId, inputs)
    {
      rows := [];
      if snapshotId.Some? {
        for i := 0 to |inputs|
          invariant |rows| == i
          invariant forall j :: 0 <= j < i ==> rows[j] == Evidence(snapshotId.value, inputs[j])
        {
          rows := rows + [Evidence(snapshotId.value, inputs[i])];
        }
      }
    }

    /** The new value, and leaving CONFIRMED if need be. */
    method SetEditedField(name: FieldName, field: FieldValue, next: ArchiveStatus)
      requires present
      modifies this`fields, this`version, this`status, this`confirmedBy, this`finalHash, this`finalChunkCount
      ensures
        var row := old(CurrentRow());
        var edited := row.(fields := row.fields[name := field], version := row.version + 1);
        View() == old(View()).(row := Some(
          if next == PendingReconfirmation then
            edited.(status := next, confirmedBy := None, finalHash := None, finalChunkCount := 0)
          else edited.(status := next)))
    {
      fields := fields[name := field];
      version, status := version + 1, next;
      if next == PendingReconfirmation {
        confirmedBy, finalHash, finalChunkCount := None, None, 0;
      }
    }

    /** The conditional update of `update_field`. */
    method CommitEdit(e: FieldEdit, t: EditTicket) returns (error: Option<AppError>)
      modifies this
      ensures
        var written := WriteEdit(old(View()), e, t);
        View() == written.Result(old(View())) && error == (if written.Done? then None else Some(written.error))
    {
      hide BindEvidences;
      if !present || version != e.expectedVersion {
        return Some(VersionConflict);
      }
      if e.review == EmptyAccepted && HasValue(t.columns) {
        return Some(FieldUpdateFailed);
      }
      var evidences := EvidenceRows(t.snapshotId, e.evidences);
      SetEditedField(e.name, FieldValue(t.columns, e.review, Some(Manual), e.noSourceEvidence, evidences),
                     if t.status == Confirmed then PendingReconfirmation else t.status);
      audit := audit + [FieldUpdated];
      error := None;
    }

    /** `update_field`. */
    method UpdateField(e: FieldEdit) returns (error: Option<AppError>)
      modifies this
      ensures (View(), error) == EditCall(old(View()), e)
      ensures error.None? ==> present && e.name in fields && EditedAs(e, fields[e.name], old(currentSnapshot))
    {
      EditStores(View(), e);
      hide ReadForEdit, WriteEdit;
      var ticket := CheckEdit(e);
      if ticket.Failure? {
        return Some(ticket.error);
      }
      error := CommitEdit(e, ticket.value);
    }

    /** `_persist_suggestion_draft`. */
    method PersistSuggestionDraft(suggestions: Suggestions, log: seq<AuditKind>)
      requires present
      modifies this`fields, this`status, this`version, this`lastError, this`audit
      ensures View() == PersistDraft(old(View()), old(CurrentRow()), suggestions, log)
    {
      hide SuggestedDraft;
      fields := SuggestedDraft(currentSnapshot, suggestions);
      status := PendingConfirmation;
      version := version + 1;
      lastError := None;
      audit := audit + log;
    }

    /** The model's reply, if there is one, read against the snapshot. */
    method Understand(payload: SnapshotPayload, reply: Option<Reply>) returns (suggestions: Option<Suggestions>)
      ensures suggestions == Understood(Some(payload), reply)
    {
      if reply.None? {
        return None;
      }
      suggestions := ParseSuggestedFields(reply.value, payload);
    }

    /** `_generate_suggestions`. */
    method GenerateSuggestionDraft(retry: bool, reply: Option<Reply>) returns (error: Option<AppError>)
      modifies this
      ensures
        var t := GenerateSuggestions(old(View()), retry, Understood(PayloadIn(old(View())), reply));
        View() == t.Result(old(View())) && error == (if t.Done? then None else Some(t.error))
    {
      hide PersistDraft;
      if !present {
        return Some(ArchiveDocumentNotFound);
      }
      if status != (if retry then SuggestionFailed else Parsed) {
        return Some(if retry then SuggestionRetryNotAllowed else SuggestionNotAllowed);
      }
      if !retry && fields != map[] {
        return Some(SuggestionAlreadyStarted);
      }
      if retry && exists n :: n in fields && fields[n].source == Some(Manual) {
        return Some(SuggestionWouldOverwriteManualDraft);
      }
      if currentSnapshot.None? {
        return Some(SuggestionSnapshotRequired);
      }
      if snapshot.None? || SnapshotFile !in files {
        return Some(SnapshotUnreadable);
      }
      var suggestions := Understand(snapshot.value.payload, reply);
      if suggestions.None? {
        status := SuggestionFailed;
        lastError := Some(SuggestionFailedError);
        return Some(SuggestionFailedError);
      }
      PersistSuggestionDraft(suggestions.value, if retry then [SuggestionRetried] else []);
      error := None;
    }

    /** `regenerate_suggestions`. */
    method RegenerateSuggestionDraft(expectedVersion: nat, reply: Option<Reply>) returns (error: Option<AppError>)
      modifies this
      ensures (View(), error) == RegenerateCall(old(View()), expectedVersion, reply)
    {
      hide PersistDraft, RegenerateAllowed;
      if !present {
        return Some(ArchiveDocumentNotFound);
      }
      if status != PendingConfirmation {
        return Some(SuggestionRegenerateNotAllowed);
      }
      if version != expectedVersion {
        return Some(VersionConflict);
      }
      if !RegenerateAllowed(fields) {
        return Some(SuggestionWouldOverwriteManualDraft);
      }
      if currentSnapshot.None? {
        return Some(SuggestionSnapshotRequired);
      }
      if snapshot.None? || SnapshotFile !in files {
        return Some(SnapshotUnreadable);
      }
      var suggestions := Understand(snapshot.value.payload, reply);
      if suggestions.None? {
        return Some(SuggestionFailedError);
      }
      PersistSuggestionDraft(suggestions.value, [SuggestionRegenerated]);
      error := None;
    }

    // ---- parsing --------------------------------------------------------

    method SetParsed(id: nat, stored: P.Snapshot, log: seq<AuditKind>)
      requires present
      modifies this`files, this`snapshot, this`currentSnapshot, this`status, this`lastError, this`audit
      ensures
        View() == old(View()).(
          row := Some(old(CurrentRow()).(currentSnapshot := Some(id), status := Parsed, lastError := None)),
          snapshot := Some(stored), files := old(files) + {SnapshotFile}, audit := old(audit) + log)
    {
      files := files + {SnapshotFile};
      snapshot := Some(stored);
      currentSnapshot := Some(id);
      status := Parsed;
      lastError := None;
      audit := audit + log;
    }

    /** `_parse_project_document`. */
    method ParseProjectDocument(retry: bool, id: nat, parsed: Option<P.ParsedArchiveDocument>) returns (error: Option<AppError>)
      modifies this
      ensures
        var t := ParseDocument(site, old(View()), retry, id, parsed);
        View() == t.Result(old(View())) && error == (if t.Done? then None else Some(t.error))
      ensures Sound(site, old(View())) ==> Sound(site, View()) && (error.None? <==> MayParse(old(View()), retry) && parsed.Some?)
    {
      ParsedIff(site, View(), retry, id, parsed);
      hide Sound, MayParse;
      if !present {
        return Some(ArchiveDocumentNotFound);
      }
      if status != (if retry then ParseFailed else Uploaded) {
        return Some(ParseNotAllowed);
      }
      if parsed.None? {
        status := ParseFailed;
        lastError := Some(ParseFailedError);
        return Some(ParseFailedError);
      }
      hide P.StoredSnapshot;
      SetParsed(id, P.StoredSnapshot(id, site.documentId, parsed.value), if retry then [ParseRetried] else []);
      error := None;
    }
  }

  lemma SameFiles(a: set<StoredFile>, b: set<StoredFile>)
    requires OriginalFile in a <==> OriginalFile in b
    requires SnapshotFile in a <==> SnapshotFile in b
    ensures a == b
  {
    forall f ensures f in a <==> f in b {
      match f
      case OriginalFile =>
      case SnapshotFile =>
    }
  }

  lemma DraftMadeIff(site: Site, s: Store)
    ensures Sound(site, s) ==> Sound(site, CreateManualDraft(s).Result(s)) && (CreateManualDraft(s).Done? <==> MayDraft(s))
  {
    if Sound(site, s) {
      ManualDraftOutcome(site, s);
    }
  }

  lemma ParsedIff(site: Site, s: Store, retry: bool, id: nat, parsed: Option<P.ParsedArchiveDocument>)
    ensures
      Sound(site, s) ==>
        var t := ParseDocument(site, s, retry, id, parsed);
        Sound(site, t.Result(s)) && (t.Done? <==> MayParse(s, retry) && parsed.Some?)
  {
    if Sound(site, s) {
      ParseOutcome(site, s, retry, id, parsed);
    }
  }

  lemma SevenBlankFields(fields: Fields)
    requires forall n :: n in ALL_NAMES ==> n in fields
    requires forall n :: n in fields ==> fields[n] == BLANK_FIELD
    ensures fields == BlankDraft() && fields.Keys == FIELD_NAMES
  {
    forall n: FieldName ensures n in ALL_NAMES && n in FIELD_NAMES {
      NameListed(n);
      S.EveryName(n);
    }
  }

  lemma UnreadableSnapshot(documentId: Uuid, snapshot: ParsedSnapshot)
    ensures !Acceptable(documentId, snapshot, None)
  {}
}
