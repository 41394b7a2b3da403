/** Confirming, indexing, cancelling and deleting, told by what is in the stores alone:
    which answer the caller gets, and what each store holds afterwards. */
module ServiceAnswers {
  import opened Wrappers
  import opened Text
  import opened FinalChunks
  import P = Parsed
  import opened Archive
  import opened SuggestionReplies
  import opened Transactions
  import opened Lifecycle
  import opened LifecycleInvariant
  import opened LifecycleRecovery
  import opened ServiceCalls

  predicate Busy(ops: seq<Operation>) { exists i :: 0 <= i < |ops| && ops[i].status == Running }

  predicate Mine(site: Site, r: Record) { r.scope.documentId == site.documentId }

  // ---- delete -----------------------------------------------------------

  /** What a delete leaves that was begun and could not be finished: of the document's
      chunks and files what the broken call had not touched, the row as it was but for
      the file's status, and its own operation, blocking, with the last step it reached. */
  lemma DeleteLeaves(site: Site, s: Store, actor: nat, f: DeleteFaults)
    requires StoreOk(site, s) && s.row.Some? && actor == site.ownerId && !Busy(s.ops) && !NothingFails(f)
    ensures
      var after := DeleteCall(site, s, actor, f).0;
      var chunksGone := f.chunks.Completes? && f.firstCheckpoint;
      var filesGone := chunksGone && f.files.Completes? && f.secondCheckpoint;
      && (forall id :: id in after.chroma <==>
            id in s.chroma && !(Mine(site, s.chroma[id]) && (f.chunks.Completes? || id in f.chunks.touched)))
      && (forall id :: id in after.chroma ==> after.chroma[id] == s.chroma[id])
      && (forall file :: file in after.files <==>
            file in s.files && !(chunksGone && (f.files.Completes? || file in f.files.touched)))
      && after.row == Some(s.row.value.(fileStatus := if f.marker then DeleteFailed else Deleting))
      && after.snapshot == s.snapshot && after.audit == s.audit
      && exists op: nat, attempt ::
           && DeletesAs(s.ops, after.ops, op, attempt)
           && after.ops[op].status == (if f.marker then Failed else Running)
           && after.ops[op].step == (if filesGone then Some(FileDelete) else if chunksGone then Some(ChromaDelete)
                                     else if op < |s.ops| then s.ops[op].step else None)
  {
    hide Acceptable, Chunks, ConfirmationError;
    var b := BeginDelete(site, s, actor);
    BeginDeleteIffMay(site, s, actor);
    var op, s1 := b.value.op, b.value.after;
    BegunAs(site, s, actor);
    hide BeginDelete;
    PurgedIs(site, s, f.chunks);
    var s2 := s1.(chroma := Purged(s1.chroma, DeleteScope(site, actor), f.chunks));
    var s3 := Checkpoint(s2, op, ChromaDelete);
    RemovedIs(site, s, f.files);
    var s4 := s3.(files := RemoveFiles(s3.files, s3.snapshot.Some?, f.files));
    hide Purged, RemoveFiles, StoreOk;
    var after := DeleteCall(site, s, actor, f).0;
    assert DeletesAs(s.ops, after.ops, op, after.ops[op].attempt);
  }

  /** The operation at `op` is the document's delete: a new one, or the failed one taken up
      again; every other operation stays as it was. */
  ghost predicate DeletesAs(before: seq<Operation>, after: seq<Operation>, op: nat, attempt: nat) {
    && op < |after| && after[op].kind == Delete && after[op].blocking && after[op].attempt == attempt
    && (if forall i :: 0 <= i < |before| ==> before[i].kind != Delete then
          op == |before| && |after| == |before| + 1 && attempt == 1
        else
          op < |before| == |after| && before[op].kind == Delete && before[op].status == Failed && attempt == before[op].attempt + 1)
    && forall i :: 0 <= i < |before| && i != op ==> after[i] == before[i]
  }

  lemma BegunAs(site: Site, s: Store, actor: nat)
    requires StoreOk(site, s) && BeginDelete(site, s, actor).Success?
    ensures
      var b := BeginDelete(site, s, actor).value;
      && b.op < |b.after.ops| && DeletesAs(s.ops, b.after.ops, b.op, b.after.ops[b.op].attempt)
      && b.after.ops[b.op].status == Running
      && b.after.ops[b.op].step == (if b.op < |s.ops| then s.ops[b.op].step else None)
      && b.after == s.(row := Some(s.row.value.(fileStatus := Deleting)), ops := b.after.ops) && s.row.Some?
  {
    hide SnapshotOk, RecordsOk, Legitimate, AuditOk;
  }

  lemma PurgedIs(site: Site, s: Store, call: Call<ChunkId>)
    requires StoreOk(site, s)
    ensures
      var purged := Purged(s.chroma, DeleteScope(site, site.ownerId), call);
      && (forall id :: id in purged <==> id in s.chroma && !(Mine(site, s.chroma[id]) && (call.Completes? || id in call.touched)))
      && (forall id :: id in purged ==> purged[id] == s.chroma[id])
    ensures Purged(s.chroma, IndexScope(site), call) == Purged(s.chroma, DeleteScope(site, site.ownerId), call)
  {
    forall id | id in s.chroma
      ensures (s.chroma[id].scope == DeleteScope(site, site.ownerId) <==> Mine(site, s.chroma[id]))
              && (s.chroma[id].scope == IndexScope(site) <==> Mine(site, s.chroma[id]))
    {
      if Mine(site, s.chroma[id]) {
        assert BuiltRecord(site, s, id, s.chroma[id]);
      }
    }
    hide StoreOk;
  }

  lemma RemovedIs(site: Site, s: Store, call: Call<StoredFile>)
    requires StoreOk(site, s) && s.row.Some?
    ensures
      forall file :: file in RemoveFiles(s.files, s.snapshot.Some?, call) <==>
                     file in s.files && !(call.Completes? || file in call.touched)
  {
    forall file ensures file in RemoveFiles(s.files, s.snapshot.Some?, call) <==>
                        file in s.files && !(call.Completes? || file in call.touched)
    {
      match file
      case OriginalFile =>
      case SnapshotFile =>
    }
  }

  /** What a delete leaves that completes: every other document's records, and one entry
      more in the audit trail. */
  lemma DeleteLeavesTheRest(site: Site, s: Store, actor: nat, f: DeleteFaults)
    requires StoreOk(site, s) && s.row.Some? && actor == site.ownerId && !Busy(s.ops) && NothingFails(f)
    ensures
      var after := DeleteCall(site, s, actor, f).0;
      && after == Store(None, None, [], s.audit + [DocumentDeleted], after.chroma, {})
      && (forall id :: id in after.chroma <==> id in s.chroma && !Mine(site, s.chroma[id]))
      && (forall id :: id in after.chroma ==> after.chroma[id] == s.chroma[id])
  {
    hide Acceptable, Chunks, ConfirmationError;
    BeginDeleteIffMay(site, s, actor);
    BegunAs(site, s, actor);
    hide BeginDelete;
    PurgedIs(site, s, f.chunks);
    RemovedIs(site, s, f.files);
    hide Purged, RemoveFiles, StoreOk;
    assert RemoveFilesAll(s, f.files);
  }

  ghost predicate RemoveFilesAll(s: Store, call: Call<StoredFile>) {
    call.Completes? ==> RemoveFiles(s.files, s.snapshot.Some?, call) == {}
  }

  // ---- confirmation and INDEX -------------------------------------------

  /** The field's own column holds something. */
  predicate Filled(name: FieldName, c: Columns) {
    match name
    case DocumentDate => c.date.Some?
    case Keywords => c.words.Some? && |c.words.value| > 0
    case _ => c.text.Some? && !AllSpace(c.text.value)
  }

  /** All seven fields have been looked at, and title and type are confirmed. */
  predicate LookedAt(fields: Fields) {
    && (forall n: FieldName :: n in fields && fields[n].review != PendingCheck)
    && (forall n :: n in [Title, DocumentType] ==> n in fields && fields[n].review == ValueConfirmed && Filled(n, fields[n].columns))
  }

  /** Each value of the model has evidence in this snapshot. */
  predicate Evidenced(fields: Fields, snapshotId: nat) {
    forall n :: n in fields && fields[n].source == Some(Ai) && Filled(n, fields[n].columns) ==>
                  exists i :: 0 <= i < |fields[n].evidences| && fields[n].evidences[i].snapshotId == snapshotId
  }

  lemma FilledIff(name: FieldName, c: Columns)
    ensures NonEmpty(name, c) <==> Filled(name, c)
  {
    hide Strip;
    if c.text.Some? {
      StripTrims(c.text.value);
    }
    match name
    case Title => case DocumentType => case DocumentDate => case AuthoringOrganization =>
    case VersionNumber => case ProjectStage => case Keywords =>
  }

  lemma ErrorsOfFields(fields: Fields, snapshotId: nat)
    ensures
      ConfirmationError(fields, snapshotId) ==
      (if !LookedAt(fields) then Some(ConfirmNotAllowed)
       else if !Evidenced(fields, snapshotId) then Some(AiFieldEvidenceRequired)
       else None)
  {
    forall n: FieldName ensures n in FIELD_NAMES && n in [Title, DocumentType, DocumentDate, AuthoringOrganization, VersionNumber, ProjectStage, Keywords] {
      OneOfSeven(n);
    }
    forall n, c ensures NonEmpty(n, c) <==> Filled(n, c) {
      FilledIff(n, c);
    }
    hide NonEmpty, Filled;
    assert forall n :: n in [Title, DocumentType] <==> n == Title || n == DocumentType;
    assert FIELD_NAMES <= fields.Keys <==> forall n: FieldName :: n in fields;
    if FIELD_NAMES <= fields.Keys {
      assert LookedAt(fields) <==>
             && !(exists n :: n in fields && fields[n].review == PendingCheck)
             && ConfirmedWithValue(fields, Title) && ConfirmedWithValue(fields, DocumentType);
    }
    if LookedAt(fields) {
      assert forall n :: n in fields ==> (Backed(n, fields[n], snapshotId) <==>
               (fields[n].source == Some(Ai) && Filled(n, fields[n].columns) ==>
                  exists i :: 0 <= i < |fields[n].evidences| && fields[n].evidences[i].snapshotId == snapshotId));
    }
  }

  lemma OneOfSeven(n: FieldName)
    ensures n in FIELD_NAMES
    ensures n in [Title, DocumentType, DocumentDate, AuthoringOrganization, VersionNumber, ProjectStage, Keywords]
  {
    var names := [Title, DocumentType, DocumentDate, AuthoringOrganization, VersionNumber, ProjectStage, Keywords];
    match n
    case Title => assert names[0] == n;
    case DocumentType => assert names[1] == n;
    case DocumentDate => assert names[2] == n;
    case AuthoringOrganization => assert names[3] == n;
    case VersionNumber => assert names[4] == n;
    case ProjectStage => assert names[5] == n;
    case Keywords => assert names[6] == n;
  }

  /** The snapshot file is there, makes chunks, and no two of them are the same. */
  predicate Indexable(site: Site, s: Store) {
    && s.snapshot.Some? && SnapshotFile in s.files
    && MakesChunks(site.documentId, s.snapshot.value.row, Some(s.snapshot.value.payload))
    && DistinctFragments(s.snapshot.value.payload)
  }

  lemma IndexableIff(site: Site, s: Store)
    requires s.snapshot.Some?
    ensures ChunksToIndex(site, s, s.snapshot.value).Some? <==> Indexable(site, s)
    ensures Indexable(site, s) ==>
              && Acceptable(site.documentId, s.snapshot.value.row, Some(s.snapshot.value.payload))
              && ChunksToIndex(site, s, s.snapshot.value).value == Chunks(site.documentId, s.snapshot.value.row, s.snapshot.value.payload)
  {
    var snapshot := s.snapshot.value;
    ChunksSay(site.documentId, snapshot.row, Some(snapshot.payload));
    if Acceptable(site.documentId, snapshot.row, Some(snapshot.payload)) {
      ChunkIdsDistinctIffFragmentsDistinct(site.documentId, snapshot.row, snapshot.payload);
    }
    hide MakesChunks, Acceptable, Chunks, DistinctIds, DistinctFragments;
  }

  /** Which answer a confirmation gets, INDEX included. */
  lemma ConfirmAnswers(site: Site, s: Store, v: nat, actor: nat, f: IndexFaults)
    requires StoreOk(site, s)
    ensures
      var error := ConfirmCall(site, s, v, actor, f).1;
      var found := s.row.Some?;
      var current := found && s.row.value.version == v;
      var confirmed := current && s.row.value.status == Confirmed;
      var pending := current && s.row.value.status in {PendingConfirmation, PendingReconfirmation} && s.row.value.currentSnapshot.Some?;
      var looked := pending && LookedAt(s.row.value.fields);
      var promoted := looked && Evidenced(s.row.value.fields, s.row.value.currentSnapshot.value);
      var indexes := promoted || (confirmed && s.row.value.finalChunkCount == 0);
      var filed := indexes && site.projectKbId == site.kbId;
      var free := filed && !Busy(s.ops);
      var indexed := free && Indexable(site, s) && f.write.Completes? && f.commits;
      && (error == Some(ArchiveDocumentNotFound) <==> !found)
      && (error == Some(VersionConflict) <==> found && !current)
      && (error == Some(ConfirmNotAllowed) <==> current && !confirmed && !looked)
      && (error == Some(AiFieldEvidenceRequired) <==> looked && !promoted)
      && (error == Some(ProjectNotFound) <==> indexes && !filed)
      && (error == Some(OperationInProgress) <==> filed && !free)
      && (error == Some(IndexFailed) <==> free && !indexed)
      && (error.None? <==> indexed || (confirmed && s.row.value.finalChunkCount > 0))
  {
    hide OpsOk, RecordsOk, AuditOk, ConfirmationError, Acceptable, Chunks, Upserted, Indexable, LookedAt, Evidenced, Touched;
    if s.row.Some? && s.row.value.currentSnapshot.Some? {
      ErrorsOfFields(s.row.value.fields, s.row.value.currentSnapshot.value);
    }
    if s.snapshot.Some? {
      IndexableIff(site, s);
    }
    hide ChunksToIndex;
    ConfirmParts(site, s, v, actor);
  }

  /** The committing part of a confirmation. */
  lemma ConfirmParts(site: Site, s: Store, v: nat, actor: nat)
    requires StoreOk(site, s)
    ensures
      var c := ConfirmDocument(site, s, v, actor);
      && (c.Success? && c.value.Promoted? ==>
            && s.row.Some? && s.snapshot.Some?
            && c.value.after ==
               s.(row := Some(s.row.value.(status := Confirmed, confirmedBy := Some(actor), finalHash := Some(s.snapshot.value.row.snapshotHash),
                                           finalChunkCount := 0, lastError := None, version := v + 1)),
                  audit := s.audit + [ArchiveConfirmed]))
  {
    hide OpsOk, RecordsOk, AuditOk, ConfirmationError;
  }

  /** The caller saw the document as it waits to be confirmed, and every check passes. */
  predicate Promotable(s: Store, v: nat) {
    && s.row.Some? && s.row.value.version == v && s.row.value.status in {PendingConfirmation, PendingReconfirmation}
    && s.row.value.currentSnapshot.Some?
    && LookedAt(s.row.value.fields) && Evidenced(s.row.value.fields, s.row.value.currentSnapshot.value)
  }

  /** It is CONFIRMED now, but has never been indexed. */
  predicate Unindexed(s: Store, v: nat) {
    s.row.Some? && s.row.value.version == v && s.row.value.status == Confirmed && s.row.value.finalChunkCount == 0
  }

  /** The record is the document's, filed where its project is, and says what the
      fragment says. */
  ghost predicate RecordOf(site: Site, snapshot: P.Snapshot, f: PayloadFragment, id: ChunkId, r: Record) {
    && r.scope.userId == site.ownerId && r.scope.projectId == site.projectId && r.scope.kbId == site.kbId
    && r.scope.documentId == site.documentId && r.filename == site.filename
    && r.chunk.chunkId == id && MadeFrom(r.chunk, site.documentId, snapshot.row, f)
  }

  /** Of the snapshot's fragments those the call wrote have their record, all of them if
      it completed; nothing else is new or different, and nothing is gone. */
  ghost predicate Wrote(site: Site, snapshot: P.Snapshot, before: Chroma, after: Chroma, call: Call<ChunkId>, ids: seq<ChunkId>) {
    && |ids| == |snapshot.payload.fragments|
    && (forall i :: 0 <= i < |ids| && (call.Completes? || ids[i] in call.touched) ==>
          ids[i] in after && RecordOf(site, snapshot, snapshot.payload.fragments[i], ids[i], after[ids[i]]))
    && (forall id :: id in before ==> id in after)
    && (forall id :: id in after && !(id in ids && (call.Completes? || id in call.touched)) ==> id in before && after[id] == before[id])
  }

  lemma {:induction false} TouchedAre(chunks: seq<FinalChunk>, touched: set<ChunkId>)
    ensures forall c :: c in Touched(chunks, touched) <==> c in chunks && c.chunkId in touched
    decreases |chunks|
  {
    if chunks != [] {
      var n := |chunks| - 1;
      TouchedAre(chunks[..n], touched);
      assert chunks == chunks[..n] + [chunks[n]];
    }
  }

  function IdsOf(chunks: seq<FinalChunk>): seq<ChunkId> {
    seq(|chunks|, i requires 0 <= i < |chunks| => chunks[i].chunkId)
  }

  lemma UpsertIs(site: Site, chroma: Chroma, chunks: seq<FinalChunk>, written: seq<FinalChunk>)
    requires DistinctIds(chunks) && forall c :: c in written ==> c in chunks
    ensures
      var after := Upserted(site, chroma, written);
      && (forall i :: 0 <= i < |chunks| && chunks[i] in written ==>
            chunks[i].chunkId in after && after[chunks[i].chunkId] == RecordFor(site, chunks[i]))
      && (forall id :: id in chroma ==> id in after)
      && (forall id :: id in after && id !in IdsOf(written) ==> id in chroma && after[id] == chroma[id])
  {
    var after := Upserted(site, chroma, written);
    forall i | 0 <= i < |chunks| && chunks[i] in written
      ensures chunks[i].chunkId in after && after[chunks[i].chunkId] == RecordFor(site, chunks[i])
    {
      forall j | 0 <= j < |written| && written[j].chunkId == chunks[i].chunkId ensures written[j] == chunks[i] {
        assert written[j] in chunks;
        var k :| 0 <= k < |chunks| && chunks[k] == written[j];
      }
      UpsertStores(site, chroma, written, chunks[i]);
    }
    hide Upserted, DistinctIds;
    forall id ensures (id in chroma ==> id in after) && (id in after && id !in IdsOf(written) ==> id in chroma && after[id] == chroma[id]) {
      UpsertedRecords(site, chroma, written, id);
      forall j | 0 <= j < |written| ensures written[j].chunkId in IdsOf(written) {
        assert IdsOf(written)[j] == written[j].chunkId;
      }
    }
  }

  lemma WrittenIds(chunks: seq<FinalChunk>, touched: set<ChunkId>, id: ChunkId)
    requires id in IdsOf(Touched(chunks, touched))
    ensures id in IdsOf(chunks) && id in touched
  {
    TouchedAre(chunks, touched);
    var t := Touched(chunks, touched);
    var j :| 0 <= j < |IdsOf(t)| && IdsOf(t)[j] == id;
    assert t[j] in t;
    var i :| 0 <= i < |chunks| && chunks[i] == t[j];
    assert IdsOf(chunks)[i] == id;
  }

  lemma WrittenAre(site: Site, s: Store, snapshot: P.Snapshot, call: Call<ChunkId>)
    requires s.snapshot == Some(snapshot) && Indexable(site, s)
    ensures exists ids :: Wrote(site, snapshot, s.chroma, WriteIndex(site, s, snapshot, call).0.chroma, call, ids)
    ensures WriteIndex(site, s, snapshot, call).0 == s.(chroma := WriteIndex(site, s, snapshot, call).0.chroma)
    ensures WriteIndex(site, s, snapshot, call).1 ==
            if call.Completes? then Some(|snapshot.payload.fragments|) else None
  {
    assert MakesChunks(site.documentId, snapshot.row, Some(snapshot.payload)) && DistinctFragments(snapshot.payload);
    hide *;
    IndexableIff(site, s);
    ChunksSay(site.documentId, snapshot.row, Some(snapshot.payload));
    ChunkIdsDistinctIffFragmentsDistinct(site.documentId, snapshot.row, snapshot.payload);
    var chunks := Chunks(site.documentId, snapshot.row, snapshot.payload);
    var written := if call.Completes? then chunks else Touched(chunks, call.touched);
    if call.Breaks? {
      TouchedAre(chunks, call.touched);
    }
    UpsertIs(site, s.chroma, chunks, written);
    WroteThem(site, snapshot, s.chroma, Upserted(site, s.chroma, written), call, chunks, written);
    WriteIndexIs(site, s, snapshot, call);
  }

  lemma WriteIndexIs(site: Site, s: Store, snapshot: P.Snapshot, call: Call<ChunkId>)
    requires ChunksToIndex(site, s, snapshot).Some?
    ensures
      var chunks := ChunksToIndex(site, s, snapshot).value;
      var written := if call.Completes? then chunks else Touched(chunks, call.touched);
      WriteIndex(site, s, snapshot, call) ==
      (s.(chroma := Upserted(site, s.chroma, written)), if call.Completes? then Some(|chunks|) else None)
  {
    hide ChunksToIndex, Upserted, Touched;
  }

  lemma WroteThem(
    site: Site, snapshot: P.Snapshot, before: Chroma, after: Chroma, call: Call<ChunkId>, chunks: seq<FinalChunk>, written: seq<FinalChunk>)
    requires |chunks| == |snapshot.payload.fragments|
    requires forall i :: 0 <= i < |chunks| ==> MadeFrom(chunks[i], site.documentId, snapshot.row, snapshot.payload.fragments[i])
    requires written == if call.Completes? then chunks else Touched(chunks, call.touched)
    requires forall i :: 0 <= i < |chunks| && chunks[i] in written ==>
               chunks[i].chunkId in after && after[chunks[i].chunkId] == RecordFor(site, chunks[i])
    requires forall id :: id in before ==> id in after
    requires forall id :: id in after && id !in IdsOf(written) ==> id in before && after[id] == before[id]
    ensures Wrote(site, snapshot, before, after, call, IdsOf(chunks))
  {
    hide *;
    IdsAre(chunks);
    forall i | 0 <= i < |chunks| && (call.Completes? || chunks[i].chunkId in call.touched) ensures chunks[i] in written {
      IsWritten(chunks, call, i);
    }
    forall i | 0 <= i < |chunks| && chunks[i] in written
      ensures RecordOf(site, snapshot, snapshot.payload.fragments[i], chunks[i].chunkId, after[chunks[i].chunkId])
    {
      RecordIs(site, snapshot, snapshot.payload.fragments[i], chunks[i]);
    }
    forall id | id in IdsOf(written) ensures id in IdsOf(chunks) && (call.Completes? || id in call.touched) {
      if call.Breaks? {
        WrittenIds(chunks, call.touched, id);
      }
    }
    WroteIf(site, snapshot, before, after, call, IdsOf(chunks));
  }

  lemma IsWritten(chunks: seq<FinalChunk>, call: Call<ChunkId>, i: nat)
    requires i < |chunks| && (call.Completes? || chunks[i].chunkId in call.touched)
    ensures chunks[i] in if call.Completes? then chunks else Touched(chunks, call.touched)
  {
    if call.Breaks? {
      TouchedAre(chunks, call.touched);
    }
  }

  lemma IdsAre(chunks: seq<FinalChunk>)
    ensures |IdsOf(chunks)| == |chunks| && forall i :: 0 <= i < |chunks| ==> IdsOf(chunks)[i] == chunks[i].chunkId
  {}

  lemma WroteIf(site: Site, snapshot: P.Snapshot, before: Chroma, after: Chroma, call: Call<ChunkId>, ids: seq<ChunkId>)
    requires |ids| == |snapshot.payload.fragments|
    requires forall i :: 0 <= i < |ids| && (call.Completes? || ids[i] in call.touched) ==>
               ids[i] in after && RecordOf(site, snapshot, snapshot.payload.fragments[i], ids[i], after[ids[i]])
    requires forall id :: id in before ==> id in after
    requires forall id :: id in after && !(id in ids && (call.Completes? || id in call.touched)) ==> id in before && after[id] == before[id]
    ensures Wrote(site, snapshot, before, after, call, ids)
  {
    hide RecordOf;
  }

  lemma RecordIs(site: Site, snapshot: P.Snapshot, f: PayloadFragment, c: FinalChunk)
    requires MadeFrom(c, site.documentId, snapshot.row, f)
    ensures RecordOf(site, snapshot, f, c.chunkId, RecordFor(site, c))
  {
    hide MadeFrom;
  }

  /** The INDEX operation comes last; it counts the attempts. */
  ghost predicate IndexesAs(before: seq<Operation>, after: seq<Operation>, status: OperationStatus, step: OperationStep) {
    && |after| == |before| + 1 && after[..|before|] == before
    && after[|before|].kind == Index && after[|before|].status == status && !after[|before|].blocking
    && after[|before|].step == Some(step)
    && ((forall i :: 0 <= i < |before| ==> before[i].kind != Index) ==> after[|before|].attempt == 1)
    && (forall i :: 0 <= i < |before| && before[i].kind == Index && (forall j :: i < j < |before| ==> before[j].kind != Index) ==>
          after[|before|].attempt == before[i].attempt + 1)
  }

  lemma {:induction false} LatestIndexIs(ops: seq<Operation>)
    ensures LatestIndex(ops).None? ==> forall i :: 0 <= i < |ops| ==> ops[i].kind != Index
    ensures LatestIndex(ops).Some? ==> forall j :: LatestIndex(ops).value < j < |ops| ==> ops[j].kind != Index
  {
    if ops != [] && ops[|ops| - 1].kind != Index {
      LatestIndexIs(ops[..|ops| - 1]);
    }
  }

  /** INDEX of a CONFIRMED document that has no chunk count. */
  lemma IndexLeaves(site: Site, s: Store, f: IndexFaults)
    requires SnapshotOk(site, s) && s.row.Some? && s.row.value.status == Confirmed && s.row.value.finalChunkCount == 0
    requires s.snapshot.Some?
    ensures
      var after := IndexCall(site, s, f).0;
      var free := site.projectKbId == site.kbId && !Busy(s.ops);
      var indexed := free && Indexable(site, s) && f.write.Completes? && f.commits;
      var row := s.row.value;
      && after.snapshot == s.snapshot && after.files == s.files && after.audit == s.audit
      && after.row ==
         Some(if indexed then row.(finalHash := Some(s.snapshot.value.row.snapshotHash),
                                   finalChunkCount := |s.snapshot.value.payload.fragments|, lastError := None)
              else if free && f.marker then row.(lastError := Some(IndexFailed))
              else row)
      && (if free then IndexesAs(s.ops, after.ops, if indexed then Succeeded else if f.marker then Failed else Running,
                                 if indexed then ChromaUpsert else IndexStarted)
          else after.ops == s.ops)
      && (if free && Indexable(site, s) then
            exists ids :: Wrote(site, s.snapshot.value, s.chroma, after.chroma, f.write, ids)
          else after.chroma == s.chroma)
  {
    LatestIndexIs(s.ops);
    var snapshot := s.snapshot.value;
    IndexableIff(site, s);
    hide LatestIndex, Upserted, Acceptable, Chunks, MakesChunks, DistinctFragments;
    var begin := BeginIndex(site, s);
    if begin.Success? && begin.value.Begun? {
      var s1 := begin.value.after;
      assert IndexesAs(s.ops, s1.ops, Running, IndexStarted);
      IndexableIff(site, s1);
      assert Indexable(site, s1) <==> Indexable(site, s);
      hide ChunksToIndex;
      if Indexable(site, s) {
        WrittenAre(site, s1, snapshot, f.write);
      }
      hide Indexable, Wrote, IndexesAs;
      IndexEnds(site, s, s1, f);
    }
  }

  lemma IndexEnds(site: Site, s: Store, s1: Store, f: IndexFaults)
    requires s.row.Some? && s.snapshot.Some? && |s1.ops| == |s.ops| + 1 && IndexesAs(s.ops, s1.ops, Running, IndexStarted)
    requires BeginIndex(site, s) == Success(Begun(s1, |s.ops|, s.snapshot.value)) && s1 == s.(ops := s1.ops)
    ensures
      var (s2, count) := WriteIndex(site, s1, s.snapshot.value, f.write);
      var after := IndexCall(site, s, f).0;
      var indexed := count.Some? && f.commits;
      && after.chroma == s2.chroma && after.snapshot == s.snapshot && after.files == s.files && after.audit == s.audit
      && after.row ==
         Some(if indexed then s.row.value.(finalHash := Some(s.snapshot.value.row.snapshotHash), finalChunkCount := count.value, lastError := None)
              else if f.marker then s.row.value.(lastError := Some(IndexFailed))
              else s.row.value)
      && IndexesAs(s.ops, after.ops, if indexed then Succeeded else if f.marker then Failed else Running,
                   if indexed then ChromaUpsert else IndexStarted)
  {
    hide BeginIndex, ChunksToIndex, Upserted, Touched;
    var after := IndexCall(site, s, f).0;
    assert after.ops[..|s.ops|] == s1.ops[..|s.ops|];
  }

  /** What a confirmation leaves, INDEX included: who confirmed which snapshot, one audit
      entry for a promotion, one INDEX operation, and the chunks that were written. */
  lemma ConfirmLeaves(site: Site, s: Store, v: nat, actor: nat, f: IndexFaults)
    requires StoreOk(site, s)
    ensures
      var after := ConfirmCall(site, s, v, actor, f).0;
      && (!Promotable(s, v) && !Unindexed(s, v) ==> after == s)
      && (Promotable(s, v) || Unindexed(s, v) ==>
            && s.snapshot.Some?
            && var snapshot := s.snapshot.value;
               var free := site.projectKbId == site.kbId && !Busy(s.ops);
               var indexed := free && Indexable(site, s) && f.write.Completes? && f.commits;
               var row :=
                 if Promotable(s, v) then
                   s.row.value.(status := Confirmed, confirmedBy := Some(actor), finalHash := Some(snapshot.row.snapshotHash),
                                finalChunkCount := 0, lastError := None, version := v + 1)
                 else s.row.value;
               && after.snapshot == s.snapshot && after.files == s.files
               && after.audit == s.audit + (if Promotable(s, v) then [ArchiveConfirmed] else [])
               && after.row ==
                  Some(if indexed then row.(finalHash := Some(snapshot.row.snapshotHash),
                                            finalChunkCount := |snapshot.payload.fragments|, lastError := None)
                       else if free && f.marker then row.(lastError := Some(IndexFailed))
                       else row)
               && (if free then IndexesAs(s.ops, after.ops, if indexed then Succeeded else if f.marker then Failed else Running,
                                          if indexed then ChromaUpsert else IndexStarted)
                   else after.ops == s.ops)
               && (if free && Indexable(site, s) then
                     exists ids :: Wrote(site, snapshot, s.chroma, after.chroma, f.write, ids)
                   else after.chroma == s.chroma))
  {
    hide OpsOk, RecordsOk, AuditOk, ConfirmationError, LookedAt, Evidenced, IndexCall, IndexesAs, Wrote, Indexable, Busy;
    if s.row.Some? && s.row.value.currentSnapshot.Some? {
      ErrorsOfFields(s.row.value.fields, s.row.value.currentSnapshot.value);
    }
    ConfirmParts(site, s, v, actor);
    if Promotable(s, v) || Unindexed(s, v) {
      var c := ConfirmDocument(site, s, v, actor);
      var s1 := if Promotable(s, v) then c.value.after else s;
      SameIndexable(site, s, s1);
      IndexLeaves(site, s1, f);
    }
  }

  lemma SameIndexable(site: Site, s: Store, s': Store)
    ensures s'.snapshot == s.snapshot && s'.files == s.files ==> (Indexable(site, s') <==> Indexable(site, s))
  {}

  // ---- cancellation -----------------------------------------------------

  /** Which answer a cancellation gets, and what it leaves: a document without
      confirmation, hash and count, and its chunks gone, all of them if the clean-up
      completed. */
  lemma CancelAnswers(site: Site, s: Store, v: nat, cleanup: Call<ChunkId>, marker: bool)
    requires StoreOk(site, s)
    ensures
      var (after, error) := CancelCall(site, s, v, cleanup, marker);
      var found := s.row.Some?;
      var current := found && s.row.value.version == v;
      var confirmed := current && s.row.value.status == Confirmed;
      var filed := confirmed && site.projectKbId == site.kbId;
      && (error == Some(ArchiveDocumentNotFound) <==> !found)
      && (error == Some(VersionConflict) <==> found && !current)
      && (error == Some(CancelConfirmationNotAllowed) <==> current && !confirmed)
      && (error == Some(ProjectNotFound) <==> confirmed && !filed)
      && (error == Some(VectorUnavailable) <==> filed && cleanup.Breaks?)
      && (error.None? <==> filed && cleanup.Completes?)
      && (!filed ==> after == s)
      && (filed ==>
            && after.row ==
               Some(s.row.value.(status := PendingReconfirmation, confirmedBy := None, finalHash := None, finalChunkCount := 0,
                                 lastError := if cleanup.Breaks? && marker then Some(VectorUnavailable) else None, version := v + 1))
            && after == s.(row := after.row, chroma := after.chroma, audit := s.audit + [ConfirmationCancelled])
            && (forall id :: id in after.chroma <==>
                  id in s.chroma && !(Mine(site, s.chroma[id]) && (cleanup.Completes? || id in cleanup.touched)))
            && (forall id :: id in after.chroma ==> after.chroma[id] == s.chroma[id]))
  {
    PurgedIs(site, s, cleanup);
    hide StoreOk, Purged, Mine;
  }

  // ---- parsing and drafts -----------------------------------------------

  /** The snapshot row and its file hold what the parser returned, fragment by fragment. */
  predicate Stores(snapshot: P.Snapshot, site: Site, id: nat, parsed: P.ParsedArchiveDocument) {
    && snapshot.row == ParsedSnapshot(id, site.documentId, parsed.snapshotHash, parsed.parserVersion, |parsed.fragments|)
    && snapshot.payload.documentId == site.documentId && snapshot.payload.snapshotHash == parsed.snapshotHash
    && snapshot.payload.parserVersion == parsed.parserVersion
    && |snapshot.payload.fragments| == |parsed.fragments|
    && forall i :: 0 <= i < |parsed.fragments| ==>
                     var f, g := snapshot.payload.fragments[i], parsed.fragments[i];
                     && f.locationType == Some(g.locationType)
                     && f.locationStart == Some(g.locationStart) && f.locationEnd == Some(g.locationEnd)
                     && f.content == Some(g.content) && f.anchorText == Some(g.anchorText)
  }

  /** Which answer parsing gets, and what it leaves. */
  lemma ParseAnswers(site: Site, s: Store, retry: bool, id: nat, parsed: Option<P.ParsedArchiveDocument>)
    ensures
      var t := ParseDocument(site, s, retry, id, parsed);
      var after := t.Result(s);
      var found := s.row.Some?;
      var waiting := found && s.row.value.status == (if retry then ParseFailed else Uploaded);
      && (t == Refused(ArchiveDocumentNotFound) <==> !found)
      && (t == Refused(ParseNotAllowed) <==> found && !waiting)
      && (t.Recorded? <==> waiting && parsed.None?) && (t.Recorded? ==> t.error == ParseFailedError)
      && (t.Done? <==> waiting && parsed.Some?)
      && (t.Refused? ==> after == s)
      && (t.Recorded? ==> after == s.(row := Some(s.row.value.(status := ParseFailed, lastError := Some(ParseFailedError)))))
      && (t.Done? ==>
            && after.row == Some(s.row.value.(status := Parsed, currentSnapshot := Some(id), lastError := None))
            && after.snapshot.Some? && Stores(after.snapshot.value, site, id, parsed.value)
            && after == s.(row := after.row, snapshot := after.snapshot, files := s.files + {SnapshotFile},
                           audit := s.audit + if retry then [ParseRetried] else []))
  {}

  /** Which answer a manual draft gets, and what it leaves. */
  lemma DraftAnswers(s: Store)
    ensures
      var t := CreateManualDraft(s);
      var after := t.Result(s);
      var found := s.row.Some?;
      var allowed := found && s.row.value.status in {Parsed, SuggestionFailed};
      var clear := allowed && (s.row.value.status == Parsed ==> s.row.value.fields == map[]);
      && (t == Refused(ArchiveDocumentNotFound) <==> !found)
      && (t == Refused(ManualDraftNotAllowed) <==> found && !allowed)
      && (t == Refused(ManualDraftAlreadyStarted) <==> allowed && !clear)
      && (t.Done? <==> clear) && (!t.Done? ==> t.Refused? && after == s)
      && (t.Done? ==>
            && after.row.Some? && after == s.(row := after.row)
            && after.row.value == s.row.value.(status := PendingConfirmation, version := s.row.value.version + 1, fields := after.row.value.fields)
            && forall n: FieldName ::
                 n in after.row.value.fields
                 && after.row.value.fields[n] == FieldValue(Columns(None, None, None), PendingCheck, None, false, []))
  {
    forall n: FieldName ensures n in FIELD_NAMES {
      OneOfSeven(n);
    }
  }

  /** Seven unchecked fields: each suggested one with its columns, as the model's, and its
      evidence in this snapshot; the others blank. */
  predicate Proposed(fields: Fields, suggestions: Suggestions, snapshotId: nat) {
    forall n: FieldName ::
      && n in fields
      && (if n in suggestions then
            && fields[n] == FieldValue(suggestions[n].columns, PendingCheck, Some(Ai), false, fields[n].evidences)
            && |fields[n].evidences| == |suggestions[n].evidences|
            && forall i :: 0 <= i < |fields[n].evidences| ==> fields[n].evidences[i] == Evidence(snapshotId, suggestions[n].evidences[i])
          else fields[n] == FieldValue(Columns(None, None, None), PendingCheck, None, false, []))
  }

  lemma DraftIsProposed(s: Store, row: Row, suggestions: Suggestions, audit: seq<AuditKind>)
    requires row.currentSnapshot.Some?
    ensures
      var after := PersistDraft(s, row, suggestions, audit);
      && after.row.Some? && Proposed(after.row.value.fields, suggestions, row.currentSnapshot.value)
      && after.row.value == row.(status := PendingConfirmation, version := row.version + 1, lastError := None, fields := after.row.value.fields)
      && after == s.(row := after.row, audit := s.audit + audit)
  {
    forall n: FieldName ensures n in FIELD_NAMES {
      OneOfSeven(n);
    }
  }

  predicate AnyManual(fields: Fields) { exists n :: n in fields && fields[n].source == Some(Manual) }

  /** Which answer a suggestion gets that nobody interrupts, and what it leaves; the reply
      has been read, or could not be. */
  lemma SuggestAnswers(s: Store, retry: bool, suggestions: Option<Suggestions>)
    ensures
      var t := GenerateSuggestions(s, retry, suggestions);
      var after := t.Result(s);
      var found := s.row.Some?;
      var waiting := found && s.row.value.status == (if retry then SuggestionFailed else Parsed);
      var empty := waiting && (!retry ==> s.row.value.fields == map[]);
      var harmless := empty && (retry ==> !AnyManual(s.row.value.fields));
      var parsed := harmless && s.row.value.currentSnapshot.Some?;
      var readable := parsed && s.snapshot.Some? && SnapshotFile in s.files;
      && (t == Refused(ArchiveDocumentNotFound) <==> !found)
      && (t == Refused(SuggestionNotAllowed) <==> found && !waiting && !retry)
      && (t == Refused(SuggestionRetryNotAllowed) <==> found && !waiting && retry)
      && (t == Refused(SuggestionAlreadyStarted) <==> waiting && !empty)
      && (t == Refused(SuggestionWouldOverwriteManualDraft) <==> empty && !harmless)
      && (t == Refused(SuggestionSnapshotRequired) <==> harmless && !parsed)
      && (t == Refused(SnapshotUnreadable) <==> parsed && !readable)
      && (t.Recorded? <==> readable && suggestions.None?) && (t.Recorded? ==> t.error == SuggestionFailedError)
      && (t.Done? <==> readable && suggestions.Some?)
      && (t.Refused? ==> after == s)
      && (t.Recorded? ==> after == s.(row := Some(s.row.value.(status := SuggestionFailed, lastError := Some(SuggestionFailedError)))))
      && (t.Done? ==>
            && after.row.Some? && Proposed(after.row.value.fields, suggestions.value, s.row.value.currentSnapshot.value)
            && after.row.value == s.row.value.(status := PendingConfirmation, version := s.row.value.version + 1, lastError := None,
                                               fields := after.row.value.fields)
            && after == s.(row := after.row, audit := s.audit + if retry then [SuggestionRetried] else []))
  {
    if GenerateSuggestions(s, retry, suggestions).Done? {
      DraftIsProposed(s, s.row.value, suggestions.value, if retry then [SuggestionRetried] else []);
    }
    hide PersistDraft, Proposed;
  }

  /** Nobody has touched any of the seven fields. */
  predicate Untouched(fields: Fields) {
    forall n: FieldName ::
      n in fields && fields[n].review == PendingCheck && fields[n].source != Some(Manual) && !fields[n].noSourceEvidence
  }

  lemma UntouchedIff(fields: Fields)
    ensures RegenerateAllowed(fields) <==> Untouched(fields)
  {
    forall n: FieldName ensures n in FIELD_NAMES {
      OneOfSeven(n);
    }
    if Untouched(fields) {
      assert fields.Keys == FIELD_NAMES;
    }
  }

  /** Which answer a regeneration gets that nobody interrupts, and what it leaves. */
  lemma RegenerateAnswers(s: Store, v: nat, reply: Option<Reply>)
    ensures
      var (after, error) := RegenerateCall(s, v, reply);
      var found := s.row.Some?;
      var drafted := found && s.row.value.status == PendingConfirmation;
      var current := drafted && s.row.value.version == v;
      var untouched := current && Untouched(s.row.value.fields);
      var parsed := untouched && s.row.value.currentSnapshot.Some?;
      var readable := parsed && s.snapshot.Some? && SnapshotFile in s.files;
      var understood := readable && reply.Some? && ParseReply(reply.value, s.snapshot.value.payload).Some?;
      && (error == Some(ArchiveDocumentNotFound) <==> !found)
      && (error == Some(SuggestionRegenerateNotAllowed) <==> found && !drafted)
      && (error == Some(VersionConflict) <==> drafted && !current)
      && (error == Some(SuggestionWouldOverwriteManualDraft) <==> current && !untouched)
      && (error == Some(SuggestionSnapshotRequired) <==> untouched && !parsed)
      && (error == Some(SnapshotUnreadable) <==> parsed && !readable)
      && (error == Some(SuggestionFailedError) <==> readable && !understood)
      && (error.None? <==> understood)
      && (error.Some? ==> after == s)
      && (error.None? ==>
            && after.row.Some?
            && Proposed(after.row.value.fields, ParseReply(reply.value, s.snapshot.value.payload).value,
                        s.row.value.currentSnapshot.value)
            && after.row.value == s.row.value.(version := v + 1, lastError := None, fields := after.row.value.fields)
            && after == s.(row := after.row, audit := s.audit + [SuggestionRegenerated]))
  {
    hide ParseReply;
    if s.row.Some? {
      UntouchedIff(s.row.value.fields);
    }
    if RegenerateCall(s, v, reply).1.None? {
      DraftIsProposed(s, s.row.value, ParseReply(reply.value, s.snapshot.value.payload).value, [SuggestionRegenerated]);
    }
    hide PersistDraft, Proposed, Untouched, RegenerateAllowed;
  }
}
