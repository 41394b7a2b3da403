/** What every step keeps: the facts about operations, the vector store, files and
    calls in flight that the safety theorems rest on. */
module LifecycleInvariant {
  import opened Wrappers
  import opened FinalChunks
  import P = Parsed
  import opened Archive
  import opened SuggestionReplies
  import opened Transactions
  import opened Lifecycle

  // ---- the stores -------------------------------------------------------

  /** At most one RUNNING operation, at most one DELETE, and a DELETE always blocks. */
  ghost predicate OpsOk(ops: seq<Operation>) {
    && (forall i, j :: 0 <= i < j < |ops| ==> !(ops[i].status == Running && ops[j].status == Running))
    && (forall i, j :: 0 <= i < j < |ops| ==> !(ops[i].kind == Delete && ops[j].kind == Delete))
    && (forall i :: 0 <= i < |ops| ==> (ops[i].blocking <==> ops[i].kind == Delete))
    && (forall i :: 0 <= i < |ops| && ops[i].kind == Delete ==> Unfinished(ops[i]))
  }

  ghost predicate SnapshotOk(site: Site, s: Store) {
    if s.row.None? then s.snapshot.None? && s.ops == [] && s.files == {}
    else
      && (s.row.value.currentSnapshot.Some? <==> s.snapshot.Some?)
      && (s.snapshot.Some? ==>
            && s.snapshot.value.row.id == s.row.value.currentSnapshot.value
            && s.snapshot.value.row.documentId == site.documentId)
      && (SnapshotFile in s.files ==> s.snapshot.Some?)
      && (s.row.value.status in {Uploaded, ParseFailed} ==> s.snapshot.None?)
  }

  /** The record is one the current snapshot gives, under the scope INDEX writes. */
  ghost predicate BuiltRecord(site: Site, s: Store, id: ChunkId, r: Record) {
    && s.snapshot.Some?
    && Acceptable(site.documentId, s.snapshot.value.row, Some(s.snapshot.value.payload))
    && r.chunk in Chunks(site.documentId, s.snapshot.value.row, s.snapshot.value.payload)
    && r == RecordFor(site, r.chunk) && r.chunk.chunkId == id
  }

  ghost predicate RecordsOk(site: Site, s: Store) {
    forall id :: id in s.chroma && s.chroma[id].scope.documentId == site.documentId ==>
      BuiltRecord(site, s, id, s.chroma[id]) && site.kbId == site.projectKbId
  }

  /** All the conditions of confirmation still hold of what is CONFIRMED. */
  ghost predicate Legitimate(site: Site, s: Store) {
    s.row.Some? && s.row.value.status == Confirmed ==>
      var row := s.row.value;
      && row.confirmedBy.Some?
      && row.currentSnapshot.Some? && s.snapshot.Some?
      && s.snapshot.value.row.id == row.currentSnapshot.value
      && s.snapshot.value.row.documentId == site.documentId
      && row.finalHash == Some(s.snapshot.value.row.snapshotHash)
      && ConfirmationError(row.fields, s.snapshot.value.row.id) == None
  }

  function Deletions(audit: seq<AuditKind>): nat {
    multiset(audit)[DocumentDeleted]
  }

  ghost predicate AuditOk(s: Store) {
    Deletions(s.audit) == if s.row.None? then 1 else 0
  }

  ghost predicate StoreOk(site: Site, s: Store) {
    && OpsOk(s.ops) && SnapshotOk(site, s) && RecordsOk(site, s) && Legitimate(site, s) && AuditOk(s)
  }

  // ---- calls in flight --------------------------------------------------

  /** The operation a call runs, if it runs one. */
  function Runs(process: Process): Option<nat> {
    match process
    case Indexing(op, _) => Some(op)
    case IndexWritten(op, _, _) => Some(op)
    case IndexFailing(op) => Some(op)
    case DeletingDocument(op, _) => Some(op)
    case DeleteFailing(op) => Some(op)
    case _ => None
  }

  predicate RunsDelete(process: Process) { process.DeletingDocument? || process.DeleteFailing? }

  ghost predicate OperationOk(s: Store, process: Process) {
    Runs(process).Some? ==>
      var op := Runs(process).value;
      && s.row.Some? && op < |s.ops| && s.ops[op].status == Running
      && s.ops[op].kind == (if RunsDelete(process) then Delete else Index)
  }

  ghost predicate MemoryOk(site: Site, s: Store, process: Process) {
    match process
    case Indexing(_, snapshot) => s.snapshot == Some(snapshot) && site.kbId == site.projectKbId
    case IndexWritten(_, snapshot, count) => s.snapshot == Some(snapshot)
    case SuggestionFailing(v) =>
      s.row.Some? ==>
        && v <= s.row.value.version && s.row.value.currentSnapshot.Some? && s.row.value.status !in {Uploaded, ParseFailed}
        && (s.row.value.version == v ==> s.row.value.status in {Parsed, SuggestionFailed})
    case Editing(e, t) =>
      s.row.Some? ==>
        && e.expectedVersion <= s.row.value.version && t.snapshotId == s.row.value.currentSnapshot
        && (s.row.value.version == e.expectedVersion ==>
              s.row.value.status in {t.status, SuggestionFailed} && e.name in s.row.value.fields)
        && t.status in {PendingConfirmation, PendingReconfirmation, Confirmed}
    case Regenerating(v, draft) =>
      s.row.Some? ==> v <= s.row.value.version && s.snapshot.Some? && s.snapshot.value.payload == draft.payload
    case DeletingDocument(_, stage) =>
      && (!stage.AtChroma? ==> NoRecords(site, s.chroma))
      && (stage.AtFiles? || stage.FilesGone? || stage.ReadyToFinish? ==> stage.hasSnapshot == s.snapshot.Some?)
      && (stage.FilesGone? || stage.ReadyToFinish? ==> s.files == {})
    case _ => true
  }

  ghost predicate ProcessOk(site: Site, s: Store, process: Process) {
    OperationOk(s, process) && MemoryOk(site, s, process)
  }

  ghost predicate OneRunner(processes: map<ProcessId, Process>) {
    forall p, q :: p in processes && q in processes && Runs(processes[p]).Some? && Runs(processes[q]).Some? ==> p == q
  }

  ghost predicate Inv(site: Site, sys: System) {
    && StoreOk(site, sys.store)
    && (forall p :: p in sys.processes ==> ProcessOk(site, sys.store, sys.processes[p]))
    && OneRunner(sys.processes)
  }

  // ---- general preservation ---------------------------------------------

  /** Once a document is parsed, its fields change only with its version, and so does its
      status, unless the failure of a suggestion is recorded. */
  ghost predicate SameUnlessMoved(r: Row, r': Row) {
    r.status !in {Uploaded, ParseFailed} ==>
      && r'.status !in {Uploaded, ParseFailed}
      && (r.version == r'.version ==> r'.fields == r.fields && r'.status in {r.status, SuggestionFailed})
  }

  /** The stores change in a way no other call in flight notices: operations,
      snapshot and files stay, no record of the document is added, and the row moves on
      only with its version. */
  ghost predicate Quiet(site: Site, s: Store, s': Store) {
    && s'.ops == s.ops && s'.snapshot == s.snapshot && s'.files == s.files
    && (s'.row.Some? <==> s.row.Some?)
    && (s.row.Some? ==>
          var r, r' := s.row.value, s'.row.value;
          && r.version <= r'.version && r'.currentSnapshot == r.currentSnapshot
          && SameUnlessMoved(r, r'))
    && (NoRecords(site, s.chroma) ==> NoRecords(site, s'.chroma))
  }

  lemma QuietKeepsProcess(site: Site, s: Store, s': Store, process: Process)
    requires Quiet(site, s, s') && ProcessOk(site, s, process)
    ensures ProcessOk(site, s', process)
  {}

  lemma QuietKeepsProcesses(site: Site, sys: System, s': Store, p: ProcessId, process: Option<Process>)
    requires Inv(site, sys) && Quiet(site, sys.store, s') && StoreOk(site, s')
    requires process.Some? ==> ProcessOk(site, s', process.value)
    requires process.Some? && Runs(process.value).Some? ==> p in sys.processes && Runs(sys.processes[p]).Some?
    ensures Inv(site, if process.Some? then Begin(sys, s', p, process.value) else End(sys, s', p))
  {
    forall q | q in sys.processes ensures ProcessOk(site, s', sys.processes[q]) {
      QuietKeepsProcess(site, sys.store, s', sys.processes[q]);
    }
  }

  /** The row moves on only with its version, or goes away. */
  ghost predicate RowQuiet(s: Store, s': Store) {
    s'.row.Some? ==>
      && s.row.Some? && s'.snapshot == s.snapshot
      && var r, r' := s.row.value, s'.row.value;
         && r.version <= r'.version && r'.currentSnapshot == r.currentSnapshot
         && SameUnlessMoved(r, r')
  }

  lemma BystanderOk(site: Site, s: Store, s': Store, process: Process)
    requires ProcessOk(site, s, process) && Runs(process).None? && RowQuiet(s, s')
    ensures ProcessOk(site, s', process)
  {}

  /** The one call that runs an operation moves on: the others hold nothing it can break. */
  lemma RunnerMoves(site: Site, sys: System, s': Store, p: ProcessId, process: Option<Process>)
    requires Inv(site, sys) && p in sys.processes && Runs(sys.processes[p]).Some?
    requires StoreOk(site, s') && RowQuiet(sys.store, s')
    requires process.Some? ==> ProcessOk(site, s', process.value)
    ensures Inv(site, if process.Some? then Begin(sys, s', p, process.value) else End(sys, s', p))
  {
    hide StoreOk, RowQuiet;
    forall q | q in sys.processes && q != p
      ensures Runs(sys.processes[q]).None? && ProcessOk(site, s', sys.processes[q])
    {
      assert Runs(sys.processes[q]).None?;
      BystanderOk(site, sys.store, s', sys.processes[q]);
    }
  }

  /** A call starts an operation while none is RUNNING. */
  lemma RunnerStarts(site: Site, sys: System, s': Store, p: ProcessId, process: Process)
    requires Inv(site, sys) && !AnyRunning(sys.store.ops)
    requires StoreOk(site, s') && RowQuiet(sys.store, s') && ProcessOk(site, s', process)
    ensures Inv(site, Begin(sys, s', p, process))
  {
    hide StoreOk, RowQuiet;
    forall q | q in sys.processes
      ensures Runs(sys.processes[q]).None? && ProcessOk(site, s', sys.processes[q])
    {
      assert OperationOk(sys.store, sys.processes[q]);
      BystanderOk(site, sys.store, s', sys.processes[q]);
    }
  }

  // ---- transactions that leave operations alone -------------------------

  lemma DraftStep(site: Site, s: Store)
    requires StoreOk(site, s)
    ensures StoreOk(site, CreateManualDraft(s).Result(s)) && Quiet(site, s, CreateManualDraft(s).Result(s))
  {}

  lemma SuggestStep(site: Site, s: Store, retry: bool, reply: Option<Suggestions>)
    requires StoreOk(site, s)
    ensures
      var s' := GenerateSuggestions(s, retry, reply).Result(s);
      StoreOk(site, s') && Quiet(site, s, s')
  {}

  lemma RegenerateStep(site: Site, s: Store, v: nat, id: nat, suggestions: Suggestions)
    requires StoreOk(site, s)
    ensures
      var s' := WriteRegenerated(s, v, id, suggestions).Result(s);
      StoreOk(site, s') && Quiet(site, s, s')
  {}

  /** The status written by an edit was read without a lock; the version condition makes
      it the current one, or the one before a suggestion's failure was recorded. */
  lemma EditStep(site: Site, s: Store, e: FieldEdit, t: EditTicket)
    requires StoreOk(site, s) && ProcessOk(site, s, Editing(e, t))
    ensures
      var s' := WriteEdit(s, e, t).Result(s);
      && StoreOk(site, s') && Quiet(site, s, s')
      && (WriteEdit(s, e, t).Done? ==> s.row.value.status in {t.status, SuggestionFailed})
  {}

  lemma FailSuggestStep(site: Site, s: Store, v: nat)
    requires StoreOk(site, s) && ProcessOk(site, s, SuggestionFailing(v))
    ensures StoreOk(site, RecordSuggestionFailure(s)) && Quiet(site, s, RecordSuggestionFailure(s))
  {
    hide Acceptable, Chunks, ConfirmationError;
  }

  lemma ConfirmStep(site: Site, s: Store, v: nat, actor: nat)
    requires StoreOk(site, s)
    requires ConfirmDocument(site, s, v, actor).Success? && ConfirmDocument(site, s, v, actor).value.Promoted?
    ensures
      var s' := ConfirmDocument(site, s, v, actor).value.after;
      StoreOk(site, s') && Quiet(site, s, s')
  {}

  lemma CancelStep(site: Site, s: Store, v: nat)
    requires StoreOk(site, s)
    ensures
      var s' := CancelConfirmation(site, s, v).Result(s);
      StoreOk(site, s') && Quiet(site, s, s')
  {}

  lemma PurgeStep(site: Site, s: Store, filter: Scope, call: Call<ChunkId>)
    requires StoreOk(site, s)
    ensures
      var s' := s.(chroma := Purged(s.chroma, filter, call));
      StoreOk(site, s') && Quiet(site, s, s')
  {}

  /** The filter of a completed delete matches every record of the document, since
      INDEX writes no other scope. */
  lemma PurgeRemovesAll(site: Site, s: Store)
    requires StoreOk(site, s)
    ensures NoRecords(site, Purged(s.chroma, DeleteScope(site, site.ownerId), Completes))
    ensures NoRecords(site, Purged(s.chroma, IndexScope(site), Completes))
  {}

  lemma ElsewhereStep(site: Site, s: Store, chroma: Chroma)
    requires StoreOk(site, s) && OthersOnly(site, s.chroma, chroma)
    ensures
      var s' := s.(chroma := chroma);
      StoreOk(site, s') && Quiet(site, s, s')
  {}

  // ---- the external part of INDEX ---------------------------------------

  lemma {:induction false} UpsertedRecords(site: Site, chroma: Chroma, chunks: seq<FinalChunk>, id: ChunkId)
    ensures id in Upserted(site, chroma, chunks) ==>
              || (exists i :: 0 <= i < |chunks| && chunks[i].chunkId == id
                              && Upserted(site, chroma, chunks)[id] == RecordFor(site, chunks[i]))
              || (id in chroma && Upserted(site, chroma, chunks)[id] == chroma[id])
    ensures id in chroma ==> id in Upserted(site, chroma, chunks)
    ensures (exists i :: 0 <= i < |chunks| && chunks[i].chunkId == id) ==> id in Upserted(site, chroma, chunks)
    decreases |chunks|
  {
    if chunks != [] {
      var n := |chunks| - 1;
      UpsertedRecords(site, chroma, chunks[..n], id);
      if i :| 0 <= i < |chunks| && chunks[i].chunkId == id && i < n {
        assert chunks[..n][i].chunkId == id;
      }
    }
  }

  lemma {:induction false} TouchedAreChunks(chunks: seq<FinalChunk>, touched: set<ChunkId>)
    ensures forall c :: c in Touched(chunks, touched) ==> c in chunks
    decreases |chunks|
  {
    if chunks != [] {
      TouchedAreChunks(chunks[..|chunks| - 1], touched);
    }
  }

  lemma UpsertStep(site: Site, s: Store, chunks: seq<FinalChunk>)
    requires StoreOk(site, s) && s.snapshot.Some? && site.kbId == site.projectKbId
    requires Acceptable(site.documentId, s.snapshot.value.row, Some(s.snapshot.value.payload))
    requires forall c :: c in chunks ==> c in Chunks(site.documentId, s.snapshot.value.row, s.snapshot.value.payload)
    ensures StoreOk(site, s.(chroma := Upserted(site, s.chroma, chunks)))
  {
    hide Acceptable, Chunks;
    var s' := s.(chroma := Upserted(site, s.chroma, chunks));
    forall id | id in s'.chroma && s'.chroma[id].scope.documentId == site.documentId
      ensures BuiltRecord(site, s', id, s'.chroma[id])
    {
      UpsertedRecords(site, s.chroma, chunks, id);
      if i :| 0 <= i < |chunks| && chunks[i].chunkId == id && s'.chroma[id] == RecordFor(site, chunks[i]) {
        assert chunks[i] in chunks;
      } else {
        assert BuiltRecord(site, s, id, s.chroma[id]);
      }
    }
  }

  // ---- transactions on operations ---------------------------------------

  lemma BeginIndexStep(site: Site, s: Store)
    requires StoreOk(site, s) && BeginIndex(site, s).Success? && BeginIndex(site, s).value.Begun?
    ensures
      var b := BeginIndex(site, s).value;
      && !AnyRunning(s.ops) && StoreOk(site, b.after) && RowQuiet(s, b.after)
      && ProcessOk(site, b.after, Indexing(b.op, b.snapshot))
  {
    hide Acceptable, Chunks, ConfirmationError;
  }

  lemma FinishIndexStep(site: Site, s: Store, op: nat, snapshot: P.Snapshot, count: nat)
    requires StoreOk(site, s) && ProcessOk(site, s, IndexWritten(op, snapshot, count))
    ensures
      var t := FinishIndex(s, op, snapshot.row.snapshotHash, count);
      && t.Done? && StoreOk(site, t.after) && RowQuiet(s, t.after)
  {
    hide Acceptable, Chunks, ConfirmationError;
  }

  lemma FailIndexStep(site: Site, s: Store, op: nat)
    requires StoreOk(site, s) && ProcessOk(site, s, IndexFailing(op))
    ensures StoreOk(site, RecordIndexFailure(s, op)) && RowQuiet(s, RecordIndexFailure(s, op))
  {
    hide Acceptable, Chunks, ConfirmationError;
  }

  lemma BeginDeleteStep(site: Site, s: Store, actor: nat)
    requires StoreOk(site, s) && BeginDelete(site, s, actor).Success?
    ensures
      var b := BeginDelete(site, s, actor).value;
      && !AnyRunning(s.ops) && StoreOk(site, b.after) && RowQuiet(s, b.after)
      && ProcessOk(site, b.after, DeletingDocument(b.op, AtChroma))
  {
    hide Acceptable, Chunks, ConfirmationError;
  }

  lemma BeginDeleteKeeps(site: Site, s: Store, actor: nat)
    requires BeginDelete(site, s, actor).Success?
    ensures
      var after := BeginDelete(site, s, actor).value.after;
      && after.snapshot == s.snapshot && after.chroma == s.chroma && s.row.Some?
      && after.row == Some(s.row.value.(fileStatus := Deleting))
  {}

  lemma CheckpointStep(site: Site, s: Store, op: nat, step: OperationStep)
    requires StoreOk(site, s)
    ensures StoreOk(site, Checkpoint(s, op, step)) && RowQuiet(s, Checkpoint(s, op, step))
    ensures op < |s.ops| ==> Checkpoint(s, op, step).ops[op] == s.ops[op].(step := Some(step))
  {
    hide Acceptable, Chunks, ConfirmationError;
  }

  lemma RemoveFilesStep(site: Site, s: Store, call: Call<StoredFile>)
    requires StoreOk(site, s) && s.row.Some?
    ensures
      var s' := s.(files := RemoveFiles(s.files, s.snapshot.Some?, call));
      StoreOk(site, s') && RowQuiet(s, s') && (call.Completes? ==> s'.files == {})
  {
    hide Acceptable, Chunks, ConfirmationError;
    if call.Completes? {
      forall f | f in RemoveFiles(s.files, s.snapshot.Some?, call) ensures false {
        match f
        case OriginalFile =>
        case SnapshotFile =>
      }
    }
  }

  lemma FinishDeleteStep(site: Site, s: Store, op: nat, has: bool)
    requires StoreOk(site, s) && ProcessOk(site, s, DeletingDocument(op, ReadyToFinish(has)))
    ensures StoreOk(site, FinishDelete(s)) && RowQuiet(s, FinishDelete(s))
  {
    hide Acceptable, Chunks, ConfirmationError;
  }

  lemma FailDeleteStep(site: Site, s: Store, op: nat)
    requires StoreOk(site, s) && ProcessOk(site, s, DeleteFailing(op))
    ensures StoreOk(site, RecordDeleteFailure(s, op)) && RowQuiet(s, RecordDeleteFailure(s, op))
  {
    hide Acceptable, Chunks, ConfirmationError;
  }

  lemma NoSnapshotNoRecords(site: Site, s: Store)
    requires StoreOk(site, s) && s.snapshot.None?
    ensures NoRecords(site, s.chroma)
  {}

  lemma ParseStep(site: Site, s: Store, retry: bool, id: nat, parsed: Option<P.ParsedArchiveDocument>)
    requires StoreOk(site, s)
    ensures StoreOk(site, ParseDocument(site, s, retry, id, parsed).Result(s))
  {
    hide Acceptable, Chunks, ConfirmationError;
    var s' := ParseDocument(site, s, retry, id, parsed).Result(s);
    if s' != s {
      assert s.snapshot.None?;
      NoSnapshotNoRecords(site, s);
    }
  }

  // ---- steps ------------------------------------------------------------

  lemma ParseInv(site: Site, sys: System, retry: bool, id: nat, parsed: Option<P.ParsedArchiveDocument>)
    requires Inv(site, sys)
    ensures Inv(site, ApplyParse(site, sys, retry, id, parsed))
  {
    ParseStep(site, sys.store, retry, id, parsed);
  }

  lemma RegenerateInv(site: Site, sys: System, p: ProcessId, v: nat, reply: Option<Reply>)
    requires Inv(site, sys)
    ensures Inv(site, ApplyStartRegenerate(sys, p, v))
    ensures Inv(site, ApplyFinishRegenerate(sys, p, reply))
  {
    hide StoreOk;
    var s := sys.store;
    QuietKeepsProcesses(site, sys, s, p, None);
    if p !in sys.processes && ReadForRegenerate(s, v).Success? {
      QuietKeepsProcesses(site, sys, s, p, Some(Regenerating(v, ReadForRegenerate(s, v).value)));
    }
    if p in sys.processes && sys.processes[p].Regenerating? && Understood(Some(sys.processes[p].draft.payload), reply).Some? {
      var r := sys.processes[p];
      var suggestions := Understood(Some(r.draft.payload), reply).value;
      RegenerateStep(site, s, r.expectedVersion, r.draft.snapshotId, suggestions);
      QuietKeepsProcesses(site, sys, WriteRegenerated(s, r.expectedVersion, r.draft.snapshotId, suggestions).Result(s), p, None);
    }
  }

  lemma EditInv(site: Site, sys: System, p: ProcessId, e: FieldEdit)
    requires Inv(site, sys)
    ensures Inv(site, ApplyStartEdit(sys, p, e))
    ensures Inv(site, ApplyFinishEdit(sys, p))
  {
    hide StoreOk;
    var s := sys.store;
    if p !in sys.processes && ReadForEdit(s, e).Success? {
      QuietKeepsProcesses(site, sys, s, p, Some(Editing(e, ReadForEdit(s, e).value)));
    }
    if p in sys.processes && sys.processes[p].Editing? {
      var r := sys.processes[p];
      EditStep(site, s, r.edit, r.ticket);
      QuietKeepsProcesses(site, sys, WriteEdit(s, r.edit, r.ticket).Result(s), p, None);
    }
  }

  lemma ConfirmInv(site: Site, sys: System, p: ProcessId, v: nat, actor: nat)
    requires Inv(site, sys)
    ensures Inv(site, ApplyConfirm(site, sys, p, v, actor))
  {
    hide StoreOk;
    var r := ConfirmDocument(site, sys.store, v, actor);
    if p !in sys.processes && r.Success? {
      if r.value.Promoted? {
        ConfirmStep(site, sys.store, v, actor);
        QuietKeepsProcesses(site, sys, r.value.after, p, Some(ReadyToIndex));
      } else {
        QuietKeepsProcesses(site, sys, sys.store, p, Some(ReadyToIndex));
      }
    }
  }

  lemma CleanupInv(site: Site, sys: System, p: ProcessId, call: Call<ChunkId>)
    requires Inv(site, sys)
    ensures Inv(site, ApplyCallCleanup(site, sys, p, call))
    ensures Inv(site, ApplyFailCancel(sys, p))
  {
    hide StoreOk;
    var s := sys.store;
    if p in sys.processes && sys.processes[p].Cancelling? {
      var cleaned := s.(chroma := Purged(s.chroma, IndexScope(site), call));
      PurgeStep(site, s, IndexScope(site), call);
      QuietKeepsProcesses(site, sys, cleaned, p, if call.Completes? then None else Some(CancelFailing));
    }
    if p in sys.processes && sys.processes[p].CancelFailing? {
      CleanupFailureStep(site, s);
      QuietKeepsProcesses(site, sys, RecordCleanupFailure(s), p, None);
    }
  }

  lemma CleanupFailureStep(site: Site, s: Store)
    requires StoreOk(site, s)
    ensures StoreOk(site, RecordCleanupFailure(s)) && Quiet(site, s, RecordCleanupFailure(s))
  {
    hide Acceptable, Chunks, ConfirmationError;
  }

  lemma CancelInv(site: Site, sys: System, p: ProcessId, v: nat, call: Call<ChunkId>)
    requires Inv(site, sys)
    ensures Inv(site, ApplyCancel(site, sys, p, v))
    ensures Inv(site, ApplyCallCleanup(site, sys, p, call))
    ensures Inv(site, ApplyFailCancel(sys, p))
  {
    hide StoreOk;
    var s := sys.store;
    var t := CancelConfirmation(site, s, v);
    if p !in sys.processes && t.Done? {
      CancelStep(site, s, v);
      QuietKeepsProcesses(site, sys, t.after, p, Some(Cancelling));
    }
    CleanupInv(site, sys, p, call);
  }

  lemma StartIndexInv(site: Site, sys: System, p: ProcessId)
    requires Inv(site, sys)
    ensures Inv(site, ApplyStartIndex(site, sys, p))
  {
    hide StoreOk;
    var r := BeginIndex(site, sys.store);
    QuietKeepsProcesses(site, sys, sys.store, p, None);
    if r.Success? && r.value.Begun? {
      BeginIndexStep(site, sys.store);
      RunnerStarts(site, sys, r.value.after, p, Indexing(r.value.op, r.value.snapshot));
    }
  }

  lemma WriteIndexStep(site: Site, s: Store, op: nat, snapshot: P.Snapshot, call: Call<ChunkId>)
    requires StoreOk(site, s) && ProcessOk(site, s, Indexing(op, snapshot))
    ensures
      var (after, count) := WriteIndex(site, s, snapshot, call);
      && StoreOk(site, after) && RowQuiet(s, after)
      && ProcessOk(site, after, if count.Some? then IndexWritten(op, snapshot, count.value) else IndexFailing(op))
  {
    hide Acceptable, Chunks, ConfirmationError, StoreOk;
    var chunks := ChunksToIndex(site, s, snapshot);
    if chunks.Some? {
      var written := if call.Completes? then chunks.value else Touched(chunks.value, call.touched);
      if call.Breaks? {
        TouchedAreChunks(chunks.value, call.touched);
      }
      UpsertStep(site, s, written);
    }
  }

  lemma CallIndexInv(site: Site, sys: System, p: ProcessId, call: Call<ChunkId>)
    requires Inv(site, sys)
    ensures Inv(site, ApplyCallIndex(site, sys, p, call))
  {
    if p in sys.processes && sys.processes[p].Indexing? {
      var r := sys.processes[p];
      var (after, count) := WriteIndex(site, sys.store, r.snapshot, call);
      WriteIndexStep(site, sys.store, r.op, r.snapshot, call);
      RunnerMoves(site, sys, after, p,
                  Some(if count.Some? then IndexWritten(r.op, r.snapshot, count.value) else IndexFailing(r.op)));
    }
  }

  lemma CommitIndexInv(site: Site, sys: System, p: ProcessId, commits: bool)
    requires Inv(site, sys)
    ensures Inv(site, ApplyCommitIndex(sys, p, commits))
    ensures Inv(site, ApplyFailIndex(sys, p))
  {
    hide StoreOk;
    if p in sys.processes {
      match sys.processes[p]
      case IndexWritten(op, snapshot, count) =>
        FinishIndexStep(site, sys.store, op, snapshot, count);
        RunnerMoves(site, sys, FinishIndex(sys.store, op, snapshot.row.snapshotHash, count).after, p, None);
        RunnerMoves(site, sys, sys.store, p, Some(IndexFailing(op)));
      case IndexFailing(op) =>
        FailIndexStep(site, sys.store, op);
        RunnerMoves(site, sys, RecordIndexFailure(sys.store, op), p, None);
      case _ =>
    }
  }

  lemma StartDeleteInv(site: Site, sys: System, p: ProcessId, actor: nat)
    requires Inv(site, sys)
    ensures Inv(site, ApplyStartDelete(site, sys, p, actor))
  {
    hide StoreOk;
    var r := BeginDelete(site, sys.store, actor);
    if p !in sys.processes && r.Success? {
      BeginDeleteStep(site, sys.store, actor);
      RunnerStarts(site, sys, r.value.after, p, DeletingDocument(r.value.op, AtChroma));
    }
  }

  lemma DeleteCallsInv(site: Site, sys: System, p: ProcessId, call: Call<ChunkId>, fileCall: Call<StoredFile>)
    requires Inv(site, sys)
    ensures Inv(site, ApplyCallChunkDelete(site, sys, p, call))
    ensures Inv(site, ApplyCallFileDelete(sys, p, fileCall))
  {
    hide StoreOk;
    var s := sys.store;
    if p in sys.processes && sys.processes[p].DeletingDocument? {
      var op := sys.processes[p].op;
      match sys.processes[p].stage
      case AtChroma =>
        var after := s.(chroma := Purged(s.chroma, DeleteScope(site, site.ownerId), call));
        PurgeStep(site, s, DeleteScope(site, site.ownerId), call);
        PurgeRemovesAll(site, s);
        RunnerMoves(site, sys, after, p,
                    Some(if call.Completes? then DeletingDocument(op, ChunksGone) else DeleteFailing(op)));
      case AtFiles(has) =>
        RemoveFilesStep(site, s, fileCall);
        RunnerMoves(site, sys, s.(files := RemoveFiles(s.files, has, fileCall)), p,
                    Some(if fileCall.Completes? then DeletingDocument(op, FilesGone(has)) else DeleteFailing(op)));
      case _ =>
    }
  }

  lemma DeleteCommitsInv(site: Site, sys: System, p: ProcessId, commits: bool)
    requires Inv(site, sys)
    ensures Inv(site, ApplyCommitCheckpoint(sys, p, commits))
    ensures Inv(site, ApplyCommitDelete(sys, p, commits))
    ensures Inv(site, ApplyFailDelete(sys, p))
  {
    hide StoreOk;
    var s := sys.store;
    if p in sys.processes && Runs(sys.processes[p]).Some? && RunsDelete(sys.processes[p]) {
      var op := Runs(sys.processes[p]).value;
      RunnerMoves(site, sys, s, p, Some(DeleteFailing(op)));
      match sys.processes[p]
      case DeletingDocument(_, ChunksGone) =>
        CheckpointStep(site, s, op, ChromaDelete);
        RunnerMoves(site, sys, Checkpoint(s, op, ChromaDelete), p, Some(DeletingDocument(op, AtFiles(s.snapshot.Some?))));
      case DeletingDocument(_, FilesGone(has)) =>
        CheckpointStep(site, s, op, FileDelete);
        RunnerMoves(site, sys, Checkpoint(s, op, FileDelete), p, Some(DeletingDocument(op, ReadyToFinish(has))));
      case DeletingDocument(_, ReadyToFinish(has)) =>
        FinishDeleteStep(site, s, op, has);
        RunnerMoves(site, sys, FinishDelete(s), p, None);
      case DeleteFailing(_) =>
        FailDeleteStep(site, s, op);
        RunnerMoves(site, sys, RecordDeleteFailure(s, op), p, None);
      case _ =>
    }
  }

  /** Every step of every call keeps the invariant. */
  lemma StepInv(site: Site, sys: System, step: Step)
    requires Inv(site, sys)
    ensures Inv(site, Apply(site, sys, step))
  {
    hide Inv;
    match step
    case Parse(retry, id, parsed) => ParseInv(site, sys, retry, id, parsed);
    case StartManualDraft => DraftInv(site, sys);
    case Suggest(p, retry, reply) => SuggestInv(site, sys, p, retry, reply);
    case FailSuggest(p) => FailSuggestInv(site, sys, p);
    case StartRegenerate(p, v) => RegenerateInv(site, sys, p, v, None);
    case FinishRegenerate(p, reply) => RegenerateInv(site, sys, p, 0, reply);
    case StartEdit(p, e) => EditInv(site, sys, p, e);
    case FinishEdit(p) => EditInv(site, sys, p, FieldEdit(Title, NO_VALUE, PendingCheck, None, false, [], 0));
    case Confirm(p, v, actor) => ConfirmInv(site, sys, p, v, actor);
    case StartIndex(p) => StartIndexInv(site, sys, p);
    case CallIndex(p, call) => CallIndexInv(site, sys, p, call);
    case CommitIndex(p, commits) => CommitIndexInv(site, sys, p, commits);
    case FailIndex(p) => CommitIndexInv(site, sys, p, true);
    case Cancel(p, v) => CancelInv(site, sys, p, v, Completes);
    case CallCleanup(p, call) => CancelInv(site, sys, p, 0, call);
    case FailCancel(p) => CancelInv(site, sys, p, 0, Completes);
    case StartDelete(p, actor) => StartDeleteInv(site, sys, p, actor);
    case CallChunkDelete(p, call) => DeleteCallsInv(site, sys, p, call, Completes);
    case CommitCheckpoint(p, commits) => DeleteCommitsInv(site, sys, p, commits);
    case CallFileDelete(p, call) => DeleteCallsInv(site, sys, p, Completes, call);
    case CommitDelete(p, commits) => DeleteCommitsInv(site, sys, p, commits);
    case FailDelete(p) => DeleteCommitsInv(site, sys, p, true);
    case Stop(p) => StopInv(site, sys, p);
    case Elsewhere(chroma) => ElsewhereInv(site, sys, chroma);
  }

  lemma QuietKeepsAll(site: Site, sys: System, s': Store)
    requires Inv(site, sys) && Quiet(site, sys.store, s') && StoreOk(site, s')
    ensures Inv(site, sys.(store := s'))
  {
    hide StoreOk, ProcessOk, Quiet;
    forall q | q in sys.processes ensures ProcessOk(site, s', sys.processes[q]) {
      QuietKeepsProcess(site, sys.store, s', sys.processes[q]);
    }
  }

  lemma DraftInv(site: Site, sys: System)
    requires Inv(site, sys)
    ensures Inv(site, sys.(store := CreateManualDraft(sys.store).Result(sys.store)))
  {
    hide StoreOk, ProcessOk, OneRunner, Quiet, CreateManualDraft;
    DraftStep(site, sys.store);
    QuietKeepsAll(site, sys, CreateManualDraft(sys.store).Result(sys.store));
  }

  lemma SuggestInv(site: Site, sys: System, p: ProcessId, retry: bool, reply: Option<Reply>)
    requires Inv(site, sys)
    ensures Inv(site, ApplySuggest(sys, p, retry, reply))
  {
    hide StoreOk, OneRunner, Understood;
    var s := sys.store;
    var t := GenerateSuggestions(s, retry, Understood(PayloadIn(s), reply));
    SuggestStep(site, s, retry, Understood(PayloadIn(s), reply));
    if p !in sys.processes && t.Done? {
      QuietKeepsAll(site, sys, t.after);
    } else if p !in sys.processes && t.Recorded? {
      QuietKeepsProcesses(site, sys, s, p, Some(SuggestionFailing(s.row.value.version)));
    }
  }

  lemma FailSuggestInv(site: Site, sys: System, p: ProcessId)
    requires Inv(site, sys)
    ensures Inv(site, ApplyFailSuggest(sys, p))
  {
    hide StoreOk, OneRunner;
    if p in sys.processes && sys.processes[p].SuggestionFailing? {
      FailSuggestStep(site, sys.store, sys.processes[p].version);
      QuietKeepsProcesses(site, sys, RecordSuggestionFailure(sys.store), p, None);
    }
  }

  lemma StopInv(site: Site, sys: System, p: ProcessId)
    requires Inv(site, sys)
    ensures Inv(site, End(sys, sys.store, p))
  {}

  lemma ElsewhereInv(site: Site, sys: System, chroma: Chroma)
    requires Inv(site, sys)
    ensures Inv(site, ApplyElsewhere(site, sys, chroma))
  {
    hide StoreOk, ProcessOk, OneRunner, Quiet, OthersOnly;
    if OthersOnly(site, sys.store.chroma, chroma) {
      ElsewhereStep(site, sys.store, chroma);
      QuietKeepsAll(site, sys, sys.store.(chroma := chroma));
    }
  }

  lemma InitialInv(site: Site, sys: System)
    requires Initial(site, sys)
    ensures Inv(site, sys)
  {}

  /** ... and so does every run, whatever its length and order. */
  lemma {:induction false} RunInv(site: Site, sys: System, steps: seq<Step>)
    requires Inv(site, sys)
    ensures Inv(site, Run(site, sys, steps))
    decreases |steps|
  {
    if steps != [] {
      RunInv(site, sys, steps[..|steps| - 1]);
      StepInv(site, Run(site, sys, steps[..|steps| - 1]), steps[|steps| - 1]);
    }
  }
}
