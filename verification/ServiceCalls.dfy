/** Whole service calls that nobody else interrupts, each as a function of the
    stores and of what its external calls and commits do, and why each is a run of
    the state machine: what holds of every run holds of them. */
module ServiceCalls {
  import opened Wrappers
  import opened Text
  import opened FinalChunks
  import P = Parsed
  import opened Archive
  import opened SuggestionReplies
  import opened Transactions
  import opened Lifecycle
  import opened LifecycleInvariant
  import opened LifecycleSafety
  import opened LifecycleRecovery

  // ---- delete -----------------------------------------------------------

  /** How each external call and each commit of one delete attempt goes; `marker`
      is the commit that records a failure. */
  datatype DeleteFaults = DeleteFaults(
    chunks: Call<ChunkId>, firstCheckpoint: bool, files: Call<StoredFile>, secondCheckpoint: bool,
    lastCommit: bool, marker: bool)

  predicate NothingFails(f: DeleteFaults) {
    f.chunks.Completes? && f.firstCheckpoint && f.files.Completes? && f.secondCheckpoint && f.lastCommit
  }

  function DeleteIncomplete(s: Store, op: nat, marker: bool): (Store, Option<AppError>) {
    (if marker then RecordDeleteFailure(s, op) else s, Some(DocumentDeleteIncomplete))
  }

  /** `delete_archive_document`: the stores afterwards and the error raised, if any. */
  function DeleteCall(site: Site, s: Store, actor: nat, f: DeleteFaults): (Store, Option<AppError>) {
    var begin := BeginDelete(site, s, actor);
    if begin.Failure? then (s, Some(begin.error))
    else
      var op := begin.value.op;
      var s1 := begin.value.after;
      var s2 := s1.(chroma := Purged(s1.chroma, DeleteScope(site, actor), f.chunks));
      if !f.chunks.Completes? || !f.firstCheckpoint then DeleteIncomplete(s2, op, f.marker)
      else
        var s3 := Checkpoint(s2, op, ChromaDelete);
        var s4 := s3.(files := RemoveFiles(s3.files, s3.snapshot.Some?, f.files));
        if !f.files.Completes? || !f.secondCheckpoint then DeleteIncomplete(s4, op, f.marker)
        else
          var s5 := Checkpoint(s4, op, FileDelete);
          if !f.lastCommit then DeleteIncomplete(s5, op, f.marker) else (FinishDelete(s5), None)
  }

  function AttemptSteps(p: ProcessId, actor: nat, f: DeleteFaults): seq<Step> {
    [StartDelete(p, actor), CallChunkDelete(p, f.chunks), CommitCheckpoint(p, f.firstCheckpoint),
     CallFileDelete(p, f.files), CommitCheckpoint(p, f.secondCheckpoint), CommitDelete(p, f.lastCommit)]
  }

  /** The attempt, then the record of its failure if it failed and can be recorded. */
  function DeleteSteps(p: ProcessId, actor: nat, f: DeleteFaults): seq<Step> {
    AttemptSteps(p, actor, f) + [if f.marker then FailDelete(p) else Stop(p)]
  }

  lemma AttemptUnfolds(site: Site, sys: System, p: ProcessId, actor: nat, f: DeleteFaults)
    ensures
      Run(site, sys, AttemptSteps(p, actor, f)) ==
      ApplyCommitDelete(
        ApplyCommitCheckpoint(
          ApplyCallFileDelete(
            ApplyCommitCheckpoint(
              ApplyCallChunkDelete(site, ApplyStartDelete(site, sys, p, actor), p, f.chunks),
              p, f.firstCheckpoint),
            p, f.files),
          p, f.secondCheckpoint),
        p, f.lastCommit)
  {
    hide ApplyStartDelete, ApplyCallChunkDelete, ApplyCommitCheckpoint, ApplyCallFileDelete, ApplyCommitDelete;
    RunSix(site, sys, StartDelete(p, actor), CallChunkDelete(p, f.chunks), CommitCheckpoint(p, f.firstCheckpoint),
           CallFileDelete(p, f.files), CommitCheckpoint(p, f.secondCheckpoint), CommitDelete(p, f.lastCommit));
  }

  /** The system while one more call, or none, is in flight. */
  function With(sys: System, p: ProcessId, store: Store, process: Option<Process>): System {
    System(store, if process.Some? then sys.processes[p := process.value] else sys.processes)
  }

  lemma WithMoves(sys: System, p: ProcessId, store: Store, process: Option<Process>, after: Store, next: Process)
    requires p !in sys.processes
    ensures Begin(With(sys, p, store, process), after, p, next) == With(sys, p, after, Some(next))
    ensures End(With(sys, p, store, process), after, p) == With(sys, p, after, None)
  {
    var w := With(sys, p, store, process);
    assert w.processes[p := next] == sys.processes[p := next];
    assert w.processes - {p} == sys.processes;
  }

  /** Once the attempt has failed, or has ended, its remaining steps do nothing. */
  lemma NothingMoreIsDue(site: Site, sys: System, p: ProcessId, f: DeleteFaults)
    requires p in sys.processes ==> sys.processes[p].DeleteFailing?
    ensures ApplyCallChunkDelete(site, sys, p, f.chunks) == sys
    ensures ApplyCommitCheckpoint(sys, p, f.firstCheckpoint) == sys
    ensures ApplyCallFileDelete(sys, p, f.files) == sys
    ensures ApplyCommitCheckpoint(sys, p, f.secondCheckpoint) == sys
    ensures ApplyCommitDelete(sys, p, f.lastCommit) == sys
  {}

  /** The first two of the three parts of an attempt. */
  lemma ChunkPart(site: Site, sys: System, p: ProcessId, s1: Store, op: nat, f: DeleteFaults)
    requires p !in sys.processes
    ensures
      var s2 := s1.(chroma := Purged(s1.chroma, DeleteScope(site, site.ownerId), f.chunks));
      var s3 := Checkpoint(s2, op, ChromaDelete);
      var start := With(sys, p, s1, Some(DeletingDocument(op, AtChroma)));
      ApplyCommitCheckpoint(ApplyCallChunkDelete(site, start, p, f.chunks), p, f.firstCheckpoint) ==
      if f.chunks.Completes? && f.firstCheckpoint then With(sys, p, s3, Some(DeletingDocument(op, AtFiles(s2.snapshot.Some?))))
      else With(sys, p, s2, Some(DeleteFailing(op)))
  {
    hide Purged, Checkpoint, With;
    var s2 := s1.(chroma := Purged(s1.chroma, DeleteScope(site, site.ownerId), f.chunks));
    var start := With(sys, p, s1, Some(DeletingDocument(op, AtChroma)));
    WithReads(sys, p, s1, DeletingDocument(op, AtChroma));
    WithMoves(sys, p, s1, Some(DeletingDocument(op, AtChroma)), s2, DeletingDocument(op, ChunksGone));
    WithMoves(sys, p, s1, Some(DeletingDocument(op, AtChroma)), s2, DeleteFailing(op));
    WithReads(sys, p, s2, DeletingDocument(op, ChunksGone));
    WithReads(sys, p, s2, DeleteFailing(op));
    WithMoves(sys, p, s2, Some(DeletingDocument(op, ChunksGone)), Checkpoint(s2, op, ChromaDelete),
              DeletingDocument(op, AtFiles(s2.snapshot.Some?)));
    WithMoves(sys, p, s2, Some(DeletingDocument(op, ChunksGone)), s2, DeleteFailing(op));
  }

  lemma FilePart(sys: System, p: ProcessId, s3: Store, op: nat, has: bool, f: DeleteFaults)
    requires p !in sys.processes
    ensures
      var s4 := s3.(files := RemoveFiles(s3.files, has, f.files));
      var s5 := Checkpoint(s4, op, FileDelete);
      var start := With(sys, p, s3, Some(DeletingDocument(op, AtFiles(has))));
      ApplyCommitCheckpoint(ApplyCallFileDelete(start, p, f.files), p, f.secondCheckpoint) ==
      if f.files.Completes? && f.secondCheckpoint then With(sys, p, s5, Some(DeletingDocument(op, ReadyToFinish(has))))
      else With(sys, p, s4, Some(DeleteFailing(op)))
  {
    hide RemoveFiles, Checkpoint, With;
    var s4 := s3.(files := RemoveFiles(s3.files, has, f.files));
    WithReads(sys, p, s3, DeletingDocument(op, AtFiles(has)));
    WithMoves(sys, p, s3, Some(DeletingDocument(op, AtFiles(has))), s4, DeletingDocument(op, FilesGone(has)));
    WithMoves(sys, p, s3, Some(DeletingDocument(op, AtFiles(has))), s4, DeleteFailing(op));
    WithReads(sys, p, s4, DeletingDocument(op, FilesGone(has)));
    WithReads(sys, p, s4, DeleteFailing(op));
    WithMoves(sys, p, s4, Some(DeletingDocument(op, FilesGone(has))), Checkpoint(s4, op, FileDelete),
              DeletingDocument(op, ReadyToFinish(has)));
    WithMoves(sys, p, s4, Some(DeletingDocument(op, FilesGone(has))), s4, DeleteFailing(op));
  }

  lemma FinishPart(sys: System, p: ProcessId, s5: Store, op: nat, has: bool, commits: bool)
    requires p !in sys.processes
    ensures
      ApplyCommitDelete(With(sys, p, s5, Some(DeletingDocument(op, ReadyToFinish(has)))), p, commits) ==
      if commits then With(sys, p, FinishDelete(s5), None) else With(sys, p, s5, Some(DeleteFailing(op)))
  {
    hide FinishDelete, With;
    WithReads(sys, p, s5, DeletingDocument(op, ReadyToFinish(has)));
    WithMoves(sys, p, s5, Some(DeletingDocument(op, ReadyToFinish(has))), FinishDelete(s5), DeleteFailing(op));
    WithMoves(sys, p, s5, Some(DeletingDocument(op, ReadyToFinish(has))), s5, DeleteFailing(op));
  }

  lemma WithReads(sys: System, p: ProcessId, store: Store, process: Process)
    ensures
      var w := With(sys, p, store, Some(process));
      w.store == store && p in w.processes && w.processes[p] == process
  {}

  /** What the attempt leaves: a call that has ended, or one about to record its failure. */
  function Attempt(site: Site, sys: System, p: ProcessId, actor: nat, f: DeleteFaults): System {
    var begin := BeginDelete(site, sys.store, actor);
    if begin.Failure? then sys
    else
      var op := begin.value.op;
      var s1 := begin.value.after;
      var s2 := s1.(chroma := Purged(s1.chroma, DeleteScope(site, actor), f.chunks));
      if !f.chunks.Completes? || !f.firstCheckpoint then With(sys, p, s2, Some(DeleteFailing(op)))
      else
        var s3 := Checkpoint(s2, op, ChromaDelete);
        var s4 := s3.(files := RemoveFiles(s3.files, s3.snapshot.Some?, f.files));
        if !f.files.Completes? || !f.secondCheckpoint then With(sys, p, s4, Some(DeleteFailing(op)))
        else
          var s5 := Checkpoint(s4, op, FileDelete);
          if !f.lastCommit then With(sys, p, s5, Some(DeleteFailing(op))) else With(sys, p, FinishDelete(s5), None)
  }

  lemma AttemptIsARun(site: Site, sys: System, p: ProcessId, actor: nat, f: DeleteFaults)
    requires p !in sys.processes
    ensures Run(site, sys, AttemptSteps(p, actor, f)) == Attempt(site, sys, p, actor, f)
  {
    hide Run, BeginDelete, Purged, RemoveFiles, FinishDelete, With,
         ApplyCallChunkDelete, ApplyCommitCheckpoint, ApplyCallFileDelete, ApplyCommitDelete, AttemptSteps;
    AttemptUnfolds(site, sys, p, actor, f);
    var begin := BeginDelete(site, sys.store, actor);
    if begin.Failure? {
      NothingMoreIsDue(site, sys, p, f);
    } else {
      OnlyOwnersBegin(site, sys.store, actor);
      var op, s1 := begin.value.op, begin.value.after;
      assert ApplyStartDelete(site, sys, p, actor) == With(sys, p, s1, Some(DeletingDocument(op, AtChroma))) by {
        WithMoves(sys, p, sys.store, None, s1, DeletingDocument(op, AtChroma));
        WithNone(sys, p);
      }
      ChunkPart(site, sys, p, s1, op, f);
      var s2 := s1.(chroma := Purged(s1.chroma, DeleteScope(site, site.ownerId), f.chunks));
      var s3 := Checkpoint(s2, op, ChromaDelete);
      var s4 := s3.(files := RemoveFiles(s3.files, s3.snapshot.Some?, f.files));
      FilePart(sys, p, s3, op, s3.snapshot.Some?, f);
      FinishPart(sys, p, Checkpoint(s4, op, FileDelete), op, s3.snapshot.Some?, f.lastCommit);
      WithReads(sys, p, s2, DeleteFailing(op));
      WithReads(sys, p, s4, DeleteFailing(op));
      NothingMoreIsDue(site, With(sys, p, s2, Some(DeleteFailing(op))), p, f);
      NothingMoreIsDue(site, With(sys, p, s4, Some(DeleteFailing(op))), p, f);
    }
  }

  lemma WithNone(sys: System, p: ProcessId)
    ensures With(sys, p, sys.store, None) == sys
  {}

  lemma OnlyOwnersBegin(site: Site, s: Store, actor: nat)
    requires BeginDelete(site, s, actor).Success?
    ensures actor == site.ownerId
  {}

  /** A delete call nobody interrupts is a run. */
  lemma DeleteCallIsARun(site: Site, sys: System, p: ProcessId, actor: nat, f: DeleteFaults)
    requires p !in sys.processes
    ensures Run(site, sys, DeleteSteps(p, actor, f)) == System(DeleteCall(site, sys.store, actor, f).0, sys.processes)
  {
    hide BeginDelete, Purged, Checkpoint, RemoveFiles, FinishDelete, RecordDeleteFailure, Run, AttemptSteps;
    var last := if f.marker then FailDelete(p) else Stop(p);
    AttemptIsARun(site, sys, p, actor, f);
    RunOne(site, sys, AttemptSteps(p, actor, f), last);
    LastDeleteStep(site, sys, p, Attempt(site, sys, p, actor, f), f.marker);
  }

  lemma LastDeleteStep(site: Site, sys: System, p: ProcessId, now: System, marker: bool)
    requires p !in sys.processes
    requires
      || now == With(sys, p, now.store, None)
      || (&& p in now.processes && now.processes[p].DeleteFailing?
          && now == With(sys, p, now.store, Some(now.processes[p])))
    ensures
      Apply(site, now, if marker then FailDelete(p) else Stop(p)) ==
      System(if marker && p in now.processes then RecordDeleteFailure(now.store, now.processes[p].op) else now.store, sys.processes)
  {
    assert now.processes - {p} == sys.processes;
  }

  /** What a caller of delete can rely on, whatever breaks: DOCUMENT_NOT_FOUND means the
      document is gone or not the caller's, and DOCUMENT_OPERATION_IN_PROGRESS is said to
      its owner alone, exactly while an operation is RUNNING; then nothing happened. No
      error means nothing is left; DOCUMENT_DELETE_INCOMPLETE means the document stays
      hidden, and can be deleted again exactly when the failure could be recorded. */
  lemma DeleteOutcome(site: Site, s: Store, actor: nat, f: DeleteFaults)
    requires StoreOk(site, s)
    ensures
      var (after, error) := DeleteCall(site, s, actor, f);
      var running := exists i :: 0 <= i < |s.ops| && s.ops[i].status == Running;
      var allowed := s.row.Some? && actor == site.ownerId && !running;
      && StoreOk(site, after)
      && (error == Some(DocumentNotFound) <==> s.row.None? || actor != site.ownerId)
      && (error == Some(OperationInProgress) <==> s.row.Some? && actor == site.ownerId && running)
      && (error.None? <==> allowed && NothingFails(f))
      && (error == Some(DocumentDeleteIncomplete) <==> allowed && !NothingFails(f))
      && (!allowed ==> after == s)
      && (error.None? ==> Gone(site, after))
      && (error == Some(DocumentDeleteIncomplete) ==>
            && after.row.Some? && Hidden(after)
            && (f.marker <==> forall i :: 0 <= i < |after.ops| ==> after.ops[i].status != Running))
  {
    hide StoreOk, Apply, NoRecords, Initial, RemoveFiles, Purged, BeginDelete;
    var sys := System(s, map[]);
    var (after, error) := DeleteCall(site, s, actor, f);
    DeleteCallIsARun(site, sys, 0, actor, f);
    RunInv(site, sys, DeleteSteps(0, actor, f));
    RefusedDelete(site, s, actor);
    if s.row.Some? && MayDelete(site, s, actor) {
      BeginDeleteIffMay(site, s, actor);
      BegunDelete(site, s, actor);
      if error.None? {
        GoneWithTheRow(site, after);
      } else {
        IncompleteDelete(site, s, actor, f);
      }
    }
  }

  /** Recovery: in every reachable state of a document that still exists, whatever
      other calls are in flight, a delete that is not interrupted completes exactly
      when its caller owns the project, no operation is RUNNING and nothing breaks;
      then nothing is left and one deletion is audited. */
  lemma UninterruptedDeleteCompletesIff(site: Site, sys: System, p: ProcessId, actor: nat, f: DeleteFaults)
    requires Inv(site, sys) && sys.store.row.Some? && p !in sys.processes
    ensures
      var after := Run(site, sys, DeleteSteps(p, actor, f));
      && after.processes == sys.processes
      && (after.store.row.None? <==> MayDelete(site, sys.store, actor) && NothingFails(f))
      && (after.store.row.None? ==> Gone(site, after.store))
      && (!MayDelete(site, sys.store, actor) ==> after == sys)
  {
    InvStore(site, sys);
    hide Inv, Run, DeleteSteps, DeleteCall, Gone, MayDelete, StoreOk;
    DeleteCallIsARun(site, sys, p, actor, f);
    DeleteOutcome(site, sys.store, actor, f);
    GoneHasNoRow(site, DeleteCall(site, sys.store, actor, f).0);
  }

  lemma GoneHasNoRow(site: Site, s: Store)
    ensures Gone(site, s) ==> s.row.None?
  {}

  lemma RefusedDelete(site: Site, s: Store, actor: nat)
    ensures BeginDelete(site, s, actor) == Failure(DocumentNotFound) <==> s.row.None? || actor != site.ownerId
    ensures BeginDelete(site, s, actor) == Failure(OperationInProgress) <==>
            s.row.Some? && actor == site.ownerId && AnyRunning(s.ops)
    ensures BeginDelete(site, s, actor).Failure? ==> BeginDelete(site, s, actor).error in {DocumentNotFound, OperationInProgress}
  {
    if s.row.Some? {
      BeginDeleteIffMay(site, s, actor);
    }
  }

  lemma GoneWithTheRow(site: Site, s: Store)
    requires StoreOk(site, s) && s.row.None?
    ensures Gone(site, s)
  {
    NoSnapshotNoRecords(site, s);
  }

  /** The operation a begun delete runs is the only RUNNING one. */
  lemma BegunDelete(site: Site, s: Store, actor: nat)
    requires StoreOk(site, s) && BeginDelete(site, s, actor).Success?
    ensures
      var b := BeginDelete(site, s, actor).value;
      && b.after.row.Some? && b.op < |b.after.ops|
      && b.after.ops[b.op].kind == Delete && b.after.ops[b.op].status == Running
      && (forall i :: 0 <= i < |b.after.ops| && i != b.op ==> b.after.ops[i].status != Running)
  {
    hide Acceptable, Chunks, ConfirmationError;
    BeginDeleteStep(site, s, actor);
  }

  lemma IncompleteDelete(site: Site, s: Store, actor: nat, f: DeleteFaults)
    requires StoreOk(site, s) && BeginDelete(site, s, actor).Success? && !NothingFails(f)
    ensures
      var (after, error) := DeleteCall(site, s, actor, f);
      && error == Some(DocumentDeleteIncomplete) && after.row.Some? && Hidden(after)
      && (MayDelete(site, after, site.ownerId) <==> f.marker)
  {
    hide BeginDelete, StoreOk, Purged, RemoveFiles;
    BegunDelete(site, s, actor);
    var op := BeginDelete(site, s, actor).value.op;
    var (after, error) := DeleteCall(site, s, actor, f);
    assert op < |after.ops| && after.ops[op].kind == Delete;
    assert after.ops[op].status == (if f.marker then Failed else Running);
  }

  // ---- INDEX ------------------------------------------------------------

  datatype IndexFaults = IndexFaults(write: Call<ChunkId>, commits: bool, marker: bool)

  /** `index_confirmed_document`: on success the chunk count. */
  function IndexCall(site: Site, s: Store, f: IndexFaults): (Store, Result<nat, AppError>) {
    var begin := BeginIndex(site, s);
    if begin.Failure? then (s, Failure(begin.error))
    else if begin.value.Reused? then (s, Success(if s.row.Some? then s.row.value.finalChunkCount else 0))
    else
      var Begun(s1, op, snapshot) := begin.value;
      var (s2, count) := WriteIndex(site, s1, snapshot, f.write);
      var finish := FinishIndex(s2, op, snapshot.row.snapshotHash, if count.Some? then count.value else 0);
      if count.Some? && f.commits && finish.Done? then (finish.after, Success(count.value))
      else (if f.marker then RecordIndexFailure(s2, op) else s2, Failure(IndexFailed))
  }

  /** `confirm_document`, with the INDEX it goes on to. */
  function ConfirmCall(site: Site, s: Store, expectedVersion: nat, actor: nat, f: IndexFaults): (Store, Option<AppError>) {
    var confirmed := ConfirmDocument(site, s, expectedVersion, actor);
    if confirmed.Failure? then (s, Some(confirmed.error))
    else if confirmed.value == Replayed(false) then (s, None)
    else
      var (after, count) := IndexCall(site, if confirmed.value.Promoted? then confirmed.value.after else s, f);
      (after, if count.Success? then None else Some(count.error))
  }

  function ConfirmSteps(p: ProcessId, v: nat, actor: nat, f: IndexFaults): seq<Step> {
    [Confirm(p, v, actor), StartIndex(p), CallIndex(p, f.write), CommitIndex(p, f.commits),
     if f.marker then FailIndex(p) else Stop(p), Stop(p)]
  }

  lemma ConfirmStepsUnfold(site: Site, sys: System, p: ProcessId, v: nat, actor: nat, f: IndexFaults)
    ensures
      var s4 := ApplyCommitIndex(
                  ApplyCallIndex(site, ApplyStartIndex(site, ApplyConfirm(site, sys, p, v, actor), p), p, f.write),
                  p, f.commits);
      var s5 := if f.marker then ApplyFailIndex(s4, p) else End(s4, s4.store, p);
      Run(site, sys, ConfirmSteps(p, v, actor, f)) == End(s5, s5.store, p)
  {
    hide ApplyConfirm, ApplyStartIndex, ApplyCallIndex, ApplyCommitIndex, ApplyFailIndex;
    RunSix(site, sys, Confirm(p, v, actor), StartIndex(p), CallIndex(p, f.write), CommitIndex(p, f.commits),
           if f.marker then FailIndex(p) else Stop(p), Stop(p));
  }

  /** A confirmation nobody interrupts, INDEX included, is a run. */
  lemma ConfirmCallIsARun(site: Site, sys: System, p: ProcessId, v: nat, actor: nat, f: IndexFaults)
    requires p !in sys.processes
    ensures Run(site, sys, ConfirmSteps(p, v, actor, f)) == System(ConfirmCall(site, sys.store, v, actor, f).0, sys.processes)
  {
    hide Run, ConfirmDocument, BeginIndex, WriteIndex, FinishIndex, RecordIndexFailure, With,
         ApplyCallIndex, ApplyCommitIndex, ApplyFailIndex;
    ConfirmStepsUnfold(site, sys, p, v, actor, f);
    var s1 := ApplyConfirm(site, sys, p, v, actor);
    WithNone(sys, p);
    WithMoves(sys, p, sys.store, None, s1.store, ReadyToIndex);
    if s1 == sys {
      IndexingNotDue(site, sys, p, f);
    } else {
      assert s1 == With(sys, p, s1.store, Some(ReadyToIndex));
      IndexPart(site, sys, p, s1.store, f);
    }
    WithMoves(sys, p, sys.store, None, sys.store, ReadyToIndex);
  }

  lemma IndexingNotDue(site: Site, sys: System, p: ProcessId, f: IndexFaults)
    requires p !in sys.processes
    ensures ApplyStartIndex(site, sys, p) == sys && ApplyCallIndex(site, sys, p, f.write) == sys
    ensures ApplyCommitIndex(sys, p, f.commits) == sys && ApplyFailIndex(sys, p) == sys
  {}

  /** The INDEX that follows a confirmation. */
  lemma IndexPart(site: Site, sys: System, p: ProcessId, s: Store, f: IndexFaults)
    requires p !in sys.processes
    ensures
      var ready := With(sys, p, s, Some(ReadyToIndex));
      var s4 := ApplyCommitIndex(ApplyCallIndex(site, ApplyStartIndex(site, ready, p), p, f.write), p, f.commits);
      var s5 := if f.marker then ApplyFailIndex(s4, p) else End(s4, s4.store, p);
      End(s5, s5.store, p) == System(IndexCall(site, s, f).0, sys.processes)
  {
    hide BeginIndex, WriteIndex, FinishIndex, RecordIndexFailure, With;
    var ready := With(sys, p, s, Some(ReadyToIndex));
    WithReads(sys, p, s, ReadyToIndex);
    var begin := BeginIndex(site, s);
    if begin.Failure? || begin.value.Reused? {
      WithMoves(sys, p, s, Some(ReadyToIndex), s, ReadyToIndex);
      WithEnds(sys, p, s);
      IndexingNotDue(site, With(sys, p, s, None), p, f);
    } else {
      var Begun(s1, op, snapshot) := begin.value;
      WithMoves(sys, p, s, Some(ReadyToIndex), s1, Indexing(op, snapshot));
      WrittenPart(site, sys, p, s1, op, snapshot, f);
    }
  }

  lemma WithEnds(sys: System, p: ProcessId, s: Store)
    requires p !in sys.processes
    ensures With(sys, p, s, None) == System(s, sys.processes)
    ensures End(With(sys, p, s, None), s, p) == System(s, sys.processes)
  {
    assert sys.processes - {p} == sys.processes;
  }

  lemma WrittenPart(site: Site, sys: System, p: ProcessId, s1: Store, op: nat, snapshot: P.Snapshot, f: IndexFaults)
    requires p !in sys.processes
    ensures
      var (s2, count) := WriteIndex(site, s1, snapshot, f.write);
      var finish := FinishIndex(s2, op, snapshot.row.snapshotHash, if count.Some? then count.value else 0);
      var s4 := ApplyCommitIndex(ApplyCallIndex(site, With(sys, p, s1, Some(Indexing(op, snapshot))), p, f.write), p, f.commits);
      var s5 := if f.marker then ApplyFailIndex(s4, p) else End(s4, s4.store, p);
      End(s5, s5.store, p) ==
      System(if count.Some? && f.commits && finish.Done? then finish.after
             else if f.marker then RecordIndexFailure(s2, op) else s2, sys.processes)
  {
    hide WriteIndex, FinishIndex, RecordIndexFailure, With;
    var (s2, count) := WriteIndex(site, s1, snapshot, f.write);
    var n := if count.Some? then count.value else 0;
    var finish := FinishIndex(s2, op, snapshot.row.snapshotHash, n);
    WithReads(sys, p, s1, Indexing(op, snapshot));
    var next := if count.Some? then IndexWritten(op, snapshot, n) else IndexFailing(op);
    WithMoves(sys, p, s1, Some(Indexing(op, snapshot)), s2, next);
    WithReads(sys, p, s2, next);
    WithReads(sys, p, s2, IndexFailing(op));
    WithMoves(sys, p, s2, Some(next), if finish.Done? then finish.after else s2, IndexFailing(op));
    WithMoves(sys, p, s2, Some(next), s2, IndexFailing(op));
    WithMoves(sys, p, s2, Some(IndexFailing(op)), RecordIndexFailure(s2, op), IndexFailing(op));
    WithMoves(sys, p, s2, Some(IndexFailing(op)), s2, IndexFailing(op));
    if finish.Done? {
      WithEnds(sys, p, finish.after);
      IndexingNotDue(site, With(sys, p, finish.after, None), p, f);
    }
    WithEnds(sys, p, RecordIndexFailure(s2, op));
    WithEnds(sys, p, s2);
  }

  /** The caller's version is current and the document is CONFIRMED already or passes
      every check of confirmation. */
  predicate MayConfirm(s: Store, v: nat) {
    && s.row.Some? && s.row.value.version == v
    && (|| s.row.value.status == Confirmed
        || (&& s.row.value.status in {PendingConfirmation, PendingReconfirmation}
            && s.row.value.currentSnapshot.Some?
            && ConfirmationError(s.row.value.fields, s.row.value.currentSnapshot.value) == None))
  }

  /** INDEX can run now and finds chunks to write. */
  predicate MayIndex(site: Site, s: Store) {
    && site.projectKbId == site.kbId && !AnyRunning(s.ops)
    && s.snapshot.Some? && ChunksToIndex(site, s, s.snapshot.value).Some?
  }

  predicate AlreadyIndexed(s: Store) {
    s.row.Some? && s.row.value.status == Confirmed && s.row.value.finalChunkCount > 0
  }

  lemma ConfirmIffMay(site: Site, s: Store, v: nat, actor: nat)
    requires StoreOk(site, s)
    ensures ConfirmDocument(site, s, v, actor).Success? <==> MayConfirm(s, v)
    ensures
      MayConfirm(s, v) ==>
        var c := ConfirmDocument(site, s, v, actor).value;
        var s1 := if c.Promoted? then c.after else s;
        && SnapshotOk(site, s1) && (c == Replayed(false) <==> AlreadyIndexed(s))
        && s1.ops == s.ops && s1.files == s.files && s1.snapshot == s.snapshot && s1.chroma == s.chroma
        && s1.row.Some? && s1.row.value.status == Confirmed && s1.row.value.currentSnapshot == s.row.value.currentSnapshot
        && (c != Replayed(false) ==> s1.row.value.finalChunkCount == 0)
  {
    hide ConfirmationError, RecordsOk, OpsOk, AuditOk;
  }

  lemma CleanIndex(site: Site, s: Store, marker: bool)
    requires SnapshotOk(site, s) && s.row.Some? && s.row.value.status == Confirmed && s.row.value.finalChunkCount == 0
    ensures
      var (after, count) := IndexCall(site, s, IndexFaults(Completes, true, marker));
      && (count.Success? <==> MayIndex(site, s))
      && (count.Success? ==>
            && after.row.Some? && after.row.value.status == Confirmed
            && Indexed(site, after, after.row.value.finalChunkCount) && count.value == after.row.value.finalChunkCount > 0
            && after.files == s.files && !AnyRunning(after.ops)
            && (Formal(after) <==> !Blocked(s.ops)))
  {
    hide Acceptable, Chunks, Upserted;
    var (after, count) := IndexCall(site, s, IndexFaults(Completes, true, marker));
    if MayIndex(site, s) {
      assert s.snapshot.value.row.id == s.row.value.currentSnapshot.value;
      var chunks := ChunksToIndex(site, s, s.snapshot.value).value;
      UpsertKeepsIndexed(site, s, chunks, 0);
      assert after.ops[..|s.ops|] == s.ops && after.ops[|s.ops|].status == Succeeded;
      FinishedIndexBlocksNothing(s.ops, after.ops);
    }
  }

  lemma FinishedIndexBlocksNothing(ops: seq<Operation>, ops': seq<Operation>)
    requires |ops'| == |ops| + 1 && ops'[..|ops|] == ops && !ops'[|ops|].blocking
    ensures Blocked(ops') <==> Blocked(ops)
    ensures AnyRunning(ops') ==> AnyRunning(ops) || ops'[|ops|].status == Running
  {
    forall i | 0 <= i < |ops| ensures ops'[i] == ops[i] {
      assert ops'[..|ops|][i] == ops[i];
    }
    if Blocked(ops) {
      var i :| 0 <= i < |ops| && ops[i].blocking && Unfinished(ops[i]);
      assert ops'[i].blocking && Unfinished(ops'[i]);
    }
  }

  /** A confirmation in which nothing breaks completes exactly when the version is
      current, every check passes, and INDEX has run or can run; then the document is
      CONFIRMED and, unless a delete hides it, formal, with every chunk of its snapshot
      indexed. */
  lemma CleanConfirmCompletesIff(site: Site, s: Store, v: nat, actor: nat, marker: bool)
    requires StoreOk(site, s)
    requires AlreadyIndexed(s) ==> Indexed(site, s, s.row.value.finalChunkCount)
    ensures
      var (after, error) := ConfirmCall(site, s, v, actor, IndexFaults(Completes, true, marker));
      && (error.None? <==> MayConfirm(s, v) && (AlreadyIndexed(s) || MayIndex(site, s)))
      && (error.None? ==>
            && after.row.Some? && after.row.value.status == Confirmed
            && Indexed(site, after, after.row.value.finalChunkCount)
            && after.files == s.files && (AnyRunning(after.ops) ==> AnyRunning(s.ops))
            && (Formal(after) <==> !Blocked(s.ops)))
  {
    hide ConfirmDocument, IndexCall, AnyRunning, MayConfirm, RecordsOk, OpsOk, AuditOk, Legitimate, Indexed;
    ConfirmIffMay(site, s, v, actor);
    if MayConfirm(s, v) {
      var c := ConfirmDocument(site, s, v, actor).value;
      var s1 := if c.Promoted? then c.after else s;
      if c != Replayed(false) {
        CleanIndex(site, s1, marker);
      }
    }
  }

  /** Whatever breaks after the confirmation was committed, the document stays
      CONFIRMED, and once the failure is recorded INDEX can be tried again. */
  lemma BrokenIndexCanBeRetried(site: Site, s: Store, v: nat, actor: nat, f: IndexFaults)
    requires StoreOk(site, s)
    requires ConfirmCall(site, s, v, actor, f).1 == Some(IndexFailed)
    ensures
      var after := ConfirmCall(site, s, v, actor, f).0;
      && StoreOk(site, after) && after.row.Some? && after.row.value.status == Confirmed
      && after.row.value.finalChunkCount == 0
      && MayConfirm(after, after.row.value.version)
      && (!AnyRunning(after.ops) <==> f.marker)
  {
    hide Apply, Initial;
    var sys := System(s, map[]);
    var after := ConfirmCall(site, s, v, actor, f).0;
    assert StoreOk(site, after) by {
      hide StoreOk, ConfirmCall;
      ConfirmCallIsARun(site, sys, 0, v, actor, f);
      RunInv(site, sys, ConfirmSteps(0, v, actor, f));
    }
    hide StoreOk, ConfirmDocument, IndexCall;
    ConfirmIffMay(site, s, v, actor);
    var c := ConfirmDocument(site, s, v, actor).value;
    BrokenIndex(site, if c.Promoted? then c.after else s, f);
  }

  lemma BrokenIndex(site: Site, s: Store, f: IndexFaults)
    requires s.row.Some? && s.row.value.status == Confirmed && s.row.value.finalChunkCount == 0
    requires IndexCall(site, s, f).1 == Failure(IndexFailed)
    ensures
      var after := IndexCall(site, s, f).0;
      && after.row.Some? && after.row.value.status == Confirmed && after.row.value.finalChunkCount == 0
      && (!AnyRunning(after.ops) <==> f.marker)
  {
    hide ChunksToIndex, Upserted;
    var after := IndexCall(site, s, f).0;
    var begin := BeginIndex(site, s);
    if begin.Success? && begin.value.Begun? {
      assert !AnyRunning(s.ops);
      assert |after.ops| == |s.ops| + 1 && after.ops[|s.ops|].status == (if f.marker then Failed else Running);
      assert forall i :: 0 <= i < |s.ops| ==> after.ops[i] == s.ops[i];
    }
  }

  // ---- cancellation and drafting ----------------------------------------

  /** `cancel_confirmation`. */
  function CancelCall(site: Site, s: Store, expectedVersion: nat, cleanup: Call<ChunkId>, marker: bool): (Store, Option<AppError>) {
    var t := CancelConfirmation(site, s, expectedVersion);
    if !t.Done? then (s, Some(t.error))
    else
      var cleaned := t.after.(chroma := Purged(t.after.chroma, IndexScope(site), cleanup));
      if cleanup.Completes? then (cleaned, None)
      else (if marker then RecordCleanupFailure(cleaned) else cleaned, Some(VectorUnavailable))
  }

  function CancelSteps(p: ProcessId, v: nat, cleanup: Call<ChunkId>, marker: bool): seq<Step> {
    [Cancel(p, v)] + [CallCleanup(p, cleanup)] + [if marker then FailCancel(p) else Stop(p)]
  }

  lemma CancelCallIsARun(site: Site, sys: System, p: ProcessId, v: nat, cleanup: Call<ChunkId>, marker: bool)
    requires p !in sys.processes
    ensures Run(site, sys, CancelSteps(p, v, cleanup, marker)) == System(CancelCall(site, sys.store, v, cleanup, marker).0, sys.processes)
  {
    hide CancelConfirmation, Purged, RecordCleanupFailure, Run;
    CancelStepsUnfold(site, sys, p, v, cleanup, marker);
    SpareProcess(sys, p);
  }

  lemma CancelStepsUnfold(site: Site, sys: System, p: ProcessId, v: nat, cleanup: Call<ChunkId>, marker: bool)
    ensures
      var s2 := ApplyCallCleanup(site, ApplyCancel(site, sys, p, v), p, cleanup);
      Run(site, sys, CancelSteps(p, v, cleanup, marker)) == if marker then ApplyFailCancel(s2, p) else End(s2, s2.store, p)
  {
    hide ApplyCancel, ApplyCallCleanup, ApplyFailCancel;
    var last := if marker then FailCancel(p) else Stop(p);
    assert Run(site, sys, []) == sys;
    RunOne(site, sys, [], Cancel(p, v));
    RunOne(site, sys, [Cancel(p, v)], CallCleanup(p, cleanup));
    RunOne(site, sys, [Cancel(p, v)] + [CallCleanup(p, cleanup)], last);
    assert [] + [Cancel(p, v)] == [Cancel(p, v)];
  }

  lemma SpareProcess(sys: System, p: ProcessId)
    requires p !in sys.processes
    ensures sys.processes - {p} == sys.processes
    ensures forall q: Process {:trigger sys.processes[p := q]} :: sys.processes[p := q] - {p} == sys.processes
    ensures forall q: Process, r: Process {:trigger sys.processes[p := q][p := r]} :: sys.processes[p := q][p := r] == sys.processes[p := r]
  {}

  /** `update_field`. */
  function EditCall(s: Store, e: FieldEdit): (Store, Option<AppError>) {
    var read := ReadForEdit(s, e);
    if read.Failure? then (s, Some(read.error))
    else
      var t := WriteEdit(s, e, read.value);
      (t.Result(s), if t.Done? then None else Some(t.error))
  }

  /** `regenerate_suggestions`; `reply` is `None` when the model fails. */
  function RegenerateCall(s: Store, expectedVersion: nat, reply: Option<Reply>): (Store, Option<AppError>) {
    var read := ReadForRegenerate(s, expectedVersion);
    if read.Failure? then (s, Some(read.error))
    else if Understood(Some(read.value.payload), reply).None? then (s, Some(SuggestionFailedError))
    else
      var t := WriteRegenerated(s, expectedVersion, read.value.snapshotId, Understood(Some(read.value.payload), reply).value);
      (t.Result(s), if t.Done? then None else Some(t.error))
  }

  /** Every drafting call nobody interrupts is a run, too. */
  lemma DraftingCallsAreRuns(site: Site, sys: System, p: ProcessId, e: FieldEdit, v: nat, reply: Option<Reply>)
    requires p !in sys.processes
    ensures Run(site, sys, [StartEdit(p, e)] + [FinishEdit(p)]) == System(EditCall(sys.store, e).0, sys.processes)
    ensures Run(site, sys, [StartRegenerate(p, v)] + [FinishRegenerate(p, reply)]) ==
            System(RegenerateCall(sys.store, v, reply).0, sys.processes)
  {
    hide ReadForEdit, WriteEdit, ReadForRegenerate, WriteRegenerated;
    RunPair(site, sys, StartEdit(p, e), FinishEdit(p));
    RunPair(site, sys, StartRegenerate(p, v), FinishRegenerate(p, reply));
    SpareProcess(sys, p);
  }

  lemma RunPair(site: Site, sys: System, a: Step, b: Step)
    ensures Run(site, sys, [a] + [b]) == Apply(site, Apply(site, sys, a), b)
  {
    hide Apply;
    assert Run(site, sys, []) == sys;
    RunOne(site, sys, [], a);
    RunOne(site, sys, [a], b);
    assert [] + [a] == [a];
  }

  /** The client used the field's own column, and no keyword is blank. */
  predicate RightColumns(name: FieldName, c: Columns) {
    match name
    case DocumentDate => c.text.None? && c.words.None?
    case Keywords => c.text.None? && c.date.None? && (c.words.Some? ==> forall i :: 0 <= i < |c.words.value| ==> !AllSpace(c.words.value[i]))
    case _ => c.date.None? && c.words.None?
  }

  /** A document type and a project stage are, but for white space around them, from the
      fixed lists. */
  ghost predicate Listed(name: FieldName, c: Columns) {
    c.text.Some? ==>
      && (name == DocumentType ==>
            exists t :: t in {"CONTRACT", "DESIGN", "CONSTRUCTION", "MEETING_MINUTES", "ACCEPTANCE", "OTHER"} && StrippedFrom(t, c.text.value))
      && (name == ProjectStage ==>
            exists t :: t in {"PREPARATION", "DESIGN", "CONSTRUCTION", "ACCEPTANCE", "CROSS_STAGE", "OTHER_STAGE"}
                        && StrippedFrom(t, c.text.value))
  }

  /** Something was sent, be it a blank text. */
  predicate Sent(c: Columns) { c.text.Some? || c.date.Some? || c.words !in {None, Some([])} }

  /** What was sent is worth confirming. */
  predicate Worthy(c: Columns) { (c.text.Some? && !AllSpace(c.text.value)) || c.date.Some? || c.words !in {None, Some([])} }

  /** What is stored of what was sent: the text without the white space around it, an
      empty list of keywords as none, everything else as it is. */
  ghost predicate StoredAs(sent: Columns, v: Columns) {
    && v.date == sent.date && v.words == (if sent.words == Some([]) then None else sent.words)
    && (v.text.Some? <==> sent.text.Some?) && (sent.text.Some? ==> StrippedFrom(v.text.value, sent.text.value))
  }

  lemma NothingToList(name: FieldName, c: Columns)
    ensures c.text.None? ==> Listed(name, c)
  {}

  lemma ListedIff(name: FieldName, c: Columns)
    requires c.text.Some?
    ensures Listed(name, c) <==>
            && (name == DocumentType ==> KnownDocumentType(Strip(c.text.value)))
            && (name == ProjectStage ==> KnownProjectStage(Strip(c.text.value)))
  {
    hide Strip, StrippedFrom;
    forall t ensures StrippedFrom(t, c.text.value) <==> t == Strip(c.text.value) {
      StripStandsIn(t, c.text.value);
    }
    assert StrippedFrom(Strip(c.text.value), c.text.value);
  }

  lemma CanonicalKeepsValue(c: Columns, name: FieldName)
    ensures CanonicalValue(c, name) == Failure(FieldValueShapeInvalid) <==> !RightColumns(name, c)
    ensures CanonicalValue(c, name) == Failure(InvalidFieldValue) <==> RightColumns(name, c) && !Listed(name, c)
    ensures CanonicalValue(c, name).Success? <==> RightColumns(name, c) && Listed(name, c)
    ensures
      CanonicalValue(c, name).Success? ==>
        var v := CanonicalValue(c, name).value;
        && StoredAs(c, v) && (HasValue(v) <==> Sent(c)) && (NonEmpty(name, v) <==> Worthy(c))
  {
    hide Strip, StrippedFrom, AllSpace, KnownDocumentType, KnownProjectStage;
    if c.text.Some? {
      var text := c.text.value;
      StripTrims(text);
      StripKeepsTrimmed(Strip(text));
      StripStandsIn(Strip(text), text);
      ListedIff(name, c);
    }
    hide Listed;
    assert c.text.None? ==> Listed(name, c) by { NothingToList(name, c); }
    if c.words.Some? {
      forall i | 0 <= i < |c.words.value| ensures Strip(c.words.value[i]) == "" <==> AllSpace(c.words.value[i]) {
        StripTrims(c.words.value[i]);
      }
    }
  }

  /** A canonical value uses its own column only, is left alone when canonicalised again,
      and is what was sent but for white space. */
  lemma CanonicalIsStable(c: Columns, name: FieldName)
    ensures
      CanonicalValue(c, name).Success? ==>
        && OwnColumnOnly(name, CanonicalValue(c, name).value)
        && CanonicalValue(CanonicalValue(c, name).value, name) == CanonicalValue(c, name)
        && StoredAs(c, CanonicalValue(c, name).value)
  {
    CanonicalKeepsValue(c, name);
    hide StoredAs;
    if c.text.Some? {
      StripTrims(c.text.value);
      StripKeepsTrimmed(Strip(c.text.value));
    }
  }

  /** The document is there and may be edited by a person who saw it as it is. */
  predicate MayEdit(s: Store, e: FieldEdit) {
    && s.row.Some? && s.row.value.status in {PendingConfirmation, PendingReconfirmation, Confirmed} && e.source != Some(Ai)
    && s.row.value.version == e.expectedVersion && e.name in s.row.value.fields
  }

  /** What was sent fits the field and its review. */
  ghost predicate FitsReview(e: FieldEdit) {
    && RightColumns(e.name, e.columns) && Listed(e.name, e.columns)
    && (e.review == ValueConfirmed ==> Worthy(e.columns))
    && (e.review == EmptyAccepted ==> !Worthy(e.columns) && e.name !in {Title, DocumentType})
  }

  /** Which answer an edit gets while the document may not be edited: the first rule it
      breaks, in this order. */
  lemma EditRefusals(s: Store, e: FieldEdit)
    ensures
      var error := EditCall(s, e).1;
      var found := s.row.Some?;
      var started := found && !(s.row.value.fields == map[] && s.row.value.status in {Parsed, SuggestionFailed});
      var editable := started && s.row.value.status in {PendingConfirmation, PendingReconfirmation, Confirmed};
      var human := editable && e.source != Some(Ai);
      var current := human && s.row.value.version == e.expectedVersion;
      && (error == Some(ArchiveDocumentNotFound) <==> !found)
      && (error == Some(DraftNotStarted) <==> (found && !started) || (current && !MayEdit(s, e)))
      && (error == Some(FieldEditNotAllowed) <==> started && !editable)
      && (error == Some(AiSourceForbidden) <==> editable && !human)
      && (error == Some(VersionConflict) <==> human && !current)
  {
    CanonicalKeepsValue(e.columns, e.name);
    hide CanonicalValue, RightColumns, Listed, Sent, Worthy, StoredAs, HasValue, NonEmpty;
  }

  /** Which answer it gets once it may: again the first rule that what was sent breaks, and
      none exactly when it breaks none. */
  lemma EditAnswers(s: Store, e: FieldEdit)
    ensures
      var error := EditCall(s, e).1;
      var may := MayEdit(s, e);
      var shaped := may && RightColumns(e.name, e.columns);
      var listed := shaped && Listed(e.name, e.columns);
      var filled := listed && (e.review == ValueConfirmed ==> Worthy(e.columns));
      var emptied := filled && (e.review == EmptyAccepted ==> !Worthy(e.columns));
      var fits := may && FitsReview(e);
      && (error == Some(FieldValueShapeInvalid) <==> may && !shaped)
      && (error == Some(InvalidFieldValue) <==> shaped && !listed)
      && (error == Some(ValueRequired) <==> listed && !filled)
      && (error == Some(EmptyAcceptedRequiresEmpty) <==> filled && !emptied)
      && (error == Some(RequiredFieldEmpty) <==> emptied && !fits)
  {
    CanonicalKeepsValue(e.columns, e.name);
    hide CanonicalValue, RightColumns, Listed, Sent, Worthy, StoredAs, HasValue, NonEmpty;
  }

  /** ... and then the rules about its evidence. */
  lemma EditEvidenceAnswers(s: Store, e: FieldEdit)
    ensures
      var error := EditCall(s, e).1;
      var fits := MayEdit(s, e) && FitsReview(e);
      var bound := fits && (e.evidences != [] ==> s.row.value.currentSnapshot.Some?);
      var agreed := bound && !(e.noSourceEvidence && e.evidences != []);
      var sourced := agreed && (Sent(e.columns) ==> e.evidences != [] || e.noSourceEvidence);
      var placed := sourced && forall i :: 0 <= i < |e.evidences| ==>
                      var x := e.evidences[i];
                      x.locationStart <= x.locationEnd && (x.locationType == TextLineRange || x.locationStart == x.locationEnd);
      var stored := placed && (e.review == EmptyAccepted ==> !Sent(e.columns));
      && (error == Some(FieldEvidenceSnapshotRequired) <==> fits && !bound)
      && (error == Some(NoSourceEvidenceConflict) <==> bound && !agreed)
      && (error == Some(ManualEvidenceRequired) <==> agreed && !sourced)
      && (error == Some(FieldEvidenceLocationInvalid) <==> sourced && !placed)
      && (error == Some(FieldUpdateFailed) <==> placed && !stored)
      && (error.None? <==> stored)
  {
    CanonicalKeepsValue(e.columns, e.name);
    hide CanonicalValue, RightColumns, Listed, Sent, Worthy, StoredAs, HasValue, NonEmpty;
  }

  /** What a person's edit leaves in a field: a canonical value that fits its review,
      and evidence in the document's snapshot, at sound places, or the explicit mark
      that there is none. */
  predicate SoundManualValue(name: FieldName, v: FieldValue, snapshotId: Option<nat>) {
    && v.source == Some(Manual)
    && OwnColumnOnly(name, v.columns) && ReviewError(name, v.review, v.columns) == None
    && (HasValue(v.columns) ==> v.evidences != [] || v.noSourceEvidence)
    && !(v.noSourceEvidence && v.evidences != [])
    && forall i :: 0 <= i < |v.evidences| ==> Some(v.evidences[i].snapshotId) == snapshotId && !BadLocation(v.evidences[i].input)
  }

  /** An edit raises exactly when it changes nothing; otherwise the one field holds what
      was sent, as a sound manual value, with the review and the evidence that were sent;
      the version moves on, a document that was CONFIRMED or waits to be confirmed again
      loses its confirmation, and everything else stays. */
  lemma EditOutcome(site: Site, s: Store, e: FieldEdit)
    requires StoreOk(site, s)
    ensures
      var (after, error) := EditCall(s, e);
      && StoreOk(site, after)
      && (error.Some? <==> after == s)
      && (error.None? ==>
            && s.row.Some? && after.row.Some? && after == s.(row := after.row, audit := s.audit + [FieldUpdated])
            && var before, row := s.row.value, after.row.value;
               && before.version == e.expectedVersion && e.name in row.fields
               && row.fields == before.fields[e.name := row.fields[e.name]] && e.name in before.fields
               && EditedAs(e, row.fields[e.name], before.currentSnapshot)
               && SoundManualValue(e.name, row.fields[e.name], before.currentSnapshot)
               && (if before.status == PendingConfirmation then
                     row == before.(fields := row.fields, version := before.version + 1)
                   else
                     row == before.(fields := row.fields, version := before.version + 1, status := PendingReconfirmation,
                                    confirmedBy := None, finalHash := None, finalChunkCount := 0)))
  {
    hide StoreOk, CanonicalValue, ReviewError, OwnColumnOnly, StoredAs;
    var read := ReadForEdit(s, e);
    if read.Success? {
      CanonicalKeepsValue(e.columns, e.name);
      CanonicalIsStable(e.columns, e.name);
      assert BindEvidences(s.row.value.currentSnapshot, e.evidences) == [] <==> e.evidences == [];
    }
    EditWrites(site, s, e);
  }

  lemma EditStores(s: Store, e: FieldEdit)
    ensures
      var (after, error) := EditCall(s, e);
      error.None? ==>
        && s.row.Some? && after.row.Some? && e.name in after.row.value.fields
        && EditedAs(e, after.row.value.fields[e.name], s.row.value.currentSnapshot)
  {
    CanonicalKeepsValue(e.columns, e.name);
    hide CanonicalValue, ReviewError, StoredAs;
  }

  /** The field holds what the edit sent. */
  ghost predicate EditedAs(e: FieldEdit, v: FieldValue, snapshotId: Option<nat>) {
    && StoredAs(e.columns, v.columns) && v.source == Some(Manual)
    && v.review == e.review && v.noSourceEvidence == e.noSourceEvidence
    && |v.evidences| == |e.evidences|
    && forall i :: 0 <= i < |e.evidences| ==> v.evidences[i].input == e.evidences[i] && Some(v.evidences[i].snapshotId) == snapshotId
  }

  lemma EditWrites(site: Site, s: Store, e: FieldEdit)
    requires StoreOk(site, s)
    ensures
      var (after, error) := EditCall(s, e);
      && StoreOk(site, after)
      && (error.Some? <==> after == s)
  {
    hide StoreOk, CanonicalValue, ReviewError;
    var read := ReadForEdit(s, e);
    if read.Success? {
      assert ProcessOk(site, s, Editing(e, read.value));
      EditStep(site, s, e, read.value);
    }
  }
}
