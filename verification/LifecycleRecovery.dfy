/** Recovery and agreement: when a retried delete completes, when it never can, and
    when the vector store agrees with the confirmed snapshot. */
module LifecycleRecovery {
  import opened Wrappers
  import opened FinalChunks
  import P = Parsed
  import opened Archive
  import opened SuggestionReplies
  import opened Transactions
  import opened Lifecycle
  import opened LifecycleInvariant
  import opened LifecycleSafety

  // ---- when a delete may start -------------------------------------------

  lemma RunOne(site: Site, sys: System, steps: seq<Step>, step: Step)
    ensures Run(site, sys, steps + [step]) == Apply(site, Run(site, sys, steps), step)
  {
    assert (steps + [step])[..|steps|] == steps;
  }

  /** A run of six steps, written out. */
  lemma RunSix(site: Site, sys: System, a: Step, b: Step, c: Step, d: Step, e: Step, f: Step)
    ensures
      Run(site, sys, [a, b, c, d, e, f]) ==
      Apply(site, Apply(site, Apply(site, Apply(site, Apply(site, Apply(site, sys, a), b), c), d), e), f)
  {
    hide Apply;
    assert Run(site, sys, []) == sys;
    RunOne(site, sys, [], a);
    RunOne(site, sys, [a], b);
    RunOne(site, sys, [a, b], c);
    RunOne(site, sys, [a, b, c], d);
    RunOne(site, sys, [a, b, c, d], e);
    RunOne(site, sys, [a, b, c, d, e], f);
    assert [] + [a] == [a] && [a] + [b] == [a, b] && [a, b] + [c] == [a, b, c];
    assert [a, b, c] + [d] == [a, b, c, d] && [a, b, c, d] + [e] == [a, b, c, d, e];
    assert [a, b, c, d, e] + [f] == [a, b, c, d, e, f];
  }

  /** The caller may delete now: the project is theirs and no operation is RUNNING. */
  predicate MayDelete(site: Site, s: Store, actor: nat) {
    actor == site.ownerId && !AnyRunning(s.ops)
  }

  lemma BeginDeleteIffMay(site: Site, s: Store, actor: nat)
    requires s.row.Some?
    ensures BeginDelete(site, s, actor).Success? <==> MayDelete(site, s, actor)
  {
    if AnyRunning(s.ops) {
      var i :| 0 <= i < |s.ops| && s.ops[i].status == Running;
      assert s.ops[i].kind == Delete ==> FirstDelete(s.ops, Running).Some?;
    }
  }

  /** A failed attempt that has recorded its failure leaves a state from which the
      owner's next clean attempt completes. */
  lemma RecordedFailureCanBeRetried(site: Site, sys: System, p: ProcessId)
    requires Inv(site, sys) && p in sys.processes && sys.processes[p].DeleteFailing?
    ensures
      var after := Apply(site, sys, FailDelete(p));
      && after.store.row.Some? && after.store.row.value.fileStatus == DeleteFailed
      && Hidden(after.store) && MayDelete(site, after.store, site.ownerId)
  {
    var op := sys.processes[p].op;
    assert ProcessOk(site, sys.store, sys.processes[p]);
    var ops := Apply(site, sys, FailDelete(p)).store.ops;
    assert ops[op].kind == Delete && ops[op].status == Failed;
  }

  // ---- a stopped process ------------------------------------------------

  /** Operation `i` is RUNNING although no call is running it any more. */
  ghost predicate Orphaned(sys: System, i: nat) {
    && i < |sys.store.ops| && sys.store.ops[i].status == Running
    && forall p :: p in sys.processes ==> Runs(sys.processes[p]).None?
  }

  /** A step of a call that runs, or starts, an INDEX or a delete. */
  predicate Operates(step: Step) {
    || step.StartIndex? || step.CallIndex? || step.CommitIndex? || step.FailIndex? || step.StartDelete?
    || step.CallChunkDelete? || step.CommitCheckpoint? || step.CallFileDelete? || step.CommitDelete? || step.FailDelete?
  }

  lemma OrphanSurvivesOperations(site: Site, sys: System, step: Step, i: nat)
    requires Inv(site, sys) && Orphaned(sys, i) && Operates(step)
    ensures Orphaned(Apply(site, sys, step), i)
  {
    hide StoreOk, MemoryOk, Purged, Upserted, RemoveFiles, ChunksToIndex, LatestIndex, FirstDelete,
         ApplyParse, ApplySuggest, ApplyFailSuggest, ApplyStartRegenerate, ApplyFinishRegenerate, ApplyStartEdit, ApplyFinishEdit, ApplyConfirm,
         ApplyCancel, ApplyCallCleanup, ApplyFailCancel, ApplyElsewhere;
    assert AnyRunning(sys.store.ops);
  }

  /** Drafting looks at no operation and starts none. */
  lemma DraftingKeepsOperations(site: Site, sys: System, step: Step)
    requires step.Suggest? || step.FailSuggest? || step.StartRegenerate? || step.FinishRegenerate? || step.StartEdit? || step.FinishEdit?
    ensures
      var sys' := Apply(site, sys, step);
      && sys'.store.ops == sys.store.ops
      && forall p :: p in sys'.processes && Runs(sys'.processes[p]).Some? ==> p in sys.processes && sys'.processes[p] == sys.processes[p]
  {
    hide ReadForEdit, ReadForRegenerate, SuggestedDraft, RegenerateAllowed, Understood, BindEvidences;
  }

  lemma OrphanStays(site: Site, sys: System, step: Step, i: nat)
    requires Inv(site, sys) && Orphaned(sys, i)
    ensures Orphaned(Apply(site, sys, step), i)
  {
    if Operates(step) {
      OrphanSurvivesOperations(site, sys, step, i);
    } else if step.Suggest? || step.FailSuggest? || step.StartRegenerate? || step.FinishRegenerate? || step.StartEdit? || step.FinishEdit? {
      DraftingKeepsOperations(site, sys, step);
    } else {
      hide Inv, OthersOnly, Purged, BlankDraft, ConfirmationError, P.StoredSnapshot;
    }
  }

  /** The process that ran the operation stops: the operation stays RUNNING. */
  lemma StoppedRunnersLeaveOrphans(site: Site, sys: System, p: ProcessId)
    requires Inv(site, sys) && p in sys.processes && Runs(sys.processes[p]).Some?
    ensures Orphaned(Apply(site, sys, Stop(p)), Runs(sys.processes[p]).value)
  {
    assert ProcessOk(site, sys.store, sys.processes[p]);
  }

  /** After that no call ever completes a delete, or starts one, or INDEX: the
      operation row is never taken up again, in any run. */
  lemma {:induction false} OrphansBlockForever(site: Site, sys: System, i: nat, steps: seq<Step>, actor: nat)
    requires Inv(site, sys) && Orphaned(sys, i) && sys.store.row.Some?
    ensures
      var later := Run(site, sys, steps);
      && later.store.row.Some? && Orphaned(later, i)
      && BeginDelete(site, later.store, actor).Failure?
      && (BeginIndex(site, later.store).Failure?)
    decreases |steps|
  {
    var later := Run(site, sys, steps);
    if steps != [] {
      OrphansBlockForever(site, sys, i, steps[..|steps| - 1], actor);
      var before := Run(site, sys, steps[..|steps| - 1]);
      RunInv(site, sys, steps[..|steps| - 1]);
      OrphanStays(site, before, steps[|steps| - 1], i);
    }
    RunInv(site, sys, steps);
    assert later.store.ops[i].status == Running;
    BeginDeleteIffMay(site, later.store, actor);
  }

  // ---- the index agrees with the confirmed snapshot ---------------------

  /** What of the vector store belongs to the document. */
  ghost function MyRecords(site: Site, chroma: Chroma): Chroma {
    map id | id in chroma && chroma[id].scope.documentId == site.documentId :: chroma[id]
  }

  /** What INDEX makes of a snapshot. */
  function IndexOf(site: Site, snapshot: P.Snapshot): Chroma
    requires Acceptable(site.documentId, snapshot.row, Some(snapshot.payload))
  {
    Upserted(site, map[], Chunks(site.documentId, snapshot.row, snapshot.payload))
  }

  /** The snapshot's chunks are all in the vector store. */
  ghost predicate Indexed(site: Site, s: Store, count: nat) {
    && s.snapshot.Some?
    && var snapshot := s.snapshot.value;
       && Acceptable(site.documentId, snapshot.row, Some(snapshot.payload))
       && var chunks := Chunks(site.documentId, snapshot.row, snapshot.payload);
          && DistinctIds(chunks) && count == |chunks|
          && forall i :: 0 <= i < |chunks| ==>
                           chunks[i].chunkId in s.chroma && s.chroma[chunks[i].chunkId] == RecordFor(site, chunks[i])
  }

  /** A cancellation does not overlap an INDEX: it commits while no INDEX is under
      way, and no INDEX starts before its clean-up has ended. */
  ghost predicate CancelsAlone(sys: System, step: Step) {
    && (step.Cancel? ==> forall p :: p in sys.processes ==> !sys.processes[p].Indexing? && !sys.processes[p].IndexWritten?)
    && (step.StartIndex? ==> forall p :: p in sys.processes ==> !sys.processes[p].Cancelling?)
  }

  ghost predicate CancelsAloneInRun(site: Site, sys: System, steps: seq<Step>) {
    forall k :: 0 <= k < |steps| ==> CancelsAlone(Run(site, sys, steps[..k]), steps[k])
  }

  /** Whoever counts on the index finds it complete: an INDEX that has written, and
      a document that is not being deleted and has a positive chunk count. */
  ghost predicate Dependable(site: Site, sys: System) {
    && (forall p :: p in sys.processes && sys.processes[p].IndexWritten? ==> Indexed(site, sys.store, sys.processes[p].count))
    && (!Hidden(sys.store) && sys.store.row.value.finalChunkCount > 0 ==>
          Indexed(site, sys.store, sys.store.row.value.finalChunkCount))
  }

  /** Somebody counts on the index. */
  ghost predicate Depended(sys: System) {
    || (!Hidden(sys.store) && sys.store.row.value.finalChunkCount > 0)
    || exists p :: p in sys.processes && sys.processes[p].IndexWritten?
  }

  /** The step is a clean-up after a cancellation that takes a record of the document away. */
  ghost predicate RemovesRecords(site: Site, sys: System, step: Step) {
    && step.CallCleanup? && step.p in sys.processes && sys.processes[step.p].Cancelling?
    && MyRecords(site, Purged(sys.store.chroma, IndexScope(site), step.call)) != MyRecords(site, sys.store.chroma)
  }

  /** While a clean-up is due, nobody counts on the index. */
  ghost predicate CleanupsAreExpected(sys: System) {
    forall p :: p in sys.processes && sys.processes[p].Cancelling? ==>
      && (sys.store.row.Some? ==> sys.store.row.value.finalChunkCount == 0)
      && forall q :: q in sys.processes ==> !sys.processes[q].Indexing? && !sys.processes[q].IndexWritten?
  }

  /** A chunk of the list is stored under its id once the list is upserted, provided
      chunks with one id are one chunk. */
  lemma {:induction false} UpsertStores(site: Site, chroma: Chroma, chunks: seq<FinalChunk>, c: FinalChunk)
    requires forall i :: 0 <= i < |chunks| && chunks[i].chunkId == c.chunkId ==> chunks[i] == c
    requires c in chunks || (c.chunkId in chroma && chroma[c.chunkId] == RecordFor(site, c))
    ensures c.chunkId in Upserted(site, chroma, chunks) && Upserted(site, chroma, chunks)[c.chunkId] == RecordFor(site, c)
    decreases |chunks|
  {
    if chunks != [] && chunks[|chunks| - 1].chunkId != c.chunkId {
      UpsertStores(site, chroma, chunks[..|chunks| - 1], c);
    }
  }

  lemma UpsertKeepsIndexed(site: Site, s: Store, written: seq<FinalChunk>, count: nat)
    requires s.snapshot.Some? && Acceptable(site.documentId, s.snapshot.value.row, Some(s.snapshot.value.payload))
    requires DistinctIds(Chunks(site.documentId, s.snapshot.value.row, s.snapshot.value.payload))
    requires forall c :: c in written ==> c in Chunks(site.documentId, s.snapshot.value.row, s.snapshot.value.payload)
    requires Indexed(site, s, count) || written == Chunks(site.documentId, s.snapshot.value.row, s.snapshot.value.payload)
    ensures
      var s' := s.(chroma := Upserted(site, s.chroma, written));
      Indexed(site, s', |Chunks(site.documentId, s.snapshot.value.row, s.snapshot.value.payload)|)
    ensures Indexed(site, s, count) ==> count == |Chunks(site.documentId, s.snapshot.value.row, s.snapshot.value.payload)|
  {
    hide Acceptable, Chunks;
    var chunks := Chunks(site.documentId, s.snapshot.value.row, s.snapshot.value.payload);
    forall i | 0 <= i < |chunks|
      ensures
        var chroma := Upserted(site, s.chroma, written);
        chunks[i].chunkId in chroma && chroma[chunks[i].chunkId] == RecordFor(site, chunks[i])
    {
      forall j | 0 <= j < |written| && written[j].chunkId == chunks[i].chunkId
        ensures written[j] == chunks[i]
      {
        assert written[j] in chunks;
      }
      UpsertStores(site, s.chroma, written, chunks[i]);
    }
  }

  lemma CallIndexAgreement(site: Site, sys: System, p: ProcessId, call: Call<ChunkId>)
    requires Inv(site, sys) && Dependable(site, sys)
    ensures Dependable(site, ApplyCallIndex(site, sys, p, call))
  {
    hide StoreOk, Acceptable, Chunks, Indexed;
    if p in sys.processes && sys.processes[p].Indexing? {
      var s := sys.store;
      var r := sys.processes[p];
      assert ProcessOk(site, s, r);
      var chunks := ChunksToIndex(site, s, r.snapshot);
      if chunks.Some? {
        var written := if call.Completes? then chunks.value else Touched(chunks.value, call.touched);
        if call.Breaks? {
          TouchedAreChunks(chunks.value, call.touched);
        }
        var s' := s.(chroma := Upserted(site, s.chroma, written));
        if call.Completes? {
          UpsertKeepsIndexed(site, s, written, 0);
        }
        if !Hidden(s) && s.row.value.finalChunkCount > 0 {
          UpsertKeepsIndexed(site, s, written, s.row.value.finalChunkCount);
        }
      }
    }
  }

  /** `Indexed` reads only the snapshot and the document's own records. */
  lemma IndexedDependsOn(site: Site, s: Store, s': Store, count: nat)
    requires s'.snapshot == s.snapshot && Indexed(site, s, count)
    requires forall id :: id in s.chroma && s.chroma[id].scope.documentId == site.documentId ==>
                            id in s'.chroma && s'.chroma[id] == s.chroma[id]
    ensures Indexed(site, s', count)
  {}

  /** A call that is writing the index, or cleaning it up. */
  predicate TouchesIndex(process: Process) { process.Indexing? || process.IndexWritten? || process.Cancelling? }

  /** Neither the document's records nor the calls around the index change, and the
      count keeps its value or becomes zero. */
  ghost predicate RecordsUntouched(site: Site, sys: System, sys': System) {
    && sys'.store.snapshot == sys.store.snapshot
    && (forall id :: id in sys.store.chroma && sys.store.chroma[id].scope.documentId == site.documentId ==>
          id in sys'.store.chroma && sys'.store.chroma[id] == sys.store.chroma[id])
    && (forall p :: p in sys'.processes && TouchesIndex(sys'.processes[p]) ==>
          p in sys.processes && sys.processes[p] == sys'.processes[p])
    && (sys'.store.row.Some? ==>
          && sys.store.row.Some?
          && sys'.store.row.value.finalChunkCount in {0, sys.store.row.value.finalChunkCount})
  }

  ghost predicate IndexUntouched(site: Site, sys: System, sys': System) {
    RecordsUntouched(site, sys, sys') && (Hidden(sys.store) ==> Hidden(sys'.store))
  }

  lemma UntouchedKeepsAgreement(site: Site, sys: System, sys': System)
    requires Dependable(site, sys) && IndexUntouched(site, sys, sys')
    ensures Dependable(site, sys')
  {
    hide Indexed;
    forall count | Indexed(site, sys.store, count) ensures Indexed(site, sys'.store, count) {
      IndexedDependsOn(site, sys.store, sys'.store, count);
    }
  }

  /** The steps that are about something else. */
  predicate AsideFromIndex(step: Step) {
    !step.Parse? && !step.StartIndex? && !step.CallIndex? && !step.CommitIndex?
    && !step.Cancel? && !step.CallCleanup? && !step.CallChunkDelete? && !step.CommitDelete?
  }

  lemma DraftingKeepsRecords(site: Site, sys: System, p: ProcessId, retry: bool, reply: Option<Reply>)
    ensures RecordsUntouched(site, sys, sys.(store := CreateManualDraft(sys.store).Result(sys.store)))
    ensures RecordsUntouched(site, sys, ApplySuggest(sys, p, retry, reply))
    ensures RecordsUntouched(site, sys, ApplyFailSuggest(sys, p))
  {
    hide BlankDraft, SuggestedDraft, Understood;
  }

  lemma RegeneratingKeepsRecords(site: Site, sys: System, p: ProcessId, v: nat, reply: Option<Reply>)
    ensures RecordsUntouched(site, sys, ApplyStartRegenerate(sys, p, v))
    ensures RecordsUntouched(site, sys, ApplyFinishRegenerate(sys, p, reply))
  {
    hide SuggestedDraft, RegenerateAllowed, ReadForRegenerate;
  }

  lemma EditingKeepsRecords(site: Site, sys: System, p: ProcessId, e: FieldEdit)
    ensures RecordsUntouched(site, sys, ApplyStartEdit(sys, p, e))
    ensures RecordsUntouched(site, sys, ApplyFinishEdit(sys, p))
  {
    hide ReadForEdit;
  }

  lemma StartDeleteKeepsRecords(site: Site, sys: System, p: ProcessId, actor: nat)
    ensures RecordsUntouched(site, sys, ApplyStartDelete(site, sys, p, actor))
    ensures RecordsUntouched(site, sys, ApplyFailDelete(sys, p))
  {
    hide BeginDelete;
    if BeginDelete(site, sys.store, actor).Success? {
      BeginDeleteKeeps(site, sys.store, actor);
    }
  }

  lemma DeletingKeepsRecords(site: Site, sys: System, p: ProcessId, commits: bool, call: Call<StoredFile>)
    ensures RecordsUntouched(site, sys, ApplyCommitCheckpoint(sys, p, commits))
    ensures RecordsUntouched(site, sys, ApplyCallFileDelete(sys, p, call))
  {
    hide RemoveFiles;
  }

  lemma OtherCallsKeepRecords(site: Site, sys: System, p: ProcessId, v: nat, actor: nat, chroma: Chroma)
    ensures RecordsUntouched(site, sys, ApplyConfirm(site, sys, p, v, actor))
    ensures RecordsUntouched(site, sys, ApplyFailIndex(sys, p))
    ensures RecordsUntouched(site, sys, ApplyFailCancel(sys, p))
    ensures RecordsUntouched(site, sys, End(sys, sys.store, p))
    ensures RecordsUntouched(site, sys, ApplyElsewhere(site, sys, chroma))
  {
    hide ConfirmationError;
  }

  lemma AsideStepsKeepRecords(site: Site, sys: System, step: Step)
    requires AsideFromIndex(step)
    ensures RecordsUntouched(site, sys, Apply(site, sys, step))
  {
    hide RecordsUntouched, CreateManualDraft, ApplySuggest, ApplyFailSuggest, ApplyStartRegenerate, ApplyFinishRegenerate,
         ApplyStartEdit, ApplyFinishEdit, ApplyStartDelete, ApplyCommitCheckpoint, ApplyCallFileDelete, ApplyFailDelete,
         ApplyConfirm, ApplyFailIndex, ApplyFailCancel, ApplyElsewhere;
    match step
    case StartManualDraft => DraftingKeepsRecords(site, sys, 0, false, None);
    case Suggest(p, retry, reply) => DraftingKeepsRecords(site, sys, p, retry, reply);
    case FailSuggest(p) => DraftingKeepsRecords(site, sys, p, false, None);
    case StartRegenerate(p, v) => RegeneratingKeepsRecords(site, sys, p, v, None);
    case FinishRegenerate(p, reply) => RegeneratingKeepsRecords(site, sys, p, 0, reply);
    case StartEdit(p, e) => EditingKeepsRecords(site, sys, p, e);
    case FinishEdit(p) => EditingKeepsRecords(site, sys, p, FieldEdit(Title, NO_VALUE, PendingCheck, None, false, [], 0));
    case StartDelete(p, actor) => StartDeleteKeepsRecords(site, sys, p, actor);
    case FailDelete(p) => StartDeleteKeepsRecords(site, sys, p, 0);
    case CommitCheckpoint(p, commits) => DeletingKeepsRecords(site, sys, p, commits, Completes);
    case CallFileDelete(p, call) => DeletingKeepsRecords(site, sys, p, true, call);
    case Confirm(p, v, actor) => OtherCallsKeepRecords(site, sys, p, v, actor, map[]);
    case FailIndex(p) => OtherCallsKeepRecords(site, sys, p, 0, 0, map[]);
    case FailCancel(p) => OtherCallsKeepRecords(site, sys, p, 0, 0, map[]);
    case Stop(p) => OtherCallsKeepRecords(site, sys, p, 0, 0, map[]);
    case Elsewhere(chroma) => OtherCallsKeepRecords(site, sys, 0, 0, 0, chroma);
  }

  lemma AsideStepsKeepIndex(site: Site, sys: System, step: Step)
    requires Inv(site, sys) && AsideFromIndex(step)
    ensures IndexUntouched(site, sys, Apply(site, sys, step))
  {
    hide Inv, Apply, RecordsUntouched, Hidden;
    AsideStepsKeepRecords(site, sys, step);
    if Hidden(sys.store) {
      HiddenStays(site, sys, step);
    }
  }

  lemma StartIndexAgreement(site: Site, sys: System, p: ProcessId)
    requires Inv(site, sys) && Dependable(site, sys)
    ensures Dependable(site, ApplyStartIndex(site, sys, p))
  {
    hide StoreOk, Acceptable, Chunks, ConfirmationError, DistinctIds, Indexed, OneRunner, OperationOk, MemoryOk;
    var sys' := ApplyStartIndex(site, sys, p);
    forall count | Indexed(site, sys.store, count) ensures Indexed(site, sys'.store, count) {
      IndexedDependsOn(site, sys.store, sys'.store, count);
    }
    if Hidden(sys.store) {
      HiddenStays(site, sys, StartIndex(p));
    }
  }

  lemma CommitIndexAgreement(site: Site, sys: System, p: ProcessId, commits: bool)
    requires Inv(site, sys) && Dependable(site, sys)
    ensures Dependable(site, ApplyCommitIndex(sys, p, commits))
  {
    hide StoreOk, Acceptable, Chunks, ConfirmationError, DistinctIds, Indexed, OneRunner, OperationOk, MemoryOk;
    var sys' := ApplyCommitIndex(sys, p, commits);
    forall count | Indexed(site, sys.store, count) ensures Indexed(site, sys'.store, count) {
      IndexedDependsOn(site, sys.store, sys'.store, count);
    }
    if Hidden(sys.store) {
      HiddenStays(site, sys, CommitIndex(p, commits));
    }
  }

  lemma CancelAgreement(site: Site, sys: System, p: ProcessId, v: nat)
    requires Inv(site, sys) && Dependable(site, sys)
    ensures Dependable(site, ApplyCancel(site, sys, p, v))
  {
    hide StoreOk, Acceptable, Chunks, ConfirmationError, DistinctIds, Indexed, OneRunner, OperationOk, MemoryOk, Purged;
    var sys' := ApplyCancel(site, sys, p, v);
    forall count | Indexed(site, sys.store, count) ensures Indexed(site, sys'.store, count) {
      IndexedDependsOn(site, sys.store, sys'.store, count);
    }
  }

  /** A record less, and the index is no longer complete under any count. */
  lemma RemovalLeavesNoIndex(site: Site, s: Store, s': Store, id: ChunkId, count: nat)
    requires StoreOk(site, s) && s'.snapshot == s.snapshot
    requires id in s.chroma && s.chroma[id].scope.documentId == site.documentId && id !in s'.chroma
    ensures !Indexed(site, s', count)
  {
    hide Acceptable, Chunks, ConfirmationError, DistinctIds;
    assert BuiltRecord(site, s, id, s.chroma[id]);
    var chunks := Chunks(site.documentId, s.snapshot.value.row, s.snapshot.value.payload);
    var i :| 0 <= i < |chunks| && chunks[i] == s.chroma[id].chunk;
    assert chunks[i].chunkId == id;
  }

  lemma CleanupAgreement(site: Site, sys: System, p: ProcessId, call: Call<ChunkId>)
    requires Inv(site, sys) && Dependable(site, sys)
    ensures Dependable(site, ApplyCallCleanup(site, sys, p, call)) <==>
            !(RemovesRecords(site, sys, CallCleanup(p, call)) && Depended(sys))
  {
    hide StoreOk, ProcessOk, OneRunner, Indexed, Hidden;
    var sys' := ApplyCallCleanup(site, sys, p, call);
    var before, after := MyRecords(site, sys.store.chroma), MyRecords(site, Purged(sys.store.chroma, IndexScope(site), call));
    HiddenReads(sys.store, sys'.store);
    HiddenHasRow(sys.store);
    if RemovesRecords(site, sys, CallCleanup(p, call)) {
      assert forall id :: id in after ==> id in before && after[id] == before[id];
      var id :| id in before && id !in after;
      forall count ensures !Indexed(site, sys'.store, count) {
        RemovalLeavesNoIndex(site, sys.store, sys'.store, id, count);
      }
      if q :| q in sys.processes && sys.processes[q].IndexWritten? {
        assert q != p && q in sys'.processes && sys'.processes[q].IndexWritten?;
      }
    } else {
      forall id | id in sys.store.chroma && sys.store.chroma[id].scope.documentId == site.documentId
        ensures id in sys'.store.chroma && sys'.store.chroma[id] == sys.store.chroma[id]
      {
        if sys' != sys {
          assert id in before;
          assert id in after;
        }
      }
      UntouchedKeepsAgreement(site, sys, sys');
    }
  }

  lemma HiddenHasRow(s: Store)
    ensures !Hidden(s) ==> s.row.Some?
  {}

  lemma HiddenReads(s: Store, s': Store)
    requires s'.row == s.row && s'.ops == s.ops
    ensures Hidden(s') == Hidden(s)
  {}

  lemma DeleteAgreement(site: Site, sys: System, p: ProcessId, call: Call<ChunkId>, commits: bool)
    requires Inv(site, sys) && Dependable(site, sys)
    ensures Dependable(site, ApplyCallChunkDelete(site, sys, p, call))
    ensures Dependable(site, ApplyCommitDelete(sys, p, commits))
  {
    hide StoreOk, Acceptable, Chunks, ConfirmationError, DistinctIds, Indexed, MemoryOk, Purged;
    if p in sys.processes && sys.processes[p].DeletingDocument? {
      assert ProcessOk(site, sys.store, sys.processes[p]);
      assert Hidden(sys.store);
      var sys' := ApplyCommitDelete(sys, p, commits);
      if sys'.store.row.Some? {
        UntouchedKeepsAgreement(site, sys, sys');
      }
    }
  }

  lemma ParseAgreement(site: Site, sys: System, retry: bool, id: nat, parsed: Option<P.ParsedArchiveDocument>)
    requires Inv(site, sys) && Dependable(site, sys)
    ensures Dependable(site, ApplyParse(site, sys, retry, id, parsed))
  {
    hide Acceptable, Chunks, ConfirmationError, DistinctIds, RecordsOk;
  }

  /** Exactly one kind of step can take the index from somebody who counts on it: a
      clean-up after a cancellation that comes after the document was indexed again. */
  lemma IndexStaysDependableIff(site: Site, sys: System, step: Step)
    requires Inv(site, sys) && Dependable(site, sys)
    ensures Dependable(site, Apply(site, sys, step)) <==> !(RemovesRecords(site, sys, step) && Depended(sys))
  {
    hide Inv, Dependable, IndexUntouched, Depended;
    match step
    case Parse(retry, id, parsed) => ParseAgreement(site, sys, retry, id, parsed);
    case StartIndex(p) => StartIndexAgreement(site, sys, p);
    case CallIndex(p, call) => CallIndexAgreement(site, sys, p, call);
    case CommitIndex(p, commits) => CommitIndexAgreement(site, sys, p, commits);
    case Cancel(p, v) => CancelAgreement(site, sys, p, v);
    case CallCleanup(p, call) => CleanupAgreement(site, sys, p, call);
    case CallChunkDelete(p, call) => DeleteAgreement(site, sys, p, call, true);
    case CommitDelete(p, commits) => DeleteAgreement(site, sys, p, Completes, commits);
    case _ =>
      AsideStepsKeepIndex(site, sys, step);
      UntouchedKeepsAgreement(site, sys, Apply(site, sys, step));
  }

  lemma IndexingKeepsCleanupsExpected(site: Site, sys: System, p: ProcessId, call: Call<ChunkId>, commits: bool)
    requires CleanupsAreExpected(sys)
    ensures
      (forall q :: q in sys.processes ==> !sys.processes[q].Cancelling?) ==>
        CleanupsAreExpected(ApplyStartIndex(site, sys, p))
    ensures CleanupsAreExpected(ApplyCallIndex(site, sys, p, call))
    ensures CleanupsAreExpected(ApplyCommitIndex(sys, p, commits))
  {
    hide Acceptable, Chunks, DistinctIds, Upserted, ChunksToIndex, AnyRunning, LatestIndex;
  }

  lemma CleaningKeepsCleanupsExpected(site: Site, sys: System, p: ProcessId, v: nat, call: Call<ChunkId>, commits: bool)
    requires CleanupsAreExpected(sys)
    ensures
      (forall q :: q in sys.processes ==> !sys.processes[q].Indexing? && !sys.processes[q].IndexWritten?) ==>
        CleanupsAreExpected(ApplyCancel(site, sys, p, v))
    ensures CleanupsAreExpected(ApplyCallCleanup(site, sys, p, call))
    ensures CleanupsAreExpected(ApplyCallChunkDelete(site, sys, p, call))
    ensures CleanupsAreExpected(ApplyCommitDelete(sys, p, commits))
  {
    hide Purged;
  }

  lemma CleanupsStayExpected(site: Site, sys: System, step: Step)
    requires CleanupsAreExpected(sys) && CancelsAlone(sys, step)
    ensures CleanupsAreExpected(Apply(site, sys, step))
  {
    hide ApplyParse, ApplyStartIndex, ApplyCallIndex, ApplyCommitIndex, ApplyCancel, ApplyCallCleanup,
         ApplyCallChunkDelete, ApplyCommitDelete, CleanupsAreExpected;
    match step
    case Parse(retry, id, parsed) => ParsingIsAlone(site, sys, retry, id, parsed);
    case StartIndex(p) => IndexingKeepsCleanupsExpected(site, sys, p, Completes, true);
    case CallIndex(p, call) => IndexingKeepsCleanupsExpected(site, sys, p, call, true);
    case CommitIndex(p, commits) => IndexingKeepsCleanupsExpected(site, sys, p, Completes, commits);
    case Cancel(p, v) => CleaningKeepsCleanupsExpected(site, sys, p, v, Completes, true);
    case CallCleanup(p, call) => CleaningKeepsCleanupsExpected(site, sys, p, 0, call, true);
    case CallChunkDelete(p, call) => CleaningKeepsCleanupsExpected(site, sys, p, 0, call, true);
    case CommitDelete(p, commits) => CleaningKeepsCleanupsExpected(site, sys, p, 0, Completes, commits);
    case _ =>
      hide Apply, RecordsUntouched;
      AsideStepsKeepRecords(site, sys, step);
      UntouchedKeepsCleanups(site, sys, Apply(site, sys, step));
  }

  lemma UntouchedKeepsCleanups(site: Site, sys: System, sys': System)
    requires CleanupsAreExpected(sys) && RecordsUntouched(site, sys, sys')
    ensures CleanupsAreExpected(sys')
  {}

  lemma ParsingIsAlone(site: Site, sys: System, retry: bool, id: nat, parsed: Option<P.ParsedArchiveDocument>)
    requires CleanupsAreExpected(sys)
    ensures CleanupsAreExpected(ApplyParse(site, sys, retry, id, parsed))
  {}

  lemma ExpectedCleanupsHurtNobody(site: Site, sys: System, step: Step)
    requires CleanupsAreExpected(sys)
    ensures !(RemovesRecords(site, sys, step) && Depended(sys))
  {
    hide Hidden, MyRecords, Purged;
    if step.CallCleanup? && step.p in sys.processes && sys.processes[step.p].Cancelling? {
      HiddenHasRow(sys.store);
    }
  }

  lemma FreshDocumentAgrees(site: Site, sys: System)
    requires Initial(site, sys)
    ensures Dependable(site, sys) && CleanupsAreExpected(sys)
  {}

  lemma {:induction false} RunAgreement(site: Site, start: System, steps: seq<Step>)
    requires Initial(site, start) && CancelsAloneInRun(site, start, steps)
    ensures Dependable(site, Run(site, start, steps)) && CleanupsAreExpected(Run(site, start, steps))
    decreases |steps|
  {
    hide Inv, Initial, Apply, Dependable, CleanupsAreExpected, CancelsAlone, RemovesRecords, Depended;
    InitialInv(site, start);
    if steps == [] {
      FreshDocumentAgrees(site, start);
    } else {
      var n := |steps| - 1;
      forall k | 0 <= k < n ensures CancelsAlone(Run(site, start, steps[..n][..k]), steps[..n][k]) {
        assert steps[..n][..k] == steps[..k];
      }
      RunAgreement(site, start, steps[..n]);
      RunInv(site, start, steps[..n]);
      var sys := Run(site, start, steps[..n]);
      IndexStaysDependableIff(site, sys, steps[n]);
      CleanupsStayExpected(site, sys, steps[n]);
      ExpectedCleanupsHurtNobody(site, sys, steps[n]);
    }
  }

  lemma {:induction false} UpsertedSize(site: Site, chunks: seq<FinalChunk>)
    requires DistinctIds(chunks)
    ensures |Upserted(site, map[], chunks)| == |chunks|
    ensures forall id :: id in Upserted(site, map[], chunks) ==> exists i :: 0 <= i < |chunks| && chunks[i].chunkId == id
    decreases |chunks|
  {
    if chunks != [] {
      var n := |chunks| - 1;
      UpsertedSize(site, chunks[..n]);
      assert chunks[n].chunkId !in Upserted(site, map[], chunks[..n]);
      forall id | id in Upserted(site, map[], chunks)
        ensures exists i :: 0 <= i < |chunks| && chunks[i].chunkId == id
      {
        if id == chunks[n].chunkId {
        } else {
          var i :| 0 <= i < n && chunks[..n][i].chunkId == id;
          assert chunks[i].chunkId == id;
        }
      }
    }
  }

  lemma IndexedIsExact(site: Site, s: Store, count: nat)
    requires StoreOk(site, s) && Indexed(site, s, count)
    ensures MyRecords(site, s.chroma) == IndexOf(site, s.snapshot.value)
    ensures |IndexOf(site, s.snapshot.value)| == count
  {
    hide Acceptable, Chunks, ConfirmationError;
    var chunks := Chunks(site.documentId, s.snapshot.value.row, s.snapshot.value.payload);
    var mine, index := MyRecords(site, s.chroma), IndexOf(site, s.snapshot.value);
    UpsertedSize(site, chunks);
    forall id | id in index ensures id in mine && mine[id] == index[id] {
      var i :| 0 <= i < |chunks| && chunks[i].chunkId == id;
      assert forall j :: 0 <= j < |chunks| && chunks[j].chunkId == chunks[i].chunkId ==> chunks[j] == chunks[i];
      UpsertStores(site, map[], chunks, chunks[i]);
    }
    forall id | id in mine ensures id in index {
      assert BuiltRecord(site, s, id, s.chroma[id]);
      var c := s.chroma[id].chunk;
      var i :| 0 <= i < |chunks| && chunks[i] == c;
      assert forall j :: 0 <= j < |chunks| && chunks[j].chunkId == c.chunkId ==> chunks[j] == c;
      UpsertStores(site, map[], chunks, c);
    }
  }

  /** Whatever fails or half-completes and in whatever order, every record of the
      document is one its snapshot gives. */
  lemma RecordsComeFromTheSnapshot(site: Site, start: System, steps: seq<Step>, id: ChunkId)
    requires Initial(site, start)
    requires
      var chroma := Run(site, start, steps).store.chroma;
      id in chroma && chroma[id].scope.documentId == site.documentId
    ensures
      var s := Run(site, start, steps).store;
      && s.row.Some? && s.snapshot.Some?
      && Acceptable(site.documentId, s.snapshot.value.row, Some(s.snapshot.value.payload))
      && s.chroma[id].chunk in Chunks(site.documentId, s.snapshot.value.row, s.snapshot.value.payload)
      && s.chroma[id] == RecordFor(site, s.chroma[id].chunk) && s.chroma[id].chunk.chunkId == id
  {
    InitialInv(site, start);
    RunInv(site, start, steps);
    var s := Run(site, start, steps).store;
    assert BuiltRecord(site, s, id, s.chroma[id]);
  }

  /** While cancellations do not overlap INDEX, a formal document with a positive
      chunk count is indexed exactly: its records are the snapshot's chunks, no more
      and no fewer, and the count is their number. */
  lemma IndexAgreesWithSnapshot(site: Site, start: System, steps: seq<Step>)
    requires Initial(site, start) && CancelsAloneInRun(site, start, steps)
    ensures
      var s := Run(site, start, steps).store;
      Formal(s) && s.row.value.finalChunkCount > 0 ==>
        && s.snapshot.Some?
        && Acceptable(site.documentId, s.snapshot.value.row, Some(s.snapshot.value.payload))
        && MyRecords(site, s.chroma) == IndexOf(site, s.snapshot.value)
        && s.row.value.finalChunkCount == |IndexOf(site, s.snapshot.value)|
  {
    InitialInv(site, start);
    RunInv(site, start, steps);
    RunAgreement(site, start, steps);
    FormalIffConfirmedAndNotBeingDeleted(site, start, steps);
    var s := Run(site, start, steps).store;
    if Formal(s) && s.row.value.finalChunkCount > 0 {
      IndexedIsExact(site, s, s.row.value.finalChunkCount);
    }
  }

  /** Somebody cancels; before the clean-up reaches the vector store, somebody else
      confirms again and INDEX writes; then the clean-up takes the new chunks away. */
  function LateCleanup(v: nat, actor: nat): seq<Step> {
    [Cancel(0, v), Confirm(1, v + 1, actor), StartIndex(1), CallIndex(1, Completes),
     CallCleanup(0, Completes), CommitIndex(1, true)]
  }

  lemma LateCleanupUnfolds(site: Site, sys: System, v: nat, actor: nat)
    ensures
      Run(site, sys, LateCleanup(v, actor)) ==
      ApplyCommitIndex(
        ApplyCallCleanup(site,
          ApplyCallIndex(site,
            ApplyStartIndex(site,
              ApplyConfirm(site, ApplyCancel(site, sys, 0, v), 1, v + 1, actor), 1), 1, Completes),
          0, Completes),
        1, true)
  {
    hide ApplyCancel, ApplyConfirm, ApplyStartIndex, ApplyCallIndex, ApplyCallCleanup, ApplyCommitIndex;
    RunSix(site, sys, Cancel(0, v), Confirm(1, v + 1, actor), StartIndex(1), CallIndex(1, Completes),
           CallCleanup(0, Completes), CommitIndex(1, true));
  }

  /** Every formal, fully indexed document with no call in flight can be brought by
      that overlap into a state where it is formal, claims all its chunks, and has
      none: the condition on overlap cannot be dropped. */
  lemma OverlappingCancelEmptiesTheIndex(site: Site, sys: System, actor: nat)
    requires Inv(site, sys) && sys.processes == map[] && Formal(sys.store) && !AnyRunning(sys.store.ops)
    requires SnapshotFile in sys.store.files && site.kbId == site.projectKbId
    requires Indexed(site, sys.store, sys.store.row.value.finalChunkCount)
    ensures
      var s := Run(site, sys, LateCleanup(sys.store.row.value.version, actor)).store;
      && Formal(s) && s.row.value.finalChunkCount > 0
      && NoRecords(site, s.chroma)
  {
    hide Acceptable, Chunks, ConfirmationError, Upserted, Purged, StoreOk, MemoryOk, OperationOk;
    var v := sys.store.row.value.version;
    LateCleanupUnfolds(site, sys, v, actor);
    var s1 := ApplyCancel(site, sys, 0, v);
    var s2 := ApplyConfirm(site, s1, 1, v + 1, actor);
    ReconfirmSteps(site, sys, v, actor);
    CancelInv(site, sys, 0, v, Completes);
    ConfirmInv(site, s1, 1, v + 1, actor);
    StartIndexInv(site, s2, 1);
    ChunkCountPositive(site, sys.store, sys.store.row.value.finalChunkCount);
    CleanupAfterIndex(site, ApplyStartIndex(site, s2, 1), |sys.store.ops|);
  }

  /** INDEX writes, the late clean-up removes, INDEX commits. */
  lemma CleanupAfterIndex(site: Site, s3: System, op: nat)
    requires Inv(site, s3) && s3.store.snapshot.Some?
    requires s3.processes == map[0 := Cancelling, 1 := Indexing(op, s3.store.snapshot.value)]
    requires s3.store.row.Some? && s3.store.row.value.status == Confirmed && SnapshotFile in s3.store.files
    requires |s3.store.ops| == op + 1 && !Blocked(s3.store.ops[..op]) && !s3.store.ops[op].blocking
    requires ChunksToIndex(site, s3.store, s3.store.snapshot.value).Some?
    requires |ChunksToIndex(site, s3.store, s3.store.snapshot.value).value| > 0
    ensures
      var s := ApplyCommitIndex(
                 ApplyCallCleanup(site, ApplyCallIndex(site, s3, 1, Completes), 0, Completes), 1, true).store;
      && Formal(s) && s.row.value.finalChunkCount > 0
      && NoRecords(site, s.chroma)
  {
    hide Acceptable, Chunks, ConfirmationError, Upserted, Purged, ChunksToIndex, StoreOk, ProcessOk, OneRunner, NoRecords;
    var snapshot := s3.store.snapshot.value;
    var count := |ChunksToIndex(site, s3.store, snapshot).value|;
    var s4 := ApplyCallIndex(site, s3, 1, Completes);
    assert s4.processes == map[0 := Cancelling, 1 := IndexWritten(op, snapshot, count)];
    CallIndexInv(site, s3, 1, Completes);
    PurgeRemovesAll(site, s4.store);
    var s5 := ApplyCallCleanup(site, s4, 0, Completes);
    assert s5.processes == map[1 := IndexWritten(op, snapshot, count)];
    var s6 := ApplyCommitIndex(s5, 1, true);
    forall i | 0 <= i < |s6.store.ops| ensures !(s6.store.ops[i].blocking && Unfinished(s6.store.ops[i])) {
      if i < op {
        assert s6.store.ops[i] == s3.store.ops[..op][i];
      }
    }
  }

  /** The cancelled document can be confirmed again at once, and INDEX starts. */
  lemma ReconfirmSteps(site: Site, sys: System, v: nat, actor: nat)
    requires Inv(site, sys) && sys.processes == map[] && Formal(sys.store) && !AnyRunning(sys.store.ops)
    requires site.kbId == site.projectKbId && v == sys.store.row.value.version
    ensures
      var s2 := ApplyConfirm(site, ApplyCancel(site, sys, 0, v), 1, v + 1, actor);
      var s3 := ApplyStartIndex(site, s2, 1);
      var s := sys.store;
      && s.snapshot.Some?
      && s3.processes == map[0 := Cancelling, 1 := Indexing(|s.ops|, s.snapshot.value)]
      && s3.store.row.Some? && s3.store.row.value.status == Confirmed
      && s3.store.snapshot == s.snapshot && s3.store.chroma == s.chroma && s3.store.files == s.files
      && |s3.store.ops| == |s.ops| + 1 && s3.store.ops[..|s.ops|] == s.ops && !s3.store.ops[|s.ops|].blocking
  {
    hide Acceptable, Chunks, ConfirmationError, OpsOk, RecordsOk, AuditOk;
    var s1 := ApplyCancel(site, sys, 0, v);
    assert s1.processes == map[0 := Cancelling];
    var s2 := ApplyConfirm(site, s1, 1, v + 1, actor);
    assert s2.processes == map[0 := Cancelling, 1 := ReadyToIndex];
    assert s2.store.ops == sys.store.ops;
  }

  lemma ChunkCountPositive(site: Site, s: Store, count: nat)
    requires Indexed(site, s, count)
    ensures count > 0
  {}
}
