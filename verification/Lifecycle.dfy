/** One archived document under concurrent service calls. A step is one piece of a
    call between two commits or external calls; steps of different calls may come in
    any order, every external call may break half-way, and a process may stop
    between any two of its steps. */
module Lifecycle {
  import opened Wrappers
  import opened FinalChunks
  import P = Parsed
  import opened Archive
  import opened SuggestionReplies
  import opened Transactions

  /** What a delete has done so far. */
  datatype DeleteStage =
    | AtChroma
    | ChunksGone
    | AtFiles(hasSnapshot: bool)
    | FilesGone(hasSnapshot: bool)
    | ReadyToFinish(hasSnapshot: bool)

  /** Where a call in flight stands, with what it holds in memory. */
  datatype Process =
    | SuggestionFailing(version: nat)
    | Editing(edit: FieldEdit, ticket: EditTicket)
    | Regenerating(expectedVersion: nat, draft: RegenerateTicket)
    | ReadyToIndex
    | Indexing(op: nat, snapshot: P.Snapshot)
    | IndexWritten(op: nat, snapshot: P.Snapshot, count: nat)
    | IndexFailing(op: nat)
    | Cancelling
    | CancelFailing
    | DeletingDocument(op: nat, stage: DeleteStage)
    | DeleteFailing(op: nat)

  type ProcessId = nat

  datatype System = System(store: Store, processes: map<ProcessId, Process>)

  datatype Step =
    | Parse(retry: bool, id: nat, parsed: Option<P.ParsedArchiveDocument>)
    | StartManualDraft
    | Suggest(p: ProcessId, retry: bool, reply: Option<Reply>)
    | FailSuggest(p: ProcessId)
    | StartRegenerate(p: ProcessId, expectedVersion: nat)
    | FinishRegenerate(p: ProcessId, reply: Option<Reply>)
    | StartEdit(p: ProcessId, edit: FieldEdit)
    | FinishEdit(p: ProcessId)
    | Confirm(p: ProcessId, expectedVersion: nat, actor: nat)
    | StartIndex(p: ProcessId)
    | CallIndex(p: ProcessId, call: Call<ChunkId>)
    | CommitIndex(p: ProcessId, commits: bool)
    | FailIndex(p: ProcessId)
    | Cancel(p: ProcessId, expectedVersion: nat)
    | CallCleanup(p: ProcessId, call: Call<ChunkId>)
    | FailCancel(p: ProcessId)
    | StartDelete(p: ProcessId, actor: nat)
    | CallChunkDelete(p: ProcessId, call: Call<ChunkId>)
    | CommitCheckpoint(p: ProcessId, commits: bool)
    | CallFileDelete(p: ProcessId, fileCall: Call<StoredFile>)
    | CommitDelete(p: ProcessId, commits: bool)
    | FailDelete(p: ProcessId)
    | Stop(p: ProcessId)
    | Elsewhere(chroma: Chroma)

  function Begin(sys: System, store: Store, p: ProcessId, process: Process): System {
    System(store, sys.processes[p := process])
  }

  function End(sys: System, store: Store, p: ProcessId): System {
    System(store, sys.processes - {p})
  }

  /** Calls on other documents change the vector store, never this document's records. */
  ghost predicate OthersOnly(site: Site, before: Chroma, after: Chroma) {
    && (forall id :: id in before && before[id].scope.documentId == site.documentId ==> id in after && after[id] == before[id])
    && (forall id :: id in after && after[id].scope.documentId == site.documentId ==> id in before && before[id] == after[id])
  }

  // ---- steps of each call; a step that is not due leaves everything as it was ----

  /** Parsing is taken as finished before other calls touch the document. */
  function ApplyParse(site: Site, sys: System, retry: bool, id: nat, parsed: Option<P.ParsedArchiveDocument>): System {
    if sys.processes == map[] && sys.store.ops == [] then
      sys.(store := ParseDocument(site, sys.store, retry, id, parsed).Result(sys.store))
    else sys
  }

  /** The row stays locked during the model call; a failure gives up the lock before it
      is recorded. */
  function ApplySuggest(sys: System, p: ProcessId, retry: bool, reply: Option<Reply>): System {
    var t := GenerateSuggestions(sys.store, retry, Understood(PayloadIn(sys.store), reply));
    if p in sys.processes || t.Refused? then sys
    else if t.Done? then sys.(store := t.after)
    else Begin(sys, sys.store, p, SuggestionFailing(sys.store.row.value.version))
  }

  function ApplyFailSuggest(sys: System, p: ProcessId): System {
    if p !in sys.processes || !sys.processes[p].SuggestionFailing? then sys
    else End(sys, RecordSuggestionFailure(sys.store), p)
  }

  function ApplyStartRegenerate(sys: System, p: ProcessId, v: nat): System {
    var read := ReadForRegenerate(sys.store, v);
    if p in sys.processes || read.Failure? then sys
    else Begin(sys, sys.store, p, Regenerating(v, read.value))
  }

  function ApplyFinishRegenerate(sys: System, p: ProcessId, reply: Option<Reply>): System {
    if p !in sys.processes || !sys.processes[p].Regenerating? then sys
    else
      var r := sys.processes[p];
      var suggestions := Understood(Some(r.draft.payload), reply);
      if suggestions.None? then End(sys, sys.store, p)
      else End(sys, WriteRegenerated(sys.store, r.expectedVersion, r.draft.snapshotId, suggestions.value).Result(sys.store), p)
  }

  function ApplyStartEdit(sys: System, p: ProcessId, e: FieldEdit): System {
    var read := ReadForEdit(sys.store, e);
    if p in sys.processes || read.Failure? then sys
    else Begin(sys, sys.store, p, Editing(e, read.value))
  }

  function ApplyFinishEdit(sys: System, p: ProcessId): System {
    if p !in sys.processes || !sys.processes[p].Editing? then sys
    else
      var r := sys.processes[p];
      End(sys, WriteEdit(sys.store, r.edit, r.ticket).Result(sys.store), p)
  }

  function ApplyConfirm(site: Site, sys: System, p: ProcessId, v: nat, actor: nat): System {
    var r := ConfirmDocument(site, sys.store, v, actor);
    if p in sys.processes || r.Failure? then sys
    else
      match r.value
      case Promoted(after) => Begin(sys, after, p, ReadyToIndex)
      case Replayed(index) => if index then Begin(sys, sys.store, p, ReadyToIndex) else sys
  }

  function ApplyStartIndex(site: Site, sys: System, p: ProcessId): System {
    if p !in sys.processes || !sys.processes[p].ReadyToIndex? then sys
    else
      var r := BeginIndex(site, sys.store);
      if r.Success? && r.value.Begun? then Begin(sys, r.value.after, p, Indexing(r.value.op, r.value.snapshot))
      else End(sys, sys.store, p)
  }

  function ApplyCallIndex(site: Site, sys: System, p: ProcessId, call: Call<ChunkId>): System {
    if p !in sys.processes || !sys.processes[p].Indexing? then sys
    else
      var r := sys.processes[p];
      var (after, count) := WriteIndex(site, sys.store, r.snapshot, call);
      Begin(sys, after, p, if count.Some? then IndexWritten(r.op, r.snapshot, count.value) else IndexFailing(r.op))
  }

  function ApplyCommitIndex(sys: System, p: ProcessId, commits: bool): System {
    if p !in sys.processes || !sys.processes[p].IndexWritten? then sys
    else
      var r := sys.processes[p];
      var t := FinishIndex(sys.store, r.op, r.snapshot.row.snapshotHash, r.count);
      if commits && t.Done? then End(sys, t.after, p)
      else Begin(sys, sys.store, p, IndexFailing(r.op))
  }

  function ApplyFailIndex(sys: System, p: ProcessId): System {
    if p !in sys.processes || !sys.processes[p].IndexFailing? then sys
    else End(sys, RecordIndexFailure(sys.store, sys.processes[p].op), p)
  }

  function ApplyCancel(site: Site, sys: System, p: ProcessId, v: nat): System {
    var t := CancelConfirmation(site, sys.store, v);
    if p in sys.processes || !t.Done? then sys
    else Begin(sys, t.after, p, Cancelling)
  }

  function ApplyCallCleanup(site: Site, sys: System, p: ProcessId, call: Call<ChunkId>): System {
    if p !in sys.processes || !sys.processes[p].Cancelling? then sys
    else
      var after := sys.store.(chroma := Purged(sys.store.chroma, IndexScope(site), call));
      if call.Completes? then End(sys, after, p) else Begin(sys, after, p, CancelFailing)
  }

  function ApplyFailCancel(sys: System, p: ProcessId): System {
    if p !in sys.processes || !sys.processes[p].CancelFailing? then sys
    else End(sys, RecordCleanupFailure(sys.store), p)
  }

  function ApplyStartDelete(site: Site, sys: System, p: ProcessId, actor: nat): System {
    var r := BeginDelete(site, sys.store, actor);
    if p in sys.processes || r.Failure? then sys
    else Begin(sys, r.value.after, p, DeletingDocument(r.value.op, AtChroma))
  }

  function ApplyCallChunkDelete(site: Site, sys: System, p: ProcessId, call: Call<ChunkId>): System {
    if p !in sys.processes || !sys.processes[p].DeletingDocument? || !sys.processes[p].stage.AtChroma? then sys
    else
      var op := sys.processes[p].op;
      var after := sys.store.(chroma := Purged(sys.store.chroma, DeleteScope(site, site.ownerId), call));
      Begin(sys, after, p, if call.Completes? then DeletingDocument(op, ChunksGone) else DeleteFailing(op))
  }

  /** The checkpoint after the chunks, or the one after the files. */
  function ApplyCommitCheckpoint(sys: System, p: ProcessId, commits: bool): System {
    if p !in sys.processes || !sys.processes[p].DeletingDocument? then sys
    else
      var r := sys.processes[p];
      match r.stage
      case ChunksGone =>
        if commits then
          Begin(sys, Checkpoint(sys.store, r.op, ChromaDelete), p, DeletingDocument(r.op, AtFiles(sys.store.snapshot.Some?)))
        else Begin(sys, sys.store, p, DeleteFailing(r.op))
      case FilesGone(has) =>
        if commits then Begin(sys, Checkpoint(sys.store, r.op, FileDelete), p, DeletingDocument(r.op, ReadyToFinish(has)))
        else Begin(sys, sys.store, p, DeleteFailing(r.op))
      case _ => sys
  }

  function ApplyCallFileDelete(sys: System, p: ProcessId, call: Call<StoredFile>): System {
    if p !in sys.processes || !sys.processes[p].DeletingDocument? || !sys.processes[p].stage.AtFiles? then sys
    else
      var r := sys.processes[p];
      var after := sys.store.(files := RemoveFiles(sys.store.files, r.stage.hasSnapshot, call));
      Begin(sys, after, p,
            if call.Completes? then DeletingDocument(r.op, FilesGone(r.stage.hasSnapshot)) else DeleteFailing(r.op))
  }

  function ApplyCommitDelete(sys: System, p: ProcessId, commits: bool): System {
    if p !in sys.processes || !sys.processes[p].DeletingDocument? || !sys.processes[p].stage.ReadyToFinish? then sys
    else if commits then End(sys, FinishDelete(sys.store), p)
    else Begin(sys, sys.store, p, DeleteFailing(sys.processes[p].op))
  }

  function ApplyFailDelete(sys: System, p: ProcessId): System {
    if p !in sys.processes || !sys.processes[p].DeleteFailing? then sys
    else End(sys, RecordDeleteFailure(sys.store, sys.processes[p].op), p)
  }

  ghost function ApplyElsewhere(site: Site, sys: System, chroma: Chroma): System {
    if OthersOnly(site, sys.store.chroma, chroma) then sys.(store := sys.store.(chroma := chroma)) else sys
  }

  /** One step. */
  ghost function Apply(site: Site, sys: System, step: Step): System {
    match step
    case Parse(retry, id, parsed) => ApplyParse(site, sys, retry, id, parsed)
    case StartManualDraft => sys.(store := CreateManualDraft(sys.store).Result(sys.store))
    case Suggest(p, retry, reply) => ApplySuggest(sys, p, retry, reply)
    case FailSuggest(p) => ApplyFailSuggest(sys, p)
    case StartRegenerate(p, v) => ApplyStartRegenerate(sys, p, v)
    case FinishRegenerate(p, reply) => ApplyFinishRegenerate(sys, p, reply)
    case StartEdit(p, e) => ApplyStartEdit(sys, p, e)
    case FinishEdit(p) => ApplyFinishEdit(sys, p)
    case Confirm(p, v, actor) => ApplyConfirm(site, sys, p, v, actor)
    case StartIndex(p) => ApplyStartIndex(site, sys, p)
    case CallIndex(p, call) => ApplyCallIndex(site, sys, p, call)
    case CommitIndex(p, commits) => ApplyCommitIndex(sys, p, commits)
    case FailIndex(p) => ApplyFailIndex(sys, p)
    case Cancel(p, v) => ApplyCancel(site, sys, p, v)
    case CallCleanup(p, call) => ApplyCallCleanup(site, sys, p, call)
    case FailCancel(p) => ApplyFailCancel(sys, p)
    case StartDelete(p, actor) => ApplyStartDelete(site, sys, p, actor)
    case CallChunkDelete(p, call) => ApplyCallChunkDelete(site, sys, p, call)
    case CommitCheckpoint(p, commits) => ApplyCommitCheckpoint(sys, p, commits)
    case CallFileDelete(p, call) => ApplyCallFileDelete(sys, p, call)
    case CommitDelete(p, commits) => ApplyCommitDelete(sys, p, commits)
    case FailDelete(p) => ApplyFailDelete(sys, p)
    case Stop(p) => End(sys, sys.store, p)
    case Elsewhere(chroma) => ApplyElsewhere(site, sys, chroma)
  }

  /** A run: any list of steps, in any order. */
  ghost function Run(site: Site, sys: System, steps: seq<Step>): System
    decreases |steps|
  {
    if steps == [] then sys
    else Apply(site, Run(site, sys, steps[..|steps| - 1]), steps[|steps| - 1])
  }

  /** A document just uploaded; its id is new, so the vector store knows nothing of it. */
  ghost predicate Initial(site: Site, sys: System) {
    && sys.processes == map[]
    && sys.store.row == Some(Row(Stored, Uploaded, None, None, None, 0, None, 1, map[]))
    && sys.store.snapshot == None
    && sys.store.ops == []
    && sys.store.audit == []
    && sys.store.files == {OriginalFile}
    && NoRecords(site, sys.store.chroma)
  }

  lemma {:induction false} RunAppends(site: Site, sys: System, first: seq<Step>, rest: seq<Step>)
    ensures Run(site, sys, first + rest) == Run(site, Run(site, sys, first), rest)
    decreases |rest|
  {
    if rest == [] {
      assert first + rest == first;
    } else {
      var n := |rest| - 1;
      assert (first + rest)[..|first + rest| - 1] == first + rest[..n];
      RunAppends(site, sys, first, rest[..n]);
    }
  }
}
