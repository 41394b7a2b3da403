/** A whole project: many documents over one vector store, the capacity counter and
    the deletion audits (app/services/archive/documents.py, deletion.py). */
module ProjectWorld {
  import opened Wrappers
  import opened FinalChunks
  import P = Parsed
  import opened Archive
  import opened Transactions
  import opened Lifecycle
  import opened LifecycleInvariant
  import opened LifecycleSafety

  datatype Document = Document(site: Site, fileHash: string, system: System)

  /** A removed document stays in the map with its row gone; ids are never reused. */
  datatype World = World(documents: map<Uuid, Document>, chroma: Chroma, active: int)

  datatype WorldStep =
    | Upload(site: Site, fileHash: string, faults: UploadFaults)
    | Work(id: Uuid, step: Step)

  /** Whether the file can be saved, the rows committed, and the saved file removed
      again when they cannot. */
  datatype UploadFaults = UploadFaults(saves: bool, commits: bool, cleans: bool)

  datatype UploadError = ProjectDocumentLimitReached | DuplicateFile | FileSaveFailed | DocumentCreateFailed

  const CAPACITY := 100

  predicate Live(d: Document) { d.system.store.row.Some? }

  function LiveIds(w: World): set<Uuid> {
    set id | id in w.documents && Live(w.documents[id])
  }

  function FreshSystem(chroma: Chroma): System {
    System(Store(Some(Row(Stored, Uploaded, None, None, None, 0, None, 1, map[])), None, [], [], chroma, {OriginalFile}), map[])
  }

  /** `create_project_uploaded_document` after the file has been hashed: the project
      row is locked, so the capacity check and the increment are one step. */
  function UploadDocument(w: World, site: Site, fileHash: string, f: UploadFaults): Result<World, UploadError> {
    if w.active >= CAPACITY then Failure(ProjectDocumentLimitReached)
    else if exists id :: id in w.documents && Live(w.documents[id]) && w.documents[id].fileHash == fileHash then
      Failure(DuplicateFile)
    else if !f.saves then Failure(FileSaveFailed)
    else if !f.commits then Failure(DocumentCreateFailed)
    else
      Success(World(w.documents[site.documentId := Document(site, fileHash, FreshSystem(w.chroma))], w.chroma, w.active + 1))
  }

  /** Some document of the project has this file. */
  predicate HasFile(documents: map<Uuid, Document>, fileHash: string) {
    exists id :: id in documents && documents[id].system.store.row.Some? && documents[id].fileHash == fileHash
  }

  /** Stored and UPLOADED at version one, with its original file and nothing else. */
  predicate JustUploaded(sys: System, chroma: Chroma) {
    && sys.processes == map[] && sys.store.chroma == chroma && sys.store.files == {OriginalFile}
    && sys.store.snapshot.None? && sys.store.ops == [] && sys.store.audit == [] && sys.store.row.Some?
    && var row := sys.store.row.value;
       && row.fileStatus == Stored && row.status == Uploaded && row.version == 1 && row.fields == map[]
       && row.currentSnapshot.None? && row.confirmedBy.None? && row.finalHash.None? && row.finalChunkCount == 0 && row.lastError.None?
  }

  /** The project's rows as the upload service changes them, and which documents have
      their original file on disk. */
  class ProjectStore {
    var documents: map<Uuid, Document>
    var chroma: Chroma
    var active: int
    var saved: set<Uuid>

    constructor (chroma: Chroma)
      ensures View() == World(map[], chroma, 0) && saved == {}
    {
      documents, this.chroma, active, saved := map[], chroma, 0, {};
    }

    function View(): World
      reads this
    {
      World(documents, chroma, active)
    }

    /** `create_project_uploaded_document`; `site` bears the new id. The file is on disk
        exactly when the upload succeeds, or when its rows could not be committed and the
        file could not be removed again. */
    method CreateUploadedDocument(site: Site, fileHash: string, f: UploadFaults) returns (error: Option<UploadError>)
      requires site.documentId !in saved
      modifies this`documents, this`active, this`saved
      ensures
        match UploadDocument(old(View()), site, fileHash, f)
        case Success(w) => View() == w && error == None
        case Failure(e) => View() == old(View()) && error == Some(e)
      ensures error == Some(ProjectDocumentLimitReached) <==> old(active) >= 100
      ensures error == Some(DuplicateFile) <==> old(active) < 100 && HasFile(old(documents), fileHash)
      ensures error == Some(FileSaveFailed) <==> old(active) < 100 && !HasFile(old(documents), fileHash) && !f.saves
      ensures error == Some(DocumentCreateFailed) <==> old(active) < 100 && !HasFile(old(documents), fileHash) && f.saves && !f.commits
      ensures error.Some? ==> documents == old(documents) && active == old(active)
      ensures error.None? ==>
                && active == old(active) + 1 && documents == old(documents)[site.documentId := documents[site.documentId]]
                && documents[site.documentId].site == site && documents[site.documentId].fileHash == fileHash
                && JustUploaded(documents[site.documentId].system, chroma)
      ensures saved - {site.documentId} == old(saved)
      ensures site.documentId in saved <==> error.None? || (error == Some(DocumentCreateFailed) && !f.cleans)
    {
      if active >= CAPACITY {
        return Some(ProjectDocumentLimitReached);
      }
      if exists id :: id in documents && Live(documents[id]) && documents[id].fileHash == fileHash {
        return Some(DuplicateFile);
      }
      if !f.saves {
        return Some(FileSaveFailed);
      }
      saved := saved + {site.documentId};
      if !f.commits {
        if f.cleans {
          saved := saved - {site.documentId};
        }
        return Some(DocumentCreateFailed);
      }
      documents := documents[site.documentId := Document(site, fileHash, FreshSystem(chroma))];
      active := active + 1;
      error := None;
    }
  }

  function Max(a: int, b: int): int { if a < b then b else a }

  /** One document takes a step; the others see the vector store it leaves. The
      commit that removes the row also lowers the counter. */
  ghost function WorkOn(w: World, id: Uuid, step: Step): World
    requires id in w.documents
  {
    var d := w.documents[id];
    var after := Apply(d.site, d.system, step);
    var chroma := after.store.chroma;
    var removed := Live(d) && after.store.row.None?;
    World(
      map e | e in w.documents ::
        if e == id then d.(system := after)
        else w.documents[e].(system := Apply(w.documents[e].site, w.documents[e].system, Elsewhere(chroma))),
      chroma,
      if removed then Max(0, w.active - 1) else w.active)
  }

  ghost function Advance(w: World, step: WorldStep): World {
    match step
    case Upload(site, fileHash, f) =>
      // A new id is one neither a document nor a record of the vector store bears.
      var r := UploadDocument(w, site, fileHash, f);
      if site.documentId !in w.documents && NoRecords(site, w.chroma) && r.Success? then r.value else w
    case Work(id, step) =>
      // Records of documents outside the project are left to `Elsewhere`.
      if id in w.documents && (step.Elsewhere? ==> ForeignOnly(w, step.chroma)) then WorkOn(w, id, step) else w
  }

  ghost predicate ForeignOnly(w: World, chroma: Chroma) {
    forall id :: id in w.documents ==> OthersOnly(w.documents[id].site, w.chroma, chroma)
  }

  ghost function History(w: World, steps: seq<WorldStep>): World
    decreases |steps|
  {
    if steps == [] then w else Advance(History(w, steps[..|steps| - 1]), steps[|steps| - 1])
  }

  ghost predicate WorldInv(w: World) {
    && (forall id :: id in w.documents ==>
          var d := w.documents[id];
          d.site.documentId == id && Inv(d.site, d.system) && d.system.store.chroma == w.chroma)
    && w.active == |LiveIds(w)| <= CAPACITY
    && DistinctFiles(w)
  }

  /** No two documents of the project have the same original file. */
  ghost predicate DistinctFiles(w: World) {
    forall a, b ::
      (a in w.documents && b in w.documents && Live(w.documents[a]) && Live(w.documents[b])
       && w.documents[a].fileHash == w.documents[b].fileHash)
      ==> a == b
  }

  // ---- one document never disturbs another ------------------------------

  lemma {:induction false} UpsertLeavesOthers(site: Site, other: Site, chroma: Chroma, chunks: seq<FinalChunk>)
    requires site.documentId != other.documentId
    requires forall c :: c in chunks && c.chunkId in chroma ==> chroma[c.chunkId].scope.documentId != other.documentId
    ensures OthersOnly(other, chroma, Upserted(site, chroma, chunks))
    decreases |chunks|
  {
    if chunks != [] {
      UpsertLeavesOthers(site, other, chroma, chunks[..|chunks| - 1]);
      assert chunks[|chunks| - 1] in chunks;
    }
  }

  /** The ids INDEX writes for one document are borne by no record of another. */
  lemma ChunkIdsAreForeign(site: Site, s: Store, other: Site, o: Store, c: FinalChunk)
    requires StoreOk(site, s) && StoreOk(other, o) && s.chroma == o.chroma && site.documentId != other.documentId
    requires s.snapshot.Some? && Acceptable(site.documentId, s.snapshot.value.row, Some(s.snapshot.value.payload))
    requires c in Chunks(site.documentId, s.snapshot.value.row, s.snapshot.value.payload)
    ensures c.chunkId in s.chroma ==> s.chroma[c.chunkId].scope.documentId != other.documentId
  {
    hide ConfirmationError;
    if c.chunkId in o.chroma && o.chroma[c.chunkId].scope.documentId == other.documentId {
      assert BuiltRecord(other, o, c.chunkId, o.chroma[c.chunkId]);
      var mine := Chunks(site.documentId, s.snapshot.value.row, s.snapshot.value.payload);
      var theirs := Chunks(other.documentId, o.snapshot.value.row, o.snapshot.value.payload);
      var i :| 0 <= i < |mine| && mine[i] == c;
      var j :| 0 <= j < |theirs| && theirs[j] == o.chroma[c.chunkId].chunk;
      DocumentsNeverShareIds(site.documentId, s.snapshot.value.row, s.snapshot.value.payload,
                             other.documentId, o.snapshot.value.row, o.snapshot.value.payload, i, j);
    }
  }

  /** No step but INDEX adds a record, and none takes away a record of another document. */
  lemma OnlyOwnRecordsGo(site: Site, other: Site, sys: System, step: Step)
    requires site.documentId != other.documentId && !step.CallIndex? && !step.Elsewhere?
    ensures OthersOnly(other, sys.store.chroma, Apply(site, sys, step).store.chroma)
  {
    hide Acceptable, Chunks, ConfirmationError, DistinctIds, ReadForEdit, ReadForRegenerate, BeginDelete,
         BlankDraft, SuggestedDraft, RegenerateAllowed, Upserted, OthersOnly, Purged;
    var before, after := sys.store.chroma, Apply(site, sys, step).store.chroma;
    assert OthersOnly(other, before, before) by { SameRecords(other, before); }
    match step
    case CallCleanup(p, call) => PurgeLeavesOthers(other, before, IndexScope(site), call);
    case CallChunkDelete(p, call) => PurgeLeavesOthers(other, before, DeleteScope(site, site.ownerId), call);
    case StartDelete(p, actor) =>
      if BeginDelete(site, sys.store, actor).Success? {
        BeginDeleteKeeps(site, sys.store, actor);
      }
    case _ =>
  }

  lemma SameRecords(other: Site, chroma: Chroma)
    ensures OthersOnly(other, chroma, chroma)
  {}

  lemma PurgeLeavesOthers(other: Site, chroma: Chroma, filter: Scope, call: Call<ChunkId>)
    requires filter.documentId != other.documentId
    ensures OthersOnly(other, chroma, Purged(chroma, filter, call))
  {}

  /** The chunks one document writes overwrite no record of another. */
  lemma IndexLeavesOthers(site: Site, s: Store, other: Site, o: Store, snapshot: P.Snapshot, call: Call<ChunkId>)
    requires StoreOk(site, s) && StoreOk(other, o) && s.chroma == o.chroma
    requires site.documentId != other.documentId && s.snapshot == Some(snapshot)
    ensures OthersOnly(other, s.chroma, WriteIndex(site, s, snapshot, call).0.chroma)
  {
    hide StoreOk, Acceptable, Chunks, DistinctIds, Upserted, OthersOnly;
    SameRecords(other, s.chroma);
    var chunks := ChunksToIndex(site, s, snapshot);
    if chunks.Some? {
      var written := if call.Completes? then chunks.value else Touched(chunks.value, call.touched);
      if call.Breaks? {
        TouchedAreChunks(chunks.value, call.touched);
      }
      forall c | c in written && c.chunkId in s.chroma
        ensures s.chroma[c.chunkId].scope.documentId != other.documentId
      {
        ChunkIdsAreForeign(site, s, other, o, c);
      }
      UpsertLeavesOthers(site, other, s.chroma, written);
    }
  }

  /** Any step of one document leaves every record of every other document as it was. */
  lemma OtherDocumentsUndisturbed(site: Site, sys: System, other: Site, o: System, step: Step)
    requires Inv(site, sys) && Inv(other, o) && sys.store.chroma == o.store.chroma
    requires site.documentId != other.documentId
    requires !step.Elsewhere?
    ensures OthersOnly(other, o.store.chroma, Apply(site, sys, step).store.chroma)
  {
    hide StoreOk, OthersOnly, WriteIndex, OneRunner;
    match step
    case CallIndex(p, call) =>
      SameRecords(other, sys.store.chroma);
      if p in sys.processes && sys.processes[p].Indexing? {
        assert ProcessOk(site, sys.store, sys.processes[p]);
        IndexLeavesOthers(site, sys.store, other, o.store, sys.processes[p].snapshot, call);
      }
    case _ =>
      hide Apply, Inv;
      OnlyOwnRecordsGo(site, other, sys, step);
  }

  // ---- accounting -------------------------------------------------------

  lemma OtherDocumentKeepsInv(w: World, id: Uuid, step: Step, e: Uuid)
    requires WorldInv(w) && id in w.documents && e in w.documents && e != id
    requires step.Elsewhere? ==> ForeignOnly(w, step.chroma)
    ensures
      var w' := WorkOn(w, id, step);
      var d := w'.documents[e];
      && Inv(d.site, d.system) && d.system.store.chroma == w'.chroma
      && d.system.store.row == w.documents[e].system.store.row
  {
    hide Inv, Apply, OthersOnly;
    var d, o := w.documents[id], w.documents[e];
    var chroma := Apply(d.site, d.system, step).store.chroma;
    if !step.Elsewhere? {
      OtherDocumentsUndisturbed(d.site, d.system, o.site, o.system, step);
    } else {
      ElsewhereResult(d.site, d.system, step.chroma);
    }
    ElsewhereResult(o.site, o.system, chroma);
    StepInv(o.site, o.system, Elsewhere(chroma));
  }

  lemma ElsewhereResult(site: Site, sys: System, chroma: Chroma)
    requires OthersOnly(site, sys.store.chroma, chroma)
    ensures Apply(site, sys, Elsewhere(chroma)) == sys.(store := sys.store.(chroma := chroma))
  {}

  lemma LiveIdsAfter(w: World, w': World, id: Uuid)
    requires w'.documents.Keys == w.documents.Keys && id in w.documents
    requires forall e :: e in w.documents && e != id ==> Live(w'.documents[e]) == Live(w.documents[e])
    requires Live(w'.documents[id]) ==> Live(w.documents[id])
    ensures |LiveIds(w')| == |LiveIds(w)| - (if Live(w.documents[id]) && !Live(w'.documents[id]) then 1 else 0)
  {
    hide IsUuidText, Live;
    if Live(w.documents[id]) && !Live(w'.documents[id]) {
      assert LiveIds(w') == LiveIds(w) - {id};
    } else {
      assert LiveIds(w') == LiveIds(w);
    }
  }

  lemma WorkInv(w: World, id: Uuid, step: Step)
    requires WorldInv(w) && id in w.documents
    requires step.Elsewhere? ==> ForeignOnly(w, step.chroma)
    ensures WorldInv(WorkOn(w, id, step))
    ensures Live(w.documents[id]) && !Live(WorkOn(w, id, step).documents[id]) ==> w.active > 0
  {
    hide Inv, Apply, ForeignOnly, LiveIds, IsUuidText, DistinctFiles;
    var d := w.documents[id];
    var w' := WorkOn(w, id, step);
    StepInv(d.site, d.system, step);
    forall e | e in w.documents && e != id
      ensures
        var d' := w'.documents[e];
        Inv(d'.site, d'.system) && d'.system.store.chroma == w'.chroma && Live(d') == Live(w.documents[e])
    {
      OtherDocumentKeepsInv(w, id, step, e);
    }
    if !Live(d) {
      RowStaysGone(d.site, d.system, step);
    }
    LiveIdsAfter(w, w', id);
    FilesStayDistinct(w, w');
  }

  lemma FilesStayDistinct(w: World, w': World)
    requires DistinctFiles(w) && w'.documents.Keys == w.documents.Keys
    requires forall e :: e in w.documents ==>
      w'.documents[e].fileHash == w.documents[e].fileHash && (Live(w'.documents[e]) ==> Live(w.documents[e]))
    ensures DistinctFiles(w')
  {
    hide Live, IsUuidText;
  }

  lemma UploadAdds(w: World, site: Site, fileHash: string, f: UploadFaults)
    requires UploadDocument(w, site, fileHash, f).Success?
    ensures
      UploadDocument(w, site, fileHash, f).value ==
      World(w.documents[site.documentId := Document(site, fileHash, FreshSystem(w.chroma))], w.chroma, w.active + 1)
  {}

  lemma UploadInv(w: World, site: Site, fileHash: string, f: UploadFaults)
    requires WorldInv(w) && site.documentId !in w.documents && NoRecords(site, w.chroma)
    requires UploadDocument(w, site, fileHash, f).Success?
    ensures WorldInv(UploadDocument(w, site, fileHash, f).value)
  {
    hide Inv, NoRecords, FreshSystem, IsUuidText;
    NewFileIsDistinct(w, site, fileHash, f);
    hide DistinctFiles;
    var w' := UploadDocument(w, site, fileHash, f).value;
    FreshInv(site, w.chroma);
    UploadAdds(w, site, fileHash, f);
    hide UploadDocument;
    assert LiveIds(w') == LiveIds(w) + {site.documentId};
  }

  lemma NewFileIsDistinct(w: World, site: Site, fileHash: string, f: UploadFaults)
    requires DistinctFiles(w) && UploadDocument(w, site, fileHash, f).Success?
    ensures DistinctFiles(UploadDocument(w, site, fileHash, f).value)
  {
    hide FreshSystem;
  }

  lemma FreshInv(site: Site, chroma: Chroma)
    requires NoRecords(site, chroma)
    ensures Inv(site, FreshSystem(chroma)) && FreshSystem(chroma).store.chroma == chroma && FreshSystem(chroma).store.row.Some?
  {
    hide Inv;
    InitialInv(site, FreshSystem(chroma));
  }

  lemma AdvanceInv(w: World, step: WorldStep)
    requires WorldInv(w)
    ensures WorldInv(Advance(w, step))
  {
    hide WorldInv, WorkOn, UploadDocument, NoRecords, ForeignOnly;
    match step
    case Work(id, s) =>
      if id in w.documents && (s.Elsewhere? ==> ForeignOnly(w, s.chroma)) {
        WorkInv(w, id, s);
      }
    case Upload(site, fileHash, f) =>
      if site.documentId !in w.documents && NoRecords(site, w.chroma) && UploadDocument(w, site, fileHash, f).Success? {
        UploadInv(w, site, fileHash, f);
      }
  }

  lemma {:induction false} HistoryInv(w: World, steps: seq<WorldStep>)
    requires WorldInv(w)
    ensures WorldInv(History(w, steps))
    decreases |steps|
  {
    if steps != [] {
      HistoryInv(w, steps[..|steps| - 1]);
      AdvanceInv(History(w, steps[..|steps| - 1]), steps[|steps| - 1]);
    }
  }

  /** In every history of a project that starts empty, the counter is the number of
      documents, never above the capacity, no two of them have the same file, each
      removed document has exactly one DOCUMENT_DELETED audit and no other has any. */
  lemma CounterAndAuditsAreExact(chroma: Chroma, steps: seq<WorldStep>)
    ensures
      var w := History(World(map[], chroma, 0), steps);
      && w.active == |LiveIds(w)| && 0 <= w.active <= CAPACITY
      && DistinctFiles(w)
      && forall id :: id in w.documents ==>
                        Deletions(w.documents[id].system.store.audit) == (if Live(w.documents[id]) then 0 else 1)
  {
    var empty := World(map[], chroma, 0);
    assert LiveIds(empty) == {};
    HistoryInv(empty, steps);
    var w := History(empty, steps);
    forall id | id in w.documents
      ensures Deletions(w.documents[id].system.store.audit) == (if Live(w.documents[id]) then 0 else 1)
    {
      assert Inv(w.documents[id].site, w.documents[id].system);
    }
  }

  /** This step of this document removes its row. */
  ghost predicate RemovesRow(w: World, id: Uuid, step: Step) {
    && id in w.documents && Live(w.documents[id]) && !step.Elsewhere?
    && !Live(Advance(w, Work(id, step)).documents[id])
  }

  /** The guard `max(0, ...)` never clips: whenever a commit removes a row, the
      counter is positive and goes down by exactly one. */
  lemma CounterNeverClips(chroma: Chroma, steps: seq<WorldStep>, id: Uuid, step: Step)
    requires RemovesRow(History(World(map[], chroma, 0), steps), id, step)
    ensures
      var w := History(World(map[], chroma, 0), steps);
      w.active > 0 && Advance(w, Work(id, step)).active == w.active - 1
  {
    var empty := World(map[], chroma, 0);
    assert LiveIds(empty) == {};
    HistoryInv(empty, steps);
    WorkInv(History(empty, steps), id, step);
  }

  // ---- one document's run in the project's history ----------------------

  function Works(id: Uuid, steps: seq<Step>): seq<WorldStep> {
    if steps == [] then [] else Works(id, steps[..|steps| - 1]) + [Work(id, steps[|steps| - 1])]
  }

  predicate OwnSteps(steps: seq<Step>) { forall i :: 0 <= i < |steps| ==> !steps[i].Elsewhere? }

  /** Whatever else the project holds, the steps of one document are its run. */
  lemma {:induction false} WorksAreARun(w: World, id: Uuid, steps: seq<Step>)
    requires id in w.documents && OwnSteps(steps)
    ensures
      var after := History(w, Works(id, steps));
      var d := w.documents[id];
      after.documents.Keys == w.documents.Keys && after.documents[id] == d.(system := Run(d.site, d.system, steps))
    decreases |steps|
  {
    hide Apply;
    if steps != [] {
      var n := |steps| - 1;
      WorksAreARun(w, id, steps[..n]);
      var all := Works(id, steps);
      assert all[..|all| - 1] == Works(id, steps[..n]) && all[|all| - 1] == Work(id, steps[n]);
    }
  }

  lemma {:induction false} HistoryAppends(w: World, first: seq<WorldStep>, rest: seq<WorldStep>)
    ensures History(w, first + rest) == History(History(w, first), rest)
    decreases |rest|
  {
    hide Advance;
    if rest == [] {
      assert first + rest == first;
    } else {
      var n := |rest| - 1;
      assert (first + rest)[..|first + rest| - 1] == first + rest[..n];
      HistoryAppends(w, first, rest[..n]);
    }
  }
}
