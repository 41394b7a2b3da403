/** The completeness checklist over a project whose documents are worked on: what it
    counts, and what catalogue and retrieval show, in every history of both. */
module ProjectChecklist {
  import opened Wrappers
  import opened FinalChunks
  import opened Archive
  import L = Lifecycle
  import I = LifecycleInvariant
  import S = LifecycleSafety
  import W = ProjectWorld
  import C = Checklists
  import G = Catalog

  datatype Project = Project(world: W.World, tables: C.Tables)

  datatype Move = OnDocuments(documentStep: W.WorldStep) | OnChecklist(checklistStep: C.Step)

  /** What the checklist's queries read of the documents' rows. */
  function DocumentsOf(w: W.World): map<Uuid, C.Document> {
    map id | id in w.documents && W.Live(w.documents[id]) ::
      C.Document(
        w.documents[id].site.projectId,
        w.documents[id].system.store.row.value.status == Confirmed,
        w.documents[id].system.store.row.value.version)
  }

  ghost function Advance(p: Project, move: Move): Project {
    match move
    case OnDocuments(step) =>
      var world := W.Advance(p.world, step);
      Project(world, C.WithDocuments(p.tables, DocumentsOf(world)))
    case OnChecklist(step) =>
      if step.DocumentsChange? then p else Project(p.world, C.Apply(p.tables, step))
  }

  ghost function Play(p: Project, moves: seq<Move>): Project
    decreases |moves|
  {
    if moves == [] then p else Advance(Play(p, moves[..|moves| - 1]), moves[|moves| - 1])
  }

  /** A project without documents and without a checklist. */
  function Opened(chroma: Chroma, projects: map<C.Id, nat>): Project {
    Project(W.World(map[], chroma, 0), C.Tables(projects, map[], map[], map[]))
  }

  ghost predicate ProjectInv(p: Project) {
    W.WorldInv(p.world) && C.Consistent(p.tables) && p.tables.documents == DocumentsOf(p.world)
  }

  // ---- both sides stay in step ------------------------------------------

  lemma DocumentsStayFiled(w: W.World, step: W.WorldStep)
    ensures
      var w' := W.Advance(w, step);
      forall id :: id in w.documents ==> id in w'.documents && w'.documents[id].site == w.documents[id].site
  {
    hide L.Apply, W.UploadDocument, W.ForeignOnly, NoRecords;
    if step.Upload? && W.UploadDocument(w, step.site, step.fileHash, step.faults).Success? {
      W.UploadAdds(w, step.site, step.fileHash, step.faults);
    }
  }

  lemma ChecklistKeepsDocuments(t: C.Tables, step: C.Step)
    requires !step.DocumentsChange?
    ensures C.Apply(t, step).documents == t.documents
  {
    hide C.Patched, C.MatchingChanged, C.Invalidated, C.LinkRefusal;
  }

  lemma NewDocumentsAreTaken(w: W.World, step: W.WorldStep, t: C.Tables)
    requires t.documents == DocumentsOf(w)
    ensures
      var documents := DocumentsOf(W.Advance(w, step));
      && C.WithDocuments(t, documents).documents == documents
      && C.WithDocuments(t, documents).items == t.items && C.WithDocuments(t, documents).projects == t.projects
      && (forall l :: l in t.links && t.links[l].documentId in documents ==>
            l in C.WithDocuments(t, documents).links && C.WithDocuments(t, documents).links[l] == t.links[l])
      && (forall l :: l in C.WithDocuments(t, documents).links ==> l in t.links)
  {
    DocumentsStayFiled(w, step);
    hide W.Advance;
  }

  lemma AdvanceInv(p: Project, move: Move)
    requires ProjectInv(p)
    ensures ProjectInv(Advance(p, move))
  {
    hide W.WorldInv, W.Advance, C.Consistent, C.Apply, C.WithDocuments, DocumentsOf;
    match move
    case OnDocuments(step) =>
      W.AdvanceInv(p.world, step);
      NewDocumentsAreTaken(p.world, step, p.tables);
      C.NewDocumentsStayConsistent(p.tables, DocumentsOf(W.Advance(p.world, step)));
    case OnChecklist(step) =>
      if !step.DocumentsChange? {
        ChecklistKeepsDocuments(p.tables, step);
        C.StepStaysConsistent(p.tables, step);
      }
  }

  lemma OpenedInv(chroma: Chroma, projects: map<C.Id, nat>)
    ensures ProjectInv(Opened(chroma, projects))
  {
    assert W.LiveIds(Opened(chroma, projects).world) == {};
  }

  lemma {:induction false} PlayInv(p: Project, moves: seq<Move>)
    requires ProjectInv(p)
    ensures ProjectInv(Play(p, moves))
    decreases |moves|
  {
    hide ProjectInv, Advance;
    if moves != [] {
      PlayInv(p, moves[..|moves| - 1]);
      AdvanceInv(Play(p, moves[..|moves| - 1]), moves[|moves| - 1]);
    }
  }

  // ---- what counts and what is shown ------------------------------------

  function StoreOf(p: Project, id: Uuid): Store
    requires id in p.world.documents
  {
    p.world.documents[id].system.store
  }

  /** A query over the project finds each document at most once and every live one. */
  ghost predicate Lists(docs: seq<G.Listed>, p: Project) {
    && G.DistinctDocuments(docs)
    && (forall d :: d in docs ==> d.id in p.world.documents && d.store == StoreOf(p, d.id))
    && (forall id :: id in p.world.documents && W.Live(p.world.documents[id]) ==> exists d :: d in docs && d.id == id)
  }

  /** In every history: what fulfils an item is a living, CONFIRMED document of its
      project, never a removed one; catalogue and retrieval scope show it exactly when
      no unfinished delete blocks it. */
  lemma CountedDocumentsAreShownIff(
    chroma: Chroma, projects: map<C.Id, nat>, moves: seq<Move>, projectId: C.Id, itemId: C.Id, id: Uuid, docs: seq<G.Listed>, kbId: nat)
    requires
      var p := Play(Opened(chroma, projects), moves);
      id in C.Fulfilling(p.tables, projectId, itemId) && Lists(docs, p)
    ensures
      var p := Play(Opened(chroma, projects), moves);
      && id in p.world.documents && W.Live(p.world.documents[id])
      && StoreOf(p, id).row.value.status == Confirmed && p.world.documents[id].site.projectId == projectId
      && (Formal(StoreOf(p, id)) <==> !Blocked(StoreOf(p, id).ops))
      && exists d :: d in docs && d.id == id && d.store.row.Some?
                     && (G.SummaryOf(d) in G.Catalogue(docs, docs, G.NO_FILTERS) <==> !Blocked(StoreOf(p, id).ops))
                     && (id in G.ScopeOf(docs, docs, kbId) <==> !Blocked(StoreOf(p, id).ops) && d.kbId == kbId)
  {
    hide Blocked, Advance, G.Catalogue, G.ScopeOf, G.SummaryOf, G.DistinctDocuments;
    OpenedInv(chroma, projects);
    PlayInv(Opened(chroma, projects), moves);
    var p := Play(Opened(chroma, projects), moves);
    hide Play, Opened, C.Consistent, W.WorldInv;
    assert id in p.tables.documents && p.tables.documents[id].confirmed;
    var d :| d in docs && d.id == id;
    G.ReadersAgree(docs, kbId, d);
  }

  /** The documents that fulfil the item and are formal. */
  function FormalFulfilling(p: Project, projectId: C.Id, itemId: C.Id): set<Uuid> {
    set id | id in C.Fulfilling(p.tables, projectId, itemId) && id in p.world.documents && Formal(StoreOf(p, id))
  }

  /** In every history: an item counts formal documents only, exactly when no document
      it counts is blocked by a delete; and it is SATISFIED without a single formal
      document exactly when it counts some and all of them are blocked. */
  lemma CountIsFormalIff(chroma: Chroma, projects: map<C.Id, nat>, moves: seq<Move>, projectId: C.Id, itemId: C.Id)
    ensures
      var p := Play(Opened(chroma, projects), moves);
      var counted := C.Fulfilling(p.tables, projectId, itemId);
      && FormalFulfilling(p, projectId, itemId) <= counted <= p.world.documents.Keys
      && (FormalFulfilling(p, projectId, itemId) == counted <==> forall id :: id in counted ==> !Blocked(StoreOf(p, id).ops))
      && (counted != {} && FormalFulfilling(p, projectId, itemId) == {} <==>
            counted != {} && forall id :: id in counted ==> Blocked(StoreOf(p, id).ops))
  {
    hide Blocked, Advance;
    OpenedInv(chroma, projects);
    PlayInv(Opened(chroma, projects), moves);
    var p := Play(Opened(chroma, projects), moves);
    hide Play, Opened, C.Consistent, W.WorldInv;
    var counted, formal := C.Fulfilling(p.tables, projectId, itemId), FormalFulfilling(p, projectId, itemId);
    forall id | id in counted
      ensures id in p.world.documents && (id in formal <==> !Blocked(StoreOf(p, id).ops))
    {
      assert id in p.tables.documents && p.tables.documents[id].confirmed;
    }
    hide C.Fulfilling, FormalFulfilling;
  }
}
