/** Concrete histories of a project: a document uploaded and deleted again, and a
    checklist item satisfied by a document that a delete has hidden. */
module ProjectWitness {
  import opened Wrappers
  import opened FinalChunks
  import opened Archive
  import opened Transactions
  import opened Lifecycle
  import opened LifecycleInvariant
  import opened LifecycleSafety
  import opened LifecycleRecovery
  import opened ServiceCalls
  import opened LifecycleWitness
  import opened SuggestionReplies
  import W = ProjectWorld
  import C = Checklists
  import G = Catalog
  import opened ProjectChecklist

  const NO_FAULTS := W.UploadFaults(true, true, true)

  // ---- upload and delete ------------------------------------------------

  lemma UploadedIsInitial(site: Site, fileHash: string, chroma: Chroma)
    requires NoRecords(site, chroma)
    ensures
      var w := W.History(W.World(map[], chroma, 0), [W.Upload(site, fileHash, NO_FAULTS)]);
      && w.documents == map[site.documentId := W.Document(site, fileHash, W.FreshSystem(chroma))]
      && Initial(site, W.FreshSystem(chroma))
  {
    var empty, step := W.World(map[], chroma, 0), W.Upload(site, fileHash, NO_FAULTS);
    W.UploadAdds(empty, site, fileHash, NO_FAULTS);
    assert [step][..0] == [];
    assert W.History(empty, [step]) == W.Advance(W.History(empty, []), step);
  }

  /** A run that ends without the row removes it at one of its steps. */
  lemma {:induction false} RowGoesAtSomeStep(site: Site, sys: System, steps: seq<Step>) returns (k: nat)
    requires sys.store.row.Some? && Run(site, sys, steps).store.row.None?
    ensures k < |steps| && Run(site, sys, steps[..k]).store.row.Some?
    ensures Apply(site, Run(site, sys, steps[..k]), steps[k]).store.row.None?
    decreases |steps|
  {
    hide Apply;
    var n := |steps| - 1;
    if Run(site, sys, steps[..n]).store.row.Some? {
      k := n;
    } else {
      k := RowGoesAtSomeStep(site, sys, steps[..n]);
      assert steps[..n][..k] == steps[..k];
    }
  }

  lemma DeleteStepsAreOwn(p: ProcessId, actor: nat, f: DeleteFaults, k: nat)
    requires k <= |DeleteSteps(p, actor, f)|
    ensures W.OwnSteps(DeleteSteps(p, actor, f)[..k])
  {}

  /** A document that is uploaded and then deleted with nothing breaking: the history
      has a step that removes its row. */
  lemma UploadedDocumentsCanGo(site: Site, fileHash: string, chroma: Chroma)
    requires NoRecords(site, chroma)
    ensures
      exists steps, step ::
        W.RemovesRow(W.History(W.World(map[], chroma, 0), steps), site.documentId, step)
  {
    var uploaded := W.FreshSystem(chroma);
    var clean := DeleteFaults(Completes, true, Completes, true, true, true);
    UploadedIsInitial(site, fileHash, chroma);
    InitialInv(site, uploaded);
    UninterruptedDeleteCompletesIff(site, uploaded, 0, site.ownerId, clean);
    var deleting := DeleteSteps(0, site.ownerId, clean);
    var k := RowGoesAtSomeStep(site, uploaded, deleting);
    DeleteStepsAreOwn(0, site.ownerId, clean, k);
    DeleteStepsAreOwn(0, site.ownerId, clean, k + 1);
    assert !deleting[..k + 1][k].Elsewhere?;
    var empty, first := W.World(map[], chroma, 0), [W.Upload(site, fileHash, NO_FAULTS)];
    hide *;
    HistoryRemoves(empty, first, site.documentId, deleting, k);
  }

  lemma HistoryRemoves(start: W.World, first: seq<W.WorldStep>, id: Uuid, steps: seq<Step>, k: nat)
    requires id in W.History(start, first).documents && k < |steps| && W.OwnSteps(steps[..k]) && !steps[k].Elsewhere?
    requires
      var d := W.History(start, first).documents[id];
      && Run(d.site, d.system, steps[..k]).store.row.Some?
      && Apply(d.site, Run(d.site, d.system, steps[..k]), steps[k]).store.row.None?
    ensures W.RemovesRow(W.History(start, first + W.Works(id, steps[..k])), id, steps[k])
  {
    hide Apply, Run, W.History, W.Works;
    W.HistoryAppends(start, first, W.Works(id, steps[..k]));
    W.WorksAreARun(W.History(start, first), id, steps[..k]);
  }

  // ---- satisfied by a hidden document -----------------------------------

  function OnAll(steps: seq<W.WorldStep>): seq<Move> {
    if steps == [] then [] else OnAll(steps[..|steps| - 1]) + [OnDocuments(steps[|steps| - 1])]
  }

  lemma PlayOne(p: Project, moves: seq<Move>, move: Move)
    ensures Play(p, moves + [move]) == Advance(Play(p, moves), move)
  {
    assert (moves + [move])[..|moves|] == moves;
  }

  /** While there are no links, working on documents changes nothing else of the tables. */
  lemma {:induction false} DocumentsFirst(p: Project, steps: seq<W.WorldStep>)
    requires ProjectInv(p) && p.tables.links == map[]
    ensures
      var after := Play(p, OnAll(steps));
      && ProjectInv(after) && after.world == W.History(p.world, steps)
      && after.tables.items == p.tables.items && after.tables.projects == p.tables.projects && after.tables.links == map[]
    decreases |steps|
  {
    hide ProjectInv, W.Advance;
    if steps != [] {
      var n := |steps| - 1;
      DocumentsFirst(p, steps[..n]);
      var before := Play(p, OnAll(steps[..n]));
      PlayOne(p, OnAll(steps[..n]), OnDocuments(steps[n]));
      AdvanceInv(before, OnDocuments(steps[n]));
      assert before.tables.documents == DocumentsOf(before.world) by { InvDocuments(before); }
      NewDocumentsAreTaken(before.world, steps[n], before.tables);
      hide C.WithDocuments, Play, OnAll;
      assert Advance(before, OnDocuments(steps[n])).tables.links.Keys == {};
    }
  }

  lemma InvDocuments(p: Project)
    requires ProjectInv(p)
    ensures p.tables.documents == DocumentsOf(p.world) && C.Consistent(p.tables)
  {}

  lemma {:induction false} SettleStepsAreOwn(names: seq<FieldName>, version: nat)
    ensures W.OwnSteps(SettleSteps(names, version))
    decreases |names|
  {
    if names != [] {
      SettleStepsAreOwn(names[..|names| - 1], version);
    }
  }

  lemma FormalStepsAreOwn(actor: nat)
    ensures W.OwnSteps(FormalSteps(actor))
  {
    hide SettleSteps;
    SettleStepsAreOwn(ALL_NAMES, 2);
  }

  /** A project with one formal document and an empty checklist is in reach. */
  lemma FormalProject(site: Site, fileHash: string, chroma: Chroma, actor: nat)
    requires NoRecords(site, chroma) && site.kbId == site.projectKbId
    ensures
      var steps := [W.Upload(site, fileHash, NO_FAULTS)] + W.Works(site.documentId, FormalSteps(actor));
      var p := Play(Opened(chroma, map[site.projectId := 1]), OnAll(steps));
      && ProjectInv(p) && p.tables.items == map[] && p.tables.links == map[] && p.tables.projects == map[site.projectId := 1]
      && p.world.documents.Keys == {site.documentId} && p.world.documents[site.documentId].site == site
      && p.world.documents[site.documentId].system.processes == map[]
      && Formal(StoreOf(p, site.documentId)) && !AnyRunning(StoreOf(p, site.documentId).ops)
  {
    hide FormalSteps, Formal, NoRecords, ProjectInv, Indexed, Inv, Apply, W.UploadDocument;
    var uploaded := W.FreshSystem(chroma);
    UploadedIsInitial(site, fileHash, chroma);
    FormalIsReachable(site, uploaded, actor);
    FormalStepsAreOwn(actor);
    hide Run, Initial;
    var open := Opened(chroma, map[site.projectId := 1]);
    var first, rest := [W.Upload(site, fileHash, NO_FAULTS)], W.Works(site.documentId, FormalSteps(actor));
    W.HistoryAppends(open.world, first, rest);
    W.WorksAreARun(W.History(open.world, first), site.documentId, FormalSteps(actor));
    OpenedInv(chroma, map[site.projectId := 1]);
    DocumentsFirst(open, first + rest);
  }

  function LinkMoves(site: Site, version: nat, actor: nat): (Move, Move) {
    (OnChecklist(C.AddItem(site.projectId, 1, 0, C.NewItem("Log", "OTHER", true, "CONSTRUCTION", None))),
     OnChecklist(C.AddLink(site.documentId, C.LinkRequest(0, version, 1), actor, 0)))
  }

  lemma Linked(p: Project, site: Site, actor: nat)
    requires ProjectInv(p) && p.tables.items == map[] && p.tables.links == map[] && p.tables.projects == map[site.projectId := 1]
    requires site.documentId in p.world.documents && p.world.documents[site.documentId].site == site
    requires Formal(StoreOf(p, site.documentId))
    ensures
      var (add, link) := LinkMoves(site, StoreOf(p, site.documentId).row.value.version, actor);
      var p' := Advance(Advance(p, add), link);
      && ProjectInv(p') && p'.world == p.world
      && site.documentId in C.Fulfilling(p'.tables, site.projectId, 0)
  {
    hide IsUuidText;
    var version := StoreOf(p, site.documentId).row.value.version;
    var (add, link) := LinkMoves(site, version, actor);
    AdvanceInv(p, add);
    AdvanceInv(Advance(p, add), link);
    var t := Advance(p, add).tables;
    assert site.documentId in t.documents && t.documents[site.documentId] == C.Document(site.projectId, true, version);
    ItemAdded(p, site, version, actor);
    InvDocuments(Advance(p, add));
    hide ProjectInv, Formal, C.CreateItem, C.CreateLink, C.LinkRefusal, C.Fulfilling, DocumentsOf, Blocked;
    C.LinkingSatisfies(t, site.documentId, C.LinkRequest(0, version, 1), actor, 0);
    LinkAdded(Advance(p, add), site, version, actor);
  }

  lemma ItemAdded(p: Project, site: Site, version: nat, actor: nat)
    requires p.tables.items == map[] && p.tables.projects == map[site.projectId := 1]
    ensures
      var p' := Advance(p, LinkMoves(site, version, actor).0);
      && p'.world == p.world && p'.tables.links == p.tables.links && p'.tables.documents == p.tables.documents
      && 0 in p'.tables.items && p'.tables.items[0].version == 1 && p'.tables.items[0].projectId == site.projectId
  {}

  lemma LinkAdded(p: Project, site: Site, version: nat, actor: nat)
    requires p.tables.links == map[]
    ensures
      var p' := Advance(p, LinkMoves(site, version, actor).1);
      var r := C.CreateLink(p.tables, site.documentId, C.LinkRequest(0, version, 1), actor, 0);
      p'.world == p.world && (r.Success? ==> p'.tables == r.value)
  {
    hide C.CreateLink;
  }

  lemma DeleteStarts(site: Site, sys: System, process: ProcessId)
    requires Inv(site, sys) && sys.store.row.Some? && process !in sys.processes && MayDelete(site, sys.store, site.ownerId)
    ensures
      var after := Apply(site, sys, StartDelete(process, site.ownerId)).store;
      after.row == Some(sys.store.row.value.(fileStatus := Deleting)) && !Formal(after)
  {
    BeginDeleteIffMay(site, sys.store, site.ownerId);
    BeginDeleteKeeps(site, sys.store, site.ownerId);
    StartedDeleteHides(site, sys, StartDelete(process, site.ownerId));
    StepInv(site, sys, StartDelete(process, site.ownerId));
    HiddenIsNotFormal(site, Apply(site, sys, StartDelete(process, site.ownerId)).store);
  }

  /** A delete that starts between the two queries of a reader: the scope still shows the
      document, although it is not formal any more. */
  lemma ScopeCanLagBehind(site: Site, start: System, actor: nat)
    requires Initial(site, start) && site.kbId == site.projectKbId
    ensures
      var earlier := Run(site, start, FormalSteps(actor));
      var now := Apply(site, earlier, StartDelete(0, site.ownerId)).store;
      var docs := [G.Listed(site.documentId, site.kbId, now)];
      !Formal(now) && site.documentId in G.ScopeOf(docs, [G.Listed(site.documentId, site.kbId, earlier.store)], site.kbId)
  {
    FormalIsReachable(site, start, actor);
    hide Run, Initial, FormalSteps, Inv, Apply, Indexed, AnyRunning, Blocked;
    var earlier := Run(site, start, FormalSteps(actor));
    DeleteStarts(site, earlier, 0);
    var now := Apply(site, earlier, StartDelete(0, site.ownerId)).store;
    var before, docs := [G.Listed(site.documentId, site.kbId, earlier.store)], [G.Listed(site.documentId, site.kbId, now)];
    assert docs[0] in docs && before[0] in before;
    G.ShownThoughHiddenIff(before, docs, site.kbId, docs[0], earlier.store);
  }

  /** The checklist sees no difference between rows that differ in the file's status. */
  lemma SameRowsSameDocuments(w: W.World, w': W.World)
    requires w'.documents.Keys == w.documents.Keys
    requires forall e :: e in w.documents ==>
      var d, d' := w.documents[e], w'.documents[e];
      && d'.site == d.site && (W.Live(d') <==> W.Live(d))
      && (W.Live(d) ==> d'.system.store.row.value == d.system.store.row.value.(fileStatus := d'.system.store.row.value.fileStatus))
    ensures DocumentsOf(w') == DocumentsOf(w)
  {
    assert DocumentsOf(w').Keys == DocumentsOf(w).Keys;
  }

  lemma SameDocumentsSameTables(t: C.Tables)
    requires C.Consistent(t)
    ensures C.WithDocuments(t, t.documents) == t
  {}

  /** Whoever starts to delete a document, in whatever project, hides it and changes
      nothing of what the checklist counts. */
  lemma StartedDeletesKeepCounting(p: Project, id: Uuid, process: ProcessId)
    requires ProjectInv(p) && id in p.world.documents && W.Live(p.world.documents[id])
    requires process !in p.world.documents[id].system.processes
    requires MayDelete(p.world.documents[id].site, StoreOf(p, id), p.world.documents[id].site.ownerId)
    ensures
      var owner := p.world.documents[id].site.ownerId;
      var p' := Advance(p, OnDocuments(W.Work(id, StartDelete(process, owner))));
      && ProjectInv(p') && p'.tables == p.tables
      && p'.world.documents.Keys == p.world.documents.Keys && !Formal(StoreOf(p', id))
  {
    hide Inv, Apply, Formal, MayDelete, C.Consistent, C.WithDocuments, DocumentsOf;
    var d := p.world.documents[id];
    var step := StartDelete(process, d.site.ownerId);
    var w' := W.WorkOn(p.world, id, step);
    assert W.Advance(p.world, W.Work(id, step)) == w';
    AdvanceInv(p, OnDocuments(W.Work(id, step)));
    DeleteStarts(d.site, d.system, process);
    forall e | e in p.world.documents && e != id
      ensures w'.documents[e].system.store.row == p.world.documents[e].system.store.row
    {
      W.OtherDocumentKeepsInv(p.world, id, step, e);
    }
    hide W.WorldInv;
    SameRowsSameDocuments(p.world, w');
    SameDocumentsSameTables(p.tables);
  }

  lemma LinkedProject(site: Site, fileHash: string, chroma: Chroma, actor: nat) returns (moves: seq<Move>)
    requires NoRecords(site, chroma) && site.kbId == site.projectKbId
    ensures
      OneCounts(Play(Opened(chroma, map[site.projectId := 1]), moves), site)
  {
    var steps := [W.Upload(site, fileHash, NO_FAULTS)] + W.Works(site.documentId, FormalSteps(actor));
    var open := Opened(chroma, map[site.projectId := 1]);
    FormalProject(site, fileHash, chroma, actor);
    hide ProjectInv, FormalSteps, NoRecords, AnyRunning;
    var p := Play(open, OnAll(steps));
    assert StoreOf(p, site.documentId).row.Some?;
    hide Formal;
    Linked(p, site, actor);
    hide Advance, Play, OnAll, Opened, C.Fulfilling, W.Works;
    var (add, link) := LinkMoves(site, StoreOf(p, site.documentId).row.value.version, actor);
    PlayOne(open, OnAll(steps), add);
    PlayOne(open, OnAll(steps) + [add], link);
    moves := OnAll(steps) + [add] + [link];
  }

  /** After these moves some document counts for the item, and no formal one. */
  ghost predicate SatisfiedUnseen(open: Project, moves: seq<Move>, projectId: C.Id, itemId: C.Id) {
    var p := Play(open, moves);
    C.Fulfilling(p.tables, projectId, itemId) != {} && FormalFulfilling(p, projectId, itemId) == {}
  }

  /** A checklist item can be satisfied by a document that neither catalogue nor
      retrieval shows: somebody confirms it, links it, and starts to delete it. */
  lemma HiddenDocumentCanSatisfy(site: Site, fileHash: string, chroma: Chroma, actor: nat)
    requires NoRecords(site, chroma) && site.kbId == site.projectKbId
    ensures
      exists moves :: SatisfiedUnseen(Opened(chroma, map[site.projectId := 1]), moves, site.projectId, 0)
  {
    var linking := LinkedProject(site, fileHash, chroma, actor);
    DeletingLeavesItSatisfied(Opened(chroma, map[site.projectId := 1]), linking, site);
  }

  lemma DeletingLeavesItSatisfied(open: Project, linking: seq<Move>, site: Site)
    requires OneCounts(Play(open, linking), site)
    ensures exists moves :: SatisfiedUnseen(open, moves, site.projectId, 0)
  {
    hide OneCounts;
    var start := OnDocuments(W.Work(site.documentId, StartDelete(0, site.ownerId)));
    HiddenByDelete(Play(open, linking), site);
    PlayOne(open, linking, start);
    assert SatisfiedUnseen(open, linking + [start], site.projectId, 0);
  }

  /** The project's one document counts for item zero and can be deleted. */
  ghost predicate OneCounts(p: Project, site: Site) {
    && ProjectInv(p) && p.world.documents.Keys == {site.documentId} && p.world.documents[site.documentId].site == site
    && p.world.documents[site.documentId].system.processes == map[]
    && StoreOf(p, site.documentId).row.Some? && !AnyRunning(StoreOf(p, site.documentId).ops)
    && site.documentId in C.Fulfilling(p.tables, site.projectId, 0)
  }

  lemma HiddenByDelete(p: Project, site: Site)
    requires OneCounts(p, site)
    ensures
      var p' := Advance(p, OnDocuments(W.Work(site.documentId, StartDelete(0, site.ownerId))));
      C.Fulfilling(p'.tables, site.projectId, 0) != {} && FormalFulfilling(p', site.projectId, 0) == {}
  {
    hide Advance, ProjectInv, C.Fulfilling, FormalFulfilling, AnyRunning, Formal;
    StartedDeletesKeepCounting(p, site.documentId, 0);
    NoneIsFormal(Advance(p, OnDocuments(W.Work(site.documentId, StartDelete(0, site.ownerId)))), site.projectId, 0, site.documentId);
  }

  lemma NoneIsFormal(p: Project, projectId: C.Id, itemId: C.Id, id: Uuid)
    requires ProjectInv(p) && p.world.documents.Keys == {id} && !Formal(StoreOf(p, id))
    ensures FormalFulfilling(p, projectId, itemId) == {}
  {
    hide Formal, ProjectInv, C.Fulfilling;
  }
}
