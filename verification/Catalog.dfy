/** The formal catalogue and the formal retrieval scope: two readers behind one
    visibility gate (app/services/archive/catalog.py, reads.py, retrieval.py). */
module Catalog {
  import opened Wrappers
  import opened FinalChunks
  import opened Archive
  import L = Lifecycle
  import S = LifecycleSafety
  import R = Retrieval

  /** A document of the project as a query finds it, rows and operations together. */
  datatype Listed = Listed(id: Uuid, kbId: nat, store: Store)

  predicate DistinctDocuments(docs: seq<Listed>) {
    forall i, j :: 0 <= i < j < |docs| ==> docs[i].id != docs[j].id
  }

  /** `list_visibility_blocked_document_ids`. */
  function BlockedIds(docs: seq<Listed>): set<Uuid> {
    set d | d in docs && d.store.row.Some? && Blocked(d.store.ops) :: d.id
  }

  predicate IsConfirmed(d: Listed) { d.store.row.Some? && d.store.row.value.status == Confirmed }

  // ---- what a reader may show -------------------------------------------

  /** CONFIRMED, and no unfinished operation hid it when the blocks were read. */
  predicate Visible(d: Listed, before: seq<Listed>) {
    && d.store.row.Some? && d.store.row.value.status == Confirmed
    && forall b :: b in before && b.id == d.id && b.store.row.Some? ==>
         forall i :: 0 <= i < |b.store.ops| && b.store.ops[i].blocking ==> b.store.ops[i].status !in {Running, Failed}
  }

  lemma VisibleIff(d: Listed, before: seq<Listed>)
    ensures Visible(d, before) <==> IsConfirmed(d) && d.id !in BlockedIds(before)
  {
    if d.id in BlockedIds(before) {
      var b :| b in before && b.store.row.Some? && Blocked(b.store.ops) && b.id == d.id;
    }
  }

  /** The list shows these documents, each once and in their order. */
  predicate Picks(places: seq<nat>, n: nat) {
    (forall j, k :: 0 <= j < k < |places| ==> places[j] < places[k]) && (forall k :: 0 <= k < |places| ==> places[k] < n)
  }

  ghost predicate ScopeShows(ids: seq<Uuid>, docs: seq<Listed>, before: seq<Listed>, kbId: nat, places: seq<nat>) {
    && Picks(places, |docs|) && |ids| == |places|
    && (forall i: nat :: i in places <==> i < |docs| && Visible(docs[i], before) && docs[i].kbId == kbId)
    && forall k :: 0 <= k < |ids| ==> ids[k] == docs[places[k]].id
  }

  function ScopePlaces(docs: seq<Listed>, before: seq<Listed>, kbId: nat): seq<nat> {
    if docs == [] then []
    else
      var n := |docs| - 1;
      ScopePlaces(docs[..n], before, kbId)
      + if IsConfirmed(docs[n]) && docs[n].kbId == kbId && docs[n].id !in BlockedIds(before) then [n] else []
  }

  lemma {:induction false} ScopeIsShown(docs: seq<Listed>, before: seq<Listed>, kbId: nat)
    ensures ScopeShows(ScopeOf(docs, before, kbId), docs, before, kbId, ScopePlaces(docs, before, kbId))
  {
    if docs != [] {
      var n := |docs| - 1;
      ScopeIsShown(docs[..n], before, kbId);
      VisibleIff(docs[n], before);
      hide Visible, IsConfirmed, BlockedIds, ScopeShows;
      var ids, places := ScopeOf(docs[..n], before, kbId), ScopePlaces(docs[..n], before, kbId);
      assert ids + [] == ids && places + [] == places;
      OneMoreInScope(ids, docs, before, kbId, places);
    }
  }

  lemma OneMoreInScope(ids: seq<Uuid>, docs: seq<Listed>, before: seq<Listed>, kbId: nat, places: seq<nat>)
    requires docs != [] && ScopeShows(ids, docs[..|docs| - 1], before, kbId, places)
    ensures
      var d := docs[|docs| - 1];
      if Visible(d, before) && d.kbId == kbId then ScopeShows(ids + [d.id], docs, before, kbId, places + [|docs| - 1])
      else ScopeShows(ids, docs, before, kbId, places)
  {
    hide Visible;
  }

  // ---- the retrieval scope ----------------------------------------------

  function ScopeOf(docs: seq<Listed>, all: seq<Listed>, kbId: nat): seq<Uuid> {
    if docs == [] then []
    else
      var last := docs[|docs| - 1];
      ScopeOf(docs[..|docs| - 1], all, kbId)
      + if IsConfirmed(last) && last.kbId == kbId && last.id !in BlockedIds(all) then [last.id] else []
  }

  /** `_formal_document_ids`: two queries, the blocked ids as they were `before`, then
      the documents. */
  method FormalDocumentIds(before: seq<Listed>, docs: seq<Listed>, kbId: nat) returns (ids: seq<Uuid>)
    ensures ids == ScopeOf(docs, before, kbId)
    ensures exists places :: ScopeShows(ids, docs, before, kbId, places)
  {
    ScopeIsShown(docs, before, kbId);
    var blocked := BlockedIds(before);
    ids := [];
    for i := 0 to |docs|
      invariant ids == ScopeOf(docs[..i], before, kbId)
    {
      assert docs[..i + 1][..i] == docs[..i];
      if IsConfirmed(docs[i]) && docs[i].kbId == kbId && docs[i].id !in blocked {
        ids := ids + [docs[i].id];
      }
    }
    assert docs[..|docs|] == docs;
  }

  // ---- the catalogue ----------------------------------------------------

  datatype Filters = Filters(
    documentType: Option<string>, projectStage: Option<string>, dateFrom: Option<int>, dateTo: Option<int>,
    dateIsNull: bool, organization: Option<string>)

  const NO_FILTERS := Filters(None, None, None, None, false, None)

  datatype CatalogError = ValidationError | ArchiveNotFormal

  datatype Summary = Summary(
    id: Uuid, title: Option<string>, documentType: Option<string>, documentDate: Option<int>,
    organization: Option<string>, projectStage: Option<string>, version: nat)

  function TextOf(fields: Fields, name: FieldName): Option<string> {
    if name in fields then fields[name].columns.text else None
  }

  function DateOf(fields: Fields): Option<int> {
    if DocumentDate in fields then fields[DocumentDate].columns.date else None
  }

  function TypeOf(fields: Fields): Option<string> {
    var text := TextOf(fields, DocumentType);
    if text.Some? && KnownDocumentType(text.value) then text else None
  }

  function StageOf(fields: Fields): Option<string> {
    var text := TextOf(fields, ProjectStage);
    if text.Some? && KnownProjectStage(text.value) then text else None
  }

  function SummaryOf(d: Listed): Summary
    requires d.store.row.Some?
  {
    var row := d.store.row.value;
    Summary(d.id, TextOf(row.fields, Title), TypeOf(row.fields), DateOf(row.fields),
            TextOf(row.fields, AuthoringOrganization), StageOf(row.fields), row.version)
  }

  /** What a filter asks of a document. */
  predicate Satisfies(s: Summary, f: Filters) {
    && (f.documentType.Some? ==> s.documentType == f.documentType)
    && (f.projectStage.Some? ==> s.projectStage == f.projectStage)
    && (f.dateIsNull ==> s.documentDate.None?)
    && (f.dateFrom.Some? ==> s.documentDate.Some? && s.documentDate.value >= f.dateFrom.value)
    && (f.dateTo.Some? ==> s.documentDate.Some? && s.documentDate.value <= f.dateTo.value)
    && (f.organization.Some? ==> s.organization == f.organization)
  }

  function Catalogue(docs: seq<Listed>, all: seq<Listed>, f: Filters): seq<Summary> {
    if docs == [] then []
    else
      var last := docs[|docs| - 1];
      Catalogue(docs[..|docs| - 1], all, f)
      + if IsConfirmed(last) && last.id !in BlockedIds(all) && Satisfies(SummaryOf(last), f) then [SummaryOf(last)] else []
  }

  /** What a summary shows of a document's fields. */
  predicate SummaryShows(s: Summary, d: Listed) {
    && d.store.row.Some? && s.id == d.id && s.version == d.store.row.value.version
    && var fields := d.store.row.value.fields;
       && s.title == (if Title in fields then fields[Title].columns.text else None)
       && s.organization == (if AuthoringOrganization in fields then fields[AuthoringOrganization].columns.text else None)
       && s.documentDate == (if DocumentDate in fields then fields[DocumentDate].columns.date else None)
       && s.documentType ==
          (if DocumentType in fields && fields[DocumentType].columns.text.Some?
              && fields[DocumentType].columns.text.value in {"CONTRACT", "DESIGN", "CONSTRUCTION", "MEETING_MINUTES", "ACCEPTANCE", "OTHER"}
           then fields[DocumentType].columns.text else None)
       && s.projectStage ==
          (if ProjectStage in fields && fields[ProjectStage].columns.text.Some?
              && fields[ProjectStage].columns.text.value in {"PREPARATION", "DESIGN", "CONSTRUCTION", "ACCEPTANCE", "CROSS_STAGE", "OTHER_STAGE"}
           then fields[ProjectStage].columns.text else None)
  }

  lemma SummaryIsShown(d: Listed)
    requires d.store.row.Some?
    ensures SummaryShows(SummaryOf(d), d)
  {}

  /** The filters ask nothing of this summary that it does not have. */
  predicate Wanted(s: Summary, f: Filters) {
    && s.documentType == (if f.documentType.Some? then f.documentType else s.documentType)
    && s.projectStage == (if f.projectStage.Some? then f.projectStage else s.projectStage)
    && s.organization == (if f.organization.Some? then f.organization else s.organization)
    && match s.documentDate
       case None => f.dateFrom.None? && f.dateTo.None?
       case Some(day) => !f.dateIsNull && (f.dateFrom.Some? ==> f.dateFrom.value <= day) && (f.dateTo.Some? ==> day <= f.dateTo.value)
  }

  /** The whole list: a summary of each visible document that is wanted, in their order. */
  ghost predicate ListShows(list: seq<Summary>, docs: seq<Listed>, before: seq<Listed>, f: Filters, places: seq<nat>) {
    && Picks(places, |docs|) && |list| == |places|
    && (forall i: nat :: i in places <==>
          i < |docs| && Visible(docs[i], before) && exists s :: SummaryShows(s, docs[i]) && Wanted(s, f))
    && forall k :: 0 <= k < |list| ==> SummaryShows(list[k], docs[places[k]])
  }

  function ListPlaces(docs: seq<Listed>, before: seq<Listed>, f: Filters): seq<nat> {
    if docs == [] then []
    else
      var n := |docs| - 1;
      ListPlaces(docs[..n], before, f)
      + if IsConfirmed(docs[n]) && docs[n].id !in BlockedIds(before) && Satisfies(SummaryOf(docs[n]), f) then [n] else []
  }

  lemma SatisfiesIff(d: Listed, f: Filters)
    requires d.store.row.Some?
    ensures Satisfies(SummaryOf(d), f) <==> exists s :: SummaryShows(s, d) && Wanted(s, f)
  {
    SummaryIsShown(d);
    assert forall s :: SummaryShows(s, d) ==> s == SummaryOf(d);
    hide SummaryShows, SummaryOf;
  }

  lemma {:induction false} CatalogueIsShown(docs: seq<Listed>, before: seq<Listed>, f: Filters)
    ensures ListShows(Catalogue(docs, before, f), docs, before, f, ListPlaces(docs, before, f))
  {
    if docs != [] {
      var n := |docs| - 1;
      var d := docs[n];
      CatalogueIsShown(docs[..n], before, f);
      VisibleIff(d, before);
      if d.store.row.Some? {
        SatisfiesIff(d, f);
        SummaryIsShown(d);
      }
      hide Visible, BlockedIds, SummaryShows, SummaryOf, Satisfies, Wanted, ListShows;
      var listed := IsConfirmed(d) && d.id !in BlockedIds(before) && Satisfies(SummaryOf(d), f);
      hide IsConfirmed;
      var list, places := Catalogue(docs[..n], before, f), ListPlaces(docs[..n], before, f);
      if listed {
        OneMoreListed(list, docs, before, f, places, SummaryOf(d));
      } else {
        assert list + [] == list && places + [] == places;
        OneMoreUnlisted(list, docs, before, f, places);
      }
    }
  }

  lemma OneMoreListed(list: seq<Summary>, docs: seq<Listed>, before: seq<Listed>, f: Filters, places: seq<nat>, s: Summary)
    requires docs != [] && ListShows(list, docs[..|docs| - 1], before, f, places)
    requires SummaryShows(s, docs[|docs| - 1]) && Visible(docs[|docs| - 1], before)
    requires exists x :: SummaryShows(x, docs[|docs| - 1]) && Wanted(x, f)
    ensures ListShows(list + [s], docs, before, f, places + [|docs| - 1])
  {
    hide Visible, SummaryShows, Wanted;
  }

  lemma OneMoreUnlisted(list: seq<Summary>, docs: seq<Listed>, before: seq<Listed>, f: Filters, places: seq<nat>)
    requires docs != [] && ListShows(list, docs[..|docs| - 1], before, f, places)
    requires !(Visible(docs[|docs| - 1], before) && exists x :: SummaryShows(x, docs[|docs| - 1]) && Wanted(x, f))
    ensures ListShows(list, docs, before, f, places)
  {
    hide Visible, SummaryShows, Wanted;
  }

  /** Of the list, the entries from `start` on, as many as a page holds. */
  predicate IsSlice(items: seq<Summary>, list: seq<Summary>, start: nat, size: nat) {
    && |items| == (if start + size <= |list| then size else if start < |list| then |list| - start else 0)
    && forall k :: 0 <= k < |items| ==> start + k < |list| && items[k] == list[start + k]
  }

  /** A page of a list, as Python slices it. */
  function Page<T>(items: seq<T>, page: nat, pageSize: nat): seq<T>
    requires page >= 1
  {
    Slice(items, (page - 1) * pageSize, pageSize)
  }

  function Slice<T>(items: seq<T>, start: nat, size: nat): seq<T> {
    if start >= |items| then [] else if start + size >= |items| then items[start..] else items[start..start + size]
  }

  lemma SliceIs(list: seq<Summary>, start: nat, size: nat)
    ensures IsSlice(Slice(list, start, size), list, start, size)
  {}

  /** The page of the whole list. */
  ghost predicate PageShows(
    items: seq<Summary>, total: nat, docs: seq<Listed>, before: seq<Listed>, f: Filters, start: nat, pageSize: nat)
  {
    exists list, places :: ListShows(list, docs, before, f, places) && IsSlice(items, list, start, pageSize) && total == |list|
  }

  lemma PageIsShown(docs: seq<Listed>, before: seq<Listed>, f: Filters, page: nat, pageSize: nat)
    requires page >= 1
    ensures
      var list := Catalogue(docs, before, f);
      PageShows(Page(list, page, pageSize), |list|, docs, before, f, (page - 1) * pageSize, pageSize)
  {
    CatalogueIsShown(docs, before, f);
    SliceIs(Catalogue(docs, before, f), (page - 1) * pageSize, pageSize);
    hide Catalogue, ListShows, IsSlice, Slice, ListPlaces;
  }

  /** `list_formal_archives`: the blocked ids as they were `before`, then the documents,
      which come in catalogue order. */
  method ListFormalArchives(before: seq<Listed>, docs: seq<Listed>, page: nat, pageSize: nat, f: Filters)
    returns (r: Result<(seq<Summary>, nat), CatalogError>)
    requires page >= 1 && pageSize >= 1
    ensures r.Failure? <==>
            || (f.dateIsNull && (f.dateFrom.Some? || f.dateTo.Some?))
            || (f.dateFrom.Some? && f.dateTo.Some? && f.dateTo.value < f.dateFrom.value)
    ensures r.Success? ==> r.value.0 == Page(Catalogue(docs, before, f), page, pageSize)
    ensures r.Success? ==> r.value.1 == |Catalogue(docs, before, f)|
    ensures r.Success? ==> PageShows(r.value.0, r.value.1, docs, before, f, (page - 1) * pageSize, pageSize)
  {
    PageIsShown(docs, before, f, page, pageSize);
    hide SummaryOf, Page, PageShows;
    if f.dateIsNull && (f.dateFrom.Some? || f.dateTo.Some?) {
      return Failure(ValidationError);
    }
    if f.dateFrom.Some? && f.dateTo.Some? && f.dateFrom.value > f.dateTo.value {
      return Failure(ValidationError);
    }
    var blocked := BlockedIds(before);
    var filtered: seq<Summary> := [];
    for i := 0 to |docs|
      invariant filtered == Catalogue(docs[..i], before, f)
    {
      assert docs[..i + 1][..i] == docs[..i];
      var d := docs[i];
      if !IsConfirmed(d) || d.id in blocked {
        continue;
      }
      var s := SummaryOf(d);
      if f.documentType.Some? && s.documentType != f.documentType {
        continue;
      }
      if f.projectStage.Some? && s.projectStage != f.projectStage {
        continue;
      }
      if f.dateIsNull && s.documentDate.Some? {
        continue;
      }
      if f.dateFrom.Some? && (s.documentDate.None? || s.documentDate.value < f.dateFrom.value) {
        continue;
      }
      if f.dateTo.Some? && (s.documentDate.None? || s.documentDate.value > f.dateTo.value) {
        continue;
      }
      if f.organization.Some? && s.organization != f.organization {
        continue;
      }
      filtered := filtered + [s];
    }
    assert docs[..|docs|] == docs;
    r := Success((Page(filtered, page, pageSize), |filtered|));
  }

  /** `read_formal_archive`. */
  method ReadFormalArchive(docs: seq<Listed>, d: Listed) returns (r: Result<Summary, CatalogError>)
    requires DistinctDocuments(docs) && d in docs
    ensures r.Success? <==> Formal(d.store)
    ensures r == if Formal(d.store) then Success(SummaryOf(d)) else Failure(ArchiveNotFormal)
    ensures r.Success? <==> Visible(d, docs)
    ensures r.Success? ==> SummaryShows(r.value, d)
  {
    VisibleIff(d, docs);
    if d.store.row.Some? {
      SummaryIsShown(d);
    }
    hide Visible, SummaryShows;
    NotBlockedIff(docs, d);
    if d.store.row.None? || d.store.row.value.status != Confirmed {
      return Failure(ArchiveNotFormal);
    }
    if d.id in BlockedIds(docs) {
      return Failure(ArchiveNotFormal);
    }
    r := Success(SummaryOf(d));
  }

  // ---- one gate ---------------------------------------------------------

  lemma NotBlockedIff(docs: seq<Listed>, d: Listed)
    requires DistinctDocuments(docs) && d in docs
    ensures IsConfirmed(d) && d.id !in BlockedIds(docs) <==> Formal(d.store)
  {
    if d.id in BlockedIds(docs) {
      var e :| e in docs && e.store.row.Some? && Blocked(e.store.ops) && e.id == d.id;
      var i :| 0 <= i < |docs| && docs[i] == d;
      var j :| 0 <= j < |docs| && docs[j] == e;
    }
  }

  lemma {:induction false} ScopeIs(docs: seq<Listed>, all: seq<Listed>, kbId: nat, id: Uuid)
    ensures id in ScopeOf(docs, all, kbId) <==>
            exists d :: d in docs && d.id == id && IsConfirmed(d) && d.kbId == kbId && d.id !in BlockedIds(all)
  {
    hide BlockedIds;
    if docs != [] {
      var n := |docs| - 1;
      ScopeIs(docs[..n], all, kbId, id);
      assert docs == docs[..n] + [docs[n]];
    }
  }

  lemma {:induction false} CatalogueIs(docs: seq<Listed>, all: seq<Listed>, f: Filters, s: Summary)
    ensures s in Catalogue(docs, all, f) <==>
            exists d :: d in docs && IsConfirmed(d) && d.id !in BlockedIds(all) && SummaryOf(d) == s && Satisfies(s, f)
  {
    hide BlockedIds, SummaryOf, IsConfirmed, Satisfies;
    if docs != [] {
      var n := |docs| - 1;
      CatalogueIs(docs[..n], all, f, s);
      assert docs == docs[..n] + [docs[n]];
      assert forall d :: d in docs <==> d in docs[..n] || d == docs[n];
    }
  }

  /** A document of the project's knowledge base is in the retrieval scope, in the
      catalogue, and readable in detail, all three exactly when it is formal. */
  lemma ReadersAgree(docs: seq<Listed>, kbId: nat, d: Listed)
    requires DistinctDocuments(docs) && d in docs && d.store.row.Some?
    ensures d.id in ScopeOf(docs, docs, kbId) <==> Formal(d.store) && d.kbId == kbId
    ensures SummaryOf(d) in Catalogue(docs, docs, NO_FILTERS) <==> Formal(d.store)
  {
    NotBlockedIff(docs, d);
    ScopeIs(docs, docs, kbId, d.id);
    CatalogueIs(docs, docs, NO_FILTERS, SummaryOf(d));
    if e :| e in docs && e.id == d.id {
      SameDocument(docs, d, e);
    }
  }

  lemma SameDocument(docs: seq<Listed>, d: Listed, e: Listed)
    requires DistinctDocuments(docs) && d in docs && e in docs && d.id == e.id
    ensures d == e
  {
    var i :| 0 <= i < |docs| && docs[i] == d;
    var j :| 0 <= j < |docs| && docs[j] == e;
  }

  /** The query found the document, in this state, if it was there at all. */
  ghost predicate Saw(docs: seq<Listed>, id: Uuid, store: Store) {
    && DistinctDocuments(docs)
    && (forall d :: d in docs && d.id == id ==> d.store == store)
    && (store.row.Some? ==> exists d :: d in docs && d.id == id)
  }

  lemma BlockedIsSeen(before: seq<Listed>, id: Uuid, store: Store)
    requires Saw(before, id, store)
    ensures id in BlockedIds(before) <==> store.row.Some? && Blocked(store.ops)
  {}

  /** Between the two queries anything may happen. The retrieval scope shows a document
      that is not formal at the second query in exactly one case: it is CONFIRMED there,
      and the block on it was not yet there at the first. */
  lemma ShownThoughHiddenIff(before: seq<Listed>, docs: seq<Listed>, kbId: nat, d: Listed, earlier: Store)
    requires Saw(before, d.id, earlier) && Saw(docs, d.id, d.store) && d in docs && d.kbId == kbId
    ensures
      d.id in ScopeOf(docs, before, kbId) && !Formal(d.store) <==>
      IsConfirmed(d) && Blocked(d.store.ops) && !(earlier.row.Some? && Blocked(earlier.ops))
  {
    BlockedIsSeen(before, d.id, earlier);
    ScopeIs(docs, before, kbId, d.id);
    hide BlockedIds;
    if e :| e in docs && e.id == d.id {
      SameDocument(docs, d, e);
    }
  }

  /** Once a delete of the document has started, in whatever run, it is in no retrieval
      scope and in no catalogue however filtered, whatever happens between the two
      queries of the reader, and no answer of the vector store, whatever it holds, yields
      a candidate of it. */
  lemma DeletingHidesFromEveryReader(
    site: Site, start: L.System, steps: seq<L.Step>, step: L.Step, later: seq<L.Step>, between: seq<L.Step>,
    before: seq<Listed>, docs: seq<Listed>, kbId: nat, f: Filters, rows: seq<R.Row>)
    requires L.Initial(site, start) && S.StartsDelete(site, L.Run(site, start, steps), step)
    requires Saw(before, site.documentId, L.Run(site, start, steps + [step] + later).store)
    requires Saw(docs, site.documentId, L.Run(site, start, steps + [step] + later + between).store)
    ensures site.documentId !in ScopeOf(docs, before, kbId)
    ensures forall s :: s in Catalogue(docs, before, f) ==> s.id != site.documentId
    ensures forall c :: c in R.Candidates(rows, set id | id in ScopeOf(docs, before, kbId)) ==> c.item.documentId != site.documentId
  {
    var earlier := L.Run(site, start, steps + [step] + later);
    S.StartedDeletesHideForever(site, start, steps, step, later);
    L.RunAppends(site, start, steps + [step] + later, between);
    BlockedIsSeen(before, site.documentId, earlier.store);
    if earlier.store.row.None? {
      S.RowStaysGoneInRuns(site, earlier, between);
    }
    NotShown(docs, before, site.documentId, L.Run(site, earlier, between).store, kbId, f, rows);
  }

  lemma NotShown(docs: seq<Listed>, before: seq<Listed>, id: Uuid, store: Store, kbId: nat, f: Filters, rows: seq<R.Row>)
    requires Saw(docs, id, store) && (store.row.None? || id in BlockedIds(before))
    ensures id !in ScopeOf(docs, before, kbId)
    ensures forall s :: s in Catalogue(docs, before, f) ==> s.id != id
    ensures forall c :: c in R.Candidates(rows, set d | d in ScopeOf(docs, before, kbId)) ==> c.item.documentId != id
  {
    hide SummaryOf, BlockedIds;
    ScopeIs(docs, before, kbId, id);
    forall s | s in Catalogue(docs, before, f) ensures s.id != id {
      CatalogueIs(docs, before, f, s);
      var d :| d in docs && IsConfirmed(d) && d.id !in BlockedIds(before) && SummaryOf(d) == s && Satisfies(s, f);
      SummaryId(d);
    }
    var formal := set d | d in ScopeOf(docs, before, kbId);
    forall c | c in R.Candidates(rows, formal) ensures c.item.documentId != id {
      R.CandidatesAreFormal(rows, formal, c);
    }
  }

  lemma SummaryId(d: Listed)
    requires IsConfirmed(d)
    ensures SummaryOf(d).id == d.id
  {}

  // ---- pages ------------------------------------------------------------

  /** The first pages one after the other. */
  function Pages<T>(items: seq<T>, pages: nat, pageSize: nat): seq<T> {
    if pages == 0 then [] else Pages(items, pages - 1, pageSize) + Page(items, pages, pageSize)
  }

  /** Paging loses nothing and repeats nothing: the pages in order are the list. */
  lemma {:induction false} PagesMakeTheList<T>(items: seq<T>, pages: nat, pageSize: nat)
    requires pageSize >= 1
    ensures Pages(items, pages, pageSize) == if pages * pageSize >= |items| then items else items[..pages * pageSize]
  {
    if pages > 0 {
      PagesMakeTheList(items, pages - 1, pageSize);
      assert pages * pageSize == (pages - 1) * pageSize + pageSize;
    }
  }
}
