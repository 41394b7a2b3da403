/** The completeness checklist of a project: items, links to archived documents, and
    the fulfilment derived from them (app/services/project/checklists.py,
    app/services/archive/checklist_links.py). */
module Checklists {
  import opened Wrappers
  import opened FinalChunks

  // ---- tables -----------------------------------------------------------

  type Id = nat

  datatype Item = Item(
    projectId: Id, name: string, documentType: string, required: bool, stage: string, description: Option<string>,
    version: nat)

  datatype LinkStatus = LinkConfirmed | LinkInvalidated

  datatype Link = Link(documentId: Uuid, itemId: Id, status: LinkStatus, confirmedBy: Id, version: nat)

  /** What the checklist asks of a document: its project, whether it is CONFIRMED, and
      its version. Other services change all but the project. */
  datatype Document = Document(projectId: Id, confirmed: bool, version: nat)

  datatype Tables = Tables(
    projects: map<Id, nat>,
    items: map<Id, Item>,
    links: map<Id, Link>,
    documents: map<Uuid, Document>)

  datatype ChecklistError =
    | VersionConflict | ChecklistItemNotFound | ChecklistLinkNotAllowed | ChecklistLinkNotFound | DocumentNotFound

  // ---- operations -------------------------------------------------------

  datatype NewItem = NewItem(name: string, documentType: string, required: bool, stage: string, description: Option<string>)

  /** The fields the client has set. */
  datatype Patch = Patch(
    name: Option<string>, documentType: Option<string>, required: Option<bool>, stage: Option<string>,
    description: Option<Option<string>>)

  function CreateItem(t: Tables, projectId: Id, expected: nat, id: Id, n: NewItem): Result<Tables, ChecklistError> {
    if projectId !in t.projects || t.projects[projectId] != expected then Failure(VersionConflict)
    else
      Success(t.(projects := t.projects[projectId := expected + 1],
                 items := t.items[id := Item(projectId, n.name, n.documentType, n.required, n.stage, n.description, 1)]))
  }

  predicate MatchingChanged(item: Item, p: Patch) {
    || (p.name.Some? && p.name.value != item.name)
    || (p.documentType.Some? && p.documentType.value != item.documentType)
    || (p.stage.Some? && p.stage.value != item.stage)
  }

  function Patched(item: Item, p: Patch): Item {
    Item(item.projectId,
         if p.name.Some? then p.name.value else item.name,
         if p.documentType.Some? then p.documentType.value else item.documentType,
         if p.required.Some? then p.required.value else item.required,
         if p.stage.Some? then p.stage.value else item.stage,
         if p.description.Some? then p.description.value else item.description,
         item.version + 1)
  }

  /** Every confirmed link of the item loses its force. */
  function Invalidated(links: map<Id, Link>, itemId: Id): map<Id, Link> {
    map l | l in links ::
      if links[l].itemId == itemId && links[l].status == LinkConfirmed then
        links[l].(status := LinkInvalidated, version := links[l].version + 1)
      else links[l]
  }

  function UpdateItem(t: Tables, projectId: Id, itemId: Id, expected: nat, p: Patch): Result<Tables, ChecklistError> {
    if itemId !in t.items || t.items[itemId].projectId != projectId then Failure(ChecklistItemNotFound)
    else if t.items[itemId].version != expected then Failure(VersionConflict)
    else
      var item := t.items[itemId];
      Success(t.(items := t.items[itemId := Patched(item, p)],
                 links := if MatchingChanged(item, p) then Invalidated(t.links, itemId) else t.links))
  }

  function DeleteItem(t: Tables, projectId: Id, itemId: Id): Result<Tables, ChecklistError> {
    if itemId !in t.items || t.items[itemId].projectId != projectId then Failure(ChecklistItemNotFound)
    else
      Success(t.(items := t.items - {itemId},
                 links := map l | l in t.links && t.links[l].itemId != itemId :: t.links[l]))
  }

  /** The link between the document and the item; the unique constraint allows one. */
  predicate IsLinkOf(t: Tables, l: Id, documentId: Uuid, itemId: Id) {
    l in t.links && t.links[l].documentId == documentId && t.links[l].itemId == itemId
  }

  datatype LinkRequest = LinkRequest(itemId: Id, documentVersion: nat, itemVersion: nat)

  /** Why a link is refused, if it is, before links are looked at. */
  function LinkRefusal(t: Tables, documentId: Uuid, q: LinkRequest): Option<ChecklistError> {
    if documentId !in t.documents || !t.documents[documentId].confirmed then Some(ChecklistLinkNotAllowed)
    else if t.documents[documentId].version != q.documentVersion then Some(VersionConflict)
    else if q.itemId !in t.items || t.items[q.itemId].projectId != t.documents[documentId].projectId then
      Some(ChecklistItemNotFound)
    else if t.items[q.itemId].version != q.itemVersion then Some(VersionConflict)
    else None
  }

  ghost function CreateLink(t: Tables, documentId: Uuid, q: LinkRequest, actor: Id, newId: Id): Result<Tables, ChecklistError> {
    if LinkRefusal(t, documentId, q).Some? then Failure(LinkRefusal(t, documentId, q).value)
    else if l :| IsLinkOf(t, l, documentId, q.itemId) then
      if t.links[l].status == LinkConfirmed then Failure(ChecklistLinkNotAllowed)
      else
        Success(t.(links := t.links[l := t.links[l].(status := LinkConfirmed, confirmedBy := actor, version := t.links[l].version + 1)]))
    else Success(t.(links := t.links[newId := Link(documentId, q.itemId, LinkConfirmed, actor, 1)]))
  }

  function DeleteLink(t: Tables, documentId: Uuid, linkId: Id): Result<Tables, ChecklistError> {
    if linkId !in t.links || t.links[linkId].documentId != documentId then Failure(ChecklistLinkNotFound)
    else Success(t.(links := t.links - {linkId}))
  }

  // ---- fulfilment -------------------------------------------------------

  /** The link makes its document count for its item in the project. */
  predicate Counts(t: Tables, projectId: Id, l: Id) {
    && l in t.links && t.links[l].status == LinkConfirmed
    && t.links[l].documentId in t.documents
    && t.documents[t.links[l].documentId].confirmed
    && t.documents[t.links[l].documentId].projectId == projectId
  }

  /** The documents that fulfil one item. */
  function Fulfilling(t: Tables, projectId: Id, itemId: Id): set<Uuid> {
    set l | l in t.links && Counts(t, projectId, l) && t.links[l].itemId == itemId :: t.links[l].documentId
  }

  /** `_read_confirmed_document_count`. */
  function CountOf(t: Tables, projectId: Id, itemId: Id): nat { |Fulfilling(t, projectId, itemId)| }

  datatype Fulfilment = Satisfied | Missing | NotProvided

  function FulfilmentOf(item: Item, count: nat): Fulfilment {
    if count > 0 then Satisfied else if item.required then Missing else NotProvided
  }

  datatype ItemRead = ItemRead(id: Id, item: Item, count: nat, fulfilment: Fulfilment)

  /** What a reader is told of an item. */
  function ReadOf(t: Tables, projectId: Id, itemId: Id): ItemRead
    requires itemId in t.items
  {
    var count := CountOf(t, projectId, itemId);
    ItemRead(itemId, t.items[itemId], count, FulfilmentOf(t.items[itemId], count))
  }

  // ---- the services, as they change the tables --------------------------

  ghost predicate Consistent(t: Tables) {
    && (forall l :: l in t.links ==> t.links[l].itemId in t.items && t.links[l].documentId in t.documents)
    && (forall l :: l in t.links ==>
          t.items[t.links[l].itemId].projectId == t.documents[t.links[l].documentId].projectId)
    && (forall l, m ::
          (l in t.links && m in t.links && t.links[l].documentId == t.links[m].documentId && t.links[l].itemId == t.links[m].itemId)
          ==> l == m)
  }

  class ChecklistStore {
    var projects: map<Id, nat>
    var items: map<Id, Item>
    var links: map<Id, Link>
    var documents: map<Uuid, Document>

    constructor (projects: map<Id, nat>, documents: map<Uuid, Document>)
      ensures View() == Tables(projects, map[], map[], documents)
    {
      this.projects, this.documents := projects, documents;
      items, links := map[], map[];
    }

    function View(): Tables
      reads this
    {
      Tables(projects, items, links, documents)
    }

    /** `create_checklist_item`; `id` is new. */
    method Create(projectId: Id, expected: nat, id: Id, n: NewItem) returns (error: Option<ChecklistError>)
      modifies this`projects, this`items
      ensures
        match CreateItem(old(View()), projectId, expected, id, n)
        case Success(t) => View() == t && error == None
        case Failure(e) => View() == old(View()) && error == Some(e)
    {
      if projectId !in projects || projects[projectId] != expected {
        return Some(VersionConflict);
      }
      projects := projects[projectId := projects[projectId] + 1];
      items := items[id := Item(projectId, n.name, n.documentType, n.required, n.stage, n.description, 1)];
      error := None;
    }

    method PatchItem(before: Item, p: Patch) returns (item: Item)
      ensures item == Patched(before, p)
    {
      item := before;
      if p.name.Some? {
        item := item.(name := p.name.value);
      }
      if p.documentType.Some? {
        item := item.(documentType := p.documentType.value);
      }
      if p.required.Some? {
        item := item.(required := p.required.value);
      }
      if p.stage.Some? {
        item := item.(stage := p.stage.value);
      }
      if p.description.Some? {
        item := item.(description := p.description.value);
      }
      item := item.(version := item.version + 1);
    }

    /** `update_checklist_item`. */
    method Update(projectId: Id, itemId: Id, expected: nat, p: Patch) returns (r: Result<ItemRead, ChecklistError>)
      modifies this`items, this`links
      ensures
        match UpdateItem(old(View()), projectId, itemId, expected, p)
        case Success(t) =>
          && View() == t && itemId in items
          && r == Success(ReadOf(t, projectId, itemId))
        case Failure(e) => View() == old(View()) && r == Failure(e)
    {
      hide CountOf, FulfilmentOf, Patched, Invalidated, MatchingChanged;
      if itemId !in items || items[itemId].projectId != projectId {
        return Failure(ChecklistItemNotFound);
      }
      var item := items[itemId];
      if item.version != expected {
        return Failure(VersionConflict);
      }
      var changed := MatchingChanged(item, p);
      item := PatchItem(item, p);
      if changed {
        links := Invalidated(links, itemId);
      }
      items := items[itemId := item];
      var count := CountOf(View(), projectId, itemId);
      r := Success(ItemRead(itemId, item, count, FulfilmentOf(item, count)));
    }

    /** `create_document_link`; `newId` is new. */
    method CreateDocumentLink(documentId: Uuid, q: LinkRequest, actor: Id, newId: Id) returns (error: Option<ChecklistError>)
      requires Consistent(View()) && newId !in links
      modifies this`links
      ensures
        match CreateLink(old(View()), documentId, q, actor, newId)
        case Success(t) => View() == t && error == None
        case Failure(e) => View() == old(View()) && error == Some(e)
    {
      hide IsUuidText;
      if documentId !in documents || !documents[documentId].confirmed {
        return Some(ChecklistLinkNotAllowed);
      }
      if documents[documentId].version != q.documentVersion {
        return Some(VersionConflict);
      }
      if q.itemId !in items || items[q.itemId].projectId != documents[documentId].projectId {
        return Some(ChecklistItemNotFound);
      }
      if items[q.itemId].version != q.itemVersion {
        return Some(VersionConflict);
      }
      var existing := set l | l in links && links[l].documentId == documentId && links[l].itemId == q.itemId;
      OnlyLink(View(), documentId, q.itemId);
      assert forall l :: IsLinkOf(View(), l, documentId, q.itemId) ==> l in existing;
      if existing == {} {
        links := links[newId := Link(documentId, q.itemId, LinkConfirmed, actor, 1)];
        return None;
      }
      var l :| l in existing;
      assert IsLinkOf(View(), l, documentId, q.itemId);
      if links[l].status == LinkConfirmed {
        return Some(ChecklistLinkNotAllowed);
      }
      links := links[l := links[l].(status := LinkConfirmed, confirmedBy := actor, version := links[l].version + 1)];
      error := None;
    }

    /** `delete_document_link`. */
    method DeleteDocumentLink(documentId: Uuid, linkId: Id) returns (error: Option<ChecklistError>)
      modifies this`links
      ensures
        match DeleteLink(old(View()), documentId, linkId)
        case Success(t) => View() == t && error == None
        case Failure(e) => View() == old(View()) && error == Some(e)
    {
      if linkId !in links || links[linkId].documentId != documentId {
        return Some(ChecklistLinkNotFound);
      }
      links := links - {linkId};
      error := None;
    }

    /** `delete_checklist_item`. */
    method Delete(projectId: Id, itemId: Id) returns (error: Option<ChecklistError>)
      modifies this`items, this`links
      ensures
        match DeleteItem(old(View()), projectId, itemId)
        case Success(t) => View() == t && error == None
        case Failure(e) => View() == old(View()) && error == Some(e)
    {
      if itemId !in items || items[itemId].projectId != projectId {
        return Some(ChecklistItemNotFound);
      }
      links := map l | l in links && links[l].itemId != itemId :: links[l];
      items := items - {itemId};
      error := None;
    }

    /** `list_checklist_items`: the counts come from one grouped query, joined to the
        items; an item in no group counts zero. */
    method List(projectId: Id) returns (listing: map<Id, ItemRead>)
      ensures listing.Keys == set i | i in items && items[i].projectId == projectId
      ensures forall i :: i in listing ==> listing[i] == ReadOf(View(), projectId, i)
    {
      var groups := Grouped(View(), projectId);
      forall i ensures (if i in groups then groups[i] else 0) == CountOf(View(), projectId, i) {
        GroupedCountIsItemCount(View(), projectId, i);
      }
      listing := map i | i in items && items[i].projectId == projectId ::
        var count := if i in groups then groups[i] else 0;
        ItemRead(i, items[i], count, FulfilmentOf(items[i], count));
    }
  }

  lemma OnlyLink(t: Tables, documentId: Uuid, itemId: Id)
    requires Consistent(t)
    ensures forall l, m :: IsLinkOf(t, l, documentId, itemId) && IsLinkOf(t, m, documentId, itemId) ==> l == m
  {}

  // ---- grouped and single counts agree ----------------------------------

  /** The rows of the grouped query: item and document. */
  function Joined(t: Tables, projectId: Id): set<(Id, Uuid)> {
    set l | l in t.links && Counts(t, projectId, l) :: (t.links[l].itemId, t.links[l].documentId)
  }

  /** Grouped by item, distinct documents counted. */
  function Grouped(t: Tables, projectId: Id): map<Id, nat> {
    var rows := Joined(t, projectId);
    map i | i in Groups(rows) :: |DocumentsIn(rows, i)|
  }

  function Groups(rows: set<(Id, Uuid)>): set<Id> { set r | r in rows :: r.0 }

  function DocumentsIn(rows: set<(Id, Uuid)>, itemId: Id): set<Uuid> { set r | r in rows && r.0 == itemId :: r.1 }

  lemma DocumentsMakeAGroup(rows: set<(Id, Uuid)>, itemId: Id)
    ensures DocumentsIn(rows, itemId) != {} ==> itemId in Groups(rows)
  {
    if d :| d in DocumentsIn(rows, itemId) {
      var r :| r in rows && r.0 == itemId && r.1 == d;
      assert r.0 in Groups(rows);
    }
  }

  /** In whatever state, the grouped count of an item, zero if it has no group, is its
      single count. */
  lemma GroupedCountIsItemCount(t: Tables, projectId: Id, itemId: Id)
    ensures (if itemId in Grouped(t, projectId) then Grouped(t, projectId)[itemId] else 0) == CountOf(t, projectId, itemId)
  {
    var rows := Joined(t, projectId);
    var docs := DocumentsIn(rows, itemId);
    var single := Fulfilling(t, projectId, itemId);
    forall d | d in docs ensures d in single {
      var r :| r in rows && r.0 == itemId && r.1 == d;
      var l :| l in t.links && Counts(t, projectId, l) && (t.links[l].itemId, t.links[l].documentId) == r;
      assert t.links[l].documentId in single;
    }
    forall d | d in single ensures d in docs {
      var l :| l in t.links && Counts(t, projectId, l) && t.links[l].itemId == itemId && t.links[l].documentId == d;
      assert (itemId, d) in rows;
    }
    assert docs == single;
    DocumentsMakeAGroup(rows, itemId);
  }

  /** SATISFIED says: some confirmed link joins the item to a CONFIRMED document of the
      project. */
  lemma SatisfiedIff(t: Tables, projectId: Id, itemId: Id)
    requires itemId in t.items
    ensures FulfilmentOf(t.items[itemId], CountOf(t, projectId, itemId)) == Satisfied <==>
            exists l :: Counts(t, projectId, l) && t.links[l].itemId == itemId
  {
    var docs := Fulfilling(t, projectId, itemId);
    if l :| Counts(t, projectId, l) && t.links[l].itemId == itemId {
      assert t.links[l].documentId in docs;
      assert docs != {};
    } else {
      assert docs == {};
    }
  }

  /** A confirmed link joins the CONFIRMED document of the project to the item. */
  predicate Backs(t: Tables, projectId: Id, itemId: Id, d: Uuid) {
    && d in t.documents && t.documents[d].confirmed && t.documents[d].projectId == projectId
    && exists l :: l in t.links && t.links[l].documentId == d && t.links[l].itemId == itemId && t.links[l].status == LinkConfirmed
  }

  /** What a reader is told: the item, how many documents back it, and whether that is
      enough. */
  lemma ReadTells(t: Tables, projectId: Id, itemId: Id)
    requires itemId in t.items
    ensures
      var read := ReadOf(t, projectId, itemId);
      && read.id == itemId && read.item == t.items[itemId]
      && read.count == |set d | d in t.documents && Backs(t, projectId, itemId, d)|
      && read.fulfilment ==
         (if exists d :: Backs(t, projectId, itemId, d) then Satisfied else if t.items[itemId].required then Missing else NotProvided)
  {
    hide IsUuidText;
    var backing := set d | d in t.documents && Backs(t, projectId, itemId, d);
    forall d ensures d in Fulfilling(t, projectId, itemId) <==> d in backing {
      if d in backing {
        var l :| l in t.links && t.links[l].documentId == d && t.links[l].itemId == itemId && t.links[l].status == LinkConfirmed;
        assert Counts(t, projectId, l);
      }
      if d in Fulfilling(t, projectId, itemId) {
        var l :| l in t.links && Counts(t, projectId, l) && t.links[l].itemId == itemId && t.links[l].documentId == d;
      }
    }
    assert Fulfilling(t, projectId, itemId) == backing;
    if d :| Backs(t, projectId, itemId, d) {
      assert d in backing;
    } else {
      assert backing == {};
    }
  }

  // ---- every reachable state --------------------------------------------

  datatype Step =
    | AddItem(projectId: Id, expected: nat, id: Id, newItem: NewItem)
    | ChangeItem(projectId: Id, itemId: Id, expected: nat, patch: Patch)
    | RemoveItem(projectId: Id, itemId: Id)
    | AddLink(documentId: Uuid, request: LinkRequest, actor: Id, newId: Id)
    | RemoveLink(documentId: Uuid, linkId: Id)
    | DocumentsChange(documents: map<Uuid, Document>)

  function Kept(t: Tables, r: Result<Tables, ChecklistError>): Tables { if r.Success? then r.value else t }

  /** What other services have made of the documents: a document never moves to another
      project, and its links go with it. */
  function WithDocuments(t: Tables, documents: map<Uuid, Document>): Tables {
    if exists d :: d in t.documents && d in documents && documents[d].projectId != t.documents[d].projectId then t
    else t.(documents := documents, links := map l | l in t.links && t.links[l].documentId in documents :: t.links[l])
  }

  /** One step; new ids are new. */
  ghost function Apply(t: Tables, step: Step): Tables {
    match step
    case AddItem(projectId, expected, id, n) => if id in t.items then t else Kept(t, CreateItem(t, projectId, expected, id, n))
    case ChangeItem(projectId, itemId, expected, p) => Kept(t, UpdateItem(t, projectId, itemId, expected, p))
    case RemoveItem(projectId, itemId) => Kept(t, DeleteItem(t, projectId, itemId))
    case AddLink(documentId, q, actor, newId) =>
      if newId in t.links then t else Kept(t, CreateLink(t, documentId, q, actor, newId))
    case RemoveLink(documentId, linkId) => Kept(t, DeleteLink(t, documentId, linkId))
    case DocumentsChange(documents) => WithDocuments(t, documents)
  }

  ghost function Run(t: Tables, steps: seq<Step>): Tables
    decreases |steps|
  {
    if steps == [] then t else Apply(Run(t, steps[..|steps| - 1]), steps[|steps| - 1])
  }

  /** The confirmed link that a successful request leaves. */
  lemma MadeLink(t: Tables, documentId: Uuid, q: LinkRequest, actor: Id, newId: Id) returns (l: Id)
    requires Consistent(t) && newId !in t.links && CreateLink(t, documentId, q, actor, newId).Success?
    ensures
      var t' := CreateLink(t, documentId, q, actor, newId).value;
      && LinkRefusal(t, documentId, q).None?
      && t' == t.(links := t'.links) && t'.links.Keys == t.links.Keys + {l}
      && IsLinkOf(t', l, documentId, q.itemId) && t'.links[l].status == LinkConfirmed
      && (l in t.links ==> IsLinkOf(t, l, documentId, q.itemId))
      && (l !in t.links ==> forall m :: !IsLinkOf(t, m, documentId, q.itemId))
      && (forall m :: m in t.links && m != l ==> t'.links[m] == t.links[m])
  {
    hide LinkRefusal;
    OnlyLink(t, documentId, q.itemId);
    l := newId;
    if m :| IsLinkOf(t, m, documentId, q.itemId) {
      l := m;
    }
  }

  lemma LinkKeepsConsistent(t: Tables, documentId: Uuid, q: LinkRequest, actor: Id, newId: Id)
    requires Consistent(t) && newId !in t.links && CreateLink(t, documentId, q, actor, newId).Success?
    ensures Consistent(CreateLink(t, documentId, q, actor, newId).value)
  {
    hide IsUuidText;
    var l := MadeLink(t, documentId, q, actor, newId);
    var t' := CreateLink(t, documentId, q, actor, newId).value;
    hide CreateLink, LinkRefusal;
    forall m | m in t.links && m != l ensures !IsLinkOf(t, m, documentId, q.itemId) {
      OnlyLink(t, documentId, q.itemId);
    }
    assert forall m :: m in t'.links <==> m in t.links || m == l;
    assert forall m :: m in t'.links && m != l ==> m in t.links && t'.links[m] == t.links[m];
  }

  /** A link is made only to a CONFIRMED document of the item's project whose versions
      the caller knows, and then the item is satisfied. */
  lemma LinkingSatisfies(t: Tables, documentId: Uuid, q: LinkRequest, actor: Id, newId: Id)
    requires Consistent(t) && newId !in t.links
    ensures
      var r := CreateLink(t, documentId, q, actor, newId);
      r.Success? <==>
      && documentId in t.documents && t.documents[documentId].confirmed && t.documents[documentId].version == q.documentVersion
      && q.itemId in t.items && t.items[q.itemId].projectId == t.documents[documentId].projectId
      && t.items[q.itemId].version == q.itemVersion
      && !exists l :: IsLinkOf(t, l, documentId, q.itemId) && t.links[l].status == LinkConfirmed
    ensures
      var r := CreateLink(t, documentId, q, actor, newId);
      r.Success? ==>
        && Consistent(r.value) && documentId in t.documents
        && documentId in Fulfilling(r.value, t.documents[documentId].projectId, q.itemId)
  {
    OnlyLink(t, documentId, q.itemId);
    var r := CreateLink(t, documentId, q, actor, newId);
    if r.Success? {
      var l := MadeLink(t, documentId, q, actor, newId);
      LinkKeepsConsistent(t, documentId, q, actor, newId);
      hide Consistent, CreateLink;
      assert Counts(r.value, t.documents[documentId].projectId, l);
      assert r.value.links[l].documentId == documentId;
    }
  }

  /** Which answer a request for a link gets, and what the link is afterwards: new, or the
      old one confirmed again, by this actor. */
  lemma LinkAnswers(t: Tables, documentId: Uuid, q: LinkRequest, actor: Id, newId: Id)
    requires Consistent(t) && newId !in t.links
    ensures
      var r := CreateLink(t, documentId, q, actor, newId);
      var confirmed := documentId in t.documents && t.documents[documentId].confirmed;
      var current := confirmed && t.documents[documentId].version == q.documentVersion;
      var found := current && q.itemId in t.items && t.items[q.itemId].projectId == t.documents[documentId].projectId;
      var seen := found && t.items[q.itemId].version == q.itemVersion;
      var linked := exists l :: IsLinkOf(t, l, documentId, q.itemId) && t.links[l].status == LinkConfirmed;
      && (r == Failure(VersionConflict) <==> (confirmed && !current) || (found && !seen))
      && (r == Failure(ChecklistItemNotFound) <==> current && !found)
      && (r == Failure(ChecklistLinkNotAllowed) <==> !confirmed || (seen && linked))
      && (r.Success? <==> seen && !linked)
      && (r.Success? ==>
            && r.value == t.(links := r.value.links)
            && exists l ::
                 && IsLinkOf(r.value, l, documentId, q.itemId)
                 && r.value.links[l].status == LinkConfirmed && r.value.links[l].confirmedBy == actor
                 && r.value.links[l].version == (if l in t.links then t.links[l].version + 1 else 1)
                 && (l in t.links ==> IsLinkOf(t, l, documentId, q.itemId))
                 && (l !in t.links ==> l == newId && forall m :: !IsLinkOf(t, m, documentId, q.itemId))
                 && r.value.links.Keys == t.links.Keys + {l}
                 && forall m :: m in t.links && m != l ==> r.value.links[m] == t.links[m])
  {
    hide IsUuidText, Consistent;
    OnlyLink(t, documentId, q.itemId);
    var r := CreateLink(t, documentId, q, actor, newId);
    if m :| IsLinkOf(t, m, documentId, q.itemId) {
      assert r.Success? ==> IsLinkOf(r.value, m, documentId, q.itemId);
    } else {
      assert r.Success? ==> IsLinkOf(r.value, newId, documentId, q.itemId);
    }
  }

  /** Links always join an item and a document of one project, at most one for each pair. */
  lemma StepStaysConsistent(t: Tables, step: Step)
    requires Consistent(t)
    ensures Consistent(Apply(t, step))
  {
    hide Consistent, CreateItem, UpdateItem, DeleteItem, CreateLink, DeleteLink;
    match step
    case AddItem(projectId, expected, id, n) => ItemStepsStayConsistent(t, projectId, expected, id, n, Patch(None, None, None, None, None));
    case ChangeItem(projectId, itemId, expected, p) =>
      ItemStepsStayConsistent(t, projectId, expected, itemId, NewItem("", "", false, "", None), p);
    case RemoveItem(projectId, itemId) => DeleteItemKeepsConsistent(t, projectId, itemId);
    case AddLink(documentId, q, actor, newId) =>
      if newId !in t.links && CreateLink(t, documentId, q, actor, newId).Success? {
        LinkKeepsConsistent(t, documentId, q, actor, newId);
      }
    case RemoveLink(documentId, linkId) => DeleteLinkKeepsConsistent(t, documentId, linkId);
    case DocumentsChange(documents) => NewDocumentsStayConsistent(t, documents);
  }

  lemma ItemStepsStayConsistent(t: Tables, projectId: Id, expected: nat, itemId: Id, n: NewItem, p: Patch)
    requires Consistent(t)
    ensures itemId !in t.items ==> Consistent(Kept(t, CreateItem(t, projectId, expected, itemId, n)))
    ensures Consistent(Kept(t, UpdateItem(t, projectId, itemId, expected, p)))
  {}

  lemma DeleteItemKeepsConsistent(t: Tables, projectId: Id, itemId: Id)
    requires Consistent(t)
    ensures Consistent(Kept(t, DeleteItem(t, projectId, itemId)))
  {}

  lemma DeleteLinkKeepsConsistent(t: Tables, documentId: Uuid, linkId: Id)
    requires Consistent(t)
    ensures Consistent(Kept(t, DeleteLink(t, documentId, linkId)))
  {}

  lemma NewDocumentsStayConsistent(t: Tables, documents: map<Uuid, Document>)
    requires Consistent(t)
    ensures Consistent(WithDocuments(t, documents))
  {}

  lemma {:induction false} RunStaysConsistent(t: Tables, steps: seq<Step>)
    requires Consistent(t)
    ensures Consistent(Run(t, steps))
    decreases |steps|
  {
    if steps != [] {
      RunStaysConsistent(t, steps[..|steps| - 1]);
      StepStaysConsistent(Run(t, steps[..|steps| - 1]), steps[|steps| - 1]);
    }
  }

  ghost predicate Unlinked(t: Tables, itemId: Id) {
    forall l :: l in t.links && t.links[l].itemId == itemId ==> t.links[l].status == LinkInvalidated
  }

  /** A change of name, type or stage takes the force from every link of the item, and
      touches no other link; any other change leaves all links alone. */
  lemma MatchingChangeUnlinks(t: Tables, projectId: Id, itemId: Id, expected: nat, p: Patch)
    requires UpdateItem(t, projectId, itemId, expected, p).Success?
    ensures
      var t' := UpdateItem(t, projectId, itemId, expected, p).value;
      && t.items[itemId].version == expected && t'.items[itemId].version == expected + 1
      && t'.links.Keys == t.links.Keys
      && (forall l :: l in t.links && t.links[l].itemId != itemId ==> t'.links[l] == t.links[l])
      && (if MatchingChanged(t.items[itemId], p) then
            Unlinked(t', itemId) && CountOf(t', projectId, itemId) == 0
            && FulfilmentOf(t'.items[itemId], CountOf(t', projectId, itemId)) != Satisfied
          else t'.links == t.links)
  {
    var t' := UpdateItem(t, projectId, itemId, expected, p).value;
    if MatchingChanged(t.items[itemId], p) {
      hide MatchingChanged, Patched;
      UnlinkedCountsNothing(t', projectId, itemId);
    }
  }

  /** Which answer an update gets, and what the item is afterwards: an entry that was sent
      is what was sent, any other is what it was. */
  lemma UpdateAnswers(t: Tables, projectId: Id, itemId: Id, expected: nat, p: Patch)
    ensures
      var r := UpdateItem(t, projectId, itemId, expected, p);
      var found := itemId in t.items && t.items[itemId].projectId == projectId;
      && (r == Failure(ChecklistItemNotFound) <==> !found)
      && (r == Failure(VersionConflict) <==> found && t.items[itemId].version != expected)
      && (r.Success? <==> found && t.items[itemId].version == expected)
      && (r.Success? ==>
            && var before, items := t.items[itemId], r.value.items;
               && r.value.projects == t.projects && r.value.documents == t.documents && items.Keys == t.items.Keys
               && (forall i :: i in items && i != itemId ==> items[i] == t.items[i])
               && Holds(items, itemId, projectId, expected + 1,
                        NewItem(p.name.GetOr(before.name), p.documentType.GetOr(before.documentType), p.required.GetOr(before.required),
                                p.stage.GetOr(before.stage), p.description.GetOr(before.description)))
               && r.value.links.Keys == t.links.Keys
               && forall l :: l in t.links ==>
                    r.value.links[l] ==
                    (if t.links[l].itemId == itemId && t.links[l].status == LinkConfirmed
                        && (items[itemId].name != before.name || items[itemId].documentType != before.documentType
                            || items[itemId].stage != before.stage)
                     then t.links[l].(status := LinkInvalidated, version := t.links[l].version + 1)
                     else t.links[l]))
  {}

  lemma UnlinkedCountsNothing(t: Tables, projectId: Id, itemId: Id)
    requires Unlinked(t, itemId)
    ensures CountOf(t, projectId, itemId) == 0
  {
    assert Fulfilling(t, projectId, itemId) == {};
  }

  lemma UnlinkedStays(t: Tables, step: Step, itemId: Id)
    requires Unlinked(t, itemId) && !(step.AddLink? && step.request.itemId == itemId)
    ensures Unlinked(Apply(t, step), itemId)
  {
    hide Patched, MatchingChanged;
  }

  /** ... and so the item stays unsatisfied, whatever else happens, until somebody links
      a document to it again. */
  lemma {:induction false} UnsatisfiedUntilLinkedAgain(t: Tables, steps: seq<Step>, projectId: Id, itemId: Id)
    requires Unlinked(t, itemId)
    requires forall k :: 0 <= k < |steps| ==> !(steps[k].AddLink? && steps[k].request.itemId == itemId)
    ensures Unlinked(Run(t, steps), itemId) && CountOf(Run(t, steps), projectId, itemId) == 0
    decreases |steps|
  {
    if steps == [] {
      UnlinkedCountsNothing(t, projectId, itemId);
    } else {
      var n := |steps| - 1;
      UnsatisfiedUntilLinkedAgain(t, steps[..n], projectId, itemId);
      UnlinkedStays(Run(t, steps[..n]), steps[n], itemId);
      UnlinkedCountsNothing(Run(t, steps), projectId, itemId);
    }
  }

  // ---- what single changes leave alone ----------------------------------

  /** An item counts by its own links alone. */
  lemma SameLinksSameFulfilment(t: Tables, t': Tables, projectId: Id, itemId: Id)
    requires t'.documents == t.documents
    requires forall l :: l in t.links && t.links[l].itemId == itemId ==> l in t'.links && t'.links[l] == t.links[l]
    requires forall l :: l in t'.links && t'.links[l].itemId == itemId ==> l in t.links && t.links[l] == t'.links[l]
    ensures Fulfilling(t', projectId, itemId) == Fulfilling(t, projectId, itemId)
  {
    hide IsUuidText;
    forall l ensures Counts(t', projectId, l) && t'.links[l].itemId == itemId <==>
                     Counts(t, projectId, l) && t.links[l].itemId == itemId {}
  }

  /** The item has just these entries. */
  predicate Holds(items: map<Id, Item>, id: Id, projectId: Id, version: nat, n: NewItem) {
    && id in items && items[id].projectId == projectId && items[id].version == version
    && items[id].name == n.name && items[id].documentType == n.documentType && items[id].required == n.required
    && items[id].stage == n.stage && items[id].description == n.description
  }

  /** A new item is made exactly when the caller knows the project's version, and then
      nobody else with that version makes one; it counts nothing, and every other item
      counts what it did. */
  lemma CreateOutcome(t: Tables, projectId: Id, expected: nat, id: Id, n: NewItem)
    requires Consistent(t) && id !in t.items
    ensures
      var r := CreateItem(t, projectId, expected, id, n);
      && (r.Success? <==> projectId in t.projects && t.projects[projectId] == expected)
      && (r.Failure? ==> r.error == VersionConflict)
      && (r.Success? ==>
            && Holds(r.value.items, id, projectId, 1, n)
            && r.value.projects == t.projects[projectId := expected + 1] && r.value.documents == t.documents
            && Consistent(r.value) && r.value.links == t.links && r.value.items.Keys == t.items.Keys + {id}
            && (forall i :: i in t.items ==> r.value.items[i] == t.items[i])
            && ReadOf(r.value, projectId, id).count == 0
            && ReadOf(r.value, projectId, id).fulfilment == (if n.required then Missing else NotProvided)
            && (forall p, i :: Fulfilling(r.value, p, i) == Fulfilling(t, p, i))
            && forall other, m :: CreateItem(r.value, projectId, expected, other, m) == Failure(VersionConflict))
  {
    var r := CreateItem(t, projectId, expected, id, n);
    if r.Success? {
      ItemStepsStayConsistent(t, projectId, expected, id, n, Patch(None, None, None, None, None));
      forall p, i ensures Fulfilling(r.value, p, i) == Fulfilling(t, p, i) {
        SameLinksSameFulfilment(t, r.value, p, i);
      }
      assert Fulfilling(r.value, projectId, id) == {};
    }
  }

  /** A deleted item takes every link of its own with it and no other: nothing counts
      for it any more, nothing can be linked to it, and every other item counts what it
      did. */
  lemma DeleteItemOutcome(t: Tables, projectId: Id, itemId: Id)
    requires Consistent(t)
    ensures
      var r := DeleteItem(t, projectId, itemId);
      && (r.Success? <==> itemId in t.items && t.items[itemId].projectId == projectId)
      && (r.Failure? ==> r.error == ChecklistItemNotFound)
      && (r.Success? ==>
            && r.value.projects == t.projects && r.value.documents == t.documents
            && (forall i :: i in r.value.items ==> r.value.items[i] == t.items[i])
            && (forall l :: l in r.value.links ==> r.value.links[l] == t.links[l])
            && Consistent(r.value) && r.value.items.Keys == t.items.Keys - {itemId}
            && (forall l :: l in r.value.links <==> l in t.links && t.links[l].itemId != itemId)
            && (forall p :: Fulfilling(r.value, p, itemId) == {})
            && (forall p, i :: i != itemId ==> Fulfilling(r.value, p, i) == Fulfilling(t, p, i))
            && (forall d, q: LinkRequest :: q.itemId == itemId ==> LinkRefusal(r.value, d, q).Some?)
            && DeleteItem(r.value, projectId, itemId) == Failure(ChecklistItemNotFound))
  {
    var r := DeleteItem(t, projectId, itemId);
    if r.Success? {
      DeleteItemKeepsConsistent(t, projectId, itemId);
      forall p, i | i != itemId ensures Fulfilling(r.value, p, i) == Fulfilling(t, p, i) {
        SameLinksSameFulfilment(t, r.value, p, i);
      }
    }
  }

  /** A deleted link takes exactly its document from what fulfils its item, if it did, and
      nothing from any other item; the pair can be linked anew. */
  lemma DeleteLinkOutcome(t: Tables, projectId: Id, documentId: Uuid, linkId: Id)
    requires Consistent(t)
    ensures
      var r := DeleteLink(t, documentId, linkId);
      && (r.Success? <==> linkId in t.links && t.links[linkId].documentId == documentId)
      && (r.Failure? ==> r.error == ChecklistLinkNotFound)
      && (r.Success? ==>
            var itemId := t.links[linkId].itemId;
            && Consistent(r.value)
            && Fulfilling(r.value, projectId, itemId) == Fulfilling(t, projectId, itemId) - {documentId}
            && CountOf(r.value, projectId, itemId) == CountOf(t, projectId, itemId) - (if Counts(t, projectId, linkId) then 1 else 0)
            && (forall i :: i != itemId ==> Fulfilling(r.value, projectId, i) == Fulfilling(t, projectId, i))
            && (forall l :: !IsLinkOf(r.value, l, documentId, itemId)))
  {
    hide IsUuidText;
    var r := DeleteLink(t, documentId, linkId);
    if r.Success? {
      DeleteLinkKeepsConsistent(t, documentId, linkId);
      var itemId := t.links[linkId].itemId;
      assert IsLinkOf(t, linkId, documentId, itemId);
      OnlyLink(t, documentId, itemId);
      OneLinkLess(t, r.value, projectId, linkId);
      forall i | i != itemId ensures Fulfilling(r.value, projectId, i) == Fulfilling(t, projectId, i) {
        SameLinksSameFulfilment(t, r.value, projectId, i);
      }
    }
  }

  lemma OneLinkLess(t: Tables, t': Tables, projectId: Id, linkId: Id)
    requires Consistent(t) && linkId in t.links && t' == t.(links := t.links - {linkId})
    ensures
      var itemId, documentId := t.links[linkId].itemId, t.links[linkId].documentId;
      && Fulfilling(t', projectId, itemId) == Fulfilling(t, projectId, itemId) - {documentId}
      && (documentId in Fulfilling(t, projectId, itemId) <==> Counts(t, projectId, linkId))
  {
    hide IsUuidText;
    var itemId, documentId := t.links[linkId].itemId, t.links[linkId].documentId;
    assert IsLinkOf(t, linkId, documentId, itemId);
    OnlyLink(t, documentId, itemId);
    forall l | Counts(t, projectId, l) && t.links[l].itemId == itemId && t.links[l].documentId == documentId ensures l == linkId {
      assert IsLinkOf(t, l, documentId, itemId);
    }
    forall l ensures Counts(t', projectId, l) <==> Counts(t, projectId, l) && l != linkId {}
  }
}
