/** Concrete runs: every uploaded document can become formal and indexed, and from
    there the two failures of the design can be brought about. */
module LifecycleWitness {
  import opened Wrappers
  import opened Text
  import opened FinalChunks
  import P = Parsed
  import opened Archive
  import opened SuggestionReplies
  import opened Transactions
  import opened Lifecycle
  import opened LifecycleInvariant
  import opened LifecycleSafety
  import opened LifecycleRecovery
  import opened ServiceCalls
  import opened LifecycleDrafts
  import opened ServiceOutcomes
  import opened LifecycleStatus
  import Parser

  // ---- a document that says one line ------------------------------------

  const LINE := "Concrete was poured."

  const HASH := "5f70bf18a086007016e948b04aed3b82103a36bea41755b6cddfaf10ace3c6ef"

  const ONE_LINE := P.ParsedArchiveDocument([P.ParsedFragment(TextLineRange, 1, 1, LINE, "")], 20, HASH, "archive-v1-parser-v1")

  /** The edit that settles a field: a value for title and type, nothing for the rest. */
  function Settled(n: FieldName): FieldValue {
    match n
    case Title => FieldValue(Columns(Some("Log"), None, None), ValueConfirmed, Some(Manual), true, [])
    case DocumentType => FieldValue(Columns(Some("OTHER"), None, None), ValueConfirmed, Some(Manual), true, [])
    case _ => FieldValue(NO_VALUE, EmptyAccepted, Some(Manual), true, [])
  }

  function Settle(n: FieldName, version: nat): FieldEdit {
    FieldEdit(n, Settled(n).columns, Settled(n).review, Some(Manual), true, [], version)
  }

  lemma TextsStay()
    ensures Strip("Log") == "Log" && Strip("OTHER") == "OTHER" && Strip(LINE) == LINE
  {
    assert !IsSpace('L') && !IsSpace('g') && !IsSpace('O') && !IsSpace('R') && !IsSpace('C') && !IsSpace('.');
    StripKeepsTrimmed("Log");
    StripKeepsTrimmed("OTHER");
    assert |LINE| == 20 && LINE[0] == 'C' && LINE[19] == '.';
    StripKeepsTrimmed(LINE);
  }

  lemma SettledIsCanonical(n: FieldName)
    ensures CanonicalValue(Settled(n).columns, n) == Success(Settled(n).columns)
    ensures ReviewError(n, Settled(n).review, Settled(n).columns) == None
  {
    TextsStay();
    hide Strip;
    match n
    case Title => case DocumentType => case DocumentDate => case AuthoringOrganization =>
    case VersionNumber => case ProjectStage => case Keywords =>
  }

  /** A draft under way, at this version. */
  predicate Drafting(s: Store, version: nat) {
    && s.row.Some? && s.row.value.status == PendingConfirmation && s.row.value.version == version
    && s.row.value.fields.Keys == FIELD_NAMES
  }

  lemma SettlingWorks(s: Store, n: FieldName, version: nat)
    requires Drafting(s, version)
    ensures
      var after := EditCall(s, Settle(n, version)).0;
      && Drafting(after, version + 1)
      && after.row.value.fields == s.row.value.fields[n := Settled(n)]
      && after.row.value.currentSnapshot == s.row.value.currentSnapshot
      && after.snapshot == s.snapshot && after.ops == s.ops && after.files == s.files && after.chroma == s.chroma
  {
    EveryName(n);
    SettledIsCanonical(n);
    hide CanonicalValue, ReviewError, Settled;
    SettledIsManual(n);
    assert ReadForEdit(s, Settle(n, version)).Success?;
    assert BindEvidences(s.row.value.currentSnapshot, []) == [];
  }

  lemma SettledIsManual(n: FieldName)
    ensures Settled(n).source == Some(Manual) && Settled(n).noSourceEvidence && Settled(n).evidences == []
    ensures Settled(n).review == EmptyAccepted ==> !HasValue(Settled(n).columns)
    ensures Settled(n).review in {ValueConfirmed, EmptyAccepted}
  {}

  function SettleSteps(names: seq<FieldName>, version: nat): seq<Step> {
    if names == [] then []
    else
      var n := |names| - 1;
      SettleSteps(names[..n], version) + ([StartEdit(0, Settle(names[n], version + n))] + [FinishEdit(0)])
  }

  lemma {:induction false} SettlingAll(site: Site, sys: System, names: seq<FieldName>, version: nat)
    requires 0 !in sys.processes && Drafting(sys.store, version)
    ensures
      var after := Run(site, sys, SettleSteps(names, version));
      && after.processes == sys.processes && Drafting(after.store, version + |names|)
      && (forall n :: n in names ==> n in after.store.row.value.fields && after.store.row.value.fields[n] == Settled(n))
      && after.store.row.value.currentSnapshot == sys.store.row.value.currentSnapshot
      && after.store.snapshot == sys.store.snapshot && after.store.ops == sys.store.ops
      && after.store.files == sys.store.files && after.store.chroma == sys.store.chroma
    decreases |names|
  {
    hide Apply, EditCall, Settled, Settle;
    if names != [] {
      var n := |names| - 1;
      SettlingAll(site, sys, names[..n], version);
      OneMoreSettled(site, sys, SettleSteps(names[..n], version), names[n], version + n);
      hide Run, SettleSteps;
      assert forall m :: m in names <==> m in names[..n] || m == names[n];
    }
  }

  lemma OneMoreSettled(site: Site, sys: System, steps: seq<Step>, name: FieldName, version: nat)
    requires
      var before := Run(site, sys, steps);
      0 !in before.processes && Drafting(before.store, version)
    ensures
      var before := Run(site, sys, steps);
      var after := Run(site, sys, steps + ([StartEdit(0, Settle(name, version))] + [FinishEdit(0)]));
      && after.processes == before.processes && Drafting(after.store, version + 1)
      && after.store.row.value.fields == before.store.row.value.fields[name := Settled(name)]
      && after.store.row.value.currentSnapshot == before.store.row.value.currentSnapshot
      && after.store.snapshot == before.store.snapshot && after.store.ops == before.store.ops
      && after.store.files == before.store.files && after.store.chroma == before.store.chroma
  {
    hide Apply, EditCall, Settled, Settle, Run, RegenerateCall;
    var before := Run(site, sys, steps);
    var edit := Settle(name, version);
    RunAppends(site, sys, steps, [StartEdit(0, edit)] + [FinishEdit(0)]);
    DraftingCallsAreRuns(site, before, 0, edit, 0, None);
    SettlingWorks(before.store, name, version);
  }

  // ---- formal documents are reachable -----------------------------------

  /** The document is one the parser returns. */
  lemma OneLineIsParsed()
    ensures Parser.IsParserOutput(ONE_LINE)
  {
    assert |LINE| == 20 && LINE[0] == 'C' && LINE[8] == ' ' && LINE[12] == ' ' && LINE[19] == '.';
    forall i | 0 <= i < |LINE| ensures LINE[i] != '\r' && LINE[i] != '\n' && (IsSpace(LINE[i]) <==> i in {8, 12}) {}
    Parser.CleanLineIsParsed(LINE, ONE_LINE);
  }

  lemma OneLineMakesChunks(site: Site, s: Store, id: nat)
    requires SnapshotFile in s.files
    ensures ChunksToIndex(site, s, P.StoredSnapshot(id, site.documentId, ONE_LINE)).Some?
  {
    OneLineIsParsed();
    Parser.ParsedDocumentsCanBeIndexed(site, s, id, ONE_LINE);
  }

  function PreparingSteps(): seq<Step> {
    ([Parse(false, 7, Some(ONE_LINE))] + [StartManualDraft]) + SettleSteps(ALL_NAMES, 2)
  }

  lemma Prepared(site: Site, start: System)
    requires Initial(site, start)
    ensures
      var after := Run(site, start, PreparingSteps());
      && after.processes == map[] && MayConfirm(after.store, 9) && !AlreadyIndexed(after.store)
      && after.store.snapshot == Some(P.StoredSnapshot(7, site.documentId, ONE_LINE))
      && after.store.ops == [] && SnapshotFile in after.store.files
  {
    hide ConfirmationError, Settled;
    var drafted := Run(site, start, [Parse(false, 7, Some(ONE_LINE))] + [StartManualDraft]);
    RunPair(site, start, Parse(false, 7, Some(ONE_LINE)), StartManualDraft);
    assert Drafting(drafted.store, 2);
    RunAppends(site, start, [Parse(false, 7, Some(ONE_LINE))] + [StartManualDraft], SettleSteps(ALL_NAMES, 2));
    SettlingAll(site, drafted, ALL_NAMES, 2);
    var fields := Run(site, start, PreparingSteps()).store.row.value.fields;
    hide Run;
    SettledPassesChecks(fields, 7);
  }

  lemma SettledPassesChecks(fields: Fields, snapshotId: nat)
    requires fields.Keys == FIELD_NAMES && forall n :: n in ALL_NAMES ==> n in fields && fields[n] == Settled(n)
    ensures ConfirmationError(fields, snapshotId) == None
  {
    hide ConfirmationError;
    forall n: FieldName ensures n in ALL_NAMES {
      NameListed(n);
    }
    TextsStay();
    hide Strip;
    forall n | n in FIELD_NAMES ensures fields[n].review != PendingCheck && fields[n].source == Some(Manual) {
      SettledIsManual(n);
    }
    NoConfirmationErrorIffFullyChecked(fields, snapshotId);
  }

  function FormalSteps(actor: nat): seq<Step> {
    PreparingSteps() + ConfirmSteps(0, 9, actor, IndexFaults(Completes, true, true))
  }

  /** Every uploaded document of a sound project can become formal, fully indexed, with
      no call left in flight: none of the theorems is about nothing. */
  lemma FormalIsReachable(site: Site, start: System, actor: nat)
    requires Initial(site, start) && site.kbId == site.projectKbId
    ensures
      var sys := Run(site, start, FormalSteps(actor));
      && Inv(site, sys) && sys.processes == map[] && Formal(sys.store)
      && Indexed(site, sys.store, sys.store.row.value.finalChunkCount)
      && SnapshotFile in sys.store.files && !AnyRunning(sys.store.ops)
  {
    hide Initial, Inv, Apply, Indexed, ConfirmCall, MayConfirm, ChunksToIndex, StoreOk, Formal, Blocked, AnyRunning;
    var ready := Run(site, start, PreparingSteps());
    Prepared(site, start);
    InitialInv(site, start);
    RunInv(site, start, PreparingSteps());
    RunInv(site, start, FormalSteps(actor));
    RunAppends(site, start, PreparingSteps(), ConfirmSteps(0, 9, actor, IndexFaults(Completes, true, true)));
    hide Run, PreparingSteps, ConfirmSteps;
    ConfirmCallIsARun(site, ready, 0, 9, actor, IndexFaults(Completes, true, true));
    OneLineMakesChunks(site, ready.store, 7);
    NothingRuns(ready.store);
    InvStore(site, ready);
    CleanConfirmCompletesIff(site, ready.store, 9, actor, true);
  }

  lemma NothingRuns(s: Store)
    requires s.ops == []
    ensures !AnyRunning(s.ops) && !Blocked(s.ops)
  {}

  // ---- the two failures -------------------------------------------------

  /** A delete whose process stops after its first commit: from then on, in every run,
      every further delete and INDEX of the document is refused. */
  lemma StoppedDeleteBlocksForever(site: Site, start: System, later: seq<Step>, actor: nat)
    requires Initial(site, start)
    ensures
      var s := Run(site, start, ([StartDelete(0, site.ownerId)] + [Stop(0)]) + later).store;
      s.row.Some? && BeginDelete(site, s, actor).Failure? && BeginIndex(site, s).Failure?
  {
    InitialInv(site, start);
    BeginDeleteIffMay(site, start.store, site.ownerId);
    var op := BeginDelete(site, start.store, site.ownerId).value.op;
    var s1 := Apply(site, start, StartDelete(0, site.ownerId));
    StepInv(site, start, StartDelete(0, site.ownerId));
    BeginDeleteKeeps(site, start.store, site.ownerId);
    assert s1.processes[0] == DeletingDocument(op, AtChroma) && s1.store.row.Some?;
    StoppedRunnersLeaveOrphans(site, s1, 0);
    StepInv(site, s1, Stop(0));
    hide Apply, Inv, Initial, BeginDelete, BeginIndex, Orphaned;
    RunPair(site, start, StartDelete(0, site.ownerId), Stop(0));
    RunAppends(site, start, [StartDelete(0, site.ownerId)] + [Stop(0)], later);
    OrphansBlockForever(site, Apply(site, s1, Stop(0)), op, later, actor);
  }

  /** A delete starts while a regeneration is waiting for the model. */
  lemma DeletesOvertakeRegeneration(site: Site, start: System)
    requires Initial(site, start)
    ensures
      var sys := Run(site, start, ([Parse(false, 7, Some(ONE_LINE))] + [StartManualDraft]) + [StartRegenerate(9, 2)]);
      9 in sys.processes && sys.processes[9].Regenerating? && BeginDelete(site, sys.store, site.ownerId).Success?
  {
    RunPair(site, start, Parse(false, 7, Some(ONE_LINE)), StartManualDraft);
    RunOne(site, start, [Parse(false, 7, Some(ONE_LINE))] + [StartManualDraft], StartRegenerate(9, 2));
    hide Run;
    var s := Run(site, start, ([Parse(false, 7, Some(ONE_LINE))] + [StartManualDraft]) + [StartRegenerate(9, 2)]).store;
    assert s.ops == [] && s.row.Some?;
    BeginDeleteIffMay(site, s, site.ownerId);
  }

  /** Of every uploaded document of a sound project there is a run after which it is
      formal, claims its chunks, and has none in the vector store. */
  lemma EmptyIndexIsReachable(site: Site, start: System, actor: nat)
    requires Initial(site, start) && site.kbId == site.projectKbId
    ensures
      exists steps ::
        var s := Run(site, start, steps).store;
        Formal(s) && s.row.value.finalChunkCount > 0 && NoRecords(site, s.chroma)
  {
    var sys := Run(site, start, FormalSteps(actor));
    FormalIsReachable(site, start, actor);
    var late := LateCleanup(sys.store.row.value.version, actor);
    OverlappingCancelEmptiesTheIndex(site, sys, actor);
    RunAppends(site, start, FormalSteps(actor), late);
    hide Apply, Inv, Initial, Indexed, NoRecords, Formal, FormalSteps;
    var steps := FormalSteps(actor) + late;
    assert Run(site, start, steps) == Run(site, sys, late);
  }

  /** Parsing, a suggestion whose model fails, and a manual draft before that failure is
      recorded, settled field by field. */
  function OvertakingSteps(): seq<Step> {
    ([Parse(false, 7, Some(ONE_LINE))] + [Suggest(9, false, None)]) + [StartManualDraft]
  }

  lemma Overtaken(site: Site, start: System)
    requires Initial(site, start)
    ensures
      var after := Run(site, start, OvertakingSteps());
      && after.processes == map[9 := SuggestionFailing(1)] && Drafting(after.store, 2)
      && after.store.row.value.currentSnapshot == Some(7)
      && after.store.snapshot == Some(P.StoredSnapshot(7, site.documentId, ONE_LINE))
      && after.store.ops == [] && SnapshotFile in after.store.files
  {
    RunPair(site, start, Parse(false, 7, Some(ONE_LINE)), Suggest(9, false, None));
    RunOne(site, start, [Parse(false, 7, Some(ONE_LINE))] + [Suggest(9, false, None)], StartManualDraft);
  }

  function LateSteps(actor: nat): seq<Step> {
    OvertakingSteps() + SettleSteps(ALL_NAMES, 2) + ConfirmSteps(0, 9, actor, IndexFaults(Completes, true, true))
  }

  lemma SettledCanBeConfirmed(s: Store)
    requires Drafting(s, 9) && s.row.value.currentSnapshot == Some(7)
    requires forall n :: n in ALL_NAMES ==> n in s.row.value.fields && s.row.value.fields[n] == Settled(n)
    ensures MayConfirm(s, 9) && !AlreadyIndexed(s)
  {
    hide ConfirmationError, Settled;
    SettledPassesChecks(s.row.value.fields, 7);
  }

  lemma OvertakenIsFormal(site: Site, start: System, actor: nat)
    requires Initial(site, start) && site.kbId == site.projectKbId
    ensures
      var sys := Run(site, start, LateSteps(actor));
      && Inv(site, sys) && sys.processes == map[9 := SuggestionFailing(1)] && Formal(sys.store)
  {
    hide Initial, Inv, Apply, Indexed, ConfirmCall, MayConfirm, AlreadyIndexed, ChunksToIndex, StoreOk, Formal, Blocked, AnyRunning,
         Drafting, Settled;
    var drafted := Run(site, start, OvertakingSteps());
    Overtaken(site, start);
    SettlingAll(site, drafted, ALL_NAMES, 2);
    RunAppends(site, start, OvertakingSteps(), SettleSteps(ALL_NAMES, 2));
    var ready := Run(site, start, OvertakingSteps() + SettleSteps(ALL_NAMES, 2));
    InitialInv(site, start);
    RunInv(site, start, OvertakingSteps() + SettleSteps(ALL_NAMES, 2));
    RunInv(site, start, LateSteps(actor));
    RunAppends(site, start, OvertakingSteps() + SettleSteps(ALL_NAMES, 2), ConfirmSteps(0, 9, actor, IndexFaults(Completes, true, true)));
    hide Run, OvertakingSteps, ConfirmSteps, SettleSteps;
    SettledCanBeConfirmed(ready.store);
    ConfirmCallIsARun(site, ready, 0, 9, actor, IndexFaults(Completes, true, true));
    OneLineMakesChunks(site, ready.store, 7);
    NothingRuns(ready.store);
    InvStore(site, ready);
    CleanConfirmCompletesIff(site, ready.store, 9, actor, true);
  }

  /** Of every uploaded document of a sound project there is a run in which a person drafts,
      checks and confirms it while the failure of a suggestion waits to be recorded; the
      record then takes it out of the archive and strands all that was confirmed. */
  lemma LateRecordUndoesConfirmation(site: Site, start: System, actor: nat)
    requires Initial(site, start) && site.kbId == site.projectKbId
    ensures
      var before := Run(site, start, LateSteps(actor));
      var after := Apply(site, before, FailSuggest(9));
      && Formal(before.store) && !Formal(after.store)
      && after.store.row.Some? && after.store.row.value.version == before.store.row.value.version
      && HumanWorkIsStranded(site, after.store)
  {
    OvertakenIsFormal(site, start, actor);
    ConfirmedValuesAreHuman(site, start, LateSteps(actor));
    var before := Run(site, start, LateSteps(actor));
    hide Run, LateSteps, HumanWorkIsStranded, Blocked, Inv, Initial;
    var fields := before.store.row.value.fields;
    EveryName(Title);
    assert Title in fields && fields[Title].source == Some(Manual);
    assert HasManual(fields);
    LateRecordsStrandHumanWork(site, before, 9, []);
    assert Run(site, Apply(site, before, FailSuggest(9)), []) == Apply(site, before, FailSuggest(9)) by {
      NoStepsNoChange(site, Apply(site, before, FailSuggest(9)));
    }
  }

  lemma NoStepsNoChange(site: Site, sys: System)
    ensures Run(site, sys, []) == sys
  {}
}
