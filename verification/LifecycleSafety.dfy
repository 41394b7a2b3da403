/** What holds in every run: delete safety, the visibility gate, the legitimacy of
    CONFIRMED, optimistic locking, and human work kept from the model. */
module LifecycleSafety {
  import opened Wrappers
  import opened FinalChunks
  import P = Parsed
  import opened Archive
  import opened SuggestionReplies
  import opened Transactions
  import opened Lifecycle
  import opened LifecycleInvariant

  // ---- delete safety ----------------------------------------------------

  /** Nothing of the document is left anywhere, and no step can bring it back. */
  ghost predicate Gone(site: Site, s: Store) {
    && s.row.None? && s.snapshot.None? && s.ops == [] && s.files == {}
    && NoRecords(site, s.chroma)
    && Deletions(s.audit) == 1
  }

  lemma RowStaysGone(site: Site, sys: System, step: Step)
    requires sys.store.row.None?
    ensures Apply(site, sys, step).store.row.None?
  {}

  lemma {:induction false} RowStaysGoneInRuns(site: Site, sys: System, steps: seq<Step>)
    requires sys.store.row.None?
    ensures Run(site, sys, steps).store.row.None?
    decreases |steps|
  {
    if steps != [] {
      RowStaysGoneInRuns(site, sys, steps[..|steps| - 1]);
      RowStaysGone(site, Run(site, sys, steps[..|steps| - 1]), steps[|steps| - 1]);
    }
  }

  /** Once the row is gone, the vector store and the file system hold nothing of the
      document, exactly one deletion is audited, and that stays so whatever the
      calls still in flight do. */
  lemma DeletedDocumentsStayGone(site: Site, start: System, steps: seq<Step>, later: seq<Step>)
    requires Initial(site, start)
    requires Run(site, start, steps).store.row.None?
    ensures Gone(site, Run(site, start, steps + later).store)
    ensures forall p :: p in Run(site, start, steps + later).processes ==>
                          Runs(Run(site, start, steps + later).processes[p]).None?
  {
    var sys := Run(site, start, steps + later);
    InitialInv(site, start);
    RunInv(site, start, steps + later);
    RunAppends(site, start, steps, later);
    RowStaysGoneInRuns(site, Run(site, start, steps), later);
    forall id | id in sys.store.chroma
      ensures sys.store.chroma[id].scope.documentId != site.documentId
    {
      NoSnapshotNoRecords(site, sys.store);
    }
  }

  // ---- the visibility gate ----------------------------------------------

  /** Gone, or being deleted: some delete has committed its block. */
  ghost predicate Hidden(s: Store) {
    s.row.None? || exists i :: 0 <= i < |s.ops| && s.ops[i].kind == Delete
  }

  lemma HiddenIsNotFormal(site: Site, s: Store)
    requires StoreOk(site, s) && Hidden(s)
    ensures !Formal(s) && (s.row.None? || Blocked(s.ops))
  {
    if s.row.Some? {
      var i :| 0 <= i < |s.ops| && s.ops[i].kind == Delete;
      assert s.ops[i].blocking && Unfinished(s.ops[i]);
    }
  }

  /** No step takes a DELETE operation away without the row. */
  lemma HiddenStays(site: Site, sys: System, step: Step)
    requires Inv(site, sys) && Hidden(sys.store)
    ensures Hidden(Apply(site, sys, step).store)
  {
    hide StoreOk, Acceptable, Chunks, ConfirmationError, MemoryOk, OneRunner;
    var s, s' := sys.store, Apply(site, sys, step).store;
    if s.row.Some? && s'.row.Some? {
      var i :| 0 <= i < |s.ops| && s.ops[i].kind == Delete;
      OperationsPersist(site, sys, step, i);
    }
  }

  /** Operations are only appended and keep their kind, until the row goes. */
  lemma OperationsPersist(site: Site, sys: System, step: Step, i: nat)
    requires i < |sys.store.ops|
    ensures
      var s' := Apply(site, sys, step).store;
      s'.ops == [] || (i < |s'.ops| && s'.ops[i].kind == sys.store.ops[i].kind)
    ensures Apply(site, sys, step).store.ops == [] ==> Apply(site, sys, step).store.row.None?
  {
    hide ConfirmationError, OthersOnly, Purged, Upserted, BlankDraft, SuggestedDraft, RegenerateAllowed, ReadForEdit,
         ReadForRegenerate, RemoveFiles, ChunksToIndex, AnyRunning, LatestIndex, BindEvidences, ParseReply;
  }

  lemma {:induction false} HiddenStaysInRuns(site: Site, sys: System, steps: seq<Step>)
    requires Inv(site, sys) && Hidden(sys.store)
    ensures Hidden(Run(site, sys, steps).store)
    decreases |steps|
  {
    if steps != [] {
      HiddenStaysInRuns(site, sys, steps[..|steps| - 1]);
      RunInv(site, sys, steps[..|steps| - 1]);
      HiddenStays(site, Run(site, sys, steps[..|steps| - 1]), steps[|steps| - 1]);
    }
  }

  /** The first commit of a delete took effect in this step. */
  ghost predicate StartsDelete(site: Site, sys: System, step: Step) {
    step.StartDelete? && step.p !in sys.processes && BeginDelete(site, sys.store, step.actor).Success?
  }

  lemma StartedDeleteHides(site: Site, sys: System, step: Step)
    requires StartsDelete(site, sys, step)
    ensures Hidden(Apply(site, sys, step).store)
  {
    var b := BeginDelete(site, sys.store, step.actor).value;
    assert b.after.ops[b.op].kind == Delete;
  }

  /** From the commit that starts a delete on, the document is never formal again:
      not while the delete runs, not when it fails and is retried, not when somebody
      confirms the document again meanwhile, not after the row is gone. */
  lemma StartedDeletesHideForever(site: Site, start: System, steps: seq<Step>, step: Step, later: seq<Step>)
    requires Initial(site, start)
    requires StartsDelete(site, Run(site, start, steps), step)
    ensures
      var s := Run(site, start, steps + [step] + later).store;
      !Formal(s) && (s.row.None? || Blocked(s.ops))
  {
    hide Apply, Inv, Initial, Hidden, Formal, StartsDelete, Blocked;
    var sys := Run(site, start, steps);
    InitialInv(site, start);
    RunInv(site, start, steps);
    StepInv(site, sys, step);
    var next := Apply(site, sys, step);
    assert Run(site, start, steps + [step]) == next by {
      assert (steps + [step])[..|steps|] == steps;
    }
    RunAppends(site, start, steps + [step], later);
    StartedDeleteHides(site, sys, step);
    HiddenStaysInRuns(site, next, later);
    RunInv(site, next, later);
    InvStore(site, Run(site, next, later));
    HiddenIsNotFormal(site, Run(site, next, later).store);
  }

  lemma InvStore(site: Site, sys: System)
    requires Inv(site, sys)
    ensures StoreOk(site, sys.store)
  {}

  /** Conversely nothing but a delete hides a CONFIRMED document. */
  lemma FormalIffConfirmedAndNotBeingDeleted(site: Site, start: System, steps: seq<Step>)
    requires Initial(site, start)
    ensures
      var s := Run(site, start, steps).store;
      Formal(s) <==> !Hidden(s) && s.row.value.status == Confirmed
  {
    InitialInv(site, start);
    RunInv(site, start, steps);
    var s := Run(site, start, steps).store;
    if Formal(s) && Hidden(s) {
      HiddenIsNotFormal(site, s);
    }
  }

  // ---- legitimacy of CONFIRMED ------------------------------------------

  /** Seven checked fields, a confirmed title and type, and every AI value backed by
      evidence in this snapshot. */
  ghost predicate FullyChecked(fields: Fields, snapshotId: nat) {
    && (forall n :: n in FIELD_NAMES ==> n in fields && fields[n].review != PendingCheck)
    && (forall n :: n in {Title, DocumentType} ==> n in fields && fields[n].review == ValueConfirmed && NonEmpty(n, fields[n].columns))
    && (forall n :: n in FIELD_NAMES && n in fields && fields[n].source == Some(Ai) && NonEmpty(n, fields[n].columns) ==>
          exists e :: e in fields[n].evidences && e.snapshotId == snapshotId)
  }

  lemma EveryName(n: FieldName)
    ensures n in FIELD_NAMES
  {
    match n
    case Title => case DocumentType => case DocumentDate => case AuthoringOrganization =>
    case VersionNumber => case ProjectStage => case Keywords =>
  }

  lemma NoConfirmationErrorIffFullyChecked(fields: Fields, snapshotId: nat)
    ensures ConfirmationError(fields, snapshotId) == None <==> FullyChecked(fields, snapshotId)
  {
    forall n: FieldName ensures n in FIELD_NAMES {
      EveryName(n);
    }
    if FullyChecked(fields, snapshotId) {
      forall n | n in fields ensures Backed(n, fields[n], snapshotId) {
        if fields[n].source == Some(Ai) && NonEmpty(n, fields[n].columns) {
          var e :| e in fields[n].evidences && e.snapshotId == snapshotId;
          var i :| 0 <= i < |fields[n].evidences| && fields[n].evidences[i] == e;
        }
      }
    } else if ConfirmationError(fields, snapshotId) == None {
      forall n | n in fields && fields[n].source == Some(Ai) && NonEmpty(n, fields[n].columns)
        ensures exists e :: e in fields[n].evidences && e.snapshotId == snapshotId
      {
        assert Backed(n, fields[n], snapshotId);
        var i :| 0 <= i < |fields[n].evidences| && fields[n].evidences[i].snapshotId == snapshotId;
        assert fields[n].evidences[i] in fields[n].evidences;
      }
      assert FullyChecked(fields, snapshotId);
    }
  }

  /** In every reachable state what is CONFIRMED is the document's own current
      snapshot, under that snapshot's hash, with every condition of confirmation
      still true. */
  lemma ConfirmedIsLegitimate(site: Site, start: System, steps: seq<Step>)
    requires Initial(site, start)
    ensures
      var s := Run(site, start, steps).store;
      s.row.Some? && s.row.value.status == Confirmed ==>
        && s.snapshot.Some?
        && var snapshot := s.snapshot.value.row;
           && snapshot.documentId == site.documentId
           && s.row.value.currentSnapshot == Some(snapshot.id)
           && s.row.value.finalHash == Some(snapshot.snapshotHash)
           && s.row.value.confirmedBy.Some?
           && FullyChecked(s.row.value.fields, snapshot.id)
  {
    InitialInv(site, start);
    RunInv(site, start, steps);
    var s := Run(site, start, steps).store;
    if s.row.Some? && s.row.value.status == Confirmed {
      NoConfirmationErrorIffFullyChecked(s.row.value.fields, s.snapshot.value.row.id);
    }
  }

  // ---- optimistic locking -----------------------------------------------

  /** The step is the commit of a draft, a suggestion, a field edit, a confirmation
      or a cancellation. */
  ghost predicate Succeeds(site: Site, sys: System, step: Step) {
    match step
    case StartManualDraft => CreateManualDraft(sys.store).Done?
    case Suggest(p, retry, reply) =>
      p !in sys.processes && GenerateSuggestions(sys.store, retry, Understood(PayloadIn(sys.store), reply)).Done?
    case FinishRegenerate(p, reply) =>
      && p in sys.processes && sys.processes[p].Regenerating?
      && var suggestions := Understood(Some(sys.processes[p].draft.payload), reply);
         && suggestions.Some?
         && WriteRegenerated(sys.store, sys.processes[p].expectedVersion, sys.processes[p].draft.snapshotId, suggestions.value).Done?
    case FinishEdit(p) =>
      && p in sys.processes && sys.processes[p].Editing?
      && WriteEdit(sys.store, sys.processes[p].edit, sys.processes[p].ticket).Done?
    case Confirm(p, v, actor) =>
      && p !in sys.processes && ConfirmDocument(site, sys.store, v, actor).Success?
      && ConfirmDocument(site, sys.store, v, actor).value.Promoted?
    case Cancel(p, v) => p !in sys.processes && CancelConfirmation(site, sys.store, v).Done?
    case _ => false
  }

  /** The version the step's caller expects to find, if it says. */
  function Expected(sys: System, step: Step): Option<nat> {
    match step
    case FinishRegenerate(p, _) =>
      if p in sys.processes && sys.processes[p].Regenerating? then Some(sys.processes[p].expectedVersion) else None
    case FinishEdit(p) =>
      if p in sys.processes && sys.processes[p].Editing? then Some(sys.processes[p].edit.expectedVersion) else None
    case Confirm(_, v, _) => Some(v)
    case Cancel(_, v) => Some(v)
    case _ => None
  }

  /** A success moves the version by one, from the version its caller expected; any
      other step leaves version and fields alone. */
  lemma VersionMovesOnSuccess(site: Site, sys: System, step: Step)
    requires Apply(site, sys, step).store.row.Some?
    ensures sys.store.row.Some?
    ensures
      var r, r' := sys.store.row.value, Apply(site, sys, step).store.row.value;
      && (Succeeds(site, sys, step) ==>
            r'.version == r.version + 1 && Expected(sys, step) in {None, Some(r.version)})
      && (!Succeeds(site, sys, step) ==> r'.version == r.version && r'.fields == r.fields)
  {
    hide ConfirmationError, OthersOnly, Purged, Upserted, BlankDraft, SuggestedDraft, RegenerateAllowed, ReadForEdit,
         ReadForRegenerate, BeginDelete, RemoveFiles, ChunksToIndex, AnyRunning, LatestIndex, BindEvidences, ParseReply,
         P.StoredSnapshot;
    if step.StartDelete? && BeginDelete(site, sys.store, step.actor).Success? {
      BeginDeleteKeeps(site, sys.store, step.actor);
    }
  }

  /** A caller with an outdated version changes nothing. */
  lemma StaleCallersChangeNothing(site: Site, sys: System, step: Step)
    requires sys.store.row.Some? && Expected(sys, step).Some?
    requires Expected(sys, step).value != sys.store.row.value.version
    ensures !Succeeds(site, sys, step)
    ensures Apply(site, sys, step).store == sys.store
  {
    hide Acceptable, Chunks, ConfirmationError, OthersOnly, DistinctIds;
  }

  /** The audit entries the step owes. */
  ghost function AuditFor(site: Site, sys: System, step: Step): seq<AuditKind> {
    match step
    case Parse(true, id, parsed) =>
      if sys.processes == map[] && sys.store.ops == [] && ParseDocument(site, sys.store, true, id, parsed).Done? then [ParseRetried] else []
    case Suggest(_, true, _) => if Succeeds(site, sys, step) then [SuggestionRetried] else []
    case FinishRegenerate(_, _) => if Succeeds(site, sys, step) then [SuggestionRegenerated] else []
    case FinishEdit(_) => if Succeeds(site, sys, step) then [FieldUpdated] else []
    case Confirm(_, _, _) => if Succeeds(site, sys, step) then [ArchiveConfirmed] else []
    case Cancel(_, _) => if Succeeds(site, sys, step) then [ConfirmationCancelled] else []
    case CommitDelete(p, commits) =>
      if commits && p in sys.processes && sys.processes[p].DeletingDocument? && sys.processes[p].stage.ReadyToFinish? then
        [DocumentDeleted]
      else []
    case _ => []
  }

  /** The audit trail grows by exactly what each step owes and is never rewritten. */
  lemma AuditTrailIsExact(site: Site, sys: System, step: Step)
    ensures Apply(site, sys, step).store.audit == sys.store.audit + AuditFor(site, sys, step)
  {
    hide ConfirmationError, OthersOnly, Purged, Upserted, BlankDraft, SuggestedDraft, RegenerateAllowed, ReadForEdit,
         ReadForRegenerate, RemoveFiles, ChunksToIndex, AnyRunning, LatestIndex, BindEvidences, ParseReply, FirstDelete;
  }

  ghost function AuditsOwed(site: Site, sys: System, steps: seq<Step>): seq<AuditKind>
    decreases |steps|
  {
    if steps == [] then []
    else AuditsOwed(site, sys, steps[..|steps| - 1]) + AuditFor(site, Run(site, sys, steps[..|steps| - 1]), steps[|steps| - 1])
  }

  /** In every run the audit trail is what was there before and then what the steps owe,
      in their order. */
  lemma {:induction false} AuditTrailRecordsTheRun(site: Site, sys: System, steps: seq<Step>)
    ensures Run(site, sys, steps).store.audit == sys.store.audit + AuditsOwed(site, sys, steps)
    decreases |steps|
  {
    hide Apply, AuditFor;
    if steps != [] {
      AuditTrailRecordsTheRun(site, sys, steps[..|steps| - 1]);
      AuditTrailIsExact(site, Run(site, sys, steps[..|steps| - 1]), steps[|steps| - 1]);
    }
  }

  /** How many successes a run has. */
  ghost function Successes(site: Site, sys: System, steps: seq<Step>): nat
    decreases |steps|
  {
    if steps == [] then 0
    else
      Successes(site, sys, steps[..|steps| - 1]) +
      if Succeeds(site, Run(site, sys, steps[..|steps| - 1]), steps[|steps| - 1]) then 1 else 0
  }

  lemma {:induction false} VersionsCountSuccesses(site: Site, sys: System, steps: seq<Step>)
    requires Run(site, sys, steps).store.row.Some?
    ensures sys.store.row.Some?
    ensures Run(site, sys, steps).store.row.value.version == sys.store.row.value.version + Successes(site, sys, steps)
    ensures Successes(site, sys, steps) == 0 ==> Run(site, sys, steps).store.row.value.fields == sys.store.row.value.fields
    decreases |steps|
  {
    hide Succeeds, Apply;
    if steps != [] {
      VersionMovesOnSuccess(site, Run(site, sys, steps[..|steps| - 1]), steps[|steps| - 1]);
      VersionsCountSuccesses(site, sys, steps[..|steps| - 1]);
    }
  }

  /** The version of a document is one more than its committed changes. */
  lemma VersionIsOnePlusCommits(site: Site, start: System, steps: seq<Step>)
    requires Initial(site, start) && Run(site, start, steps).store.row.Some?
    ensures Run(site, start, steps).store.row.value.version == 1 + Successes(site, start, steps)
  {
    VersionsCountSuccesses(site, start, steps);
  }

  lemma {:induction false} SuccessesGrow(site: Site, sys: System, steps: seq<Step>, k: nat)
    requires k < |steps| && Succeeds(site, Run(site, sys, steps[..k]), steps[k])
    ensures Successes(site, sys, steps[..k]) < Successes(site, sys, steps)
    decreases |steps|
  {
    if k == |steps| - 1 {
    } else {
      assert steps[..|steps| - 1][..k] == steps[..k];
      SuccessesGrow(site, sys, steps[..|steps| - 1], k);
    }
  }

  /** Of two successes in one run the earlier expected the smaller version: at most
      one writer succeeds for each version. */
  lemma OneWriterPerVersion(site: Site, start: System, steps: seq<Step>, i: nat, j: nat)
    requires i < j < |steps|
    requires Succeeds(site, Run(site, start, steps[..i]), steps[i]) && Expected(Run(site, start, steps[..i]), steps[i]).Some?
    requires Succeeds(site, Run(site, start, steps[..j]), steps[j]) && Expected(Run(site, start, steps[..j]), steps[j]).Some?
    ensures Expected(Run(site, start, steps[..i]), steps[i]).value < Expected(Run(site, start, steps[..j]), steps[j]).value
  {
    var before, between := Run(site, start, steps[..i]), Run(site, start, steps[..j]);
    SuccessHasRow(site, before, steps[i]);
    SuccessHasRow(site, between, steps[j]);
    VersionMovesOnSuccess(site, before, steps[i]);
    VersionMovesOnSuccess(site, between, steps[j]);
    assert steps[..j][..i] == steps[..i] && steps[..j][i] == steps[i];
    SuccessesGrow(site, start, steps[..j], i);
    VersionsCountSuccesses(site, start, steps[..i]);
    VersionsCountSuccesses(site, start, steps[..j]);
  }

  lemma SuccessHasRow(site: Site, sys: System, step: Step)
    requires Succeeds(site, sys, step)
    ensures sys.store.row.Some? && Apply(site, sys, step).store.row.Some?
  {
    hide Acceptable, Chunks, ConfirmationError, OthersOnly, DistinctIds, BlankDraft, SuggestedDraft, RegenerateAllowed;
  }

  // ---- the model never overwrites human work ----------------------------

  /** Whatever state the document is in and whatever the model answers, a suggestion
      step leaves every manual value as it is. */
  lemma SuggestionsKeepManualValues(site: Site, sys: System, step: Step, n: FieldName)
    requires step.Suggest? || step.FailSuggest? || step.FinishRegenerate?
    requires sys.store.row.Some? && n in sys.store.row.value.fields && sys.store.row.value.fields[n].source == Some(Manual)
    ensures
      var s' := Apply(site, sys, step).store;
      s'.row.Some? && n in s'.row.value.fields && s'.row.value.fields[n] == sys.store.row.value.fields[n]
  {}

  /** Regeneration replaces only a draft nobody has touched, and only the one its
      caller saw: anything committed while the model was working makes it fail with
      the draft intact. */
  lemma RegenerationSeesAFrozenDraft(site: Site, sys: System, steps: seq<Step>, p: ProcessId, reply: Option<Reply>)
    requires Inv(site, sys) && p in sys.processes && sys.processes[p].Regenerating?
    requires
      var later := Run(site, sys, steps);
      later.store.row.Some? && p in later.processes && later.processes[p] == sys.processes[p]
    ensures
      var later := Run(site, sys, steps);
      var after := Apply(site, later, FinishRegenerate(p, reply));
      if Succeeds(site, later, FinishRegenerate(p, reply)) then
        && Successes(site, sys, steps) == 0 && sys.store.row.Some?
        && later.store.row.value.fields == sys.store.row.value.fields
        && (forall n :: n in later.store.row.value.fields ==>
                          later.store.row.value.fields[n].review == PendingCheck
                          && later.store.row.value.fields[n].source != Some(Manual))
      else after.store == later.store
  {
    var later := Run(site, sys, steps);
    VersionsCountSuccesses(site, sys, steps);
    assert ProcessOk(site, sys.store, sys.processes[p]);
    if Succeeds(site, later, FinishRegenerate(p, reply)) {
      assert later.store.row.value.version == sys.processes[p].expectedVersion;
      assert RegenerateAllowed(later.store.row.value.fields);
    }
  }
}
