/** The documented status diagram, the one call that leaves it, and what that costs. */
module LifecycleStatus {
  import opened Wrappers
  import opened FinalChunks
  import P = Parsed
  import opened Archive
  import opened SuggestionReplies
  import opened Transactions
  import opened Lifecycle
  import opened LifecycleInvariant
  import opened LifecycleSafety
  import opened LifecycleDrafts
  import opened ServiceOutcomes

  // ---- the diagram ------------------------------------------------------

  /** The arrows of the user-visible state machine, and standing still. */
  predicate Diagram(before: ArchiveStatus, after: ArchiveStatus) {
    || after == before
    || (before == Uploaded && after in {Parsed, ParseFailed})
    || (before == ParseFailed && after == Parsed)
    || (before == Parsed && after in {PendingConfirmation, SuggestionFailed})
    || (before == SuggestionFailed && after == PendingConfirmation)
    || (before == PendingConfirmation && after == Confirmed)
    || (before == Confirmed && after == PendingReconfirmation)
    || (before == PendingReconfirmation && after == Confirmed)
  }

  /** A suggestion's failure is recorded on a document that has a draft by now. */
  ghost predicate RecordsLate(sys: System, step: Step) {
    && step.FailSuggest? && step.p in sys.processes && sys.processes[step.p].SuggestionFailing?
    && sys.store.row.Some? && Drafted(sys.store.row.value.status)
  }

  /** An edit in flight writes back the status from before such a record. */
  ghost predicate WritesBack(sys: System, step: Step) {
    && step.FinishEdit? && step.p in sys.processes && sys.processes[step.p].Editing?
    && WriteEdit(sys.store, sys.processes[step.p].edit, sys.processes[step.p].ticket).Done?
    && sys.store.row.value.status == SuggestionFailed && sys.processes[step.p].ticket.status != PendingConfirmation
  }

  /** Every step of every call moves the status along an arrow of the diagram, except
      exactly these two kinds. */
  lemma StatusFollowsDiagramIff(site: Site, sys: System, step: Step)
    requires Inv(site, sys) && sys.store.row.Some? && Apply(site, sys, step).store.row.Some?
    ensures
      Diagram(sys.store.row.value.status, Apply(site, sys, step).store.row.value.status) <==>
      !RecordsLate(sys, step) && !WritesBack(sys, step)
  {
    hide StoreOk, OneRunner, OthersOnly, Purged, Upserted, BlankDraft, SuggestedDraft, RegenerateAllowed, ReadForEdit,
         ReadForRegenerate, BeginDelete, RemoveFiles, ChunksToIndex, AnyRunning, LatestIndex, BindEvidences, ConfirmationError,
         Understood, P.StoredSnapshot, ReviewError, OperationOk, Purged, RecordFor, Acceptable, Chunks, DistinctIds, NoRecords;
    if step.StartDelete? && BeginDelete(site, sys.store, step.actor).Success? {
      BeginDeleteKeeps(site, sys.store, step.actor);
    }
    if step.FinishEdit? && step.p in sys.processes {
      assert ProcessOk(site, sys.store, sys.processes[step.p]);
    }
    if step.FailSuggest? && step.p in sys.processes {
      assert ProcessOk(site, sys.store, sys.processes[step.p]);
    }
  }

  /** A record comes late only if something was committed since its call began: the
      version, had it been compared, would have told. */
  lemma LateRecordsHaveAnOldVersion(site: Site, sys: System, step: Step)
    requires Inv(site, sys) && RecordsLate(sys, step)
    ensures sys.processes[step.p].version < sys.store.row.value.version
  {
    hide StoreOk, OneRunner;
    assert ProcessOk(site, sys.store, sys.processes[step.p]);
  }

  // ---- what a late record costs -----------------------------------------

  /** The document has failed its suggestion, yet has these fields, and no edit is in
      flight. */
  ghost predicate Stuck(sys: System, fields: Fields) {
    && (sys.store.row.Some? ==> sys.store.row.value.status == SuggestionFailed && sys.store.row.value.fields == fields)
    && forall p :: p in sys.processes ==> !sys.processes[p].Editing?
  }

  lemma StuckStays(site: Site, sys: System, step: Step, fields: Fields)
    requires Stuck(sys, fields) && HasManual(fields) && !step.StartManualDraft?
    ensures Stuck(Apply(site, sys, step), fields)
  {
    hide OthersOnly, Purged, Upserted, BlankDraft, SuggestedDraft, RegenerateAllowed, BeginDelete, RemoveFiles, ChunksToIndex,
         AnyRunning, LatestIndex, BindEvidences, ConfirmationError, CanonicalValue, ReviewError, P.StoredSnapshot, ParseReply;
    if step.StartDelete? {
      if BeginDelete(site, sys.store, step.actor).Success? {
        BeginDeleteKeeps(site, sys.store, step.actor);
      }
      return;
    }
  }

  lemma {:induction false} StuckForever(site: Site, sys: System, steps: seq<Step>, fields: Fields)
    requires Stuck(sys, fields) && HasManual(fields)
    requires forall k :: 0 <= k < |steps| ==> !steps[k].StartManualDraft?
    ensures Stuck(Run(site, sys, steps), fields)
    decreases |steps|
  {
    hide Stuck, Apply, HasManual;
    if steps != [] {
      StuckForever(site, sys, steps[..|steps| - 1], fields);
      StuckStays(site, Run(site, sys, steps[..|steps| - 1]), steps[|steps| - 1], fields);
    }
  }

  /** No service takes the document's fields up again, but the manual draft, and that
      replaces every one of them. */
  ghost predicate HumanWorkIsStranded(site: Site, s: Store)
    requires s.row.Some?
  {
    && (forall e :: ReadForEdit(s, e) == Failure(FieldEditNotAllowed))
    && (forall v, actor :: ConfirmDocument(site, s, v, actor).Failure?)
    && (forall v :: CancelConfirmation(site, s, v).Refused?)
    && (forall v :: ReadForRegenerate(s, v) == Failure(SuggestionRegenerateNotAllowed))
    && (forall retry, reply :: GenerateSuggestions(s, retry, reply).Refused?)
    && CreateManualDraft(s).Done? && !HasManual(CreateManualDraft(s).after.row.value.fields)
  }

  lemma StuckIsStranded(site: Site, s: Store)
    requires s.row.Some? && s.row.value.status == SuggestionFailed && HasManual(s.row.value.fields)
    ensures HumanWorkIsStranded(site, s)
  {
    hide ConfirmationError;
  }

  /** Whatever state a draft is in, CONFIRMED included, once the failure of an earlier
      suggestion is recorded on it, its values stay out of reach in every run: until the
      document is deleted or a manual draft wipes them, none can be edited, confirmed or
      suggested anew. */
  lemma LateRecordsStrandHumanWork(site: Site, sys: System, p: ProcessId, later: seq<Step>)
    requires RecordsLate(sys, FailSuggest(p)) && HasManual(sys.store.row.value.fields)
    requires forall q :: q in sys.processes ==> !sys.processes[q].Editing?
    requires forall k :: 0 <= k < |later| ==> !later[k].StartManualDraft?
    ensures
      var after := Run(site, Apply(site, sys, FailSuggest(p)), later).store;
      after.row.Some? ==>
        && after.row.value.status == SuggestionFailed && after.row.value.fields == sys.store.row.value.fields
        && !Formal(after) && HumanWorkIsStranded(site, after)
  {
    var fields := sys.store.row.value.fields;
    var next := Apply(site, sys, FailSuggest(p));
    assert Stuck(next, fields);
    hide HasManual, HumanWorkIsStranded, Apply;
    StuckForever(site, next, later, fields);
    var after := Run(site, next, later).store;
    if after.row.Some? {
      StuckIsStranded(site, after);
    }
  }
}
