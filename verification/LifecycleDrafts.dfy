/** What the seven fields of a document hold in every run: nothing before a draft is
    started, and then only blank fields, values of the model with evidence in the
    current snapshot, and sound values of a person. */
module LifecycleDrafts {
  import opened Wrappers
  import opened FinalChunks
  import P = Parsed
  import opened Archive
  import opened SuggestionReplies
  import opened Transactions
  import opened Lifecycle
  import opened LifecycleInvariant
  import opened LifecycleSafety
  import opened ServiceCalls

  /** A draft has been started. */
  predicate Drafted(status: ArchiveStatus) { status in {PendingConfirmation, PendingReconfirmation, Confirmed} }

  /** A value the model suggested and nobody has looked at: not empty, in its own
      column, and each piece of evidence is at a place of this snapshot. */
  predicate AiValue(name: FieldName, v: FieldValue, snapshot: P.Snapshot) {
    && v.source == Some(Ai) && v.review == PendingCheck && !v.noSourceEvidence
    && NonEmpty(name, v.columns) && OwnColumnOnly(name, v.columns) && v.evidences != []
    && forall i :: 0 <= i < |v.evidences| ==>
                     v.evidences[i].snapshotId == snapshot.row.id && SoundEvidence(snapshot.payload, v.evidences[i].input)
  }

  predicate SoundField(name: FieldName, v: FieldValue, snapshot: P.Snapshot) {
    v == BLANK_FIELD || AiValue(name, v, snapshot) || SoundManualValue(name, v, Some(snapshot.row.id))
  }

  ghost predicate SoundFields(fields: Fields, snapshot: P.Snapshot) {
    fields.Keys == FIELD_NAMES && forall n :: n in fields ==> SoundField(n, fields[n], snapshot)
  }

  ghost predicate DraftOk(s: Store) {
    s.row.Some? ==>
      var row := s.row.value;
      && (row.status !in {Uploaded, ParseFailed} ==> s.snapshot.Some? && row.currentSnapshot == Some(s.snapshot.value.row.id))
      && (row.fields != map[] ==>
            && (Drafted(row.status) || row.status == SuggestionFailed)
            && s.snapshot.Some? && SoundFields(row.fields, s.snapshot.value))
      && (Drafted(row.status) ==> row.fields != map[])
  }

  /** What an edit has decided before it writes. */
  predicate SoundTicket(e: FieldEdit, t: EditTicket) {
    && OwnColumnOnly(e.name, t.columns) && ReviewError(e.name, e.review, t.columns) == None
    && (HasValue(t.columns) ==> e.evidences != [] || e.noSourceEvidence)
    && !(e.noSourceEvidence && e.evidences != [])
    && forall i :: 0 <= i < |e.evidences| ==> !BadLocation(e.evidences[i])
  }

  ghost predicate TicketsOk(processes: map<ProcessId, Process>) {
    forall p :: p in processes && processes[p].Editing? ==> SoundTicket(processes[p].edit, processes[p].ticket)
  }

  ghost predicate DraftInv(site: Site, sys: System) {
    Inv(site, sys) && DraftOk(sys.store) && TicketsOk(sys.processes)
  }

  // ---- the transactions that write fields -------------------------------

  lemma DraftStarts(s: Store)
    requires DraftOk(s)
    ensures DraftOk(CreateManualDraft(s).Result(s))
  {
    assert Title in FIELD_NAMES && Title in BlankDraft();
  }

  lemma SuggestedFieldsAreSound(suggestions: Suggestions, snapshot: P.Snapshot)
    requires SoundSuggestions(snapshot.payload, suggestions)
    ensures SoundFields(SuggestedDraft(Some(snapshot.row.id), suggestions), snapshot)
    ensures SuggestedDraft(Some(snapshot.row.id), suggestions) != map[]
  {
    assert Title in FIELD_NAMES;
    hide NonEmpty, OwnColumnOnly, SoundEvidence;
    var fields := SuggestedDraft(Some(snapshot.row.id), suggestions);
    forall n | n in fields ensures SoundField(n, fields[n], snapshot) {
      if n in suggestions {
        assert SoundSuggestion(snapshot.payload, n, suggestions[n]);
        var inputs, bound := suggestions[n].evidences, fields[n].evidences;
        assert |bound| == |inputs| && forall i :: 0 <= i < |inputs| ==> bound[i] == Evidence(snapshot.row.id, inputs[i]);
        assert AiValue(n, fields[n], snapshot);
      }
    }
  }

  lemma SuggestingKeepsDraft(site: Site, s: Store, retry: bool, reply: Option<Reply>)
    requires StoreOk(site, s) && DraftOk(s)
    ensures DraftOk(GenerateSuggestions(s, retry, Understood(PayloadIn(s), reply)).Result(s))
  {
    hide ParseReply, SuggestedDraft, SoundFields, OpsOk, RecordsOk, Legitimate, AuditOk;
    var suggestions := Understood(PayloadIn(s), reply);
    if GenerateSuggestions(s, retry, suggestions).Done? {
      ParsedRepliesAreSound(reply.value, s.snapshot.value.payload);
      SuggestedFieldsAreSound(suggestions.value, s.snapshot.value);
    }
  }

  lemma RegeneratingKeepsDraft(site: Site, s: Store, v: nat, draft: RegenerateTicket, reply: Option<Reply>)
    requires StoreOk(site, s) && DraftOk(s) && MemoryOk(site, s, Regenerating(v, draft))
    requires Understood(Some(draft.payload), reply).Some?
    ensures DraftOk(WriteRegenerated(s, v, draft.snapshotId, Understood(Some(draft.payload), reply).value).Result(s))
  {
    hide ParseReply, SuggestedDraft, SoundFields, OpsOk, RecordsOk, Legitimate, AuditOk;
    var suggestions := Understood(Some(draft.payload), reply).value;
    if WriteRegenerated(s, v, draft.snapshotId, suggestions).Done? {
      ParsedRepliesAreSound(reply.value, draft.payload);
      SuggestedFieldsAreSound(suggestions, s.snapshot.value);
    }
  }

  lemma EditTicketsAreSound(s: Store, e: FieldEdit)
    requires ReadForEdit(s, e).Success?
    ensures SoundTicket(e, ReadForEdit(s, e).value)
  {
    hide CanonicalValue, OwnColumnOnly, ReviewError;
    CanonicalIsStable(e.columns, e.name);
  }

  lemma EditedFieldIsSound(e: FieldEdit, t: EditTicket, snapshotId: nat)
    requires SoundTicket(e, t)
    ensures
      SoundManualValue(
        e.name, FieldValue(t.columns, e.review, Some(Manual), e.noSourceEvidence, BindEvidences(Some(snapshotId), e.evidences)), Some(snapshotId))
  {
    hide OwnColumnOnly, ReviewError, BadLocation;
  }

  lemma EditingKeepsDraft(site: Site, s: Store, e: FieldEdit, t: EditTicket)
    requires StoreOk(site, s) && DraftOk(s) && MemoryOk(site, s, Editing(e, t)) && SoundTicket(e, t)
    ensures DraftOk(WriteEdit(s, e, t).Result(s))
  {
    if WriteEdit(s, e, t).Done? {
      var snapshot := s.snapshot.value;
      var field := FieldValue(t.columns, e.review, Some(Manual), e.noSourceEvidence, BindEvidences(Some(snapshot.row.id), e.evidences));
      EditedFieldIsSound(e, t, snapshot.row.id);
      hide OpsOk, RecordsOk, Legitimate, AuditOk, AiValue, SoundTicket, SoundManualValue, BindEvidences;
      OneSoundField(s.row.value.fields, e.name, field, snapshot);
      hide SoundFields, SoundField;
      assert WriteEdit(s, e, t).after.row.value.fields == s.row.value.fields[e.name := field];
    }
  }

  lemma OneSoundField(fields: Fields, name: FieldName, v: FieldValue, snapshot: P.Snapshot)
    requires SoundFields(fields, snapshot) && name in fields
    requires SoundField(name, v, snapshot)
    ensures SoundFields(fields[name := v], snapshot)
  {
    hide SoundField;
  }

  // ---- every step -------------------------------------------------------

  /** The steps that write fields or start an edit. */
  predicate Drafts(step: Step) {
    || step.Parse? || step.StartManualDraft? || step.Suggest? || step.FailSuggest? || step.StartRegenerate? || step.FinishRegenerate?
    || step.StartEdit? || step.FinishEdit?
  }

  /** Every other step keeps fields and snapshot, and whether a draft has been started. */
  lemma OtherStepsKeepDrafts(site: Site, sys: System, step: Step)
    requires !Drafts(step)
    ensures
      var s, s' := sys.store, Apply(site, sys, step).store;
      s'.row.Some? ==>
        && s.row.Some? && s'.snapshot == s.snapshot && s'.row.value.fields == s.row.value.fields
        && s'.row.value.currentSnapshot == s.row.value.currentSnapshot
        && (Drafted(s'.row.value.status) <==> Drafted(s.row.value.status))
        && (s'.row.value.status == s.row.value.status || Drafted(s.row.value.status))
    ensures
      forall p :: p in Apply(site, sys, step).processes && Apply(site, sys, step).processes[p].Editing? ==>
                    p in sys.processes && Apply(site, sys, step).processes[p] == sys.processes[p]
  {
    hide ConfirmationError, OthersOnly, Purged, Upserted, RemoveFiles, ChunksToIndex, AnyRunning, LatestIndex, BeginDelete,
         Acceptable, Chunks, ParseReply, ReadForEdit, ReadForRegenerate, WriteEdit, WriteRegenerated, GenerateSuggestions,
         CreateManualDraft, ParseDocument, DistinctIds, RecordFor;
    if step.StartDelete? && BeginDelete(site, sys.store, step.actor).Success? {
      BeginDeleteKeeps(site, sys.store, step.actor);
    }
  }

  lemma DraftStepsKeepDrafts(site: Site, sys: System, step: Step)
    requires DraftInv(site, sys) && Drafts(step)
    ensures DraftOk(Apply(site, sys, step).store) && TicketsOk(Apply(site, sys, step).processes)
  {
    hide StoreOk, DraftOk, OneRunner, ReadForEdit, WriteEdit, ReadForRegenerate, WriteRegenerated, GenerateSuggestions,
         CreateManualDraft, ParseDocument, Understood, SoundTicket;
    var s := sys.store;
    match step
    case Parse(retry, id, parsed) => ParsingKeepsDraft(site, s, retry, id, parsed);
    case StartManualDraft => DraftStarts(s);
    case Suggest(p, retry, reply) => SuggestingKeepsDraft(site, s, retry, reply);
    case FailSuggest(p) =>
      if p in sys.processes && sys.processes[p].SuggestionFailing? {
        assert ProcessOk(site, s, sys.processes[p]);
        FailingKeepsDraft(site, s, sys.processes[p].version);
      }
    case StartRegenerate(p, v) =>
    case FinishRegenerate(p, reply) =>
      if p in sys.processes && sys.processes[p].Regenerating? {
        assert ProcessOk(site, s, sys.processes[p]);
        if Understood(Some(sys.processes[p].draft.payload), reply).Some? {
          RegeneratingKeepsDraft(site, s, sys.processes[p].expectedVersion, sys.processes[p].draft, reply);
        }
      }
    case StartEdit(p, e) =>
      if ReadForEdit(s, e).Success? {
        EditTicketsAreSound(s, e);
      }
    case FinishEdit(p) =>
      if p in sys.processes && sys.processes[p].Editing? {
        assert ProcessOk(site, s, sys.processes[p]);
        EditingKeepsDraft(site, s, sys.processes[p].edit, sys.processes[p].ticket);
      }
  }

  lemma FailingKeepsDraft(site: Site, s: Store, v: nat)
    requires StoreOk(site, s) && DraftOk(s) && MemoryOk(site, s, SuggestionFailing(v))
    ensures DraftOk(RecordSuggestionFailure(s))
  {
    hide SoundFields, OpsOk, RecordsOk, Legitimate, AuditOk;
  }

  lemma ParsingKeepsDraft(site: Site, s: Store, retry: bool, id: nat, parsed: Option<P.ParsedArchiveDocument>)
    requires DraftOk(s)
    ensures DraftOk(ParseDocument(site, s, retry, id, parsed).Result(s))
  {
    hide SoundFields;
  }

  lemma StepKeepsDrafts(site: Site, sys: System, step: Step)
    requires DraftInv(site, sys)
    ensures DraftInv(site, Apply(site, sys, step))
  {
    hide Inv, Apply, SoundFields, SoundTicket;
    StepInv(site, sys, step);
    if Drafts(step) {
      DraftStepsKeepDrafts(site, sys, step);
    } else {
      OtherStepsKeepDrafts(site, sys, step);
    }
  }

  lemma {:induction false} RunKeepsDrafts(site: Site, sys: System, steps: seq<Step>)
    requires DraftInv(site, sys)
    ensures DraftInv(site, Run(site, sys, steps))
    decreases |steps|
  {
    hide DraftInv, Apply;
    if steps != [] {
      RunKeepsDrafts(site, sys, steps[..|steps| - 1]);
      StepKeepsDrafts(site, Run(site, sys, steps[..|steps| - 1]), steps[|steps| - 1]);
    }
  }

  // ---- in every run -----------------------------------------------------

  /** In every reachable state a document has no fields or the seven: the seven while a
      draft is under way or CONFIRMED, none before, and either after a suggestion has
      failed. Each of the seven is blank, a value of the model that rests on the current
      snapshot, or a sound value of a person. */
  lemma FieldsAreSound(site: Site, start: System, steps: seq<Step>)
    requires Initial(site, start)
    ensures
      var s := Run(site, start, steps).store;
      s.row.Some? ==>
        var row := s.row.value;
        && (Drafted(row.status) ==> row.fields != map[])
        && (row.status in {Uploaded, ParseFailed, Parsed} ==> row.fields == map[])
        && (row.fields != map[] ==>
              && s.snapshot.Some? && row.currentSnapshot == Some(s.snapshot.value.row.id)
              && row.fields.Keys == FIELD_NAMES
              && forall n :: n in row.fields ==> SoundField(n, row.fields[n], s.snapshot.value))
  {
    InitialDraft(site, start);
    RunKeepsDrafts(site, start, steps);
  }

  /** Nothing of the model's reaches the formal archive unseen: whatever the order of
      suggestions, edits and confirmations, each of the seven values of a CONFIRMED
      document was entered or taken over by a person's edit. */
  lemma ConfirmedValuesAreHuman(site: Site, start: System, steps: seq<Step>)
    requires Initial(site, start)
    ensures
      var s := Run(site, start, steps).store;
      s.row.Some? && s.row.value.status == Confirmed ==>
        && s.row.value.fields.Keys == FIELD_NAMES
        && forall n :: n in s.row.value.fields ==> SoundManualValue(n, s.row.value.fields[n], s.row.value.currentSnapshot)
  {
    hide SoundManualValue, AiValue, Run, Initial;
    FieldsAreSound(site, start, steps);
    ConfirmedIsLegitimate(site, start, steps);
    var s := Run(site, start, steps).store;
    if s.row.Some? && s.row.value.status == Confirmed {
      forall n | n in s.row.value.fields ensures SoundManualValue(n, s.row.value.fields[n], s.row.value.currentSnapshot) {
        assert s.row.value.fields[n].review != PendingCheck;
        AiIsUnchecked(n, s.row.value.fields[n], s.snapshot.value);
      }
    }
  }

  lemma AiIsUnchecked(name: FieldName, v: FieldValue, snapshot: P.Snapshot)
    ensures AiValue(name, v, snapshot) ==> v.review == PendingCheck
  {}

  /** So confirmation never finds an AI value without evidence, no draft is found
      started while the document is only PARSED, and none lacks its snapshot: these
      refusals of the services are second lines of defence that no reachable state runs
      into. An edit finds no draft exactly while there are no fields. */
  lemma GuardsThatNeverFire(site: Site, start: System, steps: seq<Step>, v: nat, actor: nat, e: FieldEdit, retry: bool, reply: Option<Reply>)
    requires Initial(site, start)
    ensures
      var s := Run(site, start, steps).store;
      && ConfirmDocument(site, s, v, actor) != Failure(AiFieldEvidenceRequired)
      && CreateManualDraft(s) != Refused(ManualDraftAlreadyStarted)
      && GenerateSuggestions(s, retry, Understood(PayloadIn(s), reply)) !in
           {Refused(SuggestionAlreadyStarted), Refused(SuggestionSnapshotRequired)}
      && ReadForRegenerate(s, v) != Failure(SuggestionSnapshotRequired)
      && ReadForEdit(s, e) != Failure(FieldEvidenceSnapshotRequired)
      && (ReadForEdit(s, e) == Failure(DraftNotStarted) <==>
            s.row.Some? && s.row.value.fields == map[] && s.row.value.status in {Parsed, SuggestionFailed})
  {
    var s := Run(site, start, steps).store;
    InitialDraft(site, start);
    RunKeepsDrafts(site, start, steps);
    InvStore(site, Run(site, start, steps));
    hide *;
    ConfirmGuard(site, s, v, actor);
    DraftGuards(site, s, v, retry, Understood(PayloadIn(s), reply));
    EditGuards(site, s, e);
  }

  lemma ConfirmGuard(site: Site, s: Store, v: nat, actor: nat)
    requires StoreOk(site, s) && DraftOk(s)
    ensures ConfirmDocument(site, s, v, actor) != Failure(AiFieldEvidenceRequired)
  {
    hide StoreOk, SoundFields, ConfirmationError;
    if s.row.Some? && Drafted(s.row.value.status) {
      UnbackedIsPending(s.row.value.fields, s.snapshot.value);
      if ConfirmationError(s.row.value.fields, s.snapshot.value.row.id).Some? {
        assert ConfirmationError(s.row.value.fields, s.snapshot.value.row.id).value != AiFieldEvidenceRequired;
      }
    }
  }

  lemma DraftGuards(site: Site, s: Store, v: nat, retry: bool, suggestions: Option<Suggestions>)
    requires StoreOk(site, s) && DraftOk(s)
    ensures CreateManualDraft(s) != Refused(ManualDraftAlreadyStarted)
    ensures
      GenerateSuggestions(s, retry, suggestions) !in
        {Refused(SuggestionAlreadyStarted), Refused(SuggestionSnapshotRequired)}
    ensures ReadForRegenerate(s, v) != Failure(SuggestionSnapshotRequired)
  {
    hide StoreOk, SoundFields, BlankDraft, SuggestedDraft, RegenerateAllowed;
  }

  lemma EditGuards(site: Site, s: Store, e: FieldEdit)
    requires StoreOk(site, s) && DraftOk(s)
    ensures ReadForEdit(s, e) != Failure(FieldEvidenceSnapshotRequired)
    ensures ReadForEdit(s, e) == Failure(DraftNotStarted) <==>
            s.row.Some? && s.row.value.fields == map[] && s.row.value.status in {Parsed, SuggestionFailed}
  {
    EveryName(e.name);
    EditErrors(e);
    hide StoreOk, CanonicalValue, ReviewError, SoundField;
  }

  /** Neither the value nor its review makes an edit fail with these errors. */
  lemma EditErrors(e: FieldEdit)
    ensures CanonicalValue(e.columns, e.name).Failure? ==>
              CanonicalValue(e.columns, e.name).error in {FieldValueShapeInvalid, InvalidFieldValue}
    ensures forall c :: ReviewError(e.name, e.review, c) in
                          {None, Some(EmptyAcceptedRequiresEmpty), Some(RequiredFieldEmpty), Some(ValueRequired)}
  {}

  lemma UnbackedIsPending(fields: Fields, snapshot: P.Snapshot)
    requires SoundFields(fields, snapshot)
    ensures ConfirmationError(fields, snapshot.row.id) != Some(AiFieldEvidenceRequired)
  {
    hide NonEmpty, OwnColumnOnly, SoundEvidence;
    forall n | n in fields ensures Backed(n, fields[n], snapshot.row.id) {
      assert SoundField(n, fields[n], snapshot);
      if AiValue(n, fields[n], snapshot) {
        assert fields[n].evidences[0].snapshotId == snapshot.row.id;
      }
    }
  }

  // ---- the snapshot -----------------------------------------------------

  lemma SnapshotStays(site: Site, sys: System, step: Step)
    requires DraftInv(site, sys) && sys.store.snapshot.Some?
    ensures
      var s, s' := sys.store, Apply(site, sys, step).store;
      s'.row.None? || (s'.snapshot == s.snapshot && s.row.Some? && s'.row.value.currentSnapshot == s.row.value.currentSnapshot)
  {
    hide StoreOk, SoundFields, ReadForEdit, ReadForRegenerate, RegenerateAllowed, BlankDraft, SuggestedDraft, Understood,
         BindEvidences, ReviewError, SoundTicket, MemoryOk, OperationOk, OneRunner;
    if !Drafts(step) {
      hide Apply;
      OtherStepsKeepDrafts(site, sys, step);
    } else if step.Parse? && sys.store.row.Some? {
      InvStore(site, sys);
      SnapshotComesWithParsing(site, sys.store);
    }
  }

  lemma SnapshotComesWithParsing(site: Site, s: Store)
    requires StoreOk(site, s) && s.row.Some? && s.snapshot.Some?
    ensures s.row.value.status !in {Uploaded, ParseFailed}
  {}

  /** A parsed snapshot is immutable: while the document exists, no call replaces it, so
      evidence once bound to it stays evidence of what the document says. */
  lemma {:induction false} SnapshotsAreImmutable(site: Site, start: System, steps: seq<Step>, later: seq<Step>)
    requires Initial(site, start)
    requires Run(site, start, steps).store.snapshot.Some? && Run(site, start, steps + later).store.row.Some?
    ensures Run(site, start, steps + later).store.snapshot == Run(site, start, steps).store.snapshot
    ensures Run(site, start, steps + later).store.row.value.currentSnapshot ==
            Some(Run(site, start, steps).store.snapshot.value.row.id)
    decreases |later|
  {
    hide Apply, Initial, SoundFields;
    RunKeepsDrafts(site, start, steps) by {
      InitialDraft(site, start);
    }
    if later == [] {
      assert steps + later == steps;
    } else {
      var n := |later| - 1;
      assert (steps + later)[..|steps + later| - 1] == steps + later[..n];
      var before := Run(site, start, steps + later[..n]);
      if before.store.row.None? {
        RowStaysGone(site, before, later[n]);
      } else {
        SnapshotsAreImmutable(site, start, steps, later[..n]);
        RunKeepsDrafts(site, start, steps + later[..n]) by {
          InitialDraft(site, start);
        }
        SnapshotStays(site, before, later[n]);
      }
    }
  }

  lemma InitialDraft(site: Site, start: System)
    requires Initial(site, start)
    ensures DraftInv(site, start)
  {
    InitialInv(site, start);
  }
}
