/** What a caller of parsing, drafting, suggesting, regenerating or cancelling can rely
    on, in every state a run can reach: exactly when the call succeeds, what it leaves,
    and what can be done next. */
module ServiceOutcomes {
  import opened Wrappers
  import opened FinalChunks
  import P = Parsed
  import opened Archive
  import opened SuggestionReplies
  import opened Transactions
  import opened Lifecycle
  import opened LifecycleInvariant
  import opened LifecycleSafety
  import opened ServiceCalls
  import opened LifecycleDrafts

  /** What holds of the stores of a document in every reachable state. */
  ghost predicate Sound(site: Site, s: Store) { StoreOk(site, s) && DraftOk(s) }

  lemma ReachableIsSound(site: Site, start: System, steps: seq<Step>)
    requires Initial(site, start)
    ensures Sound(site, Run(site, start, steps).store)
  {
    InitialDraft(site, start);
    RunKeepsDrafts(site, start, steps);
  }

  // ---- parsing ----------------------------------------------------------

  /** The document waits to be parsed, for the first time or again. */
  predicate MayParse(s: Store, retry: bool) {
    s.row.Some? && s.row.value.status == (if retry then ParseFailed else Uploaded)
  }

  /** Parsing succeeds exactly when the document waits for it and the parser raises
      nothing. It never replaces a snapshot; success makes the parser's result the
      document's snapshot and leaves both ways to a draft open, and parsing over. A
      recorded failure leaves a retry, and only that. */
  lemma ParseOutcome(site: Site, s: Store, retry: bool, id: nat, parsed: Option<P.ParsedArchiveDocument>)
    requires Sound(site, s)
    ensures
      var t := ParseDocument(site, s, retry, id, parsed);
      var s' := t.Result(s);
      && Sound(site, s')
      && (t.Done? <==> MayParse(s, retry) && parsed.Some?)
      && (t.Recorded? <==> MayParse(s, retry) && parsed.None?)
      && (!t.Refused? ==> s.snapshot.None? && s'.row.Some? && s'.row.value.version == s.row.value.version && s'.chroma == s.chroma)
      && (t.Done? ==>
            && s'.snapshot == Some(P.StoredSnapshot(id, site.documentId, parsed.value)) && SnapshotFile in s'.files
            && MayDraft(s') && MaySuggest(s', false) && !MayParse(s', false) && !MayParse(s', true))
      && (t.Recorded? ==>
            && s'.snapshot.None? && s'.files == s.files && s'.audit == s.audit
            && MayParse(s', true) && !MayParse(s', false) && !MayDraft(s') && !MaySuggest(s', false) && !MaySuggest(s', true))
  {
    ParseStep(site, s, retry, id, parsed);
    ParsingKeepsDraft(site, s, retry, id, parsed);
    if MayParse(s, retry) {
      assert s.snapshot.None?;
    }
    hide RecordsOk, OpsOk, Legitimate, SoundFields;
  }

  // ---- drafts and suggestions -------------------------------------------

  predicate MayDraft(s: Store) { s.row.Some? && s.row.value.status in {Parsed, SuggestionFailed} }

  /** No caller can confirm the document, whatever version it expects. */
  ghost predicate Unconfirmable(site: Site, s: Store)
    requires s.row.Some?
  {
    forall v: nat, actor: nat ::
      ConfirmDocument(site, s, v, actor) == Failure(if v == s.row.value.version then ConfirmNotAllowed else VersionConflict)
  }

  /** Seven fields nobody has checked yet cannot be confirmed, nor drafted anew. */
  lemma FreshDraft(site: Site, s: Store)
    requires s.row.Some? && s.row.value.status == PendingConfirmation && s.row.value.fields.Keys == FIELD_NAMES
    requires forall n :: n in s.row.value.fields ==> s.row.value.fields[n].review == PendingCheck
    ensures Unconfirmable(site, s)
    ensures !MayDraft(s) && !MaySuggest(s, false) && !MaySuggest(s, true)
  {
    EveryName(Title);
    assert s.row.value.fields[Title].review == PendingCheck;
  }

  /** A manual draft is made exactly of a document that is parsed or whose suggestion
      failed. Then it has the seven fields, all blank and unchecked, one version later,
      and nothing else changes; no second draft can be made, and nothing can be
      confirmed, before a person has edited. A refusal changes nothing. */
  lemma ManualDraftOutcome(site: Site, s: Store)
    requires Sound(site, s)
    ensures
      var t := CreateManualDraft(s);
      var s' := t.Result(s);
      && Sound(site, s')
      && (t.Done? <==> MayDraft(s))
      && (!t.Done? ==> t.Refused? && s' == s)
      && (t.Done? ==>
            && s'.row.Some? && s' == s.(row := s'.row)
            && s'.row.value == s.row.value.(status := PendingConfirmation, version := s.row.value.version + 1, fields := s'.row.value.fields)
            && s'.row.value.fields.Keys == FIELD_NAMES
            && (forall n :: n in FIELD_NAMES ==> s'.row.value.fields[n] == FieldValue(NO_VALUE, PendingCheck, None, false, []))
            && !MayDraft(s') && !MaySuggest(s', false) && !MaySuggest(s', true)
            && (MayRegenerate(s', s'.row.value.version) <==> SnapshotFile in s.files)
            && Unconfirmable(site, s'))
  {
    DraftStep(site, s);
    DraftStarts(s);
    hide StoreOk, SoundFields, ConfirmDocument;
    if CreateManualDraft(s).Done? {
      FreshDraft(site, CreateManualDraft(s).after);
    }
  }

  predicate HasManual(fields: Fields) { exists n :: n in fields && fields[n].source == Some(Manual) }

  /** The document waits for a suggestion, and a retry would overwrite nothing of a person's. */
  predicate MaySuggest(s: Store, retry: bool) {
    && s.row.Some? && s.row.value.status == (if retry then SuggestionFailed else Parsed) && SnapshotFile in s.files
    && !HasManual(s.row.value.fields)
  }

  /** Seven unchecked fields: the suggested ones hold the model's values with their
      evidence, the others are blank. */
  ghost predicate Suggested(fields: Fields, suggestions: Suggestions, snapshot: P.Snapshot) {
    && fields.Keys == FIELD_NAMES
    && forall n :: n in FIELD_NAMES ==>
                     if n in suggestions then
                       && AiValue(n, fields[n], snapshot) && fields[n].columns == suggestions[n].columns
                       && |fields[n].evidences| == |suggestions[n].evidences|
                       && forall i :: 0 <= i < |fields[n].evidences| ==> fields[n].evidences[i].input == suggestions[n].evidences[i]
                     else fields[n] == FieldValue(NO_VALUE, PendingCheck, None, false, [])
  }

  lemma DraftIsSuggested(suggestions: Suggestions, snapshot: P.Snapshot)
    requires SoundSuggestions(snapshot.payload, suggestions)
    ensures Suggested(SuggestedDraft(Some(snapshot.row.id), suggestions), suggestions, snapshot)
  {
    SuggestedFieldsAreSound(suggestions, snapshot);
    hide NonEmpty, OwnColumnOnly, SoundEvidence;
    var fields := SuggestedDraft(Some(snapshot.row.id), suggestions);
    forall n | n in suggestions && n in FIELD_NAMES ensures AiValue(n, fields[n], snapshot) {
      assert SoundSuggestion(snapshot.payload, n, suggestions[n]);
      assert SoundField(n, fields[n], snapshot);
    }
  }

  /** A draft made of the model's values. */
  lemma PersistedDraft(site: Site, s: Store, suggestions: Suggestions, audit: seq<AuditKind>)
    requires s.row.Some? && s.snapshot.Some? && s.row.value.currentSnapshot == Some(s.snapshot.value.row.id)
    requires SnapshotFile in s.files && SoundSuggestions(s.snapshot.value.payload, suggestions)
    ensures
      var after := PersistDraft(s, s.row.value, suggestions, audit);
      && after.row.Some? && after.row.value.version == s.row.value.version + 1
      && after == s.(row := after.row, audit := s.audit + audit)
      && Suggested(after.row.value.fields, suggestions, s.snapshot.value)
      && Unconfirmable(site, after) && !MayDraft(after) && !MaySuggest(after, false) && !MaySuggest(after, true)
      && MayRegenerate(after, after.row.value.version)
  {
    hide SuggestedDraft, AiValue, ConfirmDocument;
    var after := PersistDraft(s, s.row.value, suggestions, audit);
    DraftIsSuggested(suggestions, s.snapshot.value);
    SuggestedIsUntouched(after.row.value.fields, suggestions, s.snapshot.value);
    assert Suggested(after.row.value.fields, suggestions, s.snapshot.value);
    assert forall n :: n in after.row.value.fields ==> after.row.value.fields[n].review == PendingCheck;
    hide Suggested;
    FreshDraft(site, after);
  }

  /** A suggestion succeeds exactly when the document waits for one, its snapshot can be
      read and the model's reply is understood; the draft is then the reply and nothing
      else, and none of it can be confirmed unchecked. A failure that is recorded
      leaves a retry and the manual draft open; a refusal changes nothing. */
  lemma SuggestionOutcome(site: Site, s: Store, retry: bool, reply: Option<Reply>)
    requires Sound(site, s)
    ensures
      var suggestions := Understood(PayloadIn(s), reply);
      var t := GenerateSuggestions(s, retry, suggestions);
      var s' := t.Result(s);
      && Sound(site, s')
      && (t.Done? <==> MaySuggest(s, retry) && suggestions.Some?)
      && (t.Recorded? <==> MaySuggest(s, retry) && suggestions.None?)
      && (t.Done? ==>
            && s'.row.Some? && s.snapshot.Some? && s'.row.value.version == s.row.value.version + 1
            && s' == s.(row := s'.row, audit := s.audit + if retry then [SuggestionRetried] else [])
            && Suggested(s'.row.value.fields, suggestions.value, s.snapshot.value)
            && !MayDraft(s') && !MaySuggest(s', false) && !MaySuggest(s', true) && MayRegenerate(s', s'.row.value.version)
            && Unconfirmable(site, s'))
      && (t.Recorded? ==>
            && s' == s.(row := Some(s.row.value.(status := SuggestionFailed, lastError := Some(SuggestionFailedError))))
            && MayDraft(s') && MaySuggest(s', true) && !MaySuggest(s', false))
  {
    var suggestions := Understood(PayloadIn(s), reply);
    SuggestStep(site, s, retry, suggestions);
    SuggestingKeepsDraft(site, s, retry, reply);
    SuggestionIff(site, s, retry, suggestions);
    hide StoreOk, DraftOk, GenerateSuggestions, PersistDraft, ParseReply, SoundSuggestions, Suggested, Unconfirmable, MayRegenerate;
    if GenerateSuggestions(s, retry, suggestions).Done? {
      ParsedRepliesAreSound(reply.value, s.snapshot.value.payload);
      PersistedDraft(site, s, suggestions.value, if retry then [SuggestionRetried] else []);
    }
  }

  lemma SuggestionIff(site: Site, s: Store, retry: bool, suggestions: Option<Suggestions>)
    requires Sound(site, s)
    ensures
      var t := GenerateSuggestions(s, retry, suggestions);
      && (t.Done? <==> MaySuggest(s, retry) && suggestions.Some?)
      && (t.Recorded? <==> MaySuggest(s, retry) && suggestions.None?)
      && (MaySuggest(s, retry) ==> s.snapshot.Some? && s.row.value.currentSnapshot == Some(s.snapshot.value.row.id))
      && (t.Done? ==> t.after == PersistDraft(s, s.row.value, suggestions.value, if retry then [SuggestionRetried] else []))
      && (t.Recorded? ==> t.after == RecordSuggestionFailure(s))
  {
    hide OpsOk, RecordsOk, Legitimate, AuditOk, SoundFields, PersistDraft, RecordSuggestionFailure;
  }

  /** The suggestion call nobody interrupts is a run, too. */
  lemma SuggestionCallIsARun(site: Site, sys: System, p: ProcessId, retry: bool, reply: Option<Reply>)
    requires p !in sys.processes
    ensures
      Run(site, sys, [Suggest(p, retry, reply)] + [FailSuggest(p)]) ==
      System(GenerateSuggestions(sys.store, retry, Understood(PayloadIn(sys.store), reply)).Result(sys.store), sys.processes)
  {
    hide Understood, SuggestedDraft;
    RunPair(site, sys, Suggest(p, retry, reply), FailSuggest(p));
    SpareProcess(sys, p);
  }

  lemma SuggestedIsUntouched(fields: Fields, suggestions: Suggestions, snapshot: P.Snapshot)
    requires Suggested(fields, suggestions, snapshot)
    ensures RegenerateAllowed(fields)
  {
    hide NonEmpty, OwnColumnOnly, SoundEvidence;
    forall n | n in fields
      ensures fields[n].review == PendingCheck && fields[n].source != Some(Manual) && !fields[n].noSourceEvidence
    {
      assert n in FIELD_NAMES;
    }
  }

  /** The caller saw the current draft, and no person has edited any of its fields. */
  predicate MayRegenerate(s: Store, v: nat) {
    && s.row.Some? && s.row.value.status == PendingConfirmation && s.row.value.version == v && SnapshotFile in s.files
    && forall n :: n in s.row.value.fields ==> s.row.value.fields[n].source != Some(Manual)
  }

  lemma UntouchedIffNotManual(s: Store)
    requires DraftOk(s) && s.row.Some? && s.row.value.status == PendingConfirmation
    ensures RegenerateAllowed(s.row.value.fields) <==>
            forall n :: n in s.row.value.fields ==> s.row.value.fields[n].source != Some(Manual)
  {
    hide NonEmpty, OwnColumnOnly, SoundEvidence;
    var fields := s.row.value.fields;
    if forall n :: n in fields ==> fields[n].source != Some(Manual) {
      forall n | n in fields ensures fields[n].review == PendingCheck && !fields[n].noSourceEvidence {
        assert SoundField(n, fields[n], s.snapshot.value);
      }
    }
  }

  /** Regeneration succeeds exactly when its caller saw the current draft, no person has
      edited a field, the snapshot can be read and the reply is understood; the draft is
      then the new reply and nothing of the old one. Whatever else happens, the stores
      are as they were. */
  lemma RegenerateOutcome(site: Site, s: Store, v: nat, reply: Option<Reply>)
    requires Sound(site, s)
    ensures
      var suggestions := Understood(PayloadIn(s), reply);
      var (after, error) := RegenerateCall(s, v, reply);
      && Sound(site, after)
      && (error.None? <==> MayRegenerate(s, v) && suggestions.Some?)
      && (error.Some? ==> after == s)
      && (error.None? ==>
            && after.row.Some? && s.snapshot.Some? && after.row.value.version == v + 1
            && after == s.(row := after.row, audit := s.audit + [SuggestionRegenerated])
            && Suggested(after.row.value.fields, suggestions.value, s.snapshot.value)
            && MayRegenerate(after, v + 1)
            && Unconfirmable(site, after))
  {
    var suggestions := Understood(PayloadIn(s), reply);
    RegenerationIff(site, s, v, reply);
    hide DraftOk, StoreOk, RegenerateCall, PersistDraft, ParseReply, SoundSuggestions, Suggested, Unconfirmable, MayRegenerate;
    if RegenerateCall(s, v, reply).1.None? {
      ParsedRepliesAreSound(reply.value, s.snapshot.value.payload);
      PersistedDraft(site, s, suggestions.value, [SuggestionRegenerated]);
    }
  }

  lemma RegenerationIff(site: Site, s: Store, v: nat, reply: Option<Reply>)
    requires Sound(site, s)
    ensures
      var suggestions := Understood(PayloadIn(s), reply);
      var (after, error) := RegenerateCall(s, v, reply);
      && Sound(site, after)
      && (error.None? <==> MayRegenerate(s, v) && suggestions.Some?)
      && (error.Some? ==> after == s)
      && (error.None? ==>
            && s.row.Some? && s.row.value.version == v && SnapshotFile in s.files
            && s.snapshot.Some? && s.row.value.currentSnapshot == Some(s.snapshot.value.row.id)
            && after == PersistDraft(s, s.row.value, suggestions.value, [SuggestionRegenerated]))
  {
    if s.row.Some? && s.row.value.status == PendingConfirmation {
      UntouchedIffNotManual(s);
      assert s.snapshot.Some? && s.row.value.currentSnapshot == Some(s.snapshot.value.row.id);
    }
    RegeneratedIsSound(site, s, v, reply);
    hide StoreOk, DraftOk, Sound, ParseReply, PersistDraft, RegenerateAllowed;
  }

  lemma RegeneratedIsSound(site: Site, s: Store, v: nat, reply: Option<Reply>)
    requires Sound(site, s)
    ensures Sound(site, RegenerateCall(s, v, reply).0)
  {
    var read := ReadForRegenerate(s, v);
    if read.Success? && Understood(Some(read.value.payload), reply).Some? {
      var suggestions := Understood(Some(read.value.payload), reply).value;
      assert MemoryOk(site, s, Regenerating(v, read.value));
      hide ParseReply, WriteRegenerated, SoundFields, OpsOk, RecordsOk, Legitimate, AuditOk;
      RegenerateStep(site, s, v, read.value.snapshotId, suggestions);
      RegeneratingKeepsDraft(site, s, v, read.value, reply);
    }
  }

  // ---- cancellation -----------------------------------------------------

  predicate MayCancel(site: Site, s: Store, v: nat) {
    s.row.Some? && s.row.value.version == v && s.row.value.status == Confirmed && site.projectKbId == site.kbId
  }

  /** A cancellation raises exactly when it changes nothing or its clean-up breaks. Once
      committed, the document is not formal whatever happens to its chunks, keeps its
      fields, and passes every check of confirmation again; after a clean-up that
      completes, no chunk of it is left. */
  lemma CancelOutcome(site: Site, s: Store, v: nat, cleanup: Call<ChunkId>, marker: bool)
    requires StoreOk(site, s)
    ensures
      var (after, error) := CancelCall(site, s, v, cleanup, marker);
      && StoreOk(site, after)
      && (error.None? <==> MayCancel(site, s, v) && cleanup.Completes?)
      && (error == Some(VectorUnavailable) <==> MayCancel(site, s, v) && !cleanup.Completes?)
      && (!MayCancel(site, s, v) <==> after == s)
      && (error.None? ==> NoRecords(site, after.chroma))
      && (MayCancel(site, s, v) ==>
            && after.row.Some? && after.row.value.status == PendingReconfirmation && after.row.value.version == v + 1
            && after.row.value.fields == s.row.value.fields && after.row.value.finalChunkCount == 0
            && !Formal(after) && MayConfirm(after, v + 1) && !AlreadyIndexed(after)
            && after.snapshot == s.snapshot && after.files == s.files && after.ops == s.ops
            && after.audit == s.audit + [ConfirmationCancelled]
            && (after.row.value.lastError == Some(VectorUnavailable) <==> error.Some? && marker))
  {
    hide ConfirmationError, Purged, RecordsOk, OpsOk, AuditOk, NoRecords;
    var t := CancelConfirmation(site, s, v);
    if t.Done? {
      var cleaned := t.after.(chroma := Purged(t.after.chroma, IndexScope(site), cleanup));
      CancelStep(site, s, v);
      assert StoreOk(site, t.after);
      assert StoreOk(site, cleaned) by {
        PurgeStep(site, t.after, IndexScope(site), cleanup);
      }
      PurgeRemovesAll(site, t.after);
      assert StoreOk(site, RecordCleanupFailure(cleaned)) by { CleanupFailureStep(site, cleaned); }
      assert |t.after.audit| == |s.audit| + 1;
    }
  }
}
