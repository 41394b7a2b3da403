/** Reading the suggestion model's reply: every value it suggests must come with
    evidence at a place of the snapshot (app/services/archive/suggestions.py). */
module SuggestionReplies {
  import opened Wrappers
  import opened Text
  import opened FinalChunks
  import opened Archive

  // ---- what the model may send ------------------------------------------

  /** `None` stands for a value that is missing or that its conversion rejects. */
  datatype RawEvidence =
    | EvidenceNotObject
    | RawEvidence(
        excerpt: Option<string>, locationType: Option<LocationType>, locationStart: Option<int>, locationEnd: Option<int>,
        anchor: Option<string>)

  datatype RawDate = NoDate | InvalidDate | Day(day: int)

  /** A keyword that is not a string is `None`. */
  datatype RawWords = NoWords | WordsNotList | Words(words: seq<Option<string>>)

  /** One member of `fields`; `evidences` is `None` when it is no list. */
  datatype RawField =
    | FieldNotObject
    | RawField(text: Option<string>, date: RawDate, words: RawWords, evidences: Option<seq<RawEvidence>>)

  /** The reply: no object of fields, or the members that are present and not null. */
  datatype Reply = NoFields | Fields(fields: map<FieldName, RawField>)

  datatype Suggestion = Suggestion(columns: Columns, evidences: seq<EvidenceInput>)

  /** What the reply was parsed to: at most one suggestion for each field. */
  type Suggestions = map<FieldName, Suggestion>

  // ---- evidence ---------------------------------------------------------

  /** Some fragment of the snapshot has exactly this place. */
  predicate AtPlace(payload: SnapshotPayload, e: EvidenceInput) {
    exists i :: 0 <= i < |payload.fragments|
                && payload.fragments[i].locationType == Some(e.locationType)
                && payload.fragments[i].locationStart == Some(e.locationStart)
                && payload.fragments[i].locationEnd == Some(e.locationEnd)
  }

  /** Evidence a suggestion may rest on. */
  predicate SoundEvidence(payload: SnapshotPayload, e: EvidenceInput) {
    e.excerpt != "" && Trimmed(e.excerpt) && 1 <= e.locationStart && !BadLocation(e) && AtPlace(payload, e)
  }

  function ReadEvidence(raw: RawEvidence, payload: SnapshotPayload): Option<EvidenceInput> {
    if raw.EvidenceNotObject? then None
    else if raw.locationType.None? || raw.locationStart.None? || raw.locationEnd.None? || raw.excerpt.None? then None
    else
      var e := EvidenceInput(Strip(raw.excerpt.value), raw.locationType.value, raw.locationStart.value, raw.locationEnd.value, raw.anchor);
      if e.excerpt == "" || e.locationStart < 1 || e.locationEnd < e.locationStart then None
      else if e.locationType != TextLineRange && e.locationEnd != e.locationStart then None
      else if !AtPlace(payload, e) then None
      else Some(e)
  }

  function ReadEvidences(raws: seq<RawEvidence>, payload: SnapshotPayload): Option<seq<EvidenceInput>> {
    if raws == [] then Some([])
    else
      var before := ReadEvidences(raws[..|raws| - 1], payload);
      var last := ReadEvidence(raws[|raws| - 1], payload);
      if before.Some? && last.Some? then Some(before.value + [last.value]) else None
  }

  lemma {:induction false} ReadEvidencesAreSound(raws: seq<RawEvidence>, payload: SnapshotPayload)
    ensures
      ReadEvidences(raws, payload).Some? ==>
        && |ReadEvidences(raws, payload).value| == |raws|
        && forall i :: 0 <= i < |raws| ==> SoundEvidence(payload, ReadEvidences(raws, payload).value[i])
  {
    if raws != [] {
      var n := |raws| - 1;
      ReadEvidencesAreSound(raws[..n], payload);
      if raws[n].RawEvidence? && raws[n].excerpt.Some? {
        StripTrims(raws[n].excerpt.value);
      }
    }
  }

  // ---- values -----------------------------------------------------------

  /** The value columns of one field, `None` when the model misused them. */
  function ReadColumns(name: FieldName, raw: RawField): Option<Columns>
    requires raw.RawField?
  {
    match name
    case DocumentDate =>
      if raw.text.Some? || !raw.words.NoWords? || raw.date.InvalidDate? then None
      else Some(Columns(None, if raw.date.Day? then Some(raw.date.day) else None, None))
    case Keywords =>
      if raw.text.Some? || !raw.date.NoDate? || raw.words.WordsNotList? then None
      else if raw.words.NoWords? then Some(NO_VALUE)
      else if exists i :: 0 <= i < |raw.words.words| && (raw.words.words[i].None? || Strip(raw.words.words[i].value) == "") then None
      else
        Some(Columns(None, None, Some(seq(|raw.words.words|, i requires 0 <= i < |raw.words.words| =>
                                          if raw.words.words[i].Some? then Strip(raw.words.words[i].value) else ""))))
    case _ =>
      if !raw.date.NoDate? || !raw.words.NoWords? then None
      else if raw.text.None? then Some(NO_VALUE)
      else
        var text := Strip(raw.text.value);
        if name == DocumentType && !KnownDocumentType(text) then None
        else if name == ProjectStage && !KnownProjectStage(text) then None
        else Some(Columns(Some(text), None, None))
  }

  datatype Reading = Nothing | Invalid | Suggests(suggestion: Suggestion)

  /** One field of the reply. */
  function ReadField(name: FieldName, raw: RawField, payload: SnapshotPayload): Reading {
    if raw.FieldNotObject? then Invalid
    else
      var columns := ReadColumns(name, raw);
      if columns.None? || raw.evidences.None? then Invalid
      else
        var evidences := ReadEvidences(raw.evidences.value, payload);
        if evidences.None? then Invalid
        else if !NonEmpty(name, columns.value) then Nothing
        else if evidences.value == [] then Invalid
        else Suggests(Suggestion(columns.value, evidences.value))
  }

  /** `_parse_suggested_fields`. */
  function ParseReply(reply: Reply, payload: SnapshotPayload): Option<Suggestions> {
    if reply.NoFields? then None
    else if exists n :: n in reply.fields && ReadField(n, reply.fields[n], payload).Invalid? then None
    else
      Some(map n | n in reply.fields && ReadField(n, reply.fields[n], payload).Suggests? ::
             ReadField(n, reply.fields[n], payload).suggestion)
  }

  const ALL_NAMES: seq<FieldName> :=
    [Title, DocumentType, DocumentDate, AuthoringOrganization, VersionNumber, ProjectStage, Keywords]

  lemma NameListed(n: FieldName)
    ensures n in ALL_NAMES
  {
    match n
    case Title => assert ALL_NAMES[0] == n;
    case DocumentType => assert ALL_NAMES[1] == n;
    case DocumentDate => assert ALL_NAMES[2] == n;
    case AuthoringOrganization => assert ALL_NAMES[3] == n;
    case VersionNumber => assert ALL_NAMES[4] == n;
    case ProjectStage => assert ALL_NAMES[5] == n;
    case Keywords => assert ALL_NAMES[6] == n;
  }

  // ---- the loops --------------------------------------------------------

  /** `_validate_evidence`, for a list. */
  method ValidateEvidences(raws: seq<RawEvidence>, payload: SnapshotPayload) returns (evidences: Option<seq<EvidenceInput>>)
    ensures evidences == ReadEvidences(raws, payload)
  {
    hide ReadEvidence;
    var read: seq<EvidenceInput> := [];
    for i := 0 to |raws|
      invariant ReadEvidences(raws[..i], payload) == Some(read)
    {
      assert raws[..i + 1][..i] == raws[..i];
      var e := ReadEvidence(raws[i], payload);
      if e.None? {
        UnreadableStays(raws, payload, i);
        return None;
      }
      read := read + [e.value];
    }
    assert raws[..|raws|] == raws;
    evidences := Some(read);
  }

  lemma {:induction false} UnreadableStays(raws: seq<RawEvidence>, payload: SnapshotPayload, i: nat)
    requires i < |raws| && ReadEvidence(raws[i], payload).None?
    ensures ReadEvidences(raws, payload).None?
    decreases |raws|
  {
    hide ReadEvidence;
    if i < |raws| - 1 {
      UnreadableStays(raws[..|raws| - 1], payload, i);
    }
  }

  /** The body of the loop of `_parse_suggested_fields`. */
  method ParseSuggestedField(name: FieldName, raw: RawField, payload: SnapshotPayload) returns (reading: Reading)
    ensures reading == ReadField(name, raw, payload)
  {
    if raw.FieldNotObject? {
      return Invalid;
    }
    var columns := ReadColumns(name, raw);
    if columns.None? || raw.evidences.None? {
      return Invalid;
    }
    var evidences := ValidateEvidences(raw.evidences.value, payload);
    if evidences.None? || (NonEmpty(name, columns.value) && evidences.value == []) {
      return Invalid;
    }
    if !NonEmpty(name, columns.value) {
      return Nothing;
    }
    reading := Suggests(Suggestion(columns.value, evidences.value));
  }

  /** `_parse_suggested_fields`: the seven names in their order. */
  method ParseSuggestedFields(reply: Reply, payload: SnapshotPayload) returns (suggestions: Option<Suggestions>)
    ensures suggestions == ParseReply(reply, payload)
    ensures suggestions.Some? ==> SoundSuggestions(payload, suggestions.value)
  {
    ParsedRepliesAreSound(reply, payload);
    hide ReadField, SoundSuggestions;
    if reply.NoFields? {
      return None;
    }
    var fields := reply.fields;
    var read: Suggestions := map[];
    for i := 0 to |ALL_NAMES|
      invariant forall n :: n in ALL_NAMES[..i] && n in fields ==> !ReadField(n, fields[n], payload).Invalid?
      invariant forall n :: n in read <==> n in ALL_NAMES[..i] && n in fields && ReadField(n, fields[n], payload).Suggests?
      invariant forall n :: n in read ==> read[n] == ReadField(n, fields[n], payload).suggestion
    {
      var n := ALL_NAMES[i];
      assert ALL_NAMES[..i + 1] == ALL_NAMES[..i] + [n];
      if n in fields {
        var reading := ParseSuggestedField(n, fields[n], payload);
        if reading.Invalid? {
          assert ParseReply(reply, payload) == None;
          return None;
        }
        if reading.Suggests? {
          read := read[n := reading.suggestion];
        }
      }
    }
    assert ALL_NAMES[..|ALL_NAMES|] == ALL_NAMES;
    forall n | n in fields ensures n in ALL_NAMES {
      NameListed(n);
    }
    assert ParseReply(reply, payload).Some?;
    assert read == ParseReply(reply, payload).value;
    suggestions := Some(read);
  }

  // ---- what comes out ---------------------------------------------------

  /** Only the field's own column is used, and its text is trimmed and known. */
  predicate OwnColumnOnly(name: FieldName, c: Columns) {
    match name
    case DocumentDate => c.text.None? && c.words.None?
    case Keywords => c.text.None? && c.date.None? && c.words != Some([])
    case _ =>
      && c.date.None? && c.words.None?
      && (c.text.Some? ==>
            && Strip(c.text.value) == c.text.value
            && (name == DocumentType ==> KnownDocumentType(c.text.value))
            && (name == ProjectStage ==> KnownProjectStage(c.text.value)))
  }

  /** A value worth having, in its own column, with evidence at places of the snapshot. */
  predicate SoundSuggestion(payload: SnapshotPayload, name: FieldName, s: Suggestion) {
    && NonEmpty(name, s.columns) && OwnColumnOnly(name, s.columns) && s.evidences != []
    && forall i :: 0 <= i < |s.evidences| ==> SoundEvidence(payload, s.evidences[i])
  }

  ghost predicate SoundSuggestions(payload: SnapshotPayload, suggestions: Suggestions) {
    forall n :: n in suggestions ==> SoundSuggestion(payload, n, suggestions[n])
  }

  lemma ReadColumnsAreOwn(name: FieldName, raw: RawField)
    requires raw.RawField? && ReadColumns(name, raw).Some? && NonEmpty(name, ReadColumns(name, raw).value)
    ensures OwnColumnOnly(name, ReadColumns(name, raw).value)
  {
    if raw.text.Some? {
      StripTrims(raw.text.value);
      StripKeepsTrimmed(Strip(raw.text.value));
    }
  }

  /** Whatever the model sends: what is taken from it is a value in its field's own
      column with at least one piece of evidence, each at a place of the snapshot. */
  lemma ParsedRepliesAreSound(reply: Reply, payload: SnapshotPayload)
    ensures ParseReply(reply, payload).Some? ==> SoundSuggestions(payload, ParseReply(reply, payload).value)
  {
    hide ReadColumns, OwnColumnOnly, ReadEvidences, SoundEvidence;
    if ParseReply(reply, payload).Some? {
      var suggestions := ParseReply(reply, payload).value;
      forall n | n in suggestions ensures SoundSuggestion(payload, n, suggestions[n]) {
        var raw := reply.fields[n];
        ReadColumnsAreOwn(n, raw);
        ReadEvidencesAreSound(raw.evidences.value, payload);
      }
    }
  }

  // ---- what is taken from a reply ---------------------------------------

  predicate BadEvidence(raw: RawEvidence, payload: SnapshotPayload) {
    || raw.EvidenceNotObject? || raw.excerpt.None? || raw.locationType.None? || raw.locationStart.None? || raw.locationEnd.None?
    || AllSpace(raw.excerpt.value) || raw.locationStart.value < 1 || raw.locationEnd.value < raw.locationStart.value
    || (raw.locationType.value != TextLineRange && raw.locationEnd.value != raw.locationStart.value)
    || forall f :: f in payload.fragments ==>
                     !(f.locationType == raw.locationType && f.locationStart == raw.locationStart && f.locationEnd == raw.locationEnd)
  }

  ghost predicate TakenEvidence(e: EvidenceInput, raw: RawEvidence) {
    && raw.RawEvidence? && raw.excerpt.Some? && StrippedFrom(e.excerpt, raw.excerpt.value)
    && raw.locationType == Some(e.locationType) && raw.locationStart == Some(e.locationStart) && raw.locationEnd == Some(e.locationEnd)
    && e.anchor == raw.anchor
  }

  /** The reply gives the field a value. */
  predicate GivesValue(name: FieldName, raw: RawField) {
    && raw.RawField?
    && match name
       case DocumentDate => raw.date.Day?
       case Keywords => raw.words.Words? && |raw.words.words| > 0
       case _ => raw.text.Some? && !AllSpace(raw.text.value)
  }

  /** The reply uses a column that is not the field's, or its own wrongly. */
  ghost predicate Misuses(name: FieldName, raw: RawField)
    requires raw.RawField?
  {
    match name
    case DocumentDate => raw.text.Some? || !raw.words.NoWords? || raw.date.InvalidDate?
    case Keywords =>
      || raw.text.Some? || !raw.date.NoDate? || raw.words.WordsNotList?
      || (raw.words.Words? && exists i :: 0 <= i < |raw.words.words| && (raw.words.words[i].None? || AllSpace(raw.words.words[i].value)))
    case DocumentType =>
      || !raw.date.NoDate? || !raw.words.NoWords?
      || (raw.text.Some? && forall t :: t in {"CONTRACT", "DESIGN", "CONSTRUCTION", "MEETING_MINUTES", "ACCEPTANCE", "OTHER"} ==>
                                          !StrippedFrom(t, raw.text.value))
    case ProjectStage =>
      || !raw.date.NoDate? || !raw.words.NoWords?
      || (raw.text.Some? && forall t :: t in {"PREPARATION", "DESIGN", "CONSTRUCTION", "ACCEPTANCE", "CROSS_STAGE", "OTHER_STAGE"} ==>
                                          !StrippedFrom(t, raw.text.value))
    case _ => !raw.date.NoDate? || !raw.words.NoWords?
  }

  /** The field makes the whole reply unusable. */
  ghost predicate Unusable(name: FieldName, raw: RawField, payload: SnapshotPayload) {
    || raw.FieldNotObject? || Misuses(name, raw) || raw.evidences.None?
    || (exists i :: 0 <= i < |raw.evidences.value| && BadEvidence(raw.evidences.value[i], payload))
    || (GivesValue(name, raw) && raw.evidences == Some([]))
  }

  /** The columns hold what the reply says of the field, but for white space. */
  ghost predicate ColumnsSay(c: Columns, name: FieldName, raw: RawField)
    requires raw.RawField?
  {
    match name
    case DocumentDate => raw.date.Day? && c == Columns(None, Some(raw.date.day), None)
    case Keywords =>
      && raw.words.Words? && c.words.Some? && c == Columns(None, None, c.words) && |c.words.value| == |raw.words.words|
      && forall i :: 0 <= i < |raw.words.words| ==> raw.words.words[i].Some? && StrippedFrom(c.words.value[i], raw.words.words[i].value)
    case _ => raw.text.Some? && c.text.Some? && c == Columns(c.text, None, None) && StrippedFrom(c.text.value, raw.text.value)
  }

  /** The suggestion is what the reply says of the field. */
  ghost predicate TakenField(s: Suggestion, name: FieldName, raw: RawField) {
    && raw.RawField? && ColumnsSay(s.columns, name, raw)
    && raw.evidences.Some? && |s.evidences| == |raw.evidences.value|
    && forall i :: 0 <= i < |s.evidences| ==> TakenEvidence(s.evidences[i], raw.evidences.value[i])
  }

  lemma EvidenceIsTaken(raw: RawEvidence, payload: SnapshotPayload)
    ensures ReadEvidence(raw, payload).None? <==> BadEvidence(raw, payload)
    ensures ReadEvidence(raw, payload).Some? ==> TakenEvidence(ReadEvidence(raw, payload).value, raw)
  {
    hide Strip, StrippedFrom, AllSpace;
    if raw.RawEvidence? && raw.excerpt.Some? {
      StripTrims(raw.excerpt.value);
      StripStandsIn(Strip(raw.excerpt.value), raw.excerpt.value);
    }
  }

  lemma {:induction false} EvidencesAreTaken(raws: seq<RawEvidence>, payload: SnapshotPayload)
    ensures ReadEvidences(raws, payload).None? <==> exists i :: 0 <= i < |raws| && BadEvidence(raws[i], payload)
    ensures ReadEvidences(raws, payload).Some? ==>
              && |ReadEvidences(raws, payload).value| == |raws|
              && forall i :: 0 <= i < |raws| ==> TakenEvidence(ReadEvidences(raws, payload).value[i], raws[i])
  {
    hide ReadEvidence, BadEvidence, TakenEvidence;
    if raws != [] {
      var n := |raws| - 1;
      EvidencesAreTaken(raws[..n], payload);
      EvidenceIsTaken(raws[n], payload);
      assert forall i :: 0 <= i < n ==> raws[..n][i] == raws[i];
    }
  }

  lemma KnownIff(text: string)
    ensures KnownDocumentType(Strip(text)) <==>
            exists t :: t in {"CONTRACT", "DESIGN", "CONSTRUCTION", "MEETING_MINUTES", "ACCEPTANCE", "OTHER"} && StrippedFrom(t, text)
    ensures KnownProjectStage(Strip(text)) <==>
            exists t :: t in {"PREPARATION", "DESIGN", "CONSTRUCTION", "ACCEPTANCE", "CROSS_STAGE", "OTHER_STAGE"} && StrippedFrom(t, text)
  {
    hide Strip, StrippedFrom;
    forall t ensures StrippedFrom(t, text) <==> t == Strip(text) {
      StripStandsIn(t, text);
    }
    assert StrippedFrom(Strip(text), text);
  }

  lemma ColumnsAreTaken(name: FieldName, raw: RawField)
    requires raw.RawField?
    ensures ReadColumns(name, raw).None? <==> Misuses(name, raw)
    ensures
      ReadColumns(name, raw).Some? ==>
        var c := ReadColumns(name, raw).value;
        && (NonEmpty(name, c) <==> GivesValue(name, raw))
        && (GivesValue(name, raw) ==> ColumnsSay(c, name, raw))
  {
    hide Strip, StrippedFrom, AllSpace, KnownDocumentType, KnownProjectStage;
    if raw.text.Some? {
      var text := raw.text.value;
      StripTrims(text);
      StripKeepsTrimmed(Strip(text));
      StripStandsIn(Strip(text), text);
      KnownIff(text);
    }
    if raw.words.Words? {
      forall i | 0 <= i < |raw.words.words| && raw.words.words[i].Some?
        ensures (Strip(raw.words.words[i].value) == "" <==> AllSpace(raw.words.words[i].value))
                && StrippedFrom(Strip(raw.words.words[i].value), raw.words.words[i].value)
      {
        StripTrims(raw.words.words[i].value);
        StripStandsIn(Strip(raw.words.words[i].value), raw.words.words[i].value);
      }
    }
  }

  lemma FieldIsTaken(name: FieldName, raw: RawField, payload: SnapshotPayload)
    ensures ReadField(name, raw, payload).Invalid? <==> Unusable(name, raw, payload)
    ensures !Unusable(name, raw, payload) ==> (ReadField(name, raw, payload).Suggests? <==> GivesValue(name, raw))
    ensures ReadField(name, raw, payload).Suggests? ==> TakenField(ReadField(name, raw, payload).suggestion, name, raw)
  {
    hide ReadColumns, ReadEvidences, Misuses, BadEvidence, TakenEvidence, StrippedFrom, NonEmpty, GivesValue, ColumnsSay;
    if raw.RawField? {
      ColumnsAreTaken(name, raw);
      if raw.evidences.Some? {
        EvidencesAreTaken(raw.evidences.value, payload);
      }
    }
  }

  /** A reply is refused exactly when it has no fields or one of them makes it unusable;
      otherwise what is suggested is what it says, for exactly the fields it gives a value. */
  lemma RepliesAreTaken(reply: Reply, payload: SnapshotPayload)
    ensures ParseReply(reply, payload).None? <==>
            reply.NoFields? || exists n :: n in reply.fields && Unusable(n, reply.fields[n], payload)
    ensures
      ParseReply(reply, payload).Some? ==>
        var suggestions := ParseReply(reply, payload).value;
        && (forall n :: n in suggestions <==> n in reply.fields && GivesValue(n, reply.fields[n]))
        && (forall n :: n in suggestions ==> TakenField(suggestions[n], n, reply.fields[n]))
  {
    if reply.Fields? {
      forall n | n in reply.fields
        ensures
          var reading := ReadField(n, reply.fields[n], payload);
          && (reading.Invalid? <==> Unusable(n, reply.fields[n], payload))
          && (!reading.Invalid? ==> (reading.Suggests? <==> GivesValue(n, reply.fields[n])))
          && (reading.Suggests? ==> TakenField(reading.suggestion, n, reply.fields[n]))
      {
        FieldIsTaken(n, reply.fields[n], payload);
      }
    }
    hide ReadField, Unusable, GivesValue, TakenField;
  }
}
