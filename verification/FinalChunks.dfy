/** Final Chunks: how a stored parse snapshot becomes the chunks written to the
    vector store, and why their ids never collide (app/services/archive/final_chunks.py). */
module FinalChunks {
  import opened Wrappers
  import opened Text

  // ---- identities -------------------------------------------------------

  predicate IsUuidText(s: string) {
    |s| == 36 && forall i :: 0 <= i < |s| ==> '0' <= s[i] <= '9' || 'a' <= s[i] <= 'f' || s[i] == '-'
  }

  /** `str(uuid)`: 36 hexadecimal digits and dashes. */
  type Uuid = s: string | IsUuidText(s) witness "00000000-0000-0000-0000-000000000000"

  /** A SHA-256 digest, kept together with what it was computed from: SHA-256 is
      taken to be injective, and a constructor is. */
  datatype ChunkId = Sha256(identity: string)

  datatype LocationType = PdfPage | DocxParagraph | TextLineRange

  function LocationName(t: LocationType): (name: string)
    ensures '|' !in name
  {
    match t
    case PdfPage => "PDF_PAGE"
    case DocxParagraph => "DOCX_PARAGRAPH"
    case TextLineRange => "TEXT_LINE_RANGE"
  }

  // ---- the stored snapshot ----------------------------------------------

  /** One fragment read back from the snapshot file. `None` stands for a value
      that is missing or that the conversion in the loop rejects. */
  datatype PayloadFragment = PayloadFragment(
    locationType: Option<LocationType>,
    locationStart: Option<int>,
    locationEnd: Option<int>,
    content: Option<string>,
    anchorText: Option<string>)

  datatype SnapshotPayload = SnapshotPayload(
    documentId: string,
    snapshotHash: string,
    parserVersion: string,
    fragments: seq<PayloadFragment>)

  /** The database row that describes the snapshot file. */
  datatype ParsedSnapshot = ParsedSnapshot(
    id: nat,
    documentId: Uuid,
    snapshotHash: string,
    parserVersion: string,
    fragmentCount: nat)

  datatype FinalChunk = FinalChunk(
    chunkId: ChunkId,
    content: string,
    locationType: LocationType,
    locationStart: nat,
    locationEnd: nat,
    normalizedAnchor: Option<string>,
    snapshotHash: string,
    parserVersion: string)

  datatype ChunkError = FinalSnapshotInvalid

  // ---- building ---------------------------------------------------------

  /** What the identity text is built from. */
  datatype Key = Key(documentId: Uuid, locationType: LocationType, start: nat, end: nat, content: string)

  function IdentityText(k: Key): string {
    k.documentId + "|" + (LocationName(k.locationType) + "|" + (Decimal(k.start) + "|" + (Decimal(k.end) + "|" + k.content)))
  }

  /** The header of the file agrees with the row and with the document. */
  predicate HeaderMatches(documentId: Uuid, snapshot: ParsedSnapshot, payload: SnapshotPayload) {
    && snapshot.documentId == documentId
    && payload.snapshotHash == snapshot.snapshotHash
    && payload.parserVersion == snapshot.parserVersion
    && payload.documentId == documentId
    && |payload.fragments| == snapshot.fragmentCount
    && payload.fragments != []
  }

  predicate UsableFragment(f: PayloadFragment) {
    && f.locationType.Some? && f.locationStart.Some? && f.locationEnd.Some? && f.content.Some?
    && Strip(f.content.value) != ""
    && 1 <= f.locationStart.value <= f.locationEnd.value
    && (f.locationType.value != TextLineRange ==> f.locationEnd.value == f.locationStart.value)
  }

  function FragmentKey(documentId: Uuid, f: PayloadFragment): Key
    requires UsableFragment(f)
  {
    Key(documentId, f.locationType.value, f.locationStart.value, f.locationEnd.value, Strip(f.content.value))
  }

  function ChunkOf(documentId: Uuid, snapshot: ParsedSnapshot, f: PayloadFragment): FinalChunk
    requires UsableFragment(f)
  {
    var k := FragmentKey(documentId, f);
    FinalChunk(
      Sha256(IdentityText(k)), k.content, k.locationType, k.start, k.end,
      if f.anchorText.Some? && f.anchorText.value != "" then Some(Strip(f.anchorText.value)) else None,
      snapshot.snapshotHash, snapshot.parserVersion)
  }

  predicate Acceptable(documentId: Uuid, snapshot: ParsedSnapshot, payload: Option<SnapshotPayload>) {
    && payload.Some?
    && HeaderMatches(documentId, snapshot, payload.value)
    && forall i :: 0 <= i < |payload.value.fragments| ==> UsableFragment(payload.value.fragments[i])
  }

  /** The chunks of an acceptable snapshot, one for each fragment in its order. */
  function Chunks(documentId: Uuid, snapshot: ParsedSnapshot, payload: SnapshotPayload): (chunks: seq<FinalChunk>)
    requires Acceptable(documentId, snapshot, Some(payload))
    ensures |chunks| == snapshot.fragmentCount > 0
  {
    seq(|payload.fragments|, i requires 0 <= i < |payload.fragments| => ChunkOf(documentId, snapshot, payload.fragments[i]))
  }

  /** What the chunk takes from the fragment: the text and the anchor without the white
      space around them, the place as it is, hash and version of the snapshot, and as id
      the digest of document, kind, place and text. */
  ghost predicate MadeFrom(c: FinalChunk, documentId: Uuid, snapshot: ParsedSnapshot, f: PayloadFragment) {
    && f.content.Some? && StrippedFrom(c.content, f.content.value)
    && f.locationType == Some(c.locationType) && f.locationStart == Some(c.locationStart) && f.locationEnd == Some(c.locationEnd)
    && (c.normalizedAnchor.Some? <==> f.anchorText.Some? && f.anchorText.value != "")
    && (c.normalizedAnchor.Some? ==> StrippedFrom(c.normalizedAnchor.value, f.anchorText.value))
    && c.snapshotHash == snapshot.snapshotHash && c.parserVersion == snapshot.parserVersion
    && c.chunkId.identity ==
       documentId + "|"
       + ((match c.locationType case PdfPage => "PDF_PAGE" case DocxParagraph => "DOCX_PARAGRAPH" case TextLineRange => "TEXT_LINE_RANGE")
          + "|" + (Decimal(c.locationStart) + "|" + (Decimal(c.locationEnd) + "|" + c.content)))
  }

  /** The fragment says something at a place that makes sense. */
  predicate MakesAChunk(f: PayloadFragment) {
    && f.content.Some? && !AllSpace(f.content.value) && f.locationType.Some?
    && f.locationStart.Some? && f.locationStart.value >= 1
    && f.locationEnd.Some? && f.locationEnd.value >= f.locationStart.value
    && (f.locationType == Some(TextLineRange) || f.locationEnd == f.locationStart)
  }

  /** The file is the document's, of this snapshot, and not empty, and each of its
      fragments makes a chunk. */
  predicate MakesChunks(documentId: Uuid, snapshot: ParsedSnapshot, payload: Option<SnapshotPayload>) {
    && payload.Some? && snapshot.documentId == documentId && payload.value.documentId == documentId
    && payload.value.snapshotHash == snapshot.snapshotHash && payload.value.parserVersion == snapshot.parserVersion
    && |payload.value.fragments| == snapshot.fragmentCount && |payload.value.fragments| > 0
    && forall i :: 0 <= i < |payload.value.fragments| ==> MakesAChunk(payload.value.fragments[i])
  }

  lemma ChunksSay(documentId: Uuid, snapshot: ParsedSnapshot, payload: Option<SnapshotPayload>)
    ensures Acceptable(documentId, snapshot, payload) <==> MakesChunks(documentId, snapshot, payload)
    ensures
      MakesChunks(documentId, snapshot, payload) ==>
        var chunks := Chunks(documentId, snapshot, payload.value);
        && |chunks| == |payload.value.fragments|
        && forall i :: 0 <= i < |chunks| ==> MadeFrom(chunks[i], documentId, snapshot, payload.value.fragments[i])
  {
    if payload.Some? {
      forall i | 0 <= i < |payload.value.fragments|
        ensures
          var f := payload.value.fragments[i];
          && (UsableFragment(f) <==> MakesAChunk(f))
          && (UsableFragment(f) ==> MadeFrom(ChunkOf(documentId, snapshot, f), documentId, snapshot, f))
      {
        ChunkSays(documentId, snapshot, payload.value.fragments[i]);
      }
      hide UsableFragment, MakesAChunk, ChunkOf, MadeFrom;
    }
  }

  lemma ChunkSays(documentId: Uuid, snapshot: ParsedSnapshot, f: PayloadFragment)
    ensures UsableFragment(f) <==> MakesAChunk(f)
    ensures UsableFragment(f) ==> MadeFrom(ChunkOf(documentId, snapshot, f), documentId, snapshot, f)
  {
    hide StrippedFrom, Strip, AllSpace;
    if f.content.Some? {
      StripTrims(f.content.value);
      StripStandsIn(Strip(f.content.value), f.content.value);
    }
    if f.anchorText.Some? {
      StripStandsIn(Strip(f.anchorText.value), f.anchorText.value);
    }
  }

  /** The body of the service's loop: one fragment becomes one chunk, or the
      whole snapshot is invalid. */
  method ReadFragment(documentId: Uuid, snapshot: ParsedSnapshot, f: PayloadFragment)
    returns (r: Result<FinalChunk, ChunkError>)
    ensures r.Success? <==> UsableFragment(f)
    ensures r.Success? ==> r.value == ChunkOf(documentId, snapshot, f)
  {
    if f.locationType.None? || f.locationStart.None? || f.locationEnd.None? || f.content.None? {
      return Failure(FinalSnapshotInvalid);
    }
    var content := Strip(f.content.value);
    if content == "" || f.locationStart.value < 1 || f.locationEnd.value < f.locationStart.value {
      return Failure(FinalSnapshotInvalid);
    }
    if f.locationType.value != TextLineRange && f.locationEnd.value != f.locationStart.value {
      return Failure(FinalSnapshotInvalid);
    }
    var identity := IdentityText(
      Key(documentId, f.locationType.value, f.locationStart.value, f.locationEnd.value, content));
    var anchor := if f.anchorText.Some? && f.anchorText.value != "" then Some(Strip(f.anchorText.value)) else None;
    r := Success(FinalChunk(
                   Sha256(identity), content, f.locationType.value, f.locationStart.value,
                   f.locationEnd.value, anchor, snapshot.snapshotHash, snapshot.parserVersion));
  }

  /** The service: it stops at the first unusable fragment. `payload` is `None`
      when the file cannot be read or is not a snapshot object. */
  method BuildFinalChunks(documentId: Uuid, snapshot: ParsedSnapshot, payload: Option<SnapshotPayload>)
    returns (r: Result<seq<FinalChunk>, ChunkError>)
    ensures r.Success? <==> Acceptable(documentId, snapshot, payload)
    ensures r.Success? ==> r.value == Chunks(documentId, snapshot, payload.value)
    ensures r.Success? <==> MakesChunks(documentId, snapshot, payload)
    ensures r.Success? ==>
              && |r.value| == |payload.value.fragments|
              && forall i :: 0 <= i < |r.value| ==> MadeFrom(r.value[i], documentId, snapshot, payload.value.fragments[i])
  {
    ChunksSay(documentId, snapshot, payload);
    hide UsableFragment, ChunkOf, MakesChunks, MadeFrom, MakesAChunk;
    if payload.None? || !HeaderMatches(documentId, snapshot, payload.value) {
      return Failure(FinalSnapshotInvalid);
    }
    var fragments := payload.value.fragments;
    var chunks: seq<FinalChunk> := [];
    for i := 0 to |fragments|
      invariant |chunks| == i
      invariant forall j :: 0 <= j < i ==> UsableFragment(fragments[j])
      invariant forall j :: 0 <= j < i ==> chunks[j] == ChunkOf(documentId, snapshot, fragments[j])
    {
      var chunk := ReadFragment(documentId, snapshot, fragments[i]);
      if chunk.Failure? {
        assert !UsableFragment(payload.value.fragments[i]);
        return Failure(FinalSnapshotInvalid);
      }
      chunks := chunks + [chunk.value];
    }
    assert chunks == Chunks(documentId, snapshot, payload.value);
    r := Success(chunks);
  }

  // ---- identities do not collide ----------------------------------------

  lemma NoBarInDecimal(n: nat)
    ensures '|' !in Decimal(n)
  {}

  lemma NoBarInUuid(u: Uuid)
    ensures '|' !in u
  {}

  /** The identity text determines everything it was built from, although the
      content itself may hold bars. */
  lemma IdentityTextInjective(a: Key, b: Key)
    requires IdentityText(a) == IdentityText(b)
    ensures a == b
  {
    NoBarInUuid(a.documentId); NoBarInUuid(b.documentId);
    NoBarInDecimal(a.start); NoBarInDecimal(b.start);
    NoBarInDecimal(a.end); NoBarInDecimal(b.end);
    var a3, b3 := Decimal(a.end) + "|" + a.content, Decimal(b.end) + "|" + b.content;
    var a2, b2 := Decimal(a.start) + "|" + a3, Decimal(b.start) + "|" + b3;
    var a1, b1 := LocationName(a.locationType) + "|" + a2, LocationName(b.locationType) + "|" + b2;
    FirstFieldUnique(a.documentId, a1, b.documentId, b1);
    FirstFieldUnique(LocationName(a.locationType), a2, LocationName(b.locationType), b2);
    FirstFieldUnique(Decimal(a.start), a3, Decimal(b.start), b3);
    FirstFieldUnique(Decimal(a.end), a.content, Decimal(b.end), b.content);
    DecimalInjective(a.start, b.start);
    DecimalInjective(a.end, b.end);
  }

  predicate DistinctIds(chunks: seq<FinalChunk>) {
    forall i, j :: 0 <= i < j < |chunks| ==> chunks[i].chunkId != chunks[j].chunkId
  }

  /** No two fragments of the snapshot share location and stripped content. */
  predicate DistinctFragments(payload: SnapshotPayload) {
    forall i, j :: 0 <= i < j < |payload.fragments| ==>
      var f, g := payload.fragments[i], payload.fragments[j];
      UsableFragment(f) && UsableFragment(g) ==>
        !(&& f.locationType == g.locationType && f.locationStart == g.locationStart
          && f.locationEnd == g.locationEnd && Strip(f.content.value) == Strip(g.content.value))
  }

  /** Two fragments get the same id exactly when they say the same thing at the
      same place of the same document. */
  lemma SameIdIffSamePlaceAndText(d: Uuid, s: ParsedSnapshot, f: PayloadFragment,
                                  d': Uuid, s': ParsedSnapshot, g: PayloadFragment)
    requires UsableFragment(f) && UsableFragment(g)
    ensures ChunkOf(d, s, f).chunkId == ChunkOf(d', s', g).chunkId <==> FragmentKey(d, f) == FragmentKey(d', g)
  {
    if ChunkOf(d, s, f).chunkId == ChunkOf(d', s', g).chunkId {
      IdentityTextInjective(FragmentKey(d, f), FragmentKey(d', g));
    }
  }

  lemma ChunkIdsDistinctIffFragmentsDistinct(d: Uuid, s: ParsedSnapshot, payload: SnapshotPayload)
    requires Acceptable(d, s, Some(payload))
    ensures DistinctIds(Chunks(d, s, payload)) <==> DistinctFragments(payload)
  {
    var chunks := Chunks(d, s, payload);
    forall i, j | 0 <= i < j < |chunks|
      ensures chunks[i].chunkId == chunks[j].chunkId <==>
              FragmentKey(d, payload.fragments[i]) == FragmentKey(d, payload.fragments[j])
    {
      SameIdIffSamePlaceAndText(d, s, payload.fragments[i], d, s, payload.fragments[j]);
    }
    if DistinctIds(chunks) {
      forall i, j | 0 <= i < j < |payload.fragments|
        ensures
          var f, g := payload.fragments[i], payload.fragments[j];
          !(&& f.locationType == g.locationType && f.locationStart == g.locationStart
            && f.locationEnd == g.locationEnd && Strip(f.content.value) == Strip(g.content.value))
      {
        assert chunks[i].chunkId != chunks[j].chunkId;
      }
    }
  }

  /** Chunks of different documents never share an id. */
  lemma DocumentsNeverShareIds(d: Uuid, s: ParsedSnapshot, p: SnapshotPayload,
                               d': Uuid, s': ParsedSnapshot, p': SnapshotPayload, i: nat, j: nat)
    requires d != d' && Acceptable(d, s, Some(p)) && Acceptable(d', s', Some(p'))
    requires i < |p.fragments| && j < |p'.fragments|
    ensures Chunks(d, s, p)[i].chunkId != Chunks(d', s', p')[j].chunkId
  {
    SameIdIffSamePlaceAndText(d, s, p.fragments[i], d', s', p'.fragments[j]);
  }
}
