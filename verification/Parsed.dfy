/** What the parser hands over and how it is stored
    (app/services/archive/parser.py, app/services/archive/documents.py). */
module Parsed {
  import opened Wrappers
  import opened FinalChunks

  datatype ParsedFragment = ParsedFragment(
    locationType: LocationType, locationStart: nat, locationEnd: nat, content: string, anchorText: string)

  datatype ParsedArchiveDocument = ParsedArchiveDocument(
    fragments: seq<ParsedFragment>, effectiveTextCharacters: nat, snapshotHash: string, parserVersion: string)

  /** A snapshot row together with the content of its file. */
  datatype Snapshot = Snapshot(row: ParsedSnapshot, payload: SnapshotPayload)

  function PayloadOf(f: ParsedFragment): PayloadFragment {
    PayloadFragment(Some(f.locationType), Some(f.locationStart), Some(f.locationEnd), Some(f.content), Some(f.anchorText))
  }

  /** The row and the file written for one parse result. */
  function StoredSnapshot(id: nat, documentId: Uuid, parsed: ParsedArchiveDocument): Snapshot {
    Snapshot(
      ParsedSnapshot(id, documentId, parsed.snapshotHash, parsed.parserVersion, |parsed.fragments|),
      SnapshotPayload(
        documentId, parsed.snapshotHash, parsed.parserVersion,
        seq(|parsed.fragments|, i requires 0 <= i < |parsed.fragments| => PayloadOf(parsed.fragments[i]))))
  }
}
