/** From an original file to located fragments, and on to a stored snapshot that the
    index accepts (app/services/archive/parser.py, app/services/archive/documents.py). */
module Parser {
  import opened Wrappers
  import opened Text
  import opened Normalization
  import opened FinalChunks
  import opened Parsed
  import A = Archive
  import T = Transactions

  datatype ParseError =
    DocumentFileMissing | FileTypeUnsupported | ParseTextUnavailable | ScannedPdfUnsupported | ParseTextTooLarge

  /** A table cell; horizontally merged cells share one element. */
  datatype Cell = Cell(element: nat, text: string)

  datatype Block = Paragraph(text: string) | Table(rows: seq<seq<Cell>>) | OtherElement

  /** What the PDF, DOCX and text libraries make of the file, `None` when they raise. */
  datatype SourceFile =
    | Missing
    | Unsupported
    | Pdf(pages: Option<seq<Option<string>>>)
    | Docx(body: Option<seq<Block>>)
    | TextFile(text: Option<string>)

  const MIN_CHARACTERS := 20
  const MAX_CHARACTERS := 1_000_000

  // ---- pages and lines --------------------------------------------------

  /** The non-blank texts, each with its number in the list. */
  function Located(kind: LocationType, texts: seq<string>): seq<ParsedFragment> {
    if texts == [] then []
    else
      var n := |texts|;
      var content := Normalize(texts[n - 1]);
      Located(kind, texts[..n - 1]) + if content != "" then [ParsedFragment(kind, n, n, content, "")] else []
  }

  function PageTexts(pages: seq<Option<string>>): seq<string> {
    seq(|pages|, i requires 0 <= i < |pages| => if pages[i].Some? then pages[i].value else "")
  }

  /** `_parse_pdf_fragments`. */
  method PdfFragments(pages: seq<Option<string>>) returns (fragments: seq<ParsedFragment>)
    ensures fragments == Located(PdfPage, PageTexts(pages))
  {
    hide Normalize;
    fragments := [];
    for i := 0 to |pages|
      invariant fragments == Located(PdfPage, PageTexts(pages)[..i])
    {
      assert PageTexts(pages)[..i + 1][..i] == PageTexts(pages)[..i];
      var content := Normalize(if pages[i].Some? then pages[i].value else "");
      if content != "" {
        fragments := fragments + [ParsedFragment(PdfPage, i + 1, i + 1, content, "")];
      }
    }
    assert PageTexts(pages)[..|pages|] == PageTexts(pages);
  }

  /** `_parse_text_fragments`, from the decoded text on. */
  method TextFragments(raw: string) returns (fragments: seq<ParsedFragment>)
    ensures fragments == Located(TextLineRange, UniversalLines(raw))
  {
    hide Normalize, NormalizeNewlines, SplitLf, UniversalLines;
    var lines := SplitLf(NormalizeNewlines(raw));
    SplittingFindsTheLines(raw);
    fragments := [];
    for i := 0 to |lines|
      invariant fragments == Located(TextLineRange, lines[..i])
    {
      assert lines[..i + 1][..i] == lines[..i];
      var content := Normalize(lines[i]);
      if content != "" {
        fragments := fragments + [ParsedFragment(TextLineRange, i + 1, i + 1, content, "")];
      }
    }
    assert lines[..|lines|] == lines;
  }

  /** A fragment stands for the text with its number, and says just that text. */
  ghost predicate StandsFor(f: ParsedFragment, kind: LocationType, texts: seq<string>) {
    && f.locationType == kind && f.anchorText == ""
    && 1 <= f.locationStart == f.locationEnd <= |texts|
    && f.content == Normalize(texts[f.locationStart - 1]) && f.content != ""
  }

  predicate InOrder(fragments: seq<ParsedFragment>) {
    forall i, j :: 0 <= i < j < |fragments| ==> fragments[i].locationStart < fragments[j].locationStart
  }

  lemma {:induction false} LocatedStand(kind: LocationType, texts: seq<string>, f: ParsedFragment)
    requires f in Located(kind, texts)
    ensures StandsFor(f, kind, texts)
  {
    hide Normalize;
    var n := |texts| - 1;
    if f in Located(kind, texts[..n]) {
      LocatedStand(kind, texts[..n], f);
      assert texts[..n][f.locationStart - 1] == texts[f.locationStart - 1];
    }
  }

  lemma {:induction false} LocatedInOrder(kind: LocationType, texts: seq<string>)
    ensures InOrder(Located(kind, texts))
  {
    hide Normalize, StandsFor;
    if texts != [] {
      var n := |texts| - 1;
      LocatedInOrder(kind, texts[..n]);
      var before := Located(kind, texts[..n]);
      forall i | 0 <= i < |before| ensures before[i].locationStart <= n {
        assert before[i] in before;
        LocatedStand(kind, texts[..n], before[i]);
        NumberFits(before[i], kind, texts[..n]);
      }
    }
  }

  lemma NumberFits(f: ParsedFragment, kind: LocationType, texts: seq<string>)
    requires StandsFor(f, kind, texts)
    ensures f.locationStart <= |texts|
  {}

  lemma {:induction false} NothingDropped(kind: LocationType, texts: seq<string>, k: nat)
    requires k < |texts| && !AllSpace(texts[k])
    ensures exists f :: f in Located(kind, texts) && f.locationStart == k + 1
  {
    hide Normalize, AllSpace;
    var n := |texts| - 1;
    var all := Located(kind, texts);
    if k < n {
      assert texts[..n][k] == texts[k];
      NothingDropped(kind, texts[..n], k);
      var f :| f in Located(kind, texts[..n]) && f.locationStart == k + 1;
      assert f in all;
    } else {
      NormalizedText(texts[n]);
      assert all[|all| - 1] in all;
    }
  }

  /** Each fragment stands for its own text, in order, and no text that is not blank
      is missing. */
  lemma LocatedIsExact(kind: LocationType, texts: seq<string>)
    ensures forall f :: f in Located(kind, texts) ==> StandsFor(f, kind, texts)
    ensures InOrder(Located(kind, texts))
    ensures forall n :: 0 <= n < |texts| && !AllSpace(texts[n]) ==>
                          exists f :: f in Located(kind, texts) && f.locationStart == n + 1
  {
    hide Located, StandsFor, AllSpace;
    forall f | f in Located(kind, texts) ensures StandsFor(f, kind, texts) {
      LocatedStand(kind, texts, f);
    }
    LocatedInOrder(kind, texts);
    forall n | 0 <= n < |texts| && !AllSpace(texts[n])
      ensures exists f :: f in Located(kind, texts) && f.locationStart == n + 1
    {
      NothingDropped(kind, texts, n);
    }
  }

  /** The fragments of a text file: their line numbers are the true line numbers, for
      any mix of line ends; each says its own line and no other. */
  lemma TextFragmentsAreLineAccurate(raw: string, f: ParsedFragment)
    requires f in Located(TextLineRange, UniversalLines(raw))
    ensures 1 <= f.locationStart == f.locationEnd <= |UniversalLines(raw)|
    ensures f.content == Join(Words(UniversalLines(raw)[f.locationStart - 1])) && f.content != ""
  {
    hide Located, AllSpace, UniversalLines, Normalize, Words, Join;
    LocatedIsExact(TextLineRange, UniversalLines(raw));
    assert StandsFor(f, TextLineRange, UniversalLines(raw));
    NormalizeJoinsWords(UniversalLines(raw)[f.locationStart - 1]);
  }

  // ---- DOCX blocks ------------------------------------------------------

  predicate SeenBefore(cells: seq<Cell>, i: nat)
    requires i < |cells|
  {
    exists j :: 0 <= j < i && cells[j].element == cells[i].element
  }

  /** The texts of a row's cells, merged cells once. */
  function DistinctTexts(cells: seq<Cell>): seq<string> {
    if cells == [] then []
    else
      var n := |cells| - 1;
      DistinctTexts(cells[..n]) + if SeenBefore(cells, n) then [] else [cells[n].text]
  }

  /** `_distinct_table_cell_texts`. */
  method DistinctTableCellTexts(cells: seq<Cell>) returns (texts: seq<string>)
    ensures texts == DistinctTexts(cells)
  {
    texts := [];
    var seen: set<nat> := {};
    for i := 0 to |cells|
      invariant texts == DistinctTexts(cells[..i])
      invariant forall e :: e in seen <==> exists j :: 0 <= j < i && cells[j].element == e
    {
      assert cells[..i + 1][..i] == cells[..i];
      assert SeenBefore(cells[..i + 1], i) <==> cells[i].element in seen;
      if cells[i].element !in seen {
        seen := seen + {cells[i].element};
        texts := texts + [cells[i].text];
      }
    }
    assert cells[..|cells|] == cells;
  }

  function JoinCells(texts: seq<string>): string {
    if texts == [] then ""
    else if |texts| == 1 then texts[0]
    else texts[0] + " | " + JoinCells(texts[1..])
  }

  function RowTexts(rows: seq<seq<Cell>>): seq<string> {
    seq(|rows|, i requires 0 <= i < |rows| => JoinCells(DistinctTexts(rows[i])))
  }

  function BlockTexts(block: Block): seq<string> {
    match block
    case Paragraph(text) => [text]
    case Table(rows) => RowTexts(rows)
    case OtherElement => []
  }

  /** Paragraphs and table rows in document order. */
  function BodyTexts(body: seq<Block>): seq<string> {
    if body == [] then [] else BodyTexts(body[..|body| - 1]) + BlockTexts(body[|body| - 1])
  }

  function Anchor(content: string): string { if |content| <= 50 then content else content[..50] }

  /** The non-blank blocks, numbered among themselves. */
  function Numbered(texts: seq<string>): seq<ParsedFragment> {
    if texts == [] then []
    else
      var before := Numbered(texts[..|texts| - 1]);
      var content := Normalize(texts[|texts| - 1]);
      if content == "" then before
      else before + [ParsedFragment(DocxParagraph, |before| + 1, |before| + 1, content, Anchor(content))]
  }

  /** `_append_docx_text_block`. */
  method AppendDocxTextBlock(fragments: seq<ParsedFragment>, raw: string) returns (r: seq<ParsedFragment>)
    ensures forall texts :: Numbered(texts) == fragments ==> r == Numbered(texts + [raw])
  {
    hide Normalize;
    var content := Normalize(raw);
    r := fragments;
    if content != "" {
      var number := |fragments| + 1;
      r := fragments + [ParsedFragment(DocxParagraph, number, number, content, Anchor(content))];
    }
    forall texts | Numbered(texts) == fragments ensures r == Numbered(texts + [raw]) {
      assert (texts + [raw])[..|texts + [raw]| - 1] == texts;
    }
  }

  method AppendRows(fragments: seq<ParsedFragment>, rows: seq<seq<Cell>>, ghost texts: seq<string>) returns (r: seq<ParsedFragment>)
    requires fragments == Numbered(texts)
    ensures r == Numbered(texts + RowTexts(rows))
  {
    hide Numbered;
    r := fragments;
    assert texts + RowTexts(rows)[..0] == texts;
    for i := 0 to |rows|
      invariant r == Numbered(texts + RowTexts(rows)[..i])
    {
      var cells := DistinctTableCellTexts(rows[i]);
      r := AppendDocxTextBlock(r, JoinCells(cells));
      assert texts + RowTexts(rows)[..i + 1] == texts + RowTexts(rows)[..i] + [RowTexts(rows)[i]];
    }
    assert RowTexts(rows)[..|rows|] == RowTexts(rows);
  }

  /** `_parse_docx_fragments`. */
  method DocxFragments(body: seq<Block>) returns (fragments: seq<ParsedFragment>)
    ensures fragments == Numbered(BodyTexts(body))
  {
    hide Numbered, RowTexts;
    fragments := [];
    assert Numbered([]) == [] by { NothingNumbered(); }
    for i := 0 to |body|
      invariant fragments == Numbered(BodyTexts(body[..i]))
    {
      assert body[..i + 1][..i] == body[..i];
      match body[i] {
        case Paragraph(text) =>
          fragments := AppendDocxTextBlock(fragments, text);
        case Table(rows) =>
          fragments := AppendRows(fragments, rows, BodyTexts(body[..i]));
        case OtherElement =>
          assert BodyTexts(body[..i + 1]) == BodyTexts(body[..i]);
      }
    }
    assert body[..|body|] == body;
  }

  lemma NothingNumbered()
    ensures Numbered([]) == []
  {}

  /** The normalised texts that are not blank. */
  function NonBlank(texts: seq<string>): seq<string> {
    if texts == [] then []
    else
      var n := |texts| - 1;
      NonBlank(texts[..n]) + if AllSpace(texts[n]) then [] else [Join(Words(texts[n]))]
  }

  /** DOCX fragments are exactly the blocks that are not blank, numbered 1, 2, 3, ... */
  lemma {:induction false} NumberedIsExact(texts: seq<string>)
    ensures |Numbered(texts)| == |NonBlank(texts)|
    ensures forall i :: 0 <= i < |Numbered(texts)| ==>
                          Numbered(texts)[i] == ParsedFragment(DocxParagraph, i + 1, i + 1, NonBlank(texts)[i], Anchor(NonBlank(texts)[i]))
    ensures forall s :: s in NonBlank(texts) ==> s != "" && Trimmed(s)
  {
    hide Normalize, AllSpace, Words, Join;
    if texts != [] {
      var n := |texts| - 1;
      NumberedIsExact(texts[..n]);
      NormalizedText(texts[n]);
      NormalizeJoinsWords(texts[n]);
    }
  }

  // ---- the whole parser -------------------------------------------------

  function FragmentsOf(file: SourceFile): Option<seq<ParsedFragment>> {
    match file
    case Pdf(Some(pages)) => Some(Located(PdfPage, PageTexts(pages)))
    case Docx(Some(body)) => Some(Numbered(BodyTexts(body)))
    case TextFile(Some(text)) => Some(Located(TextLineRange, UniversalLines(text)))
    case _ => None
  }

  function Characters(fragments: seq<ParsedFragment>): nat {
    if fragments == [] then 0 else Characters(fragments[..|fragments| - 1]) + |fragments[|fragments| - 1].content|
  }

  method CountCharacters(fragments: seq<ParsedFragment>) returns (n: nat)
    ensures n == Characters(fragments)
  {
    n := 0;
    for i := 0 to |fragments|
      invariant n == Characters(fragments[..i])
    {
      assert fragments[..i + 1][..i] == fragments[..i];
      n := n + |fragments[i].content|;
    }
    assert fragments[..|fragments|] == fragments;
  }

  method ReadFragments(file: SourceFile) returns (r: Result<seq<ParsedFragment>, ParseError>)
    ensures r.Success? ==> FragmentsOf(file) == Some(r.value)
    ensures r.Failure? ==>
              FragmentsOf(file) == None
              && r.error == (if file.Missing? then DocumentFileMissing
                             else if file.Unsupported? then FileTypeUnsupported
                             else ParseTextUnavailable)
  {
    match file
    case Missing => r := Failure(DocumentFileMissing);
    case Unsupported => r := Failure(FileTypeUnsupported);
    case Pdf(Some(pages)) =>
      var fragments := PdfFragments(pages);
      r := Success(fragments);
    case Docx(Some(body)) =>
      var fragments := DocxFragments(body);
      r := Success(fragments);
    case TextFile(Some(text)) =>
      var fragments := TextFragments(text);
      r := Success(fragments);
    case _ => r := Failure(ParseTextUnavailable);
  }

  /** `parse_archive_document`; `digest` is the hash over the serialised fragments. */
  method ParseArchiveDocument(file: SourceFile, digest: seq<ParsedFragment> -> string)
    returns (r: Result<ParsedArchiveDocument, ParseError>)
    ensures
      r.Success? <==>
      FragmentsOf(file).Some? && MIN_CHARACTERS <= Characters(FragmentsOf(file).value) <= MAX_CHARACTERS
    ensures
      r.Success? ==>
        var fragments := FragmentsOf(file).value;
        r.value == ParsedArchiveDocument(fragments, Characters(fragments), digest(fragments), "archive-v1-parser-v1")
    ensures r == Failure(ScannedPdfUnsupported) <==> file.Pdf? && FragmentsOf(file) == Some([])
    ensures r == Failure(ParseTextTooLarge) <==>
            FragmentsOf(file).Some? && Characters(FragmentsOf(file).value) > MAX_CHARACTERS
    ensures r == Failure(DocumentFileMissing) <==> file.Missing?
    ensures r == Failure(FileTypeUnsupported) <==> file.Unsupported?
  {
    hide Located, Numbered, BodyTexts;
    var fragments :- ReadFragments(file);
    var effective := CountCharacters(fragments);
    if effective < MIN_CHARACTERS {
      if file.Pdf? && |fragments| == 0 {
        return Failure(ScannedPdfUnsupported);
      }
      return Failure(ParseTextUnavailable);
    }
    if effective > MAX_CHARACTERS {
      return Failure(ParseTextTooLarge);
    }
    r := Success(ParsedArchiveDocument(fragments, effective, digest(fragments), "archive-v1-parser-v1"));
  }

  // ---- what the fragments say -------------------------------------------

  /** A page or line that is not blank, its number, and its words one space apart. */
  predicate SaysPart(f: ParsedFragment, kind: LocationType, texts: seq<string>) {
    && f.locationType == kind && f.anchorText == "" && f.locationStart == f.locationEnd
    && 1 <= f.locationStart <= |texts| && !AllSpace(texts[f.locationStart - 1])
    && f.content == Join(Words(texts[f.locationStart - 1]))
  }

  /** Numbers rise, every fragment says its own part, and no part that is not blank is
      missing. */
  ghost predicate SaysParts(fragments: seq<ParsedFragment>, kind: LocationType, texts: seq<string>) {
    && (forall i, j :: 0 <= i < j < |fragments| ==> fragments[i].locationStart < fragments[j].locationStart)
    && (forall i :: 0 <= i < |fragments| ==> SaysPart(fragments[i], kind, texts))
    && (forall n :: 0 <= n < |texts| && !AllSpace(texts[n]) ==> exists f :: f in fragments && f.locationStart == n + 1)
  }

  /** The k-th fragment is about the k-th block that is not blank: its words one space
      apart, and as anchor the first fifty characters of them. */
  ghost predicate SaysBlocks(fragments: seq<ParsedFragment>, texts: seq<string>, places: seq<nat>) {
    && |places| == |fragments|
    && (forall j, k :: 0 <= j < k < |places| ==> places[j] < places[k])
    && (forall i: nat :: i in places <==> i < |texts| && !AllSpace(texts[i]))
    && forall k :: 0 <= k < |fragments| ==> places[k] < |texts| && SaysBlock(fragments[k], k + 1, texts[places[k]])
  }

  predicate SaysBlock(f: ParsedFragment, number: nat, text: string) {
    && f.locationType == DocxParagraph && f.locationStart == number && f.locationEnd == number
    && f.content == Join(Words(text))
    && |f.anchorText| == (if |f.content| < 50 then |f.content| else 50) && f.anchorText == f.content[..|f.anchorText|]
  }

  function BlockPlaces(texts: seq<string>): seq<nat> {
    if texts == [] then []
    else BlockPlaces(texts[..|texts| - 1]) + if AllSpace(texts[|texts| - 1]) then [] else [|texts| - 1]
  }

  /** The places of the blocks that are not blank, in order, with the texts they give. */
  ghost predicate GivenBy(places: seq<nat>, found: seq<string>, texts: seq<string>) {
    && |places| == |found|
    && (forall j, k :: 0 <= j < k < |places| ==> places[j] < places[k])
    && (forall i: nat :: i in places <==> i < |texts| && !AllSpace(texts[i]))
    && forall k :: 0 <= k < |places| ==> places[k] < |texts| && found[k] == Join(Words(texts[places[k]]))
  }

  lemma OneMoreGiven(places: seq<nat>, found: seq<string>, texts: seq<string>, text: string)
    requires GivenBy(places, found, texts)
    ensures AllSpace(text) ==> GivenBy(places, found, texts + [text])
    ensures !AllSpace(text) ==> GivenBy(places + [|texts|], found + [Join(Words(text))], texts + [text])
  {
    hide AllSpace, Words, Join;
    var all := texts + [text];
    assert forall k :: 0 <= k < |places| ==> places[k] in places && all[places[k]] == texts[places[k]];
    assert forall i: nat :: i in places + [|texts|] <==> i in places || i == |texts|;
  }

  lemma {:induction false} BlockPlacesAre(texts: seq<string>)
    ensures GivenBy(BlockPlaces(texts), NonBlank(texts), texts)
  {
    hide AllSpace, Words, Join;
    if texts != [] {
      var n := |texts| - 1;
      BlockPlacesAre(texts[..n]);
      assert texts[..n] + [texts[n]] == texts;
      hide GivenBy;
      OneMoreGiven(BlockPlaces(texts[..n]), NonBlank(texts[..n]), texts[..n], texts[n]);
    }
  }

  lemma NumberedSays(texts: seq<string>)
    ensures SaysBlocks(Numbered(texts), texts, BlockPlaces(texts))
  {
    BlockPlacesAre(texts);
    NumberedIsExact(texts);
    hide Numbered, NonBlank, BlockPlaces, AllSpace, Words, Join;
    var fragments := Numbered(texts);
    forall k | 0 <= k < |fragments| ensures SaysBlock(fragments[k], k + 1, texts[BlockPlaces(texts)[k]]) {}
  }

  lemma LocatedSays(kind: LocationType, texts: seq<string>)
    ensures SaysParts(Located(kind, texts), kind, texts)
  {
    hide Normalize, Located, AllSpace, Words, Join;
    LocatedIsExact(kind, texts);
    var fragments := Located(kind, texts);
    forall i | 0 <= i < |fragments| ensures SaysPart(fragments[i], kind, texts) {
      assert fragments[i] in fragments && StandsFor(fragments[i], kind, texts);
      NormalizedText(texts[fragments[i].locationStart - 1]);
      NormalizeJoinsWords(texts[fragments[i].locationStart - 1]);
    }
  }

  /** What each kind of file is parsed to. */
  lemma FragmentsSay(file: SourceFile)
    requires FragmentsOf(file).Some?
    ensures
      var fragments := FragmentsOf(file).value;
      match file
      case TextFile(Some(text)) => SaysParts(fragments, TextLineRange, UniversalLines(text))
      case Pdf(Some(pages)) =>
        SaysParts(fragments, PdfPage, seq(|pages|, i requires 0 <= i < |pages| => if pages[i].Some? then pages[i].value else ""))
      case Docx(Some(body)) => exists places :: SaysBlocks(fragments, BodyTexts(body), places)
      case _ => false
  {
    hide Located, Numbered, SaysParts, SaysBlocks, UniversalLines, BodyTexts;
    match file
    case TextFile(Some(text)) => LocatedSays(TextLineRange, UniversalLines(text));
    case Pdf(Some(pages)) => LocatedSays(PdfPage, PageTexts(pages));
    case Docx(Some(body)) => NumberedSays(BodyTexts(body));
  }

  /** The texts of a document body: each paragraph, and each row of a table, in order. */
  lemma BodyTextsAre(body: seq<Block>)
    ensures BodyTexts([]) == []
    ensures forall t :: BodyTexts(body + [Paragraph(t)]) == BodyTexts(body) + [t]
    ensures BodyTexts(body + [OtherElement]) == BodyTexts(body)
    ensures forall rows :: |BodyTexts(body + [Table(rows)])| == |BodyTexts(body)| + |rows|
    ensures forall rows :: BodyTexts(body + [Table(rows)])[..|BodyTexts(body)|] == BodyTexts(body)
    ensures forall rows, k :: 0 <= k < |rows| ==> RowSays(BodyTexts(body + [Table(rows)])[|BodyTexts(body)| + k], rows[k])
  {
    forall b: Block ensures BodyTexts(body + [b]) == BodyTexts(body) + BlockTexts(b) {
      assert (body + [b])[..|body|] == body;
    }
    forall rows, k | 0 <= k < |rows| ensures RowSays(RowTexts(rows)[k], rows[k]) {
      RowIsSaid(rows[k]);
    }
    hide RowTexts, RowSays;
    forall rows: seq<seq<Cell>> ensures |RowTexts(rows)| == |rows| {
      RowsAreTexts(rows);
    }
  }

  lemma RowsAreTexts(rows: seq<seq<Cell>>)
    ensures |RowTexts(rows)| == |rows|
  {}

  /** The text of a row: the texts of its cells in order, a merged cell once, with a bar
      between neighbours. */
  ghost predicate RowSays(text: string, cells: seq<Cell>) {
    exists places: seq<nat> :: FirstPlaces(cells, places) && Barred(text, cells, places)
  }

  predicate FirstPlaces(cells: seq<Cell>, places: seq<nat>) {
    && (forall j, k :: 0 <= j < k < |places| ==> places[j] < places[k])
    && (forall k :: 0 <= k < |places| ==> places[k] < |cells|)
    && (forall i: nat | i < |cells| :: i in places <==> !exists j :: 0 <= j < i && cells[j].element == cells[i].element)
  }

  predicate Barred(text: string, cells: seq<Cell>, places: seq<nat>)
    requires forall k :: 0 <= k < |places| ==> places[k] < |cells|
  {
    if places == [] then text == ""
    else if |places| == 1 then text == cells[places[0]].text
    else
      var first := cells[places[0]].text + " | ";
      |first| <= |text| && text[..|first|] == first && Barred(text[|first|..], cells, places[1..])
  }

  function Firsts(cells: seq<Cell>): seq<nat> {
    if cells == [] then []
    else Firsts(cells[..|cells| - 1]) + if SeenBefore(cells, |cells| - 1) then [] else [|cells| - 1]
  }

  lemma {:induction false} FirstsAre(cells: seq<Cell>)
    ensures |Firsts(cells)| == |DistinctTexts(cells)|
    ensures forall j, k :: 0 <= j < k < |Firsts(cells)| ==> Firsts(cells)[j] < Firsts(cells)[k]
    ensures forall i: nat :: i in Firsts(cells) <==> i < |cells| && !SeenBefore(cells, i)
    ensures forall k :: 0 <= k < |Firsts(cells)| ==> Firsts(cells)[k] < |cells| && DistinctTexts(cells)[k] == cells[Firsts(cells)[k]].text
  {
    if cells != [] {
      var n := |cells| - 1;
      FirstsAre(cells[..n]);
      forall i: nat | i < n ensures SeenBefore(cells[..n], i) <==> SeenBefore(cells, i) {
        SeenInPrefix(cells, n, i);
      }
      hide SeenBefore;
    }
  }

  lemma SeenInPrefix(cells: seq<Cell>, n: nat, i: nat)
    requires i < n <= |cells|
    ensures SeenBefore(cells[..n], i) <==> SeenBefore(cells, i)
  {}

  lemma {:induction false} JoinIsBarred(texts: seq<string>, cells: seq<Cell>, places: seq<nat>)
    requires |places| == |texts|
    requires forall k :: 0 <= k < |places| ==> places[k] < |cells| && texts[k] == cells[places[k]].text
    ensures Barred(JoinCells(texts), cells, places)
  {
    if |texts| > 1 {
      JoinIsBarred(texts[1..], cells, places[1..]);
      var first := texts[0] + " | ";
      assert JoinCells(texts)[..|first|] == first && JoinCells(texts)[|first|..] == JoinCells(texts[1..]);
    }
  }

  lemma RowIsSaid(cells: seq<Cell>)
    ensures RowSays(JoinCells(DistinctTexts(cells)), cells)
  {
    FirstsAre(cells);
    JoinIsBarred(DistinctTexts(cells), cells, Firsts(cells));
  }

  /** The effective characters are those of all fragments together. */
  lemma CharactersAdd(fragments: seq<ParsedFragment>, f: ParsedFragment)
    ensures Characters([]) == 0 && Characters(fragments + [f]) == Characters(fragments) + |f.content|
  {
    assert (fragments + [f])[..|fragments|] == fragments;
  }

  // ---- from the parser to the index -------------------------------------

  /** What the parser can return. */
  ghost predicate IsParserOutput(parsed: ParsedArchiveDocument) {
    exists file :: FragmentsOf(file) == Some(parsed.fragments) && Characters(parsed.fragments) >= MIN_CHARACTERS
  }

  predicate UsableParse(f: ParsedFragment) {
    && f.content != "" && Trimmed(f.content)
    && 1 <= f.locationStart == f.locationEnd
  }

  lemma FragmentsAreUsable(file: SourceFile)
    requires FragmentsOf(file).Some?
    ensures forall f :: f in FragmentsOf(file).value ==> UsableParse(f)
    ensures InOrder(FragmentsOf(file).value)
  {
    hide Normalize, Located, Numbered, AllSpace, Trimmed;
    match file
    case Pdf(Some(pages)) => LocatedAreUsable(PdfPage, PageTexts(pages));
    case TextFile(Some(text)) => LocatedAreUsable(TextLineRange, UniversalLines(text));
    case Docx(Some(body)) =>
      NumberedIsExact(BodyTexts(body));
      var fragments := Numbered(BodyTexts(body));
      forall f | f in fragments ensures UsableParse(f) {
        var i :| 0 <= i < |fragments| && fragments[i] == f;
        assert NonBlank(BodyTexts(body))[i] in NonBlank(BodyTexts(body));
      }
  }

  lemma LocatedAreUsable(kind: LocationType, texts: seq<string>)
    ensures forall f :: f in Located(kind, texts) ==> UsableParse(f)
    ensures InOrder(Located(kind, texts))
  {
    hide Normalize, Located, AllSpace, Trimmed;
    LocatedIsExact(kind, texts);
    forall f | f in Located(kind, texts) ensures UsableParse(f) {
      assert StandsFor(f, kind, texts);
      NormalizedText(texts[f.locationStart - 1]);
    }
  }

  /** The round trip: whatever the parser returns, the snapshot stored for it is
      accepted, gives one chunk for each fragment in order with the same text and
      place, and no two chunks share an id. */
  lemma ParsedSnapshotsMakeChunks(id: nat, documentId: Uuid, parsed: ParsedArchiveDocument)
    requires IsParserOutput(parsed)
    ensures
      var stored := StoredSnapshot(id, documentId, parsed);
      && Acceptable(documentId, stored.row, Some(stored.payload))
      && var chunks := Chunks(documentId, stored.row, stored.payload);
         && |chunks| == |parsed.fragments| && DistinctIds(chunks)
         && (forall i :: 0 <= i < |chunks| ==>
               && chunks[i].content == parsed.fragments[i].content
               && chunks[i].locationType == parsed.fragments[i].locationType
               && chunks[i].locationStart == parsed.fragments[i].locationStart
               && chunks[i].locationEnd == parsed.fragments[i].locationEnd
               && chunks[i].snapshotHash == parsed.snapshotHash)
  {
    hide Trimmed, Strip;
    var file :| FragmentsOf(file) == Some(parsed.fragments) && Characters(parsed.fragments) >= MIN_CHARACTERS;
    FragmentsAreUsable(file);
    hide FragmentsOf;
    var stored := StoredSnapshot(id, documentId, parsed);
    forall i | 0 <= i < |stored.payload.fragments|
      ensures UsableFragment(stored.payload.fragments[i])
      ensures Strip(parsed.fragments[i].content) == parsed.fragments[i].content
    {
      assert parsed.fragments[i] in parsed.fragments;
      StripKeepsTrimmed(parsed.fragments[i].content);
    }
    assert parsed.fragments != [];
    ChunkIdsDistinctIffFragmentsDistinct(documentId, stored.row, stored.payload);
    forall i, j | 0 <= i < j < |parsed.fragments|
      ensures stored.payload.fragments[i].locationStart != stored.payload.fragments[j].locationStart
    {
      assert parsed.fragments[i].locationStart < parsed.fragments[j].locationStart;
    }
  }

  /** So INDEX finds chunks to write for every parsed document whose snapshot file is
      still there. */
  lemma ParsedDocumentsCanBeIndexed(site: A.Site, s: A.Store, id: nat, parsed: ParsedArchiveDocument)
    requires IsParserOutput(parsed) && A.SnapshotFile in s.files
    ensures T.ChunksToIndex(site, s, StoredSnapshot(id, site.documentId, parsed)).Some?
    ensures |T.ChunksToIndex(site, s, StoredSnapshot(id, site.documentId, parsed)).value| == |parsed.fragments| > 0
  {
    ParsedSnapshotsMakeChunks(id, site.documentId, parsed);
  }

  /** A text of one clean line, long enough, is parsed to itself. */
  lemma CleanLineIsParsed(text: string, parsed: ParsedArchiveDocument)
    requires |text| >= MIN_CHARACTERS && Trimmed(text) && NoSpaceRuns(text) && OnlyBlanks(text)
    requires forall i :: 0 <= i < |text| ==> text[i] != '\r' && text[i] != '\n'
    requires parsed.fragments == [ParsedFragment(TextLineRange, 1, 1, text, "")]
    ensures IsParserOutput(parsed)
  {
    NormalizedIff(text);
    OneLine(text);
    hide Normalize, UniversalLines;
    assert Located(TextLineRange, [text]) == parsed.fragments;
    assert FragmentsOf(TextFile(Some(text))) == Some(parsed.fragments);
  }
}
