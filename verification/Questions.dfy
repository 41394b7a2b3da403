/** Questions over formal evidence: the strict reading of the model's decision, the
    recorded answer, and the contract an evaluator checks afterwards
    (app/services/archive/questions.py, evals/archive/evaluators.py). */
module Questions {
  import opened Wrappers
  import opened Text
  import opened FinalChunks
  import R = Retrieval

  // ---- JSON -------------------------------------------------------------

  /** A JSON value; an object lists its members as written, repetitions included. */
  datatype Json =
    | Null
    | Bool(b: bool)
    | Int(n: int)
    | Float(x: real)
    | Str(s: string)
    | Arr(items: seq<Json>)
    | Obj(members: seq<(string, Json)>)

  predicate KeysDistinct(members: seq<(string, Json)>) {
    forall i, j :: 0 <= i < j < |members| ==> members[i].0 != members[j].0
  }

  /** No object, however deep, names a member twice. */
  predicate UniqueKeys(j: Json) {
    match j
    case Arr(items) => forall i :: 0 <= i < |items| ==> UniqueKeys(items[i])
    case Obj(members) => KeysDistinct(members) && forall i :: 0 <= i < |members| ==> UniqueKeys(members[i].1)
    case _ => true
  }

  function Keys(members: seq<(string, Json)>): set<string> { set m | m in members :: m.0 }

  function Get(j: Json, key: string): Option<Json> {
    if j.Obj? then Find(j.members, key) else None
  }

  function Find(members: seq<(string, Json)>, key: string): (r: Option<Json>)
    ensures r.Some? <==> exists i :: 0 <= i < |members| && members[i].0 == key
    ensures r.Some? ==> exists i :: 0 <= i < |members| && members[i] == (key, r.value)
  {
    if members == [] then None
    else if members[0].0 == key then Some(members[0].1)
    else
      var rest := Find(members[1..], key);
      assert forall i :: 1 <= i < |members| ==> members[i] == members[1..][i - 1];
      rest
  }

  /** `_reject_duplicate_json_keys`, and the same for everything inside. */
  method AcceptMembers(members: seq<(string, Json)>) returns (ok: bool)
    ensures ok <==> KeysDistinct(members)
  {
    var payload: map<string, Json> := map[];
    for i := 0 to |members|
      invariant forall k :: k in payload <==> exists j :: 0 <= j < i && members[j].0 == k
      invariant forall j, k :: 0 <= j < k < i ==> members[j].0 != members[k].0
    {
      var (key, value) := members[i];
      if key in payload {
        return false;
      }
      payload := payload[key := value];
    }
    ok := true;
  }

  method AcceptJson(j: Json) returns (ok: bool)
    ensures ok <==> UniqueKeys(j)
    decreases j
  {
    match j
    case Arr(items) =>
      for i := 0 to |items|
        invariant forall k :: 0 <= k < i ==> UniqueKeys(items[k])
      {
        var inner := AcceptJson(items[i]);
        if !inner {
          return false;
        }
      }
      ok := true;
    case Obj(members) =>
      for i := 0 to |members|
        invariant forall k :: 0 <= k < i ==> UniqueKeys(members[k].1)
      {
        var inner := AcceptJson(members[i].1);
        if !inner {
          return false;
        }
      }
      ok := AcceptMembers(members);
    case _ => ok := true;
  }

  // ---- the model's decision ---------------------------------------------

  /** What the model sent: nothing textual, text that is not JSON, or a JSON value. */
  datatype Content = NotText | NotJson | Parsed(value: Json)

  const REFUSAL_ANSWER := "正式档案中没有足够依据。"
  const DECISION_FIELDS := {"decision", "answer", "citation_numbers"}

  datatype Decision = Answered(answer: string, citations: seq<nat>) | Refused

  predicate Distinct(numbers: seq<nat>) {
    forall i, j :: 0 <= i < j < |numbers| ==> numbers[i] != numbers[j]
  }

  /** The numbers cite distinct candidates. */
  predicate CitesCandidates(numbers: seq<nat>, candidates: nat) {
    numbers != [] && Distinct(numbers) && forall i :: 0 <= i < |numbers| ==> 1 <= numbers[i] <= candidates
  }

  function JsonNumbers(numbers: seq<nat>): seq<Json> {
    seq(|numbers|, i requires 0 <= i < |numbers| => Int(numbers[i]))
  }

  /** The content is exactly a decision object that says `d`. */
  ghost predicate Says(content: Content, d: Decision, candidates: nat) {
    && content.Parsed? && content.value.Obj? && UniqueKeys(content.value)
    && Keys(content.value.members) == DECISION_FIELDS
    && match d
       case Refused =>
         && Get(content.value, "decision") == Some(Str("REFUSED_NO_EVIDENCE"))
         && Get(content.value, "answer").Some? && Get(content.value, "answer").value.Str?
         && Get(content.value, "citation_numbers") == Some(Arr([]))
       case Answered(answer, citations) =>
         && Get(content.value, "decision") == Some(Str("ANSWERED"))
         && Get(content.value, "answer").Some? && Get(content.value, "answer").value.Str?
         && answer == Strip(Get(content.value, "answer").value.s) && answer != ""
         && Get(content.value, "citation_numbers") == Some(Arr(JsonNumbers(citations)))
         && CitesCandidates(citations, candidates)
  }

  lemma NumbersDecode(a: seq<nat>, b: seq<nat>)
    requires JsonNumbers(a) == JsonNumbers(b)
    ensures a == b
  {
    assert |a| == |JsonNumbers(a)| == |b|;
    forall i | 0 <= i < |a| ensures a[i] == b[i] {
      assert JsonNumbers(a)[i] == JsonNumbers(b)[i];
    }
  }

  /** One content says one thing at most. */
  lemma OneMeaning(content: Content, d: Decision, e: Decision, candidates: nat)
    requires Says(content, d, candidates) && Says(content, e, candidates)
    ensures d == e
  {
    if d.Answered? && e.Answered? {
      NumbersDecode(d.citations, e.citations);
    }
  }

  /** What the service asks of the content: an object, no name twice anywhere, with the
      three members and no others, which answers with text and numbers of distinct
      candidates, or refuses with none. */
  predicate Usable(content: Content, candidates: nat) {
    && content.Parsed? && content.value.Obj? && UniqueKeys(content.value)
    && Keys(content.value.members) == {"decision", "answer", "citation_numbers"}
    && var decision, answer := Get(content.value, "decision"), Get(content.value, "answer");
       var numbers := Get(content.value, "citation_numbers");
       && answer.Some? && answer.value.Str? && numbers.Some? && numbers.value.Arr?
       && (|| (decision == Some(Str("REFUSED_NO_EVIDENCE")) && numbers.value.items == [])
           || (&& decision == Some(Str("ANSWERED")) && !AllSpace(answer.value.s) && numbers.value.items != []
               && AllOnes(numbers.value.items, candidates)))
  }

  /** Different numbers from 1 to `candidates`. */
  predicate AllOnes(items: seq<Json>, candidates: nat) {
    && (forall i :: 0 <= i < |items| ==> items[i].Int? && 1 <= items[i].n <= candidates)
    && (forall i, j :: 0 <= i < j < |items| ==> items[i] != items[j])
  }

  /** A content says something exactly when it is usable. */
  lemma UsableIffItSaysSomething(content: Content, candidates: nat)
    ensures Usable(content, candidates) <==> exists d :: Says(content, d, candidates)
  {
    hide UniqueKeys, Find, Strip, AllSpace;
    if content.Parsed? && Get(content.value, "answer").Some? && Get(content.value, "answer").value.Str? {
      StripTrims(Get(content.value, "answer").value.s);
    }
    if Usable(content, candidates) {
      if Get(content.value, "decision") == Some(Str("ANSWERED")) {
        var items := Get(content.value, "citation_numbers").value.items;
        var numbers: seq<nat> := seq(|items|, i requires 0 <= i < |items| && items[i].Int? && items[i].n >= 1 => items[i].n);
        assert JsonNumbers(numbers) == items;
        assert Says(content, Answered(Strip(Get(content.value, "answer").value.s), numbers), candidates);
      } else {
        assert Says(content, Refused, candidates);
      }
    } else if d :| Says(content, d, candidates) {
      if d.Answered? {
        SaidNumbers(d.citations, candidates);
      }
    }
  }

  lemma SaidNumbers(numbers: seq<nat>, candidates: nat)
    requires CitesCandidates(numbers, candidates)
    ensures JsonNumbers(numbers) != [] && AllOnes(JsonNumbers(numbers), candidates)
  {
    assert |JsonNumbers(numbers)| == |numbers|;
  }

  /** The citation checks, in the service's order. */
  method ReadCitations(items: seq<Json>, candidates: nat) returns (numbers: Option<seq<nat>>)
    ensures numbers.Some? ==> items == JsonNumbers(numbers.value) && CitesCandidates(numbers.value, candidates)
    ensures numbers.None? ==> forall ns :: CitesCandidates(ns, candidates) ==> JsonNumbers(ns) != items
  {
    if items == [] {
      return None;
    }
    var read: seq<nat> := [];
    for i := 0 to |items|
      invariant |read| == i
      invariant forall j :: 0 <= j < i ==> items[j] == Int(read[j])
      invariant CitesCandidates(read, candidates) || read == []
    {
      if !items[i].Int? || items[i].n < 1 || items[i].n > candidates || items[i].n in read {
        forall ns | CitesCandidates(ns, candidates) ensures JsonNumbers(ns) != items {
          if JsonNumbers(ns) == items {
            CitationAt(items, ns, read, i);
          }
        }
        return None;
      }
      read := read + [items[i].n];
    }
    assert items == JsonNumbers(read);
    numbers := Some(read);
  }

  /** Numbers that encode to the items agree with what has been read of them. */
  lemma CitationAt(items: seq<Json>, ns: seq<nat>, read: seq<nat>, i: nat)
    requires JsonNumbers(ns) == items && Distinct(ns) && i < |items| && |read| == i
    requires forall j :: 0 <= j < i ==> items[j] == Int(read[j])
    ensures i < |ns| && items[i] == Int(ns[i]) && ns[i] !in read
  {
    assert |ns| == |items|;
    forall j | 0 <= j <= i ensures items[j] == Int(ns[j]) {
      assert JsonNumbers(ns)[j] == Int(ns[j]);
    }
    assert forall j :: 0 <= j < i ==> read[j] == ns[j];
  }

  /** `_parse_model_decision`: a decision comes out exactly when the content says it. */
  method ParseModelDecision(content: Content, candidates: nat) returns (d: Option<Decision>)
    ensures d.Some? ==> Says(content, d.value, candidates)
    ensures d.None? ==> forall e :: !Says(content, e, candidates)
  {
    hide UniqueKeys, Find, CitesCandidates, Strip;
    if !content.Parsed? {
      return None;
    }
    var unique := AcceptJson(content.value);
    if !unique || !content.value.Obj? || Keys(content.value.members) != DECISION_FIELDS {
      return None;
    }
    var decision := Get(content.value, "decision");
    var answer := Get(content.value, "answer");
    var citations := Get(content.value, "citation_numbers");
    if decision.None? || !decision.value.Str? || decision.value.s !in {"ANSWERED", "REFUSED_NO_EVIDENCE"} {
      return None;
    }
    if answer.None? || !answer.value.Str? {
      return None;
    }
    if citations.None? || !citations.value.Arr? {
      return None;
    }
    if decision.value.s == "REFUSED_NO_EVIDENCE" {
      if citations.value.items != [] {
        return None;
      }
      return Some(Refused);
    }
    if Strip(answer.value.s) == "" {
      return None;
    }
    var numbers := ReadCitations(citations.value.items, candidates);
    if numbers.None? {
      return None;
    }
    d := Some(Answered(Strip(answer.value.s), numbers.value));
  }

  // ---- the answer and its records ---------------------------------------

  datatype Response = Response(answered: bool, answer: string, citations: seq<R.Scored>)

  datatype ModelReply = Unavailable | Replied(content: Content)

  datatype AnswerError = ArchiveAnswerUnavailable

  type Outputs = seq<(string, Json)>

  function LocationText(t: LocationType): string { LocationName(t) }

  function Pow2(k: int): real
    decreases if k < 0 then -k else k
  {
    if k == 0 then 1.0 else if k > 0 then 2.0 * Pow2(k - 1) else Pow2(k + 1) / 2.0
  }

  /** The finite double at a place (section 3.4 of IEEE 754-2008), zero in the middle. */
  function DoubleAt(place: int): real
    decreases if place < 0 then 1 else 0
  {
    if place < 0 then -DoubleAt(-place)
    else
      var exponent, fraction := place / 0x10_0000_0000_0000, place % 0x10_0000_0000_0000;
      if exponent == 0 then fraction as real * Pow2(-1074)
      else (0x10_0000_0000_0000 + fraction) as real * Pow2(exponent - 1075)
  }

  lemma {:induction false} Pow2IsPositive(k: int)
    ensures Pow2(k) > 0.0
    decreases if k < 0 then -k else k
  {
    if k > 0 {
      Pow2IsPositive(k - 1);
    } else if k < 0 {
      Pow2IsPositive(k + 1);
    }
  }

  lemma NextPlace(place: nat)
    ensures
      var width := 0x10_0000_0000_0000;
      var e, f := place / width, place % width;
      && 0 <= f < width && e >= 0
      && (if f + 1 < width then (place + 1) / width == e && (place + 1) % width == f + 1
          else (place + 1) / width == e + 1 && (place + 1) % width == 0)
  {}

  lemma GreaterTimes(a: real, b: real, unit: real)
    requires a < b && unit > 0.0
    ensures a * unit < b * unit
  {}

  lemma Doubled(width: nat, unit: real)
    ensures (2 * width) as real * unit == width as real * (2.0 * unit)
  {}

  /** Places are in the order of the numbers. */
  lemma NextDoubleIsGreater(place: nat)
    ensures DoubleAt(place) < DoubleAt(place + 1)
  {
    var width := 0x10_0000_0000_0000;
    var e, f := place / width, place % width;
    var power, lead := if e == 0 then -1074 else e - 1075, if e == 0 then 0 else width;
    var unit := Pow2(power);
    NextPlace(place);
    Pow2IsPositive(power);
    GreaterTimes((lead + f) as real, (lead + f + 1) as real, unit);
    if f + 1 == width {
      assert e > 0 ==> Pow2(e + 1 - 1075) == 2.0 * unit by {
        NextPower(power);
      }
      Doubled(width, unit);
    }
    hide Pow2;
  }

  lemma NextPower(k: int)
    ensures Pow2(k + 1) == 2.0 * Pow2(k)
  {}

  /** `model_dump` of an evidence item. */
  function Dump(item: R.Scored): Json {
    Obj([("chunk_id", Str(item.item.chunkId)), ("document_id", Str(item.item.documentId)), ("filename", Str(item.item.filename)),
         ("location_type", Str(LocationText(item.item.locationType))), ("location_start", Int(item.item.locationStart)),
         ("location_end", Int(item.item.locationEnd)), ("excerpt", Str(item.item.excerpt)), ("score", Float(1.0 - DoubleAt(item.distance))),
         ("reranker_score", Float(DoubleAt(item.score)))])
  }

  function DumpAll(items: seq<R.Scored>): seq<Json> { seq(|items|, i requires 0 <= i < |items| => Dump(items[i])) }

  function DecisionRecord(items: seq<R.Scored>): (string, Json) {
    ("archive_question_decision", Obj([("has_evidence", Bool(items != [])), ("retrieved_item_count", Int(|items|))]))
  }

  function EvidenceRecord(items: seq<R.Scored>): (string, Json) { ("archive_question_prompt_evidence", Arr(DumpAll(items))) }

  /** Who decided whether the evidence is enough. */
  function Strategy(items: seq<R.Scored>): string { if items == [] then "empty_candidates_v1" else "deepseek_structured_v1" }

  function SufficiencyRecord(strategy: string, sufficient: bool, numbers: seq<nat>, count: nat): (string, Json) {
    ("archive_evidence_sufficiency_decision",
     Obj([("strategy", Str(strategy)), ("sufficient", Bool(sufficient)),
          ("selected_citation_numbers", Arr(JsonNumbers(numbers))), ("retrieved_item_count", Int(count))]))
  }

  function ResponseRecord(r: Response): (string, Json) {
    ("archive_question_response",
     Obj([("answer_status", Str(if r.answered then "ANSWERED" else "REFUSED_NO_EVIDENCE")), ("answer", Str(r.answer)),
          ("citations", Arr(DumpAll(r.citations)))]))
  }

  /** The items the numbers cite, in the order of the numbers. */
  function Cited(items: seq<R.Scored>, numbers: seq<nat>): seq<R.Scored>
    requires forall i :: 0 <= i < |numbers| ==> 1 <= numbers[i] <= |items|
  {
    seq(|numbers|, i requires 0 <= i < |numbers| => items[numbers[i] - 1])
  }

  predicate Consistent(items: seq<R.Scored>, d: Decision) {
    d.Answered? ==> Strip(d.answer) != "" && CitesCandidates(d.citations, |items|)
  }

  function ResponseTo(items: seq<R.Scored>, d: Decision): Response
    requires Consistent(items, d)
  {
    match d
    case Refused => Response(false, REFUSAL_ANSWER, [])
    case Answered(answer, numbers) => Response(true, answer, Cited(items, numbers))
  }

  /** Everything recorded for one successful question. */
  function Records(items: seq<R.Scored>, d: Decision): Outputs
    requires Consistent(items, d)
  {
    [DecisionRecord(items)]
    + (if items == [] then [] else [EvidenceRecord(items)])
    + [SufficiencyRecord(Strategy(items), d.Answered?, if d.Answered? then d.citations else [], |items|)]
    + [ResponseRecord(ResponseTo(items, d))]
  }

  lemma DecisionsAreConsistent(content: Content, items: seq<R.Scored>, d: Decision)
    requires Says(content, d, |items|)
    ensures Consistent(items, d)
  {
    if d.Answered? {
      StripTrims(Get(content.value, "answer").value.s);
      StripKeepsTrimmed(d.answer);
    }
  }

  // ---- what the caller and the evaluator are given ----------------------

  /** The object says this of the item, member by member. */
  predicate ShowsItem(j: Json, s: R.Scored) {
    && Get(j, "chunk_id") == Some(Str(s.item.chunkId)) && Get(j, "document_id") == Some(Str(s.item.documentId))
    && Get(j, "filename") == Some(Str(s.item.filename)) && Get(j, "excerpt") == Some(Str(s.item.excerpt))
    && Get(j, "location_type") ==
       Some(Str(match s.item.locationType case PdfPage => "PDF_PAGE" case DocxParagraph => "DOCX_PARAGRAPH" case TextLineRange => "TEXT_LINE_RANGE"))
    && Get(j, "location_start") == Some(Int(s.item.locationStart)) && Get(j, "location_end") == Some(Int(s.item.locationEnd))
    && Get(j, "score") == Some(Float(1.0 - DoubleAt(s.distance))) && Get(j, "reranker_score") == Some(Float(DoubleAt(s.score)))
  }

  predicate ShowItems(j: Option<Json>, items: seq<R.Scored>) {
    && j.Some? && j.value.Arr? && |j.value.items| == |items|
    && forall i :: 0 <= i < |items| ==> ShowsItem(j.value.items[i], items[i])
  }

  /** The response says what the content says: its text without the white space around it
      and the items its numbers count, or the refusal. */
  ghost predicate RepliesTo(response: Response, items: seq<R.Scored>, content: Content)
    requires Usable(content, |items|)
  {
    var numbers := Get(content.value, "citation_numbers").value.items;
    && (response.answered <==> Get(content.value, "decision") == Some(Str("ANSWERED")))
    && (if response.answered then
          && StrippedFrom(response.answer, Get(content.value, "answer").value.s)
          && |response.citations| == |numbers|
          && (forall i :: 0 <= i < |numbers| ==> response.citations[i] == items[numbers[i].n - 1])
        else response.answer == "正式档案中没有足够依据。" && response.citations == [])
  }

  predicate RecordsRetrieval(o: (string, Json), items: seq<R.Scored>) {
    && o.0 == "archive_question_decision"
    && Get(o.1, "has_evidence") == Some(Bool(items != [])) && Get(o.1, "retrieved_item_count") == Some(Int(|items|))
  }

  predicate RecordsEvidence(o: (string, Json), items: seq<R.Scored>) {
    o.0 == "archive_question_prompt_evidence" && ShowItems(Some(o.1), items)
  }

  predicate RecordsSufficiency(o: (string, Json), items: seq<R.Scored>, sufficient: bool, numbers: seq<Json>) {
    && o.0 == "archive_evidence_sufficiency_decision"
    && Get(o.1, "strategy") == Some(Str(if items == [] then "empty_candidates_v1" else "deepseek_structured_v1"))
    && Get(o.1, "sufficient") == Some(Bool(sufficient))
    && Get(o.1, "selected_citation_numbers") == Some(Arr(numbers))
    && Get(o.1, "retrieved_item_count") == Some(Int(|items|))
  }

  predicate RecordsResponse(o: (string, Json), response: Response) {
    && o.0 == "archive_question_response"
    && Get(o.1, "answer_status") == Some(Str(if response.answered then "ANSWERED" else "REFUSED_NO_EVIDENCE"))
    && Get(o.1, "answer") == Some(Str(response.answer))
    && ShowItems(Get(o.1, "citations"), response.citations)
  }

  /** The records: whether anything was retrieved and how much; the evidence shown to the
      model; whether it was enough, by which numbers; and the response. */
  predicate Recorded(outputs: Outputs, items: seq<R.Scored>, response: Response, numbers: seq<Json>) {
    var n := |outputs|;
    && n == (if items == [] then 3 else 4)
    && RecordsRetrieval(outputs[0], items) && (items != [] ==> RecordsEvidence(outputs[1], items))
    && RecordsSufficiency(outputs[n - 2], items, response.answered, if response.answered then numbers else [])
    && RecordsResponse(outputs[n - 1], response)
  }

  lemma DumpShowsIds(s: R.Scored)
    ensures Get(Dump(s), "chunk_id") == Some(Str(s.item.chunkId))
    ensures Get(Dump(s), "document_id") == Some(Str(s.item.documentId))
  {
    hide LocationText, DoubleAt;
    FindsIt(Dump(s).members, 0, "chunk_id");
    FindsIt(Dump(s).members, 1, "document_id");
  }

  lemma DumpShowsFile(s: R.Scored)
    ensures Get(Dump(s), "filename") == Some(Str(s.item.filename))
  {
    hide LocationText, DoubleAt;
    FindsIt(Dump(s).members, 2, "filename");
  }

  lemma DumpShowsKind(s: R.Scored)
    ensures Get(Dump(s), "location_type") == Some(Str(LocationText(s.item.locationType)))
  {
    hide LocationText, DoubleAt;
    FindsIt(Dump(s).members, 3, "location_type");
  }

  lemma DumpShowsStart(s: R.Scored)
    ensures Get(Dump(s), "location_start") == Some(Int(s.item.locationStart))
  {
    hide LocationText, DoubleAt;
    FindsIt(Dump(s).members, 4, "location_start");
  }

  lemma DumpShowsEnd(s: R.Scored)
    ensures Get(Dump(s), "location_end") == Some(Int(s.item.locationEnd))
  {
    hide LocationText, DoubleAt;
    FindsIt(Dump(s).members, 5, "location_end");
  }

  lemma DumpShowsExcerpt(s: R.Scored)
    ensures Get(Dump(s), "excerpt") == Some(Str(s.item.excerpt))
  {
    hide LocationText, DoubleAt;
    FindsIt(Dump(s).members, 6, "excerpt");
  }

  lemma DumpShowsScores(s: R.Scored)
    ensures
      var j := Dump(s);
      && Get(j, "score") == Some(Float(1.0 - DoubleAt(s.distance)))
      && Get(j, "reranker_score") == Some(Float(DoubleAt(s.score)))
  {
    hide LocationText, DoubleAt;
    var m := Dump(s).members;
    FindsIt(m, 7, "score");
    FindsIt(m, 8, "reranker_score");
  }

  lemma DumpShows(s: R.Scored)
    ensures ShowsItem(Dump(s), s)
  {
    DumpShowsIds(s);
    DumpShowsFile(s);
    DumpShowsKind(s);
    DumpShowsStart(s);
    DumpShowsEnd(s);
    DumpShowsExcerpt(s);
    DumpShowsScores(s);
    hide Dump, Find, Get, DoubleAt;
  }

  lemma DumpsShow(items: seq<R.Scored>)
    ensures ShowItems(Some(Arr(DumpAll(items))), items)
  {
    hide Dump, ShowsItem;
    forall i | 0 <= i < |items| ensures ShowsItem(DumpAll(items)[i], items[i]) {
      DumpShows(items[i]);
    }
  }

  lemma RetrievalIsRecorded(items: seq<R.Scored>)
    ensures RecordsRetrieval(DecisionRecord(items), items)
    ensures RecordsEvidence(EvidenceRecord(items), items)
  {
    DumpsShow(items);
    hide ShowItems, DumpAll;
    FindsIt(DecisionRecord(items).1.members, 0, "has_evidence");
    FindsIt(DecisionRecord(items).1.members, 1, "retrieved_item_count");
  }

  lemma SufficiencyIsRecorded(items: seq<R.Scored>, sufficient: bool, numbers: seq<nat>)
    ensures RecordsSufficiency(SufficiencyRecord(Strategy(items), sufficient, numbers, |items|), items, sufficient, JsonNumbers(numbers))
  {
    hide JsonNumbers;
    SufficiencyFields(Strategy(items), sufficient, numbers, |items|);
    FindsIt(SufficiencyRecord(Strategy(items), sufficient, numbers, |items|).1.members, 0, "strategy");
  }

  lemma ResponseIsRecorded(response: Response)
    ensures RecordsResponse(ResponseRecord(response), response)
  {
    ResponseFields(response);
    DumpsShow(response.citations);
    hide Find, Get, ShowItems, DumpAll;
  }

  lemma RecordsAreListed(items: seq<R.Scored>, d: Decision)
    requires Consistent(items, d)
    ensures
      var first, last := DecisionRecord(items), ResponseRecord(ResponseTo(items, d));
      var third := SufficiencyRecord(Strategy(items), d.Answered?, if d.Answered? then d.citations else [], |items|);
      var second := EvidenceRecord(items);
      Records(items, d) == if items == [] then [first, third, last] else [first, second, third, last]
    ensures ResponseTo(items, d).answered == d.Answered?
  {
    hide DumpAll, DecisionRecord, SufficiencyRecord, ResponseRecord, Consistent, Cited;
  }

  lemma RecordsAreRecorded(items: seq<R.Scored>, d: Decision)
    requires Consistent(items, d)
    ensures Recorded(Records(items, d), items, ResponseTo(items, d), JsonNumbers(if d.Answered? then d.citations else []))
  {
    var numbers := if d.Answered? then d.citations else [];
    assert !d.Answered? ==> JsonNumbers(numbers) == [];
    hide *;
    var response := ResponseTo(items, d);
    RecordsAreListed(items, d);
    RetrievalIsRecorded(items);
    SufficiencyIsRecorded(items, d.Answered?, numbers);
    ResponseIsRecorded(response);
    RecordsInOrder(items, response, JsonNumbers(numbers), DecisionRecord(items), EvidenceRecord(items),
                   SufficiencyRecord(Strategy(items), d.Answered?, numbers, |items|), ResponseRecord(response));
  }

  lemma RecordsInOrder(
    items: seq<R.Scored>, response: Response, numbers: seq<Json>,
    first: (string, Json), second: (string, Json), third: (string, Json), last: (string, Json))
    requires RecordsRetrieval(first, items) && RecordsEvidence(second, items)
    requires RecordsSufficiency(third, items, response.answered, numbers) && RecordsResponse(last, response)
    requires !response.answered ==> numbers == []
    ensures Recorded(if items == [] then [first, third, last] else [first, second, third, last], items, response, numbers)
  {
    hide RecordsRetrieval, RecordsEvidence, RecordsSufficiency, RecordsResponse;
  }

  lemma SaysMeans(content: Content, d: Decision, candidates: nat)
    requires Says(content, d, candidates)
    ensures content.Parsed? && (Get(content.value, "decision") == Some(Str("ANSWERED")) <==> d.Answered?)
    ensures
      d.Answered? ==>
        && Get(content.value, "citation_numbers") == Some(Arr(JsonNumbers(d.citations)))
        && Get(content.value, "answer").Some? && Get(content.value, "answer").value.Str?
        && StrippedFrom(d.answer, Get(content.value, "answer").value.s)
  {
    hide UniqueKeys, Find, Strip, StrippedFrom, Keys, CitesCandidates;
    if d.Answered? {
      StripStandsIn(d.answer, Get(content.value, "answer").value.s);
    }
  }

  lemma ResponseReplies(items: seq<R.Scored>, content: Content, d: Decision)
    requires Says(content, d, |items|)
    ensures Usable(content, |items|) && Consistent(items, d)
    ensures RepliesTo(ResponseTo(items, d), items, content)
    ensures d.Answered? ==> Get(content.value, "citation_numbers").value.items == JsonNumbers(d.citations)
  {
    hide Says, Usable, Consistent, Find, StrippedFrom, ResponseTo, Get;
    UsableIffItSaysSomething(content, |items|);
    DecisionsAreConsistent(content, items, d);
    ResponseIsThis(items, d);
    SaysMeans(content, d, |items|);
    if d.Answered? {
      CitedItems(items, d.citations);
      hide JsonNumbers, Cited;
      assert RepliesTo(ResponseTo(items, d), items, content);
    } else {
      assert RepliesTo(ResponseTo(items, d), items, content);
    }
  }

  lemma CitedItems(items: seq<R.Scored>, numbers: seq<nat>)
    requires forall i :: 0 <= i < |numbers| ==> 1 <= numbers[i] <= |items|
    ensures |Cited(items, numbers)| == |JsonNumbers(numbers)| == |numbers|
    ensures forall i :: 0 <= i < |numbers| ==>
                          JsonNumbers(numbers)[i] == Int(numbers[i]) && Cited(items, numbers)[i] == items[numbers[i] - 1]
  {}

  /** What the caller gets, and what is recorded with it, fit what was retrieved and said. */
  ghost predicate Concluded(items: seq<R.Scored>, reply: ModelReply, response: Response, outputs: Outputs) {
    && (exists d :: Consistent(items, d) && response == ResponseTo(items, d) && outputs == Records(items, d))
    && (if items == [] then
          response == Response(false, "正式档案中没有足够依据。", []) && Recorded(outputs, items, response, [])
        else
          && reply.Replied? && Usable(reply.content, |items|) && RepliesTo(response, items, reply.content)
          && Recorded(outputs, items, response, if response.answered then Get(reply.content.value, "citation_numbers").value.items else []))
  }

  lemma NothingRetrieved(reply: ModelReply)
    ensures
      var response := Response(false, REFUSAL_ANSWER, []);
      Concluded([], reply, response, [DecisionRecord([]), SufficiencyRecord(Strategy([]), false, [], 0), ResponseRecord(response)])
  {
    RefusalIsConsistent([]);
    RecordsAreListed([], Refused);
    RecordsAreRecorded([], Refused);
    hide Consistent, ResponseTo, Records, Recorded, DecisionRecord, SufficiencyRecord, ResponseRecord, JsonNumbers, Strategy;
  }

  lemma DecisionConcludes(items: seq<R.Scored>, content: Content, d: Decision)
    requires items != [] && Says(content, d, |items|)
    ensures Consistent(items, d)
    ensures
      var third := SufficiencyRecord(Strategy(items), d.Answered?, if d.Answered? then d.citations else [], |items|);
      Concluded(items, Replied(content), ResponseTo(items, d),
                [DecisionRecord(items), EvidenceRecord(items), third, ResponseRecord(ResponseTo(items, d))])
  {
    ResponseReplies(items, content, d);
    NoNumbers();
    hide *;
    RecordsAreListed(items, d);
    RecordsAreRecorded(items, d);
    ConcludesWith(items, content, d);
  }

  lemma ConcludesWith(items: seq<R.Scored>, content: Content, d: Decision)
    requires items != [] && Consistent(items, d) && Usable(content, |items|) && RepliesTo(ResponseTo(items, d), items, content)
    requires
      var response := ResponseTo(items, d);
      Recorded(Records(items, d), items, response,
               if response.answered then Get(content.value, "citation_numbers").value.items else [])
    ensures Concluded(items, Replied(content), ResponseTo(items, d), Records(items, d))
  {
    hide Says, Usable, Consistent, RepliesTo, ResponseTo, Records, Recorded, Find;
  }

  /** `answer_archive_question`, after the retrieval: it raises exactly when something was
      retrieved and the model gives nothing usable. */
  method AnswerArchiveQuestion(items: seq<R.Scored>, reply: ModelReply)
    returns (r: Result<Response, AnswerError>, outputs: Outputs)
    ensures r.Failure? <==> items != [] && (reply.Unavailable? || !Usable(reply.content, |items|))
    ensures r.Failure? ==> r.error == ArchiveAnswerUnavailable
    ensures r.Success? ==> Concluded(items, reply, r.value, outputs)
    ensures r.Failure? ==> |outputs| == 2 && RecordsRetrieval(outputs[0], items) && RecordsEvidence(outputs[1], items)
  {
    hide *;
    RetrievalIsRecorded(items);
    if reply.Replied? {
      UsableIffItSaysSomething(reply.content, |items|);
    }
    var first := DecisionRecord(items);
    outputs := [first];
    if items == [] {
      var response := Response(false, REFUSAL_ANSWER, []);
      var third, last := SufficiencyRecord(Strategy(items), false, [], 0), ResponseRecord(response);
      outputs := outputs + [third] + [last];
      assert outputs == [first, third, last];
      NothingRetrieved(reply);
      return Success(response), outputs;
    }
    var second := EvidenceRecord(items);
    outputs := outputs + [second];
    if reply.Unavailable? {
      return Failure(ArchiveAnswerUnavailable), outputs;
    }
    var parsed := ParseModelDecision(reply.content, |items|);
    if parsed.None? {
      return Failure(ArchiveAnswerUnavailable), outputs;
    }
    var d := parsed.value;
    DecisionConcludes(items, reply.content, d);
    ResponseIsThis(items, d);
    var response, third, last := RespondWith(items, d);
    outputs := outputs + [third] + [last];
    assert outputs == [first, second, third, last];
    r := Success(response);
  }

  /** The last part of `answer_archive_question`. */
  method RespondWith(items: seq<R.Scored>, d: Decision) returns (response: Response, third: (string, Json), last: (string, Json))
    requires Consistent(items, d)
    ensures response == ResponseTo(items, d) && last == ResponseRecord(response)
    ensures third == SufficiencyRecord(Strategy(items), d.Answered?, if d.Answered? then d.citations else [], |items|)
  {
    ResponseIsThis(items, d);
    hide *;
    var numbers := if d.Answered? then d.citations else [];
    third := SufficiencyRecord(Strategy(items), d.Answered?, numbers, |items|);
    var citations := if d.Answered? then Cited(items, numbers) else [];
    response := Response(d.Answered?, if d.Answered? then d.answer else REFUSAL_ANSWER, citations);
    last := ResponseRecord(response);
  }

  lemma NoNumbers()
    ensures JsonNumbers([]) == []
  {}

  lemma ResponseIsThis(items: seq<R.Scored>, d: Decision)
    requires Consistent(items, d)
    ensures d.Answered? ==> forall i :: 0 <= i < |d.citations| ==> 1 <= d.citations[i] <= |items|
    ensures ResponseTo(items, d) ==
            Response(d.Answered?, if d.Answered? then d.answer else REFUSAL_ANSWER, if d.Answered? then Cited(items, d.citations) else [])
  {}

  lemma RefusalIsConsistent(items: seq<R.Scored>)
    ensures Consistent(items, Refused) && ResponseTo(items, Refused) == Response(false, REFUSAL_ANSWER, []) && JsonNumbers([]) == []
  {}

  lemma ConsistentCites(items: seq<R.Scored>, d: Decision)
    requires Consistent(items, d)
    ensures d.Answered? ==> forall i :: 0 <= i < |d.citations| ==> 1 <= d.citations[i] <= |items|
  {}

  /** The citations of an answer are exactly the chosen items, in the chosen order,
      no item twice. */
  lemma CitationsAreTheChosenItems(items: seq<R.Scored>, d: Decision)
    requires Consistent(items, d) && d.Answered?
    requires forall i, j :: 0 <= i < j < |items| ==> items[i] != items[j]
    ensures
      var citations := ResponseTo(items, d).citations;
      && |citations| == |d.citations| > 0
      && (forall i :: 0 <= i < |citations| ==> 1 <= d.citations[i] <= |items| && citations[i] == items[d.citations[i] - 1])
      && (forall i, j :: 0 <= i < j < |citations| ==> citations[i] != citations[j])
  {
    var citations := ResponseTo(items, d).citations;
    forall i, j | 0 <= i < j < |citations| ensures citations[i] != citations[j] {
      assert d.citations[i] != d.citations[j];
    }
  }

  // ---- the evaluator ----------------------------------------------------

  const REQUIRED_CITATION_FIELDS :=
    {"chunk_id", "document_id", "filename", "location_type", "location_start", "location_end", "excerpt", "score"}

  datatype Problem =
    | ResponseMissing | StatusUnsupported | AnswerEmpty | CitationsNotList | CitationNotObject(index: nat)
    | CitationFieldsMissing(index: nat)
    | DecisionMissing | EvidenceFlagInvalid | CountInvalid | EvidenceFlagDisagrees
    | SufficiencyMissing | SufficientInvalid | NumbersNotList | NumbersNotPositive | NumbersRepeat
    | SufficiencyCountDisagrees | NumbersOutOfRange | SufficiencyCountInvalid
    | AnsweredWithoutSufficiency | AnsweredWithoutCitation | CitationCountDisagrees
    | RefusedWithSufficiency | RefusedWithNumbers | RefusedWithCitations

  /** `_get_output`: the first record of that name. */
  function GetOutput(outputs: Outputs, name: string): Json {
    var found := Find(outputs, name);
    if found.Some? then found.value else Null
  }

  function AsObject(j: Json): Json { if j.Obj? then j else Obj([]) }

  function ListOf(j: Option<Json>): seq<Json> { if j.Some? && j.value.Arr? then j.value.items else [] }

  predicate IsText(j: Option<Json>, s: string) { j == Some(Str(s)) }

  predicate IsCount(j: Option<Json>) { j.Some? && j.value.Int? }

  function CitationProblems(citations: seq<Json>): seq<Problem> {
    if citations == [] then []
    else
      var n := |citations| - 1;
      CitationProblems(citations[..n])
      + if !citations[n].Obj? then [CitationNotObject(n)]
        else if !(REQUIRED_CITATION_FIELDS <= Keys(citations[n].members)) then [CitationFieldsMissing(n)]
        else []
  }

  function ResponseProblems(response: Json): seq<Problem> {
    var r := AsObject(response);
    var status, answer, citations := Get(r, "answer_status"), Get(r, "answer"), Get(r, "citations");
    (if response.Obj? then [] else [ResponseMissing])
    + (if IsText(status, "ANSWERED") || IsText(status, "REFUSED_NO_EVIDENCE") then [] else [StatusUnsupported])
    + (if answer.Some? && answer.value.Str? && Strip(answer.value.s) != "" then [] else [AnswerEmpty])
    + (if citations.Some? && citations.value.Arr? then [] else [CitationsNotList])
    + CitationProblems(ListOf(citations))
  }

  function DecisionProblems(decision: Json): seq<Problem> {
    var d := AsObject(decision);
    var flag, count := Get(d, "has_evidence"), Get(d, "retrieved_item_count");
    (if decision.Obj? then [] else [DecisionMissing])
    + (if flag.Some? && flag.value.Bool? then [] else [EvidenceFlagInvalid])
    + (if IsCount(count) && count.value.n >= 0 then [] else [CountInvalid])
    + (if flag.Some? && flag.value.Bool? && IsCount(count) && flag.value.b != (count.value.n > 0) then [EvidenceFlagDisagrees] else [])
  }

  predicate AllPositive(items: seq<Json>) { forall i :: 0 <= i < |items| ==> items[i].Int? && items[i].n >= 1 }

  predicate Repeats(items: seq<Json>) { exists i, j :: 0 <= i < j < |items| && items[i] == items[j] }

  /** What the entry is as a number; true and false are numbers, too. */
  function NumberOf(j: Json): Option<real> {
    match j
    case Int(n) => Some(n as real)
    case Float(x) => Some(x)
    case Bool(b) => Some(if b then 1.0 else 0.0)
    case _ => None
  }

  predicate Above(j: Json, n: int) { NumberOf(j).Some? && NumberOf(j).value > n as real }

  predicate AnyAbove(items: seq<Json>, n: int) { exists i :: 0 <= i < |items| && Above(items[i], n) }

  /** Comparing the entries in order meets one that is no number before one that is above. */
  predicate Incomparable(items: seq<Json>, n: int) {
    exists i :: 0 <= i < |items| && NumberOf(items[i]).None? && forall j :: 0 <= j < i ==> !Above(items[j], n)
  }

  function SufficiencyProblems(sufficiency: Json, count: Option<Json>): seq<Problem> {
    var s := AsObject(sufficiency);
    var sufficient, numbers, own := Get(s, "sufficient"), Get(s, "selected_citation_numbers"), Get(s, "retrieved_item_count");
    (if sufficiency.Obj? then [] else [SufficiencyMissing])
    + (if sufficient.Some? && sufficient.value.Bool? then [] else [SufficientInvalid])
    + NumbersProblems(numbers)
    + CountProblems(own, count, ListOf(numbers))
  }

  function NumbersProblems(numbers: Option<Json>): seq<Problem> {
    if !(numbers.Some? && numbers.value.Arr?) then [NumbersNotList]
    else if !AllPositive(numbers.value.items) then [NumbersNotPositive]
    else if Repeats(numbers.value.items) then [NumbersRepeat]
    else []
  }

  function CountProblems(own: Option<Json>, count: Option<Json>, selected: seq<Json>): seq<Problem> {
    if IsCount(own) then
      (if IsCount(count) && own.value.n != count.value.n then [SufficiencyCountDisagrees] else [])
      + (if AnyAbove(selected, own.value.n) then [NumbersOutOfRange] else [])
    else if own.Some? && own.value != Null then [SufficiencyCountInvalid]
    else []
  }

  function StatusProblems(status: Option<Json>, sufficient: Option<Json>, selected: seq<Json>, citations: seq<Json>): seq<Problem> {
    if IsText(status, "ANSWERED") then
      (if sufficient == Some(Bool(true)) then [] else [AnsweredWithoutSufficiency])
      + (if citations == [] then [AnsweredWithoutCitation] else [])
      + (if |citations| != |selected| then [CitationCountDisagrees] else [])
    else if IsText(status, "REFUSED_NO_EVIDENCE") then
      (if sufficient == Some(Bool(false)) then [] else [RefusedWithSufficiency])
      + (if selected != [] then [RefusedWithNumbers] else [])
      + (if citations != [] then [RefusedWithCitations] else [])
    else []
  }

  /** The check itself raises: a status that cannot be in a set, or numbers that cannot
      be compared with the count. */
  predicate CheckRaises(outputs: Outputs) {
    var status := Get(AsObject(GetOutput(outputs, "archive_question_response")), "answer_status");
    var s := AsObject(GetOutput(outputs, "archive_evidence_sufficiency_decision"));
    var own := Get(s, "retrieved_item_count");
    || (status.Some? && (status.value.Arr? || status.value.Obj?))
    || (IsCount(own) && Incomparable(ListOf(Get(s, "selected_citation_numbers")), own.value.n))
  }

  /** Every problem the contract check finds when it does not raise. */
  function Problems(outputs: Outputs): seq<Problem> {
    var response := GetOutput(outputs, "archive_question_response");
    var decision := GetOutput(outputs, "archive_question_decision");
    var sufficiency := GetOutput(outputs, "archive_evidence_sufficiency_decision");
    var r, d, s := AsObject(response), AsObject(decision), AsObject(sufficiency);
    ResponseProblems(response) + DecisionProblems(decision)
    + SufficiencyProblems(sufficiency, Get(d, "retrieved_item_count"))
    + StatusProblems(Get(r, "answer_status"), Get(s, "sufficient"),
                     ListOf(Get(s, "selected_citation_numbers")), ListOf(Get(r, "citations")))
  }

  /** The loop over citations. */
  method CheckCitations(citations: seq<Json>) returns (problems: seq<Problem>)
    ensures problems == CitationProblems(citations)
  {
    problems := [];
    for i := 0 to |citations|
      invariant problems == CitationProblems(citations[..i])
    {
      assert citations[..i + 1][..i] == citations[..i];
      if !citations[i].Obj? {
        problems := problems + [CitationNotObject(i)];
        continue;
      }
      if !(REQUIRED_CITATION_FIELDS <= Keys(citations[i].members)) {
        problems := problems + [CitationFieldsMissing(i)];
      }
    }
    assert citations[..|citations|] == citations;
  }

  method CheckResponse(response: Json) returns (problems: seq<Problem>)
    ensures problems == ResponseProblems(response)
  {
    hide Find;
    problems := [];
    if !response.Obj? {
      problems := problems + [ResponseMissing];
    }
    var status := Get(AsObject(response), "answer_status");
    if !IsText(status, "ANSWERED") && !IsText(status, "REFUSED_NO_EVIDENCE") {
      problems := problems + [StatusUnsupported];
    }
    var answer := Get(AsObject(response), "answer");
    if answer.None? || !answer.value.Str? || Strip(answer.value.s) == "" {
      problems := problems + [AnswerEmpty];
    }
    var citations := Get(AsObject(response), "citations");
    if citations.None? || !citations.value.Arr? {
      problems := problems + [CitationsNotList];
    }
    var found := CheckCitations(ListOf(citations));
    problems := problems + found;
  }

  method CheckDecision(decision: Json) returns (problems: seq<Problem>)
    ensures problems == DecisionProblems(decision)
  {
    hide Find;
    problems := [];
    if !decision.Obj? {
      problems := problems + [DecisionMissing];
    }
    var flag, count := Get(AsObject(decision), "has_evidence"), Get(AsObject(decision), "retrieved_item_count");
    var isFlag := flag.Some? && flag.value.Bool?;
    if !isFlag {
      problems := problems + [EvidenceFlagInvalid];
    }
    if !IsCount(count) || count.value.n < 0 {
      problems := problems + [CountInvalid];
    }
    if isFlag && IsCount(count) && flag.value.b != (count.value.n > 0) {
      problems := problems + [EvidenceFlagDisagrees];
    }
  }

  /** A set of the entries is smaller than their list exactly when one repeats. */
  lemma {:induction false} SetIsSmallerIffRepeats(items: seq<Json>)
    ensures |set j | j in items| <= |items|
    ensures |set j | j in items| != |items| <==> Repeats(items)
  {
    if items != [] {
      var n := |items| - 1;
      SetIsSmallerIffRepeats(items[..n]);
      var before, all := set j | j in items[..n], set j | j in items;
      assert all == before + {items[n]};
      OneMoreRepeats(items);
    }
  }

  lemma OneMoreRepeats(items: seq<Json>)
    requires items != []
    ensures Repeats(items) <==> Repeats(items[..|items| - 1]) || items[|items| - 1] in items[..|items| - 1]
  {
    var n := |items| - 1;
    if i, j :| 0 <= i < j < |items| && items[i] == items[j] {
      assert items[..n][i] == items[i];
      assert j < n ==> items[..n][j] == items[j];
    }
    if items[n] in items[..n] {
      var i :| 0 <= i < n && items[..n][i] == items[n];
      assert items[i] == items[n];
    }
  }

  /** The checks of the list of numbers alone. */
  method CheckNumbers(numbers: Option<Json>) returns (problems: seq<Problem>)
    ensures problems == NumbersProblems(numbers)
  {
    if numbers.None? || !numbers.value.Arr? {
      return [NumbersNotList];
    }
    var items := numbers.value.items;
    for i := 0 to |items|
      invariant forall j :: 0 <= j < i ==> items[j].Int? && items[j].n >= 1
    {
      if !items[i].Int? || items[i].n < 1 {
        return [NumbersNotPositive];
      }
    }
    SetIsSmallerIffRepeats(items);
    if |set j | j in items| != |items| {
      return [NumbersRepeat];
    }
    problems := [];
  }

  /** `any(number > n for number in items)`, `None` when a comparison raises. */
  method CompareAll(items: seq<Json>, n: int) returns (above: Option<bool>)
    ensures above.None? <==> Incomparable(items, n)
    ensures above.Some? ==> above.value == AnyAbove(items, n)
  {
    for i := 0 to |items|
      invariant forall j :: 0 <= j < i ==> NumberOf(items[j]).Some? && !Above(items[j], n)
    {
      if NumberOf(items[i]).None? {
        return None;
      }
      if Above(items[i], n) {
        return Some(true);
      }
    }
    above := Some(false);
  }

  method CheckSufficiency(sufficiency: Json, count: Option<Json>) returns (problems: Option<seq<Problem>>)
    ensures
      var s := AsObject(sufficiency);
      var own := Get(s, "retrieved_item_count");
      problems.None? <==> IsCount(own) && Incomparable(ListOf(Get(s, "selected_citation_numbers")), own.value.n)
    ensures problems.Some? ==> problems.value == SufficiencyProblems(sufficiency, count)
  {
    hide Find, Get, AsObject, ListOf, NumbersProblems, Incomparable, CountProblems;
    var s := AsObject(sufficiency);
    var found: seq<Problem> := [];
    if !sufficiency.Obj? {
      found := found + [SufficiencyMissing];
    }
    var sufficient, own := Get(s, "sufficient"), Get(s, "retrieved_item_count");
    var numbers := Get(s, "selected_citation_numbers");
    if sufficient.None? || !sufficient.value.Bool? {
      found := found + [SufficientInvalid];
    }
    var listed := CheckNumbers(numbers);
    var counted := CheckCount(own, count, ListOf(numbers));
    if counted.None? {
      return None;
    }
    problems := Some(found + listed + counted.value);
  }

  method CheckCount(own: Option<Json>, count: Option<Json>, selected: seq<Json>) returns (problems: Option<seq<Problem>>)
    ensures problems.None? <==> IsCount(own) && Incomparable(selected, own.value.n)
    ensures problems.Some? ==> problems.value == CountProblems(own, count, selected)
  {
    hide Incomparable, AnyAbove;
    var found: seq<Problem> := [];
    if IsCount(own) {
      if IsCount(count) && own.value.n != count.value.n {
        found := found + [SufficiencyCountDisagrees];
      }
      var above := CompareAll(selected, own.value.n);
      if above.None? {
        return None;
      }
      if above.value {
        found := found + [NumbersOutOfRange];
      }
    } else if own.Some? && own.value != Null {
      found := found + [SufficiencyCountInvalid];
    }
    problems := Some(found);
  }

  method CheckStatus(status: Option<Json>, sufficient: Option<Json>, selected: seq<Json>, citations: seq<Json>)
    returns (problems: seq<Problem>)
    ensures problems == StatusProblems(status, sufficient, selected, citations)
  {
    problems := [];
    if IsText(status, "ANSWERED") {
      if sufficient != Some(Bool(true)) {
        problems := problems + [AnsweredWithoutSufficiency];
      }
      if citations == [] {
        problems := problems + [AnsweredWithoutCitation];
      }
      if |citations| != |selected| {
        problems := problems + [CitationCountDisagrees];
      }
    } else if IsText(status, "REFUSED_NO_EVIDENCE") {
      if sufficient != Some(Bool(false)) {
        problems := problems + [RefusedWithSufficiency];
      }
      if selected != [] {
        problems := problems + [RefusedWithNumbers];
      }
      if citations != [] {
        problems := problems + [RefusedWithCitations];
      }
    }
  }

  /** `archive_answer_contract`: the problems it lists, none exactly when the records meet
      the contract; `None` when it raises. */
  method ArchiveAnswerContract(outputs: Outputs) returns (problems: Option<seq<Problem>>)
    ensures problems.None? <==> CheckRaises(outputs)
    ensures problems.Some? ==> problems.value == Problems(outputs)
    ensures problems == Some([]) <==> MeetsContract(outputs)
  {
    NoProblemIffContractMet(outputs);
    hide ResponseProblems, DecisionProblems, SufficiencyProblems, StatusProblems, Find, Incomparable, MeetsContract;
    var response := GetOutput(outputs, "archive_question_response");
    var decision := GetOutput(outputs, "archive_question_decision");
    var sufficiency := GetOutput(outputs, "archive_evidence_sufficiency_decision");
    var status := Get(AsObject(response), "answer_status");
    if status.Some? && (status.value.Arr? || status.value.Obj?) {
      return None;
    }
    var found := CheckResponse(response);
    var more := CheckDecision(decision);
    found := found + more;
    var third := CheckSufficiency(sufficiency, Get(AsObject(decision), "retrieved_item_count"));
    if third.None? {
      return None;
    }
    var last := CheckStatus(status, Get(AsObject(sufficiency), "sufficient"),
                            ListOf(Get(AsObject(sufficiency), "selected_citation_numbers")),
                            ListOf(Get(AsObject(response), "citations")));
    problems := Some(found + third.value + last);
  }

  /** What the contract is about: status, sufficiency, numbers and citations agree. */
  predicate MeetsContract(outputs: Outputs) {
    var response := GetOutput(outputs, "archive_question_response");
    var decision := GetOutput(outputs, "archive_question_decision");
    var sufficiency := GetOutput(outputs, "archive_evidence_sufficiency_decision");
    var citations, numbers := ListOf(Get(response, "citations")), ListOf(Get(sufficiency, "selected_citation_numbers"));
    && WellFormedResponse(response) && WellFormedDecision(decision)
    && WellFormedSufficiency(sufficiency, Get(decision, "retrieved_item_count"))
    && if IsText(Get(response, "answer_status"), "ANSWERED") then
         Get(sufficiency, "sufficient") == Some(Bool(true)) && citations != [] && |citations| == |numbers|
       else Get(sufficiency, "sufficient") == Some(Bool(false)) && citations == [] && numbers == []
  }

  predicate WellFormedResponse(response: Json) {
    var status, answer, citations := Get(response, "answer_status"), Get(response, "answer"), Get(response, "citations");
    && response.Obj?
    && (IsText(status, "ANSWERED") || IsText(status, "REFUSED_NO_EVIDENCE"))
    && answer.Some? && answer.value.Str? && Strip(answer.value.s) != ""
    && citations.Some? && citations.value.Arr?
    && forall i :: 0 <= i < |citations.value.items| ==> CompleteCitation(citations.value.items[i])
  }

  predicate CompleteCitation(c: Json) { c.Obj? && REQUIRED_CITATION_FIELDS <= Keys(c.members) }

  predicate WellFormedDecision(decision: Json) {
    var flag, count := Get(decision, "has_evidence"), Get(decision, "retrieved_item_count");
    && decision.Obj? && IsCount(count) && count.value.n >= 0
    && flag == Some(Bool(count.value.n > 0))
  }

  predicate WellFormedSufficiency(sufficiency: Json, count: Option<Json>) {
    var sufficient, numbers := Get(sufficiency, "sufficient"), Get(sufficiency, "selected_citation_numbers");
    var own := Get(sufficiency, "retrieved_item_count");
    && sufficiency.Obj? && sufficient.Some? && sufficient.value.Bool?
    && numbers.Some? && numbers.value.Arr? && AllPositive(numbers.value.items) && !Repeats(numbers.value.items)
    && (own in {None, Some(Null)} || (IsCount(own) && !AnyAbove(numbers.value.items, own.value.n) && (IsCount(count) ==> own == count)))
  }

  lemma {:induction false} NoCitationProblemsIff(citations: seq<Json>)
    ensures CitationProblems(citations) == [] <==> forall i :: 0 <= i < |citations| ==> CompleteCitation(citations[i])
  {
    if citations != [] {
      var n := |citations| - 1;
      NoCitationProblemsIff(citations[..n]);
      assert forall i :: 0 <= i < n ==> citations[..n][i] == citations[i];
    }
  }

  lemma PartsFindNothingIff(response: Json, decision: Json, sufficiency: Json, count: Option<Json>)
    ensures ResponseProblems(response) == [] <==> WellFormedResponse(response)
    ensures DecisionProblems(decision) == [] <==> WellFormedDecision(decision)
    ensures SufficiencyProblems(sufficiency, count) == [] <==> WellFormedSufficiency(sufficiency, count)
  {
    NoCitationProblemsIff(ListOf(Get(AsObject(response), "citations")));
    EmptyObjectHasNothing();
    hide Find, CitationProblems, CompleteCitation, Strip, AllPositive, Repeats, AnyAbove;
  }

  lemma EmptyObjectHasNothing()
    ensures forall key :: Find([], key) == None
  {}

  /** The check ends and finds no problem exactly when the records meet the contract. */
  lemma NoProblemIffContractMet(outputs: Outputs)
    ensures !CheckRaises(outputs) && Problems(outputs) == [] <==> MeetsContract(outputs)
  {
    var response := GetOutput(outputs, "archive_question_response");
    var decision := GetOutput(outputs, "archive_question_decision");
    var sufficiency := GetOutput(outputs, "archive_evidence_sufficiency_decision");
    PartsFindNothingIff(response, decision, sufficiency, Get(AsObject(decision), "retrieved_item_count"));
    ObjectStays(response);
    ObjectStays(decision);
    ObjectStays(sufficiency);
    PositiveNumbersCompare(ListOf(Get(sufficiency, "selected_citation_numbers")));
    hide ResponseProblems, DecisionProblems, SufficiencyProblems, GetOutput, Find, Strip, CompleteCitation, Get, Incomparable,
         AllPositive, Repeats, AnyAbove;
  }

  lemma PositiveNumbersCompare(items: seq<Json>)
    ensures AllPositive(items) ==> forall n :: !Incomparable(items, n)
  {}

  lemma ObjectStays(j: Json)
    ensures j.Obj? ==> AsObject(j) == j
    ensures forall key :: Get(AsObject(j), key) == Get(j, key)
  {}

  // ---- what each problem says -------------------------------------------

  lemma {:induction false} CitationProblemsMean(citations: seq<Json>, p: Problem)
    ensures p in CitationProblems(citations) <==>
            || (p.CitationNotObject? && p.index < |citations| && !citations[p.index].Obj?)
            || (&& p.CitationFieldsMissing? && p.index < |citations| && citations[p.index].Obj?
                && !({"chunk_id", "document_id", "filename", "location_type", "location_start", "location_end", "excerpt", "score"}
                     <= Keys(citations[p.index].members)))
  {
    hide Keys;
    if citations != [] {
      CitationProblemsMean(citations[..|citations| - 1], p);
    }
  }

  lemma ResponseProblemsMean(response: Json, p: Problem)
    ensures
      var citations := Get(response, "citations");
      p in ResponseProblems(response) <==>
      match p
      case ResponseMissing => !response.Obj?
      case StatusUnsupported => Get(response, "answer_status") !in {Some(Str("ANSWERED")), Some(Str("REFUSED_NO_EVIDENCE"))}
      case AnswerEmpty =>
        !(Get(response, "answer").Some? && Get(response, "answer").value.Str? && !AllSpace(Get(response, "answer").value.s))
      case CitationsNotList => !(citations.Some? && citations.value.Arr?)
      case CitationNotObject(i) =>
        citations.Some? && citations.value.Arr? && i < |citations.value.items| && !citations.value.items[i].Obj?
      case CitationFieldsMissing(i) =>
        && citations.Some? && citations.value.Arr? && i < |citations.value.items| && citations.value.items[i].Obj?
        && !({"chunk_id", "document_id", "filename", "location_type", "location_start", "location_end", "excerpt", "score"}
             <= Keys(citations.value.items[i].members))
      case _ => false
  {
    ObjectStays(response);
    CitationProblemsMean(ListOf(Get(response, "citations")), p);
    if Get(response, "answer").Some? && Get(response, "answer").value.Str? {
      StripTrims(Get(response, "answer").value.s);
    }
    hide Get, AsObject, Strip, AllSpace, CitationProblems, Keys;
  }

  lemma DecisionProblemsMean(decision: Json, p: Problem)
    ensures
      var flag, count := Get(decision, "has_evidence"), Get(decision, "retrieved_item_count");
      var isFlag, isCount := flag.Some? && flag.value.Bool?, count.Some? && count.value.Int?;
      p in DecisionProblems(decision) <==>
      match p
      case DecisionMissing => !decision.Obj?
      case EvidenceFlagInvalid => !isFlag
      case CountInvalid => !isCount || count.value.n < 0
      case EvidenceFlagDisagrees => isFlag && isCount && (flag.value.b <==> count.value.n <= 0)
      case _ => false
  {
    ObjectStays(decision);
    hide Get, AsObject;
  }

  lemma SufficiencyProblemsMean(sufficiency: Json, count: Option<Json>, p: Problem)
    ensures
      var sufficient, own := Get(sufficiency, "sufficient"), Get(sufficiency, "retrieved_item_count");
      var numbers := Get(sufficiency, "selected_citation_numbers");
      var isList, isOwn := numbers.Some? && numbers.value.Arr?, own.Some? && own.value.Int?;
      p in SufficiencyProblems(sufficiency, count) <==>
      match p
      case SufficiencyMissing => !sufficiency.Obj?
      case SufficientInvalid => !(sufficient.Some? && sufficient.value.Bool?)
      case NumbersNotList => !isList
      case NumbersNotPositive =>
        isList && exists i :: 0 <= i < |numbers.value.items| && !(numbers.value.items[i].Int? && numbers.value.items[i].n >= 1)
      case NumbersRepeat =>
        && isList && (forall i :: 0 <= i < |numbers.value.items| ==> numbers.value.items[i].Int? && numbers.value.items[i].n >= 1)
        && exists i, j :: 0 <= i < j < |numbers.value.items| && numbers.value.items[i] == numbers.value.items[j]
      case SufficiencyCountDisagrees => isOwn && count.Some? && count.value.Int? && own.value.n != count.value.n
      case NumbersOutOfRange =>
        isOwn && isList && exists i :: 0 <= i < |numbers.value.items| && Exceeds(numbers.value.items[i], own.value.n)
      case SufficiencyCountInvalid => own.Some? && own.value != Null && !own.value.Int?
      case _ => false
  {
    ObjectStays(sufficiency);
    NumbersProblemsMean(Get(sufficiency, "selected_citation_numbers"), p);
    CountProblemsMean(Get(sufficiency, "retrieved_item_count"), count, ListOf(Get(sufficiency, "selected_citation_numbers")), p);
    hide Get, AsObject, NumbersProblems, CountProblems, Exceeds;
  }

  lemma NumbersProblemsMean(numbers: Option<Json>, p: Problem)
    ensures
      var isList := numbers.Some? && numbers.value.Arr?;
      p in NumbersProblems(numbers) <==>
      match p
      case NumbersNotList => !isList
      case NumbersNotPositive =>
        isList && exists i :: 0 <= i < |numbers.value.items| && !(numbers.value.items[i].Int? && numbers.value.items[i].n >= 1)
      case NumbersRepeat =>
        && isList && (forall i :: 0 <= i < |numbers.value.items| ==> numbers.value.items[i].Int? && numbers.value.items[i].n >= 1)
        && exists i, j :: 0 <= i < j < |numbers.value.items| && numbers.value.items[i] == numbers.value.items[j]
      case _ => false
  {}

  lemma CountProblemsMean(own: Option<Json>, count: Option<Json>, items: seq<Json>, p: Problem)
    ensures
      var isOwn := own.Some? && own.value.Int?;
      p in CountProblems(own, count, items) <==>
      match p
      case SufficiencyCountDisagrees => isOwn && count.Some? && count.value.Int? && own.value.n != count.value.n
      case NumbersOutOfRange => isOwn && exists i :: 0 <= i < |items| && Exceeds(items[i], own.value.n)
      case SufficiencyCountInvalid => own.Some? && own.value != Null && !own.value.Int?
      case _ => false
  {
    if own.Some? && own.value.Int? {
      forall i | 0 <= i < |items| ensures Above(items[i], own.value.n) <==> Exceeds(items[i], own.value.n) {}
    }
    hide Above, Exceeds;
  }

  /** The check reads the first record of each name, and nothing where there is none; its
      problems are those of the parts. */
  lemma ProblemsAreOfTheParts(outputs: Outputs, response: Json, decision: Json, sufficiency: Json, p: Problem)
    requires ReadsFirst(outputs, "archive_question_response", response) && ReadsFirst(outputs, "archive_question_decision", decision)
    requires ReadsFirst(outputs, "archive_evidence_sufficiency_decision", sufficiency)
    ensures
      p in Problems(outputs) <==>
      || p in ResponseProblems(response) || p in DecisionProblems(decision)
      || p in SufficiencyProblems(sufficiency, Get(decision, "retrieved_item_count"))
      || p in StatusProblems(Get(response, "answer_status"), Get(sufficiency, "sufficient"),
                             ListOf(Get(sufficiency, "selected_citation_numbers")), ListOf(Get(response, "citations")))
  {
    FirstIsRead(outputs, "archive_question_response", response);
    FirstIsRead(outputs, "archive_question_decision", decision);
    FirstIsRead(outputs, "archive_evidence_sufficiency_decision", sufficiency);
    ObjectStays(response);
    ObjectStays(decision);
    ObjectStays(sufficiency);
    hide Find, Get, AsObject, GetOutput, ReadsFirst, ResponseProblems, DecisionProblems, SufficiencyProblems, StatusProblems, ListOf;
  }

  /** The first record of this name holds `j`, or there is none of this name. */
  predicate ReadsFirst(outputs: Outputs, name: string, j: Json) {
    if exists i :: 0 <= i < |outputs| && outputs[i].0 == name then
      exists i :: 0 <= i < |outputs| && outputs[i] == (name, j) && forall k :: 0 <= k < i ==> outputs[k].0 != name
    else j == Null
  }

  lemma FirstIsRead(outputs: Outputs, name: string, j: Json)
    requires ReadsFirst(outputs, name, j)
    ensures GetOutput(outputs, name) == j
  {
    if exists i :: 0 <= i < |outputs| && outputs[i].0 == name {
      var i :| 0 <= i < |outputs| && outputs[i] == (name, j) && forall k :: 0 <= k < i ==> outputs[k].0 != name;
      FindsIt(outputs, i, name);
    } else {
      FindsNothing(outputs, name);
    }
  }

  lemma {:induction false} FindsNothing(members: seq<(string, Json)>, key: string)
    requires forall i :: 0 <= i < |members| ==> members[i].0 != key
    ensures Find(members, key) == None
  {
    if members != [] {
      FindsNothing(members[1..], key);
    }
  }

  /** A number, true and false included, that is greater. */
  predicate Exceeds(j: Json, n: int) {
    || (j.Int? && j.n > n)
    || (j.Float? && j.x > n as real)
    || (j.Bool? && (if j.b then 1 else 0) > n)
  }

  lemma StatusProblemsMean(status: Option<Json>, sufficient: Option<Json>, selected: seq<Json>, citations: seq<Json>, p: Problem)
    ensures
      var answered, refused := status == Some(Str("ANSWERED")), status == Some(Str("REFUSED_NO_EVIDENCE"));
      p in StatusProblems(status, sufficient, selected, citations) <==>
      match p
      case AnsweredWithoutSufficiency => answered && sufficient != Some(Bool(true))
      case AnsweredWithoutCitation => answered && citations == []
      case CitationCountDisagrees => answered && |citations| != |selected|
      case RefusedWithSufficiency => refused && sufficient != Some(Bool(false))
      case RefusedWithNumbers => refused && selected != []
      case RefusedWithCitations => refused && citations != []
      case _ => false
  {}

  // ---- the producer meets the checker -----------------------------------

  lemma RecordsAreFound(items: seq<R.Scored>, d: Decision)
    requires Consistent(items, d)
    ensures
      var outputs := Records(items, d);
      && GetOutput(outputs, "archive_question_decision") == DecisionRecord(items).1
      && GetOutput(outputs, "archive_evidence_sufficiency_decision") ==
         SufficiencyRecord(Strategy(items), d.Answered?, if d.Answered? then d.citations else [], |items|).1
      && GetOutput(outputs, "archive_question_response") == ResponseRecord(ResponseTo(items, d)).1
  {
    hide SufficiencyRecord, ResponseRecord, DecisionRecord, EvidenceRecord, Consistent, Records, ResponseTo, Strategy, Find;
    var outputs := Records(items, d);
    RecordsAreListed(items, d);
    RecordNames(items, d);
    NamesDiffer();
    FindsIt(outputs, 0, "archive_question_decision");
    FindsIt(outputs, |outputs| - 2, "archive_evidence_sufficiency_decision");
    FindsIt(outputs, |outputs| - 1, "archive_question_response");
  }

  lemma RecordNames(items: seq<R.Scored>, d: Decision)
    requires Consistent(items, d)
    ensures DecisionRecord(items).0 == "archive_question_decision"
    ensures SufficiencyRecord(Strategy(items), d.Answered?, if d.Answered? then d.citations else [], |items|).0 ==
            "archive_evidence_sufficiency_decision"
    ensures ResponseRecord(ResponseTo(items, d)).0 == "archive_question_response"
    ensures EvidenceRecord(items).0 == "archive_question_prompt_evidence"
  {}

  lemma NamesDiffer()
    ensures "archive_question_decision" !in {"archive_evidence_sufficiency_decision", "archive_question_response"}
    ensures "archive_question_prompt_evidence" !in {"archive_evidence_sufficiency_decision", "archive_question_response"}
    ensures "archive_evidence_sufficiency_decision" != "archive_question_response"
  {}

  /** The first member of a name is the one found. */
  lemma {:induction false} FindsIt(members: seq<(string, Json)>, i: nat, key: string)
    requires i < |members| && members[i].0 == key
    requires forall j :: 0 <= j < i ==> members[j].0 != key
    ensures Find(members, key) == Some(members[i].1)
  {
    if i > 0 {
      FindsIt(members[1..], i - 1, key);
    }
  }

  lemma {:induction false} DumpsAreComplete(items: seq<R.Scored>)
    ensures CitationProblems(DumpAll(items)) == []
  {
    if items != [] {
      var n := |items| - 1;
      DumpsAreComplete(items[..n]);
      assert DumpAll(items)[..n] == DumpAll(items[..n]);
      DumpHasFields(items[n]);
    }
  }

  lemma DumpHasFields(item: R.Scored)
    ensures REQUIRED_CITATION_FIELDS <= Keys(Dump(item).members)
  {
    var m := Dump(item).members;
    assert m[0] in m && m[1] in m && m[2] in m && m[3] in m && m[4] in m && m[5] in m && m[6] in m && m[7] in m;
  }

  lemma ResponseIsSound(items: seq<R.Scored>, d: Decision)
    requires Consistent(items, d)
    ensures
      var r := ResponseRecord(ResponseTo(items, d)).1;
      && ResponseProblems(r) == []
      && Get(r, "answer_status") == Some(Str(if d.Answered? then "ANSWERED" else "REFUSED_NO_EVIDENCE"))
      && Get(r, "citations") == Some(Arr(DumpAll(ResponseTo(items, d).citations)))
  {
    var response := ResponseTo(items, d);
    ResponseFields(response);
    DumpsAreComplete(response.citations);
    RefusalIsNotBlank();
    hide Find, ResponseRecord, CitationProblems, DumpAll, Strip, Cited;
  }

  lemma ResponseFields(response: Response)
    ensures
      var r := ResponseRecord(response).1;
      && r.Obj?
      && Get(r, "answer_status") == Some(Str(if response.answered then "ANSWERED" else "REFUSED_NO_EVIDENCE"))
      && Get(r, "answer") == Some(Str(response.answer))
      && Get(r, "citations") == Some(Arr(DumpAll(response.citations)))
  {
    hide DumpAll;
    var r := ResponseRecord(response).1;
    FindsIt(r.members, 0, "answer_status");
    FindsIt(r.members, 1, "answer");
    FindsIt(r.members, 2, "citations");
  }

  lemma RefusalIsNotBlank()
    ensures Strip(REFUSAL_ANSWER) != ""
  {
    StripTrims(REFUSAL_ANSWER);
    assert !IsSpace(REFUSAL_ANSWER[0]);
  }

  lemma SufficiencyIsSound(items: seq<R.Scored>, d: Decision)
    requires Consistent(items, d)
    ensures
      var numbers := if d.Answered? then d.citations else [];
      var s := SufficiencyRecord(Strategy(items), d.Answered?, numbers, |items|).1;
      && SufficiencyProblems(s, Some(Int(|items|))) == []
      && Get(s, "sufficient") == Some(Bool(d.Answered?))
      && Get(s, "selected_citation_numbers") == Some(Arr(JsonNumbers(numbers)))
  {
    var numbers := if d.Answered? then d.citations else [];
    SufficiencyFields(Strategy(items), d.Answered?, numbers, |items|);
    NumbersAreSound(numbers, |items|);
    hide JsonNumbers, AllPositive, Repeats, AnyAbove, Find, SufficiencyRecord;
  }

  lemma SufficiencyFields(strategy: string, sufficient: bool, numbers: seq<nat>, count: nat)
    ensures
      var s := SufficiencyRecord(strategy, sufficient, numbers, count).1;
      && s.Obj? && Get(s, "sufficient") == Some(Bool(sufficient))
      && Get(s, "selected_citation_numbers") == Some(Arr(JsonNumbers(numbers)))
      && Get(s, "retrieved_item_count") == Some(Int(count))
  {
    hide JsonNumbers;
    var s := SufficiencyRecord(strategy, sufficient, numbers, count).1;
    FindsIt(s.members, 1, "sufficient");
    FindsIt(s.members, 2, "selected_citation_numbers");
    FindsIt(s.members, 3, "retrieved_item_count");
  }

  lemma NumbersAreSound(numbers: seq<nat>, count: nat)
    requires numbers == [] || CitesCandidates(numbers, count)
    ensures AllPositive(JsonNumbers(numbers)) && !Repeats(JsonNumbers(numbers)) && !AnyAbove(JsonNumbers(numbers), count)
  {}

  lemma DecisionIsSound(items: seq<R.Scored>)
    ensures DecisionProblems(DecisionRecord(items).1) == []
    ensures Get(DecisionRecord(items).1, "retrieved_item_count") == Some(Int(|items|))
  {
    var members := DecisionRecord(items).1.members;
    FindsIt(members, 0, "has_evidence");
    FindsIt(members, 1, "retrieved_item_count");
  }

  /** Whatever was retrieved and whatever the model said: if the service answers, the
      records it leaves meet the contract without a single problem. */
  lemma ProducerMeetsChecker(items: seq<R.Scored>, d: Decision)
    requires Consistent(items, d)
    ensures Problems(Records(items, d)) == [] && !CheckRaises(Records(items, d))
    ensures MeetsContract(Records(items, d))
  {
    RecordsHaveNoProblem(items, d);
    RecordsCompare(items, d);
    NoProblemIffContractMet(Records(items, d));
  }

  lemma RecordsCompare(items: seq<R.Scored>, d: Decision)
    requires Consistent(items, d)
    ensures !CheckRaises(Records(items, d))
  {
    hide *;
    var outputs := Records(items, d);
    StatusIsText(items, d);
    NumbersAreListed(items, d);
    NotRaising(outputs, if d.Answered? then d.citations else [], |items|);
  }

  lemma NotRaising(outputs: Outputs, numbers: seq<nat>, count: nat)
    requires
      var status := Get(GetOutput(outputs, "archive_question_response"), "answer_status");
      status.Some? && status.value.Str?
    requires
      ListOf(Get(GetOutput(outputs, "archive_evidence_sufficiency_decision"), "selected_citation_numbers")) == JsonNumbers(numbers)
    requires numbers == [] || CitesCandidates(numbers, count)
    ensures !CheckRaises(outputs)
  {
    NumbersAreSound(numbers, count);
    PositiveNumbersCompare(JsonNumbers(numbers));
    ObjectStays(GetOutput(outputs, "archive_question_response"));
    ObjectStays(GetOutput(outputs, "archive_evidence_sufficiency_decision"));
    hide GetOutput, Get, AsObject, Incomparable, AllPositive, Repeats, AnyAbove, JsonNumbers, ListOf;
  }

  lemma StatusIsText(items: seq<R.Scored>, d: Decision)
    requires Consistent(items, d)
    ensures
      var status := Get(GetOutput(Records(items, d), "archive_question_response"), "answer_status");
      status.Some? && status.value.Str?
  {
    RecordsAreFound(items, d);
    ResponseIsSound(items, d);
    hide *;
  }

  lemma NumbersAreListed(items: seq<R.Scored>, d: Decision)
    requires Consistent(items, d)
    ensures
      var numbers := if d.Answered? then d.citations else [];
      && ListOf(Get(GetOutput(Records(items, d), "archive_evidence_sufficiency_decision"), "selected_citation_numbers")) ==
         JsonNumbers(numbers)
      && (numbers == [] || CitesCandidates(numbers, |items|))
  {
    RecordsAreFound(items, d);
    SufficiencyIsSound(items, d);
    hide Records, GetOutput, SufficiencyRecord, SufficiencyProblems, JsonNumbers;
  }

  lemma RecordsHaveNoProblem(items: seq<R.Scored>, d: Decision)
    requires Consistent(items, d)
    ensures Problems(Records(items, d)) == []
  {
    RecordsAreFound(items, d);
    ResponseIsSound(items, d);
    DecisionIsSound(items);
    SufficiencyIsSound(items, d);
    hide ResponseProblems, DecisionProblems, SufficiencyProblems, GetOutput, Find, Dump, Strip;
  }

  /** The service followed by the evaluator. */
  method AnswerAndCheck(items: seq<R.Scored>, reply: ModelReply)
    returns (r: Result<Response, AnswerError>, problems: Option<seq<Problem>>)
    ensures r.Success? ==> problems == Some([])
    ensures r.Failure? ==> r.error == ArchiveAnswerUnavailable
  {
    hide Says, Consistent, Problems, CheckRaises, MeetsContract;
    var outputs;
    r, outputs := AnswerArchiveQuestion(items, reply);
    if r.Success? {
      var d :| Consistent(items, d) && r.value == ResponseTo(items, d) && outputs == Records(items, d);
      ProducerMeetsChecker(items, d);
    }
    problems := ArchiveAnswerContract(outputs);
  }

  // ---- document references in the prompt --------------------------------

  function Reference(n: nat): string { "D" + Decimal(n) }

  lemma ReferencesDiffer(m: nat, n: nat)
    requires Reference(m) == Reference(n)
    ensures m == n
  {
    assert Reference(m)[1..] == Decimal(m) && Reference(n)[1..] == Decimal(n);
    DecimalInjective(m, n);
  }

  /** The references `_build_archive_prompt` gives the candidates: two are equal exactly
      when they stand for one document. */
  method DocumentReferences(items: seq<R.Scored>) returns (refs: seq<string>)
    ensures |refs| == |items|
    ensures forall i, j :: 0 <= i < |items| && 0 <= j < |items| ==>
                             (refs[i] == refs[j] <==> items[i].item.documentId == items[j].item.documentId)
  {
    hide Reference;
    refs := [];
    var numbers: map<Uuid, nat> := map[];
    for i := 0 to |items|
      invariant |refs| == i
      invariant forall k :: k in numbers ==> numbers[k] <= |numbers|
      invariant forall k, l :: k in numbers && l in numbers && numbers[k] == numbers[l] ==> k == l
      invariant forall j :: 0 <= j < i ==> items[j].item.documentId in numbers && refs[j] == Reference(numbers[items[j].item.documentId])
    {
      var id := items[i].item.documentId;
      if id !in numbers {
        numbers := numbers[id := |numbers| + 1];
      }
      refs := refs + [Reference(numbers[id])];
    }
    forall i, j | 0 <= i < |items| && 0 <= j < |items|
      ensures refs[i] == refs[j] <==> items[i].item.documentId == items[j].item.documentId
    {
      if refs[i] == refs[j] {
        ReferencesDiffer(numbers[items[i].item.documentId], numbers[items[j].item.documentId]);
      }
    }
  }
}
