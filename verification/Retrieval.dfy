/** Retrieval over the formal archive: validating what the vector store returns,
    ranking it, and cutting it to the answer
    (app/services/archive/retrieval.py). */
module Retrieval {
  import opened Wrappers
  import opened Ordering
  import opened FinalChunks

  // ---- what the vector store returns ------------------------------------

  /** `None` stands for a value that is missing or that its conversion rejects. */
  datatype Metadata = Metadata(
    documentId: Option<Uuid>, filename: Option<string>, locationType: Option<LocationType>,
    locationStart: Option<int>, locationEnd: Option<int>)

  /** One row of the answer; `metadata` is `None` when it is not an object. Distances
      and scores are numbers of which only the order matters. */
  datatype Row = Row(chunkId: string, content: Option<string>, metadata: Option<Metadata>, distance: Option<int>)

  /** The four columns as they arrive. */
  datatype Columns = Columns(
    ids: seq<string>, documents: seq<Option<string>>, metadatas: seq<Option<Metadata>>, distances: seq<Option<int>>)

  datatype Item = Item(
    chunkId: string, documentId: Uuid, filename: string, locationType: LocationType,
    locationStart: nat, locationEnd: nat, excerpt: string)

  datatype Candidate = Candidate(distance: int, item: Item)

  datatype RetrievalError = ValidationError | VectorResultInvalid

  // ---- validation -------------------------------------------------------

  datatype Reading = Skipped | Invalid | Valid(candidate: Candidate)

  /** The body of the loop: a row of a document that is not formal is skipped before
      anything else about it is looked at. */
  function ReadRow(row: Row, formal: set<Uuid>): Reading {
    if row.metadata.None? || row.content.None? then Invalid
    else
      var m := row.metadata.value;
      if m.documentId.None? then Invalid
      else if m.documentId.value !in formal then Skipped
      else if row.distance.None? || m.locationType.None? || m.locationStart.None? || m.locationEnd.None? then Invalid
      else if m.locationStart.value < 1 || m.locationEnd.value < m.locationStart.value then Invalid
      else if m.filename.None? || m.filename.value == "" || row.content.value == "" then Invalid
      else if !(1 <= |row.chunkId| <= 64) then Invalid
      else
        Valid(Candidate(row.distance.value,
                        Item(row.chunkId, m.documentId.value, m.filename.value, m.locationType.value,
                             m.locationStart.value, m.locationEnd.value, row.content.value)))
  }

  function Candidates(rows: seq<Row>, formal: set<Uuid>): seq<Candidate> {
    if rows == [] then []
    else
      var reading := ReadRow(rows[|rows| - 1], formal);
      Candidates(rows[..|rows| - 1], formal) + if reading.Valid? then [reading.candidate] else []
  }

  predicate SameLengths(c: Columns) { |c.ids| == |c.documents| == |c.metadatas| == |c.distances| }

  function Zip(c: Columns): seq<Row>
    requires SameLengths(c)
  {
    seq(|c.ids|, i requires 0 <= i < |c.ids| => Row(c.ids[i], c.documents[i], c.metadatas[i], c.distances[i]))
  }

  // ---- what a row says --------------------------------------------------

  /** The row names a formal document. */
  predicate IsFormalRow(c: Columns, i: nat, formal: set<Uuid>)
    requires SameLengths(c) && i < |c.ids|
  {
    && c.metadatas[i].Some? && c.metadatas[i].value.documentId.Some?
    && c.metadatas[i].value.documentId.value in formal
  }

  /** The row makes the whole call fail: it says nothing, or not whose it is, or it is a
      formal document's and something about it is missing or makes no sense. */
  predicate Spoils(c: Columns, i: nat, formal: set<Uuid>)
    requires SameLengths(c) && i < |c.ids|
  {
    || c.documents[i].None? || c.metadatas[i].None? || c.metadatas[i].value.documentId.None?
    || (&& IsFormalRow(c, i, formal)
        && var m := c.metadatas[i].value;
           || c.documents[i].value == "" || c.ids[i] == "" || |c.ids[i]| > 64 || c.distances[i].None?
           || m.filename in {None, Some("")} || m.locationType.None?
           || m.locationStart.None? || m.locationStart.value < 1
           || m.locationEnd.None? || m.locationEnd.value < m.locationStart.value)
  }

  predicate Unspoilt(c: Columns, formal: set<Uuid>)
    requires SameLengths(c)
  {
    forall i: nat :: i < |c.ids| ==> !Spoils(c, i, formal)
  }

  /** Column by column, the row says this. */
  predicate RowSays(c: Columns, i: nat, distance: int, item: Item)
    requires SameLengths(c) && i < |c.ids|
  {
    && c.ids[i] == item.chunkId && c.documents[i] == Some(item.excerpt) && c.distances[i] == Some(distance)
    && c.metadatas[i] == Some(Metadata(Some(item.documentId), Some(item.filename), Some(item.locationType),
                                       Some(item.locationStart), Some(item.locationEnd)))
  }

  /** The candidates are the rows at these places: the formal ones, in their order. */
  ghost predicate TakenFrom(c: Columns, formal: set<Uuid>, cs: seq<Candidate>, places: seq<nat>)
    requires SameLengths(c)
  {
    && |places| == |cs|
    && (forall j, k :: 0 <= j < k < |places| ==> places[j] < places[k])
    && (forall i: nat :: i in places <==> i < |c.ids| && IsFormalRow(c, i, formal))
    && (forall j :: 0 <= j < |places| ==> places[j] < |c.ids| && RowSays(c, places[j], cs[j].distance, cs[j].item))
  }

  lemma ReadingIs(c: Columns, i: nat, formal: set<Uuid>)
    requires SameLengths(c) && i < |c.ids|
    ensures ReadRow(Zip(c)[i], formal).Invalid? <==> Spoils(c, i, formal)
    ensures !Spoils(c, i, formal) ==> (ReadRow(Zip(c)[i], formal).Valid? <==> IsFormalRow(c, i, formal))
    ensures ReadRow(Zip(c)[i], formal).Valid? ==>
              var x := ReadRow(Zip(c)[i], formal).candidate;
              RowSays(c, i, x.distance, x.item)
  {}

  function FormalPlaces(c: Columns, formal: set<Uuid>, n: nat): (places: seq<nat>)
    requires SameLengths(c) && n <= |c.ids|
  {
    if n == 0 then []
    else FormalPlaces(c, formal, n - 1) + if IsFormalRow(c, n - 1, formal) then [n - 1] else []
  }

  lemma {:induction false} FormalPlacesAre(c: Columns, formal: set<Uuid>, n: nat)
    requires SameLengths(c) && n <= |c.ids|
    requires forall i :: 0 <= i < n ==> !Spoils(c, i, formal)
    ensures
      var places, cs := FormalPlaces(c, formal, n), Candidates(Zip(c)[..n], formal);
      && |places| == |cs|
      && (forall j, k :: 0 <= j < k < |places| ==> places[j] < places[k])
      && (forall i: nat :: i in places <==> i < n && IsFormalRow(c, i, formal))
      && (forall j :: 0 <= j < |places| ==> places[j] < n && RowSays(c, places[j], cs[j].distance, cs[j].item))
  {
    hide ReadRow, IsFormalRow, Spoils, RowSays;
    if n > 0 {
      FormalPlacesAre(c, formal, n - 1);
      ReadingIs(c, n - 1, formal);
      assert Zip(c)[..n][..n - 1] == Zip(c)[..n - 1];
    }
  }

  lemma ReadingsAre(c: Columns, formal: set<Uuid>)
    ensures
      SameLengths(c) ==>
        && ((forall i :: 0 <= i < |c.ids| ==> !ReadRow(Zip(c)[i], formal).Invalid?) <==>
            Unspoilt(c, formal))
        && (Unspoilt(c, formal) ==>
              exists places :: TakenFrom(c, formal, Candidates(Zip(c), formal), places))
  {
    if SameLengths(c) {
      forall i: nat | i < |c.ids| ensures ReadRow(Zip(c)[i], formal).Invalid? <==> Spoils(c, i, formal) {
        ReadingIs(c, i, formal);
      }
      hide ReadRow, Spoils, IsFormalRow, RowSays;
      if Unspoilt(c, formal) {
        FormalPlacesAre(c, formal, |c.ids|);
        assert Zip(c)[..|c.ids|] == Zip(c);
        assert TakenFrom(c, formal, Candidates(Zip(c), formal), FormalPlaces(c, formal, |c.ids|));
      }
    }
  }

  /** `_build_validated_candidates`, after the check of the column lengths. */
  method BuildValidatedCandidates(c: Columns, formal: set<Uuid>) returns (r: Result<seq<Candidate>, RetrievalError>)
    ensures r.Success? <==> SameLengths(c) && forall i :: 0 <= i < |c.ids| ==> !ReadRow(Zip(c)[i], formal).Invalid?
    ensures r.Success? ==> r.value == Candidates(Zip(c), formal)
    ensures r.Failure? ==> r.error == VectorResultInvalid
    ensures r.Success? <==> SameLengths(c) && Unspoilt(c, formal)
    ensures r.Success? ==> exists places :: TakenFrom(c, formal, r.value, places)
  {
    ReadingsAre(c, formal);
    hide ReadRow, Spoils, TakenFrom, IsFormalRow, RowSays;
    if !SameLengths(c) {
      return Failure(VectorResultInvalid);
    }
    var candidates: seq<Candidate> := [];
    for i := 0 to |c.ids|
      invariant forall j :: 0 <= j < i ==> !ReadRow(Zip(c)[j], formal).Invalid?
      invariant candidates == Candidates(Zip(c)[..i], formal)
    {
      assert Zip(c)[..i + 1][..i] == Zip(c)[..i];
      var reading := ReadRow(Row(c.ids[i], c.documents[i], c.metadatas[i], c.distances[i]), formal);
      match reading {
        case Skipped =>
        case Invalid =>
          assert ReadRow(Zip(c)[i], formal).Invalid?;
          return Failure(VectorResultInvalid);
        case Valid(candidate) =>
          candidates := candidates + [candidate];
      }
    }
    assert Zip(c)[..|c.ids|] == Zip(c);
    r := Success(candidates);
  }

  /** Whatever the vector store holds and returns, a candidate belongs to a formal
      document and has a usable place. */
  lemma {:induction false} CandidatesAreFormal(rows: seq<Row>, formal: set<Uuid>, c: Candidate)
    requires c in Candidates(rows, formal)
    ensures c.item.documentId in formal && 1 <= c.item.locationStart <= c.item.locationEnd
    ensures exists row :: row in rows && ReadRow(row, formal) == Valid(c)
  {
    hide ReadRow;
    var n := |rows| - 1;
    if c in Candidates(rows[..n], formal) {
      CandidatesAreFormal(rows[..n], formal, c);
      var row :| row in rows[..n] && ReadRow(row, formal) == Valid(c);
      assert row in rows;
    } else {
      assert rows[n] in rows && ReadRow(rows[n], formal) == Valid(c);
      ValidRowsAreFormal(rows[n], formal);
    }
  }

  lemma ValidRowsAreFormal(row: Row, formal: set<Uuid>)
    ensures ReadRow(row, formal).Valid? ==>
              var item := ReadRow(row, formal).candidate.item;
              item.documentId in formal && 1 <= item.locationStart <= item.locationEnd && item.chunkId == row.chunkId
  {}

  // ---- order ------------------------------------------------------------

  /** Code point by code point, as Python compares strings. */
  predicate TextLeq(a: string, b: string) {
    a == "" || (b != "" && (a[0] < b[0] || (a[0] == b[0] && TextLeq(a[1..], b[1..]))))
  }

  lemma {:induction false} TextTotal(a: string, b: string)
    ensures TextLeq(a, b) || TextLeq(b, a)
    ensures TextLeq(a, b) && TextLeq(b, a) ==> a == b
  {
    if a != "" && b != "" {
      TextTotal(a[1..], b[1..]);
      assert a == [a[0]] + a[1..] && b == [b[0]] + b[1..];
    }
  }

  /** The texts agree before place `k`, and there the first is smaller. */
  predicate SmallerAt(a: string, b: string, k: nat) { k < |a| && k < |b| && a[..k] == b[..k] && a[k] < b[k] }

  lemma {:induction false} SmallerComesFirst(a: string, b: string, k: nat)
    requires SmallerAt(a, b, k)
    ensures TextLeq(a, b)
  {
    if k > 0 {
      assert a[0] == a[..k][0] == b[..k][0] == b[0];
      assert a[1..][..k - 1] == a[..k][1..] && b[1..][..k - 1] == b[..k][1..];
      SmallerComesFirst(a[1..], b[1..], k - 1);
    }
  }

  lemma {:induction false} PrefixComesFirst(a: string, b: string)
    requires |a| <= |b| && a == b[..|a|]
    ensures TextLeq(a, b)
  {
    if a != "" {
      assert a[0] == b[..|a|][0] && a[1..] == b[1..][..|a| - 1];
      PrefixComesFirst(a[1..], b[1..]);
    }
  }

  lemma PrefixOfTails(a: string, b: string)
    requires a != "" && b != "" && a[0] == b[0]
    ensures |a| <= |b| && a[1..] == b[1..][..|a| - 1] ==> a == b[..|a|]
  {
    if |a| <= |b| && a[1..] == b[1..][..|a| - 1] {
      assert a == [a[0]] + a[1..] && b[..|a|] == [b[0]] + b[1..][..|a| - 1];
    }
  }

  /** One text starts with the other, or is smaller at the first place they differ. */
  lemma {:induction false} TextLeqIs(a: string, b: string)
    ensures TextLeq(a, b) <==> (|a| <= |b| && a == b[..|a|]) || exists k: nat :: SmallerAt(a, b, k)
  {
    if |a| <= |b| && a == b[..|a|] {
      PrefixComesFirst(a, b);
    } else if k: nat :| SmallerAt(a, b, k) {
      SmallerComesFirst(a, b, k);
    } else if TextLeq(a, b) {
      if a != "" && a[0] == b[0] {
        TextLeqIs(a[1..], b[1..]);
        assert a == [a[0]] + a[1..] && b == [b[0]] + b[1..];
        if k: nat :| SmallerAt(a[1..], b[1..], k) {
          assert a[..k + 1] == [a[0]] + a[1..][..k] && b[..k + 1] == [b[0]] + b[1..][..k];
          assert SmallerAt(a, b, k + 1);
        }
        PrefixOfTails(a, b);
      } else {
        assert a == "" || SmallerAt(a, b, 0);
      }
    }
  }

  lemma {:induction false} TextTransitive(a: string, b: string, c: string)
    requires TextLeq(a, b) && TextLeq(b, c)
    ensures TextLeq(a, c)
  {
    if a != "" && a[0] == b[0] && b[0] == c[0] {
      TextTransitive(a[1..], b[1..], c[1..]);
    }
  }

  /** A candidate with its reranker score. */
  datatype Scored = Scored(score: int, distance: int, item: Item)

  /** Sorting key of the public order: falling score, then distance, then chunk id. */
  predicate ScoredLeq(a: Scored, b: Scored) {
    || a.score > b.score
    || (a.score == b.score && (a.distance < b.distance || (a.distance == b.distance && TextLeq(a.item.chunkId, b.item.chunkId))))
  }

  /** Sorting key of the dense order: distance, then chunk id. */
  predicate DenseLeq(a: Candidate, b: Candidate) {
    a.distance < b.distance || (a.distance == b.distance && TextLeq(a.item.chunkId, b.item.chunkId))
  }

  lemma ScoredOrders()
    ensures Orders(ScoredLeq)
  {
    forall x, y ensures ScoredLeq(x, y) || ScoredLeq(y, x) {
      TextTotal(x.item.chunkId, y.item.chunkId);
    }
    forall x, y, z | ScoredLeq(x, y) && ScoredLeq(y, z) ensures ScoredLeq(x, z) {
      if TextLeq(x.item.chunkId, y.item.chunkId) && TextLeq(y.item.chunkId, z.item.chunkId) {
        TextTransitive(x.item.chunkId, y.item.chunkId, z.item.chunkId);
      }
    }
  }

  lemma DenseOrders()
    ensures Orders(DenseLeq)
  {
    forall x, y ensures DenseLeq(x, y) || DenseLeq(y, x) {
      TextTotal(x.item.chunkId, y.item.chunkId);
    }
    forall x, y, z | DenseLeq(x, y) && DenseLeq(y, z) ensures DenseLeq(x, z) {
      if TextLeq(x.item.chunkId, y.item.chunkId) && TextLeq(y.item.chunkId, z.item.chunkId) {
        TextTransitive(x.item.chunkId, y.item.chunkId, z.item.chunkId);
      }
    }
  }

  // ---- scoring, ranking, cutting ----------------------------------------

  /** The reranker scores one excerpt at a time. */
  type Reranker = string -> int

  function ScoreOne(reranker: Reranker, c: Candidate): Scored { Scored(reranker(c.item.excerpt), c.distance, c.item) }

  function ScoreAll(reranker: Reranker, cs: seq<Candidate>): seq<Scored> {
    seq(|cs|, i requires 0 <= i < |cs| => ScoreOne(reranker, cs[i]))
  }

  /** `_score_and_order_candidates`. */
  function Ranked(reranker: Reranker, cs: seq<Candidate>): seq<Scored> {
    SortBy(ScoredLeq, ScoreAll(reranker, cs))
  }

  function AtLeast(s: seq<Scored>, threshold: Option<int>): seq<Scored> {
    if s == [] then []
    else (if threshold.None? || s[0].score >= threshold.value then [s[0]] else []) + AtLeast(s[1..], threshold)
  }

  function Take<T>(s: seq<T>, k: nat): seq<T> { if |s| <= k then s else s[..k] }

  /** `retrieve_archive_chunks` after the query: rank, filter by the threshold, cut. */
  function PublicResult(reranker: Reranker, cs: seq<Candidate>, threshold: Option<int>, topK: nat): seq<Scored> {
    Take(AtLeast(Ranked(reranker, cs), threshold), topK)
  }

  datatype Diagnostic = Diagnostic(chunkId: string, denseRank: nat, denseDistance: int, rerankerRank: nat, rerankerScore: int)

  /** The last place of each id, counted from one. */
  function RankMap(ids: seq<string>): map<string, nat> {
    if ids == [] then map[] else RankMap(ids[..|ids| - 1])[ids[|ids| - 1] := |ids|]
  }

  function DenseIds(cs: seq<Candidate>): seq<string> { seq(|cs|, i requires 0 <= i < |cs| => cs[i].item.chunkId) }

  function ScoredIds(s: seq<Scored>): seq<string> { seq(|s|, i requires 0 <= i < |s| => s[i].item.chunkId) }

  predicate DistinctChunks(cs: seq<Candidate>) {
    forall i, j :: 0 <= i < j < |cs| ==> cs[i].item.chunkId != cs[j].item.chunkId
  }

  /** The entry of one candidate, from the two rank tables. */
  function DiagnosticOf(reranker: Reranker, c: Candidate, denseRanks: map<string, nat>, ranks: map<string, nat>): Diagnostic
    requires c.item.chunkId in denseRanks && c.item.chunkId in ranks
  {
    Diagnostic(c.item.chunkId, denseRanks[c.item.chunkId], c.distance, ranks[c.item.chunkId], reranker(c.item.excerpt))
  }

  ghost predicate Describes(reranker: Reranker, cs: seq<Candidate>, i: nat, d: Diagnostic) {
    var dense := SortBy(DenseLeq, cs);
    && i < |dense|
    && d.chunkId == dense[i].item.chunkId && d.denseRank == i + 1 && d.denseDistance == dense[i].distance
    && RankedAt(reranker, cs, d)
  }

  /** The two tables give each candidate its places in the two orders. */
  lemma TablesGivePlaces(reranker: Reranker, cs: seq<Candidate>, i: nat)
    requires DistinctChunks(cs) && i < |SortBy(DenseLeq, cs)|
    ensures
      var c := SortBy(DenseLeq, cs)[i];
      var denseRanks, ranks := RankMap(DenseIds(SortBy(DenseLeq, cs))), RankMap(ScoredIds(Ranked(reranker, cs)));
      && c.item.chunkId in denseRanks && c.item.chunkId in ranks
      && Describes(reranker, cs, i, DiagnosticOf(reranker, c, denseRanks, ranks))
  {
    var dense := SortBy(DenseLeq, cs);
    SortByElements(DenseLeq, cs);
    assert dense[i] in multiset(cs);
    var j := PlaceOf(reranker, cs, dense[i]);
    DenseRankIsPlace(cs, i);
    RankIsPlace(reranker, cs, j);
  }

  /** `retrieve_archive_diagnostics` after the query: one entry for each candidate in
      dense order, with its place in either order. */
  method Diagnose(reranker: Reranker, cs: seq<Candidate>) returns (diagnostics: seq<Diagnostic>)
    requires DistinctChunks(cs)
    ensures Diagnosed(reranker, cs, diagnostics)
  {
    hide DistinctChunks, Describes, RankMap;
    var ranked := Ranked(reranker, cs);
    var dense := SortBy(DenseLeq, cs);
    SortByElements(DenseLeq, cs);
    hide SortBy, Ranked;
    var denseRanks := RankMap(DenseIds(dense));
    var ranks := RankMap(ScoredIds(ranked));
    diagnostics := [];
    for i := 0 to |dense|
      invariant |diagnostics| == i
      invariant forall j :: 0 <= j < i ==> Describes(reranker, cs, j, diagnostics[j])
    {
      TablesGivePlaces(reranker, cs, i);
      diagnostics := diagnostics + [DiagnosticOf(reranker, dense[i], denseRanks, ranks)];
    }
  }

  /** The diagnostic is about the candidate in the public order's place of that rank. */
  predicate RankedAt(reranker: Reranker, cs: seq<Candidate>, d: Diagnostic) {
    var ranked := Ranked(reranker, cs);
    && 1 <= d.rerankerRank <= |ranked|
    && ranked[d.rerankerRank - 1].item.chunkId == d.chunkId
    && ranked[d.rerankerRank - 1].score == d.rerankerScore
    && ranked[d.rerankerRank - 1].distance == d.denseDistance
  }

  predicate DistinctTexts(ids: seq<string>) { forall i, j :: 0 <= i < j < |ids| ==> ids[i] != ids[j] }

  /** With distinct ids the ranks are the numbers from 1 on, each once. */
  lemma {:induction false} RankMapIsBijective(ids: seq<string>)
    requires DistinctTexts(ids)
    ensures RankMap(ids).Keys == set i | i in ids
    ensures forall i :: 0 <= i < |ids| ==> ids[i] in RankMap(ids) && RankMap(ids)[ids[i]] == i + 1
  {
    if ids != [] {
      RankMapIsBijective(ids[..|ids| - 1]);
      assert forall i :: 0 <= i < |ids| - 1 ==> ids[..|ids| - 1][i] == ids[i];
      assert forall x :: x in ids <==> x in ids[..|ids| - 1] || x == ids[|ids| - 1];
    }
  }

  // ---- distinct chunks stay distinct ------------------------------------

  lemma {:induction false} MultiplicityOne<T(!new)>(s: seq<T>, x: T)
    requires forall i, j :: 0 <= i < j < |s| ==> s[i] != s[j]
    ensures multiset(s)[x] <= 1
  {
    if s != [] {
      assert s == [s[0]] + s[1..];
      MultiplicityOne(s[1..], x);
      if x == s[0] {
        forall i | 0 <= i < |s[1..]| ensures s[1..][i] != s[0] {
          assert s[1..][i] == s[i + 1];
        }
      }
    }
  }

  lemma TwicePresent<T(!new)>(s: seq<T>, i: nat, j: nat)
    requires i < j < |s| && s[i] == s[j]
    ensures multiset(s)[s[i]] >= 2
  {
    assert s == s[..i] + [s[i]] + s[i + 1..];
    assert s[j] == s[i + 1..][j - i - 1];
    assert s[j] in s[i + 1..];
  }

  /** A reordering of distinct chunks is distinct. */
  lemma DistinctPermuted(cs: seq<Candidate>, ds: seq<Candidate>)
    requires DistinctChunks(cs) && multiset(cs) == multiset(ds)
    ensures DistinctChunks(ds)
  {
    forall i, j | 0 <= i < j < |ds| ensures ds[i].item.chunkId != ds[j].item.chunkId {
      assert ds[i] in multiset(cs) && ds[j] in multiset(cs);
      if ds[i] == ds[j] {
        TwicePresent(ds, i, j);
        MultiplicityOne(cs, ds[i]);
      }
      var a :| 0 <= a < |cs| && cs[a] == ds[i];
      var b :| 0 <= b < |cs| && cs[b] == ds[j];
    }
  }

  lemma DenseRankIsPlace(cs: seq<Candidate>, i: nat)
    requires DistinctChunks(cs) && i < |SortBy(DenseLeq, cs)|
    ensures
      var dense := SortBy(DenseLeq, cs);
      var ranks := RankMap(DenseIds(dense));
      dense[i].item.chunkId in ranks && ranks[dense[i].item.chunkId] == i + 1
  {
    var dense := SortBy(DenseLeq, cs);
    SortByElements(DenseLeq, cs);
    DistinctPermuted(cs, dense);
    hide SortBy;
    RankMapIsBijective(DenseIds(dense));
    assert DenseIds(dense)[i] == dense[i].item.chunkId;
  }

  /** Scoring, stripped of scores. */
  function Unscored(s: Scored): Candidate { Candidate(s.distance, s.item) }

  function AllUnscored(s: seq<Scored>): seq<Candidate> { seq(|s|, i requires 0 <= i < |s| => Unscored(s[i])) }

  lemma {:induction false} UnscoredInsert(x: Scored, s: seq<Scored>)
    ensures multiset(AllUnscored(InsertBy(ScoredLeq, x, s))) == multiset(AllUnscored(s)) + multiset{Unscored(x)}
  {
    if s == [] || ScoredLeq(x, s[0]) {
      assert AllUnscored([x] + s) == [Unscored(x)] + AllUnscored(s);
    } else {
      UnscoredInsert(x, s[1..]);
      assert AllUnscored([s[0]] + InsertBy(ScoredLeq, x, s[1..])) == [Unscored(s[0])] + AllUnscored(InsertBy(ScoredLeq, x, s[1..]));
      assert AllUnscored(s) == [Unscored(s[0])] + AllUnscored(s[1..]);
    }
  }

  lemma {:induction false} UnscoredSort(s: seq<Scored>)
    ensures multiset(AllUnscored(SortBy(ScoredLeq, s))) == multiset(AllUnscored(s))
  {
    if s != [] {
      UnscoredSort(s[1..]);
      UnscoredInsert(s[0], SortBy(ScoredLeq, s[1..]));
      assert AllUnscored(s) == [Unscored(s[0])] + AllUnscored(s[1..]);
    }
  }

  /** Ranking keeps every candidate, with its score. */
  lemma RankedIsComplete(reranker: Reranker, cs: seq<Candidate>)
    ensures multiset(AllUnscored(Ranked(reranker, cs))) == multiset(cs)
    ensures |Ranked(reranker, cs)| == |cs|
    ensures forall s :: s in Ranked(reranker, cs) ==> s.score == reranker(s.item.excerpt) && Unscored(s) in cs
    ensures forall c :: c in cs ==> ScoreOne(reranker, c) in Ranked(reranker, cs)
  {
    var scored := ScoreAll(reranker, cs);
    SortByElements(ScoredLeq, scored);
    UnscoredSort(scored);
    assert AllUnscored(scored) == cs;
    forall s | s in Ranked(reranker, cs) ensures s.score == reranker(s.item.excerpt) && Unscored(s) in cs {
      assert s in multiset(scored);
      var i :| 0 <= i < |scored| && scored[i] == s;
      assert Unscored(s) == cs[i];
    }
    forall c | c in cs ensures ScoreOne(reranker, c) in Ranked(reranker, cs) {
      var i :| 0 <= i < |cs| && cs[i] == c;
      assert scored[i] == ScoreOne(reranker, c);
      assert scored[i] in multiset(Ranked(reranker, cs));
    }
  }

  lemma PlaceOf(reranker: Reranker, cs: seq<Candidate>, c: Candidate) returns (j: nat)
    requires c in cs
    ensures j < |Ranked(reranker, cs)| && Ranked(reranker, cs)[j] == ScoreOne(reranker, c)
  {
    RankedIsComplete(reranker, cs);
    hide Ranked;
    j :| 0 <= j < |Ranked(reranker, cs)| && Ranked(reranker, cs)[j] == ScoreOne(reranker, c);
  }

  lemma RankIsPlace(reranker: Reranker, cs: seq<Candidate>, j: nat)
    requires DistinctChunks(cs) && j < |Ranked(reranker, cs)|
    ensures
      var ranked := Ranked(reranker, cs);
      var ranks := RankMap(ScoredIds(ranked));
      ranked[j].item.chunkId in ranks && ranks[ranked[j].item.chunkId] == j + 1
  {
    var ranked := Ranked(reranker, cs);
    RankedIsComplete(reranker, cs);
    DistinctPermuted(cs, AllUnscored(ranked));
    hide Ranked;
    forall a, b | 0 <= a < b < |ranked| ensures ScoredIds(ranked)[a] != ScoredIds(ranked)[b] {
      assert AllUnscored(ranked)[a].item.chunkId != AllUnscored(ranked)[b].item.chunkId;
    }
    RankMapIsBijective(ScoredIds(ranked));
    assert ScoredIds(ranked)[j] == ranked[j].item.chunkId;
  }

  // ---- the public result refines the diagnostic view --------------------

  lemma {:induction false} NoThresholdKeepsAll(s: seq<Scored>)
    ensures AtLeast(s, None) == s
  {
    if s != [] {
      NoThresholdKeepsAll(s[1..]);
    }
  }

  lemma PublicResultIsPrefix(reranker: Reranker, cs: seq<Candidate>, topK: nat)
    ensures PublicResult(reranker, cs, None, topK) == Take(Ranked(reranker, cs), topK)
    ensures |PublicResult(reranker, cs, None, topK)| == if |cs| <= topK then |cs| else topK
  {
    NoThresholdKeepsAll(Ranked(reranker, cs));
    RankedIsComplete(reranker, cs);
  }

  /** A diagnosed candidate stands in the public order at its rank, and nowhere else. */
  lemma OnlyPlace(reranker: Reranker, cs: seq<Candidate>, diagnostics: seq<Diagnostic>, d: Diagnostic)
    requires Diagnosed(reranker, cs, diagnostics) && d in diagnostics
    ensures 1 <= d.rerankerRank <= |Ranked(reranker, cs)|
    ensures forall i :: 0 <= i < |Ranked(reranker, cs)| ==>
                          (Ranked(reranker, cs)[i].item.chunkId == d.chunkId <==> i == d.rerankerRank - 1)
  {
    var k :| 0 <= k < |diagnostics| && diagnostics[k] == d;
    assert Describes(reranker, cs, k, d);
    hide Ranked, SortBy, DistinctChunks, RankMap;
    forall i | 0 <= i < |Ranked(reranker, cs)|
      ensures Ranked(reranker, cs)[i].item.chunkId == d.chunkId <==> i == d.rerankerRank - 1
    {
      RankIsPlace(reranker, cs, i);
      RankIsPlace(reranker, cs, d.rerankerRank - 1);
    }
  }

  /** Without a threshold the public result is exactly the candidates the diagnosis
      gives a reranker rank of at most `topK`, in the order of their ranks. */
  lemma PublicResultIsTopRanks(reranker: Reranker, cs: seq<Candidate>, topK: nat, diagnostics: seq<Diagnostic>, d: Diagnostic)
    requires Diagnosed(reranker, cs, diagnostics) && d in diagnostics
    ensures
      var result := PublicResult(reranker, cs, None, topK);
      && |result| == (if |cs| <= topK then |cs| else topK)
      && (d.rerankerRank <= topK <==> exists s :: s in result && s.item.chunkId == d.chunkId)
      && (d.rerankerRank <= topK ==>
            1 <= d.rerankerRank <= |result| && result[d.rerankerRank - 1].item.chunkId == d.chunkId)
  {
    hide Ranked, PublicResult, Diagnosed;
    PublicResultIsPrefix(reranker, cs, topK);
    OnlyPlace(reranker, cs, diagnostics, d);
    var ranked := Ranked(reranker, cs);
    var result := Take(ranked, topK);
    if d.rerankerRank <= topK {
      assert result[d.rerankerRank - 1] in result;
    }
    if s :| s in result && s.item.chunkId == d.chunkId {
      var i :| 0 <= i < |result| && result[i] == s;
      assert ranked[i] == s;
    }
  }

  predicate HasRank(diagnostics: seq<Diagnostic>, r: int) {
    exists i :: 0 <= i < |diagnostics| && diagnostics[i].rerankerRank == r
  }

  ghost predicate Diagnosed(reranker: Reranker, cs: seq<Candidate>, diagnostics: seq<Diagnostic>) {
    && DistinctChunks(cs) && |diagnostics| == |cs|
    && forall i :: 0 <= i < |diagnostics| ==> Describes(reranker, cs, i, diagnostics[i])
  }

  lemma EveryRankIsGiven(reranker: Reranker, cs: seq<Candidate>, diagnostics: seq<Diagnostic>, r: nat)
    requires Diagnosed(reranker, cs, diagnostics) && 1 <= r <= |cs|
    ensures HasRank(diagnostics, r)
  {
    var dense, ranked := SortBy(DenseLeq, cs), Ranked(reranker, cs);
    SortByElements(DenseLeq, cs);
    RankedIsComplete(reranker, cs);
    hide SortBy, Ranked, DistinctChunks;
    assert ranked[r - 1] in ranked;
    assert Unscored(ranked[r - 1]) in multiset(dense);
    var i :| 0 <= i < |dense| && dense[i] == Unscored(ranked[r - 1]);
    assert Describes(reranker, cs, i, diagnostics[i]);
    RankIsPlace(reranker, cs, r - 1);
    RankIsPlace(reranker, cs, diagnostics[i].rerankerRank - 1);
  }

  /** Both columns of ranks number the candidates from 1 on, each number once. */
  lemma RanksAreBijective(reranker: Reranker, cs: seq<Candidate>, diagnostics: seq<Diagnostic>)
    requires Diagnosed(reranker, cs, diagnostics)
    ensures forall i :: 0 <= i < |diagnostics| ==> diagnostics[i].denseRank == i + 1
    ensures forall i :: 0 <= i < |diagnostics| ==> 1 <= diagnostics[i].rerankerRank <= |cs|
    ensures forall r :: 1 <= r <= |cs| ==> HasRank(diagnostics, r)
    ensures forall i, j :: 0 <= i < j < |diagnostics| ==> diagnostics[i].rerankerRank != diagnostics[j].rerankerRank
  {
    var dense := SortBy(DenseLeq, cs);
    SortByElements(DenseLeq, cs);
    DistinctPermuted(cs, dense);
    RankedIsComplete(reranker, cs);
    hide SortBy, Ranked;
    forall i | 0 <= i < |diagnostics| ensures diagnostics[i].denseRank == i + 1 && 1 <= diagnostics[i].rerankerRank <= |cs| {
      assert Describes(reranker, cs, i, diagnostics[i]);
    }
    forall i, j | 0 <= i < j < |diagnostics| ensures diagnostics[i].rerankerRank != diagnostics[j].rerankerRank {
      assert Describes(reranker, cs, i, diagnostics[i]) && Describes(reranker, cs, j, diagnostics[j]);
      assert dense[i].item.chunkId != dense[j].item.chunkId;
    }
    forall r | 1 <= r <= |cs| ensures HasRank(diagnostics, r) {
      EveryRankIsGiven(reranker, cs, diagnostics, r);
    }
  }

  /** Of two candidates, which the vector store found nearer. */
  predicate Nearer(a: Candidate, b: Candidate) {
    || a.distance < b.distance
    || (a.distance == b.distance && a.item.chunkId != b.item.chunkId && TextLeq(a.item.chunkId, b.item.chunkId))
  }

  /** Of two candidates, whose text the reranker prefers. */
  predicate Preferred(reranker: Reranker, a: Candidate, b: Candidate) {
    || reranker(a.item.excerpt) > reranker(b.item.excerpt)
    || (reranker(a.item.excerpt) == reranker(b.item.excerpt) && Nearer(a, b))
  }

  function NearerOnes(cs: seq<Candidate>, c: Candidate): set<Candidate> { set x | x in cs && Nearer(x, c) }

  function PreferredOnes(reranker: Reranker, cs: seq<Candidate>, c: Candidate): set<Candidate> {
    set x | x in cs && Preferred(reranker, x, c)
  }

  lemma DenseBefore(cs: seq<Candidate>, i: nat)
    requires DistinctChunks(cs) && i < |SortBy(DenseLeq, cs)|
    ensures |NearerOnes(cs, SortBy(DenseLeq, cs)[i])| == i
  {
    var dense := SortBy(DenseLeq, cs);
    DenseOrders();
    SortBySorts(DenseLeq, cs);
    DistinctPermuted(cs, dense);
    assert Sorted(DenseLeq, dense);
    hide SortBy, Orders;
    forall j, k | 0 <= j < k < |dense| ensures dense[j] != dense[k] && Nearer(dense[j], dense[k]) && !Nearer(dense[k], dense[j]) {
      assert DenseLeq(dense[j], dense[k]);
      TextTotal(dense[j].item.chunkId, dense[k].item.chunkId);
    }
    hide Nearer;
    assert !Nearer(dense[i], dense[i]) by { NotNearerItself(dense[i]); }
    PlaceCounts(Nearer, dense, i);
    assert Before(Nearer, dense, dense[i]) == NearerOnes(cs, dense[i]);
  }

  lemma NotNearerItself(c: Candidate)
    ensures !Nearer(c, c)
  {}

  lemma RankedBefore(reranker: Reranker, cs: seq<Candidate>, i: nat)
    requires DistinctChunks(cs) && i < |Ranked(reranker, cs)|
    ensures |PreferredOnes(reranker, cs, Unscored(Ranked(reranker, cs)[i]))| == i
  {
    var ranked := Ranked(reranker, cs);
    var order := AllUnscored(ranked);
    ScoredOrders();
    SortBySorts(ScoredLeq, ScoreAll(reranker, cs));
    RankedIsComplete(reranker, cs);
    DistinctPermuted(cs, order);
    OrderIs(ranked);
    assert Sorted(ScoredLeq, ranked);
    hide Ranked, Orders, AllUnscored, Preferred;
    forall j, k | 0 <= j < k < |order|
      ensures order[j] != order[k] && Preferred(reranker, order[j], order[k]) && !Preferred(reranker, order[k], order[j])
    {
      assert ScoredLeq(ranked[j], ranked[k]);
      PreferredIff(reranker, ranked[j], ranked[k]);
    }
    var preferred := (x, y) => Preferred(reranker, x, y);
    assert !preferred(order[i], order[i]) by { NotPreferredToItself(reranker, order[i]); }
    PlaceCounts(preferred, order, i);
    forall x ensures x in order <==> x in cs {
      assert x in multiset(order) <==> x in multiset(cs);
    }
    assert Before(preferred, order, order[i]) == PreferredOnes(reranker, cs, order[i]);
  }

  lemma PreferredIff(reranker: Reranker, a: Scored, b: Scored)
    requires a.score == reranker(a.item.excerpt) && b.score == reranker(b.item.excerpt)
    requires a.item.chunkId != b.item.chunkId && ScoredLeq(a, b)
    ensures Preferred(reranker, Unscored(a), Unscored(b)) && !Preferred(reranker, Unscored(b), Unscored(a))
  {
    TextTotal(a.item.chunkId, b.item.chunkId);
  }

  lemma NotPreferredToItself(reranker: Reranker, c: Candidate)
    ensures !Preferred(reranker, c, c)
  {}

  lemma OrderIs(ranked: seq<Scored>)
    ensures |AllUnscored(ranked)| == |ranked|
    ensures forall j :: 0 <= j < |ranked| ==> AllUnscored(ranked)[j] == Unscored(ranked[j]) && ranked[j] in ranked
  {}

  /** The entry is about this candidate: its id, its distance, the score of its text, and
      how many candidates come before it in either order. */
  ghost predicate Tells(reranker: Reranker, cs: seq<Candidate>, d: Diagnostic, c: Candidate) {
    && d.chunkId == c.item.chunkId && d.denseDistance == c.distance && d.rerankerScore == reranker(c.item.excerpt)
    && d.denseRank == 1 + |NearerOnes(cs, c)|
    && d.rerankerRank == 1 + |PreferredOnes(reranker, cs, c)|
  }

  /** The diagnosis has one entry for each candidate, the nearest first, and each entry
      says of its candidate how many come before it in either order. */
  lemma DiagnosesTell(reranker: Reranker, cs: seq<Candidate>, diagnostics: seq<Diagnostic>)
    requires Diagnosed(reranker, cs, diagnostics)
    ensures |diagnostics| == |cs|
    ensures forall i :: 0 <= i < |diagnostics| ==>
              diagnostics[i].denseRank == i + 1 && exists c :: c in cs && Tells(reranker, cs, diagnostics[i], c)
    ensures forall c :: c in cs ==> exists i :: 0 <= i < |diagnostics| && Tells(reranker, cs, diagnostics[i], c)
  {
    var dense := SortBy(DenseLeq, cs);
    SortByElements(DenseLeq, cs);
    RankedIsComplete(reranker, cs);
    forall i | 0 <= i < |diagnostics| ensures dense[i] in cs && Tells(reranker, cs, diagnostics[i], dense[i]) {
      EntryTells(reranker, cs, diagnostics, i);
    }
    hide SortBy, Ranked, Tells;
    forall i | 0 <= i < |diagnostics| ensures diagnostics[i].denseRank == i + 1 {
      assert Describes(reranker, cs, i, diagnostics[i]);
    }
    forall c | c in cs ensures exists i :: 0 <= i < |diagnostics| && Tells(reranker, cs, diagnostics[i], c) {
      assert c in multiset(dense);
      var i :| 0 <= i < |dense| && dense[i] == c;
      assert Tells(reranker, cs, diagnostics[i], dense[i]);
    }
  }

  lemma EntryTells(reranker: Reranker, cs: seq<Candidate>, diagnostics: seq<Diagnostic>, i: nat)
    requires Diagnosed(reranker, cs, diagnostics) && i < |diagnostics| == |SortBy(DenseLeq, cs)|
    ensures SortBy(DenseLeq, cs)[i] in cs && Tells(reranker, cs, diagnostics[i], SortBy(DenseLeq, cs)[i])
  {
    var dense, d := SortBy(DenseLeq, cs), diagnostics[i];
    assert Describes(reranker, cs, i, d);
    SortByElements(DenseLeq, cs);
    assert dense[i] in multiset(cs);
    DenseBefore(cs, i);
    var ranked := Ranked(reranker, cs);
    RankedBefore(reranker, cs, d.rerankerRank - 1);
    RankedIsComplete(reranker, cs);
    hide SortBy, Ranked;
    assert ranked[d.rerankerRank - 1] in ranked;
    assert Unscored(ranked[d.rerankerRank - 1]) in cs;
    SameChunk(cs, Unscored(ranked[d.rerankerRank - 1]), dense[i]);
  }

  lemma SameChunk(cs: seq<Candidate>, a: Candidate, b: Candidate)
    requires DistinctChunks(cs) && a in cs && b in cs && a.item.chunkId == b.item.chunkId
    ensures a == b
  {
    var i :| 0 <= i < |cs| && cs[i] == a;
    var j :| 0 <= j < |cs| && cs[j] == b;
  }

  ghost predicate Falling(s: seq<Scored>) {
    forall i, j :: 0 <= i < j < |s| ==> s[i].score >= s[j].score
  }

  lemma RankedFalls(reranker: Reranker, cs: seq<Candidate>)
    ensures Falling(Ranked(reranker, cs))
  {
    ScoredOrders();
    SortBySorts(ScoredLeq, ScoreAll(reranker, cs));
    var ranked := Ranked(reranker, cs);
    hide Ranked, Orders;
    forall i, j | 0 <= i < j < |ranked| ensures ranked[i].score >= ranked[j].score {
      assert ScoredLeq(ranked[i], ranked[j]);
    }
  }

  lemma {:induction false} BelowThresholdNothing(s: seq<Scored>, t: int)
    requires forall i :: 0 <= i < |s| ==> s[i].score < t
    ensures AtLeast(s, Some(t)) == []
  {
    if s != [] {
      BelowThresholdNothing(s[1..], t);
    }
  }

  lemma TakeCons<T>(x: T, s: seq<T>, k: nat)
    ensures Take([x] + s, k + 1) == [x] + Take(s, k)
  {}

  lemma FallingTail(s: seq<Scored>)
    requires Falling(s) && s != []
    ensures Falling(s[1..]) && forall i :: 0 <= i < |s| ==> s[i].score <= s[0].score
  {}

  lemma {:induction false} CutCommutes(s: seq<Scored>, threshold: Option<int>, k: nat)
    requires Falling(s)
    ensures Take(AtLeast(s, threshold), k) == AtLeast(Take(s, k), threshold)
  {
    if s != [] {
      FallingTail(s);
      hide Falling;
      if threshold.Some? && s[0].score < threshold.value {
        BelowThresholdNothing(s, threshold.value);
        BelowThresholdNothing(Take(s, k), threshold.value);
      } else if k > 0 {
        CutCommutes(s[1..], threshold, k - 1);
        TakeCons(s[0], s[1..], k - 1);
        TakeCons(s[0], AtLeast(s[1..], threshold), k - 1);
        AtLeastUnfolds(s, threshold);
        AtLeastUnfolds(Take(s, k), threshold);
        assert s == [s[0]] + s[1..];
        assert Take(s, k) == [s[0]] + Take(s[1..], k - 1) && Take(s, k)[1..] == Take(s[1..], k - 1);
      }
    }
  }

  /** Filtering by the threshold commutes with cutting to `topK`. */
  lemma ThresholdCommutesWithCut(reranker: Reranker, cs: seq<Candidate>, threshold: Option<int>, topK: nat)
    ensures PublicResult(reranker, cs, threshold, topK) == AtLeast(PublicResult(reranker, cs, None, topK), threshold)
  {
    RankedFalls(reranker, cs);
    NoThresholdKeepsAll(Ranked(reranker, cs));
    CutCommutes(Ranked(reranker, cs), threshold, topK);
  }

  lemma {:induction false} AtLeastKeeps(s: seq<Scored>, threshold: Option<int>, x: Scored)
    requires x in AtLeast(s, threshold)
    ensures x in s && (threshold.Some? ==> x.score >= threshold.value)
  {
    if x != s[0] || (threshold.Some? && s[0].score < threshold.value) {
      AtLeastKeeps(s[1..], threshold, x);
      assert x in s;
    }
  }

  // ---- what an answer is ------------------------------------------------

  /** The row is a formal document's and the reranker scores its text high enough. */
  predicate Reached(reranker: Reranker, c: Columns, i: nat, formal: set<Uuid>, threshold: Option<int>)
    requires SameLengths(c) && i < |c.ids|
  {
    IsFormalRow(c, i, formal) && c.documents[i].Some? && (threshold.None? || reranker(c.documents[i].value) >= threshold.value)
  }

  /** The item is what the row says, with the score of its text. */
  predicate Shows(reranker: Reranker, c: Columns, i: nat, s: Scored)
    requires SameLengths(c) && i < |c.ids|
  {
    RowSays(c, i, s.distance, s.item) && c.documents[i].Some? && s.score == reranker(c.documents[i].value)
  }

  /** Higher scores first, then smaller distances, then smaller ids. */
  predicate NotAfter(a: Scored, b: Scored) {
    || a.score > b.score
    || (a.score == b.score && a.distance < b.distance)
    || (a.score == b.score && a.distance == b.distance && TextLeq(a.item.chunkId, b.item.chunkId))
  }

  ghost predicate FoundIn(reranker: Reranker, c: Columns, formal: set<Uuid>, threshold: Option<int>, s: Scored)
    requires SameLengths(c)
  {
    exists i: nat :: i < |c.ids| && Reached(reranker, c, i, formal, threshold) && Shows(reranker, c, i, s)
  }

  /** The row is in the answer, or the answer is full and has nothing the row precedes. */
  ghost predicate Accounted(reranker: Reranker, c: Columns, i: nat, topK: nat, result: seq<Scored>)
    requires SameLengths(c) && i < |c.ids|
  {
    || (exists s :: s in result && Shows(reranker, c, i, s))
    || (|result| == topK && exists x: Scored :: Shows(reranker, c, i, x) && forall s :: s in result ==> NotAfter(s, x))
  }

  function ReachedRows(reranker: Reranker, c: Columns, formal: set<Uuid>, threshold: Option<int>, n: nat): set<nat>
    requires SameLengths(c) && n <= |c.ids|
  {
    set i: nat | i < n && Reached(reranker, c, i, formal, threshold)
  }

  /** The answer: as many rows as reach the threshold, up to `topK`, in order, each with
      what its columns say; none that reaches it is left out for a later one. */
  ghost predicate Answers(reranker: Reranker, c: Columns, formal: set<Uuid>, threshold: Option<int>, topK: nat, result: seq<Scored>)
    requires SameLengths(c)
  {
    var n := |ReachedRows(reranker, c, formal, threshold, |c.ids|)|;
    && |result| == (if n <= topK then n else topK)
    && (forall s :: s in result ==> FoundIn(reranker, c, formal, threshold, s))
    && (forall a, b :: 0 <= a < b < |result| ==> NotAfter(result[a], result[b]))
    && (forall i: nat :: i < |c.ids| && Reached(reranker, c, i, formal, threshold) ==> Accounted(reranker, c, i, topK, result))
  }

  lemma {:induction false} AtLeastIs(s: seq<Scored>, threshold: Option<int>, x: Scored)
    ensures x in AtLeast(s, threshold) <==> x in s && (threshold.None? || x.score >= threshold.value)
  {
    if s != [] {
      AtLeastIs(s[1..], threshold, x);
      assert s == [s[0]] + s[1..];
    }
  }

  lemma {:induction false} AtLeastAppends(a: seq<Scored>, b: seq<Scored>, threshold: Option<int>)
    ensures AtLeast(a + b, threshold) == AtLeast(a, threshold) + AtLeast(b, threshold)
  {
    if a == [] {
      assert a + b == b;
    } else {
      hide *;
      AtLeastAppends(a[1..], b, threshold);
      AtLeastUnfolds(a, threshold);
      AtLeastUnfolds(a + b, threshold);
      TailOfSum(a, b);
      var head := if threshold.None? || a[0].score >= threshold.value then [a[0]] else [];
      SumsAssociate(head, AtLeast(a[1..], threshold), AtLeast(b, threshold));
    }
  }

  lemma TailOfSum<T>(a: seq<T>, b: seq<T>)
    requires a != []
    ensures (a + b)[0] == a[0] && (a + b)[1..] == a[1..] + b
  {}

  lemma SumsAssociate<T>(a: seq<T>, b: seq<T>, c: seq<T>)
    ensures a + (b + c) == (a + b) + c
  {}

  lemma AtLeastUnfolds(s: seq<Scored>, threshold: Option<int>)
    requires s != []
    ensures AtLeast(s, threshold) ==
            (if threshold.None? || s[0].score >= threshold.value then [s[0]] else []) + AtLeast(s[1..], threshold)
  {}

  /** Reordering changes nothing about how many reach the threshold. */
  lemma {:induction false} AtLeastPermutes(a: seq<Scored>, b: seq<Scored>, threshold: Option<int>)
    requires multiset(a) == multiset(b)
    ensures |AtLeast(a, threshold)| == |AtLeast(b, threshold)|
    decreases |a|
  {
    hide AtLeast;
    if a == [] {
      NothingMatchesNothing(a, b);
    } else {
      var n := |a| - 1;
      var j := LastMatches(a, b);
      AtLeastPermutes(a[..n], b[..j] + b[j + 1..], threshold);
      AtLeastAppends(a[..n], [a[n]], threshold);
      AtLeastAppends(b[..j] + [b[j]], b[j + 1..], threshold);
      AtLeastAppends(b[..j], [b[j]], threshold);
      AtLeastAppends(b[..j], b[j + 1..], threshold);
    }
  }

  /** Filtering keeps the order. */
  lemma {:induction false} AtLeastStaysSorted(s: seq<Scored>, threshold: Option<int>)
    requires Sorted(ScoredLeq, s)
    ensures Sorted(ScoredLeq, AtLeast(s, threshold))
  {
    hide ScoredLeq;
    if s != [] {
      TailStaysSorted(ScoredLeq, s);
      AtLeastStaysSorted(s[1..], threshold);
      var rest := AtLeast(s[1..], threshold);
      forall i | 0 <= i < |rest| ensures ScoredLeq(s[0], rest[i]) {
        AtLeastIs(s[1..], threshold, rest[i]);
        assert rest[i] in rest;
        var j :| 0 <= j < |s[1..]| && s[1..][j] == rest[i];
        assert s[j + 1] == rest[i];
      }
    }
  }

  /** As many candidates reach the threshold as rows do. */
  lemma {:induction false} ReachedCount(reranker: Reranker, c: Columns, formal: set<Uuid>, threshold: Option<int>, n: nat)
    requires SameLengths(c) && n <= |c.ids| && forall i: nat :: i < n ==> !Spoils(c, i, formal)
    ensures |AtLeast(ScoreAll(reranker, Candidates(Zip(c)[..n], formal)), threshold)| ==
            |ReachedRows(reranker, c, formal, threshold, n)|
  {
    if n == 0 {
      assert ReachedRows(reranker, c, formal, threshold, 0) == {};
    } else {
      ReachedCount(reranker, c, formal, threshold, n - 1);
      assert Zip(c)[..n][..n - 1] == Zip(c)[..n - 1] && Zip(c)[..n][n - 1] == Zip(c)[n - 1];
      ReadingIs(c, n - 1, formal);
      var before, reading := Candidates(Zip(c)[..n - 1], formal), ReadRow(Zip(c)[n - 1], formal);
      OneMoreReached(reranker, c, formal, threshold, n);
      hide ReadRow, Spoils, AtLeast, Reached;
      if reading.Valid? {
        OneMoreScored(reranker, before, reading.candidate, threshold);
        assert Reached(reranker, c, n - 1, formal, threshold) <==>
               threshold.None? || reranker(reading.candidate.item.excerpt) >= threshold.value by {
          ReachedIffScored(reranker, c, n - 1, formal, threshold, reading.candidate);
        }
      } else {
        assert !Reached(reranker, c, n - 1, formal, threshold) by {
          OnlyFormalReached(reranker, c, n - 1, formal, threshold);
        }
        assert before + [] == before;
      }
    }
  }

  lemma OnlyFormalReached(reranker: Reranker, c: Columns, i: nat, formal: set<Uuid>, threshold: Option<int>)
    requires SameLengths(c) && i < |c.ids|
    ensures Reached(reranker, c, i, formal, threshold) ==> IsFormalRow(c, i, formal)
  {}

  lemma ReachedIffScored(reranker: Reranker, c: Columns, i: nat, formal: set<Uuid>, threshold: Option<int>, x: Candidate)
    requires SameLengths(c) && i < |c.ids| && IsFormalRow(c, i, formal) && RowSays(c, i, x.distance, x.item)
    ensures Reached(reranker, c, i, formal, threshold) <==> threshold.None? || reranker(x.item.excerpt) >= threshold.value
  {}

  lemma OneMoreReached(reranker: Reranker, c: Columns, formal: set<Uuid>, threshold: Option<int>, n: nat)
    requires SameLengths(c) && 0 < n <= |c.ids|
    ensures |ReachedRows(reranker, c, formal, threshold, n)| ==
            |ReachedRows(reranker, c, formal, threshold, n - 1)| + (if Reached(reranker, c, n - 1, formal, threshold) then 1 else 0)
  {
    hide Reached;
    assert ReachedRows(reranker, c, formal, threshold, n) ==
           ReachedRows(reranker, c, formal, threshold, n - 1) + if Reached(reranker, c, n - 1, formal, threshold) then {n - 1} else {};
  }

  lemma OneMoreScored(reranker: Reranker, cs: seq<Candidate>, x: Candidate, threshold: Option<int>)
    ensures |AtLeast(ScoreAll(reranker, cs + [x]), threshold)| ==
            |AtLeast(ScoreAll(reranker, cs), threshold)|
            + (if threshold.None? || reranker(x.item.excerpt) >= threshold.value then 1 else 0)
  {
    var one := [ScoreOne(reranker, x)];
    assert ScoreAll(reranker, cs + [x]) == ScoreAll(reranker, cs) + one;
    AtLeastAppends(ScoreAll(reranker, cs), one, threshold);
    assert one[1..] == [] && AtLeast([], threshold) == [];
  }

  /** The ranked, filtered and cut candidates of rows that spoil nothing are the answer. */
  lemma ResultAnswers(reranker: Reranker, c: Columns, formal: set<Uuid>, threshold: Option<int>, topK: nat, places: seq<nat>)
    requires SameLengths(c) && Unspoilt(c, formal)
    requires TakenFrom(c, formal, Candidates(Zip(c), formal), places)
    ensures Answers(reranker, c, formal, threshold, topK, PublicResult(reranker, Candidates(Zip(c), formal), threshold, topK))
  {
    var cs := Candidates(Zip(c), formal);
    var ranked := Ranked(reranker, cs);
    var reaching := AtLeast(ranked, threshold);
    var result := Take(reaching, topK);
    ResultOrdered(reranker, cs, threshold, topK);
    RankedIsComplete(reranker, cs);
    SortByElements(ScoredLeq, ScoreAll(reranker, cs));
    AtLeastPermutes(ranked, ScoreAll(reranker, cs), threshold);
    assert Zip(c)[..|c.ids|] == Zip(c);
    ReachedCount(reranker, c, formal, threshold, |c.ids|);
    hide Ranked, AtLeast, Candidates, Spoils, ScoreAll, SortBy, Answers, FoundIn, Accounted, Zip, TakenFrom;
    forall s | s in result ensures FoundIn(reranker, c, formal, threshold, s) {
      AtLeastIs(ranked, threshold, s);
      FoundRow(reranker, c, formal, threshold, cs, places, s);
    }
    forall i: nat | i < |c.ids| && Reached(reranker, c, i, formal, threshold) ensures Accounted(reranker, c, i, topK, result) {
      var x := RowIsScored(reranker, c, formal, threshold, cs, places, i);
      AtLeastIs(ranked, threshold, x);
      RowIsAccounted(reranker, c, i, topK, reaching, x);
    }
    Collected(reranker, c, formal, threshold, topK, result);
  }

  lemma Collected(reranker: Reranker, c: Columns, formal: set<Uuid>, threshold: Option<int>, topK: nat, result: seq<Scored>)
    requires SameLengths(c)
    requires
      var n := |ReachedRows(reranker, c, formal, threshold, |c.ids|)|;
      |result| == (if n <= topK then n else topK)
    requires forall s :: s in result ==> FoundIn(reranker, c, formal, threshold, s)
    requires forall a, b :: 0 <= a < b < |result| ==> NotAfter(result[a], result[b])
    requires forall i: nat :: i < |c.ids| && Reached(reranker, c, i, formal, threshold) ==> Accounted(reranker, c, i, topK, result)
    ensures Answers(reranker, c, formal, threshold, topK, result)
  {}

  lemma ResultOrdered(reranker: Reranker, cs: seq<Candidate>, threshold: Option<int>, topK: nat)
    ensures
      var reaching := AtLeast(Ranked(reranker, cs), threshold);
      forall a, b :: 0 <= a < b < |reaching| ==> NotAfter(reaching[a], reaching[b])
    ensures
      var result := Take(AtLeast(Ranked(reranker, cs), threshold), topK);
      forall a, b :: 0 <= a < b < |result| ==> NotAfter(result[a], result[b])
  {
    ScoredOrders();
    SortBySorts(ScoredLeq, ScoreAll(reranker, cs));
    AtLeastStaysSorted(Ranked(reranker, cs), threshold);
    hide Orders, SortBy, AtLeast, TextLeq;
    var reaching := AtLeast(Ranked(reranker, cs), threshold);
    forall a, b | 0 <= a < b < |reaching| ensures NotAfter(reaching[a], reaching[b]) {
      assert ScoredLeq(reaching[a], reaching[b]);
    }
  }

  lemma FoundRow(
    reranker: Reranker, c: Columns, formal: set<Uuid>, threshold: Option<int>, cs: seq<Candidate>, places: seq<nat>, s: Scored)
    requires SameLengths(c) && TakenFrom(c, formal, cs, places)
    requires Unscored(s) in cs && s.score == reranker(s.item.excerpt) && (threshold.None? || s.score >= threshold.value)
    ensures FoundIn(reranker, c, formal, threshold, s)
  {
    var j :| 0 <= j < |cs| && cs[j] == Unscored(s);
    var i := places[j];
    assert i in places;
    assert IsFormalRow(c, i, formal) && RowSays(c, i, s.distance, s.item);
    assert Reached(reranker, c, i, formal, threshold) && Shows(reranker, c, i, s);
  }

  lemma RowIsScored(
    reranker: Reranker, c: Columns, formal: set<Uuid>, threshold: Option<int>, cs: seq<Candidate>, places: seq<nat>, i: nat)
    returns (x: Scored)
    requires SameLengths(c) && TakenFrom(c, formal, cs, places) && i < |c.ids| && Reached(reranker, c, i, formal, threshold)
    requires forall y :: y in cs ==> ScoreOne(reranker, y) in Ranked(reranker, cs)
    ensures x in Ranked(reranker, cs) && Shows(reranker, c, i, x) && (threshold.None? || x.score >= threshold.value)
  {
    hide Ranked;
    assert i in places;
    var j :| 0 <= j < |places| && places[j] == i;
    assert cs[j] in cs;
    x := ScoreOne(reranker, cs[j]);
  }

  lemma RowIsAccounted(reranker: Reranker, c: Columns, i: nat, topK: nat, reaching: seq<Scored>, x: Scored)
    requires SameLengths(c) && i < |c.ids| && x in reaching && Shows(reranker, c, i, x)
    requires forall a, b :: 0 <= a < b < |reaching| ==> NotAfter(reaching[a], reaching[b])
    ensures Accounted(reranker, c, i, topK, Take(reaching, topK))
  {
    hide Shows, NotAfter;
    var result := Take(reaching, topK);
    if x !in result {
      var b :| 0 <= b < |reaching| && reaching[b] == x;
      assert |result| == topK && topK <= b;
      forall s | s in result ensures NotAfter(s, x) {
        var a :| 0 <= a < |result| && result[a] == s;
        assert reaching[a] == s;
      }
    }
  }

  /** `retrieve_archive_chunks` after its checks of the query: nothing that is not
      formal ever comes out, whatever the vector store returned; what comes out is the
      answer, and the call fails exactly when a row spoils it. */
  method Retrieve(reranker: Reranker, columns: Columns, formal: seq<Uuid>, threshold: Option<int>, topK: int)
    returns (r: Result<seq<Scored>, RetrievalError>)
    ensures !(1 <= topK <= 10) ==> r == Failure(ValidationError)
    ensures r.Success? ==> |r.value| <= topK
    ensures r.Success? ==> forall s :: s in r.value ==> s.item.documentId in formal
    ensures r.Success? && formal != [] ==>
              && SameLengths(columns)
              && r.value == PublicResult(reranker, Candidates(Zip(columns), set f | f in formal), threshold, topK)
              && Answers(reranker, columns, (set f | f in formal), threshold, topK, r.value)
    ensures 1 <= topK <= 10 && formal == [] ==> r == Success([])
    ensures 1 <= topK <= 10 && formal != [] ==>
              (r.Failure? <==> !SameLengths(columns) || !Unspoilt(columns, set f | f in formal))
    ensures r.Failure? ==> r.error == (if 1 <= topK <= 10 then VectorResultInvalid else ValidationError)
  {
    hide ReadRow, Ranked, AtLeast, Spoils, TakenFrom, Answers, RowSays;
    if topK < 1 || topK > 10 {
      return Failure(ValidationError);
    }
    if formal == [] {
      return Success([]);
    }
    var formalSet := set f | f in formal;
    var cs :- BuildValidatedCandidates(columns, formalSet);
    var result := PublicResult(reranker, cs, threshold, topK);
    ghost var places :| TakenFrom(columns, formalSet, cs, places);
    ResultAnswers(reranker, columns, formalSet, threshold, topK, places);
    forall s | s in result ensures s.item.documentId in formal {
      AtLeastKeeps(Ranked(reranker, cs), threshold, s);
      RankedIsComplete(reranker, cs);
      CandidatesAreFormal(Zip(columns), formalSet, Unscored(s));
    }
    r := Success(result);
  }

  // ---- the order of the rows does not matter ----------------------------

  lemma {:induction false} CandidatesAppend(a: seq<Row>, b: seq<Row>, formal: set<Uuid>)
    ensures Candidates(a + b, formal) == Candidates(a, formal) + Candidates(b, formal)
    decreases |b|
  {
    hide ReadRow;
    if b == [] {
      assert a + b == a;
    } else {
      var n := |b| - 1;
      assert (a + b)[..|a + b| - 1] == a + b[..n];
      CandidatesAppend(a, b[..n], formal);
    }
  }

  lemma {:induction false} CandidatesPermute(a: seq<Row>, b: seq<Row>, formal: set<Uuid>)
    requires multiset(a) == multiset(b)
    ensures multiset(Candidates(a, formal)) == multiset(Candidates(b, formal))
    decreases |a|
  {
    hide ReadRow;
    if a == [] {
      NothingMatchesNothing(a, b);
    } else {
      var n := |a| - 1;
      var j := LastMatches(a, b);
      CandidatesPermute(a[..n], b[..j] + b[j + 1..], formal);
      CandidatesAppend(a[..n], [a[n]], formal);
      CandidatesAppend(b[..j] + [b[j]], b[j + 1..], formal);
      CandidatesAppend(b[..j], [b[j]], formal);
      CandidatesAppend(b[..j], b[j + 1..], formal);
    }
  }

  lemma StrictOnDistinct(reranker: Reranker, cs: seq<Candidate>)
    requires DistinctChunks(cs)
    ensures Strict(ScoredLeq, ScoreAll(reranker, cs)) && Strict(DenseLeq, cs)
  {
    var scored := ScoreAll(reranker, cs);
    forall x, y | x in scored && y in scored && ScoredLeq(x, y) && ScoredLeq(y, x) ensures x == y {
      TextTotal(x.item.chunkId, y.item.chunkId);
      var i :| 0 <= i < |scored| && scored[i] == x;
      var j :| 0 <= j < |scored| && scored[j] == y;
      assert cs[i].item.chunkId == cs[j].item.chunkId;
    }
    forall x, y | x in cs && y in cs && DenseLeq(x, y) && DenseLeq(y, x) ensures x == y {
      TextTotal(x.item.chunkId, y.item.chunkId);
      var i :| 0 <= i < |cs| && cs[i] == x;
      var j :| 0 <= j < |cs| && cs[j] == y;
    }
  }

  lemma ScoreAllAppends(reranker: Reranker, a: seq<Candidate>, b: seq<Candidate>)
    ensures multiset(ScoreAll(reranker, a + b)) == multiset(ScoreAll(reranker, a)) + multiset(ScoreAll(reranker, b))
  {
    hide ScoreOne;
    assert ScoreAll(reranker, a + b) == ScoreAll(reranker, a) + ScoreAll(reranker, b);
  }

  lemma {:induction false} ScoreAllPermutes(reranker: Reranker, a: seq<Candidate>, b: seq<Candidate>)
    requires multiset(a) == multiset(b)
    ensures multiset(ScoreAll(reranker, a)) == multiset(ScoreAll(reranker, b))
    decreases |a|
  {
    hide ScoreAll;
    if a == [] {
      NothingMatchesNothing(a, b);
    } else {
      var n := |a| - 1;
      var j := LastMatches(a, b);
      ScoreAllPermutes(reranker, a[..n], b[..j] + b[j + 1..]);
      ScoreAllAppends(reranker, a[..n], [a[n]]);
      ScoreAllAppends(reranker, b[..j] + [b[j]], b[j + 1..]);
      ScoreAllAppends(reranker, b[..j], [b[j]]);
      ScoreAllAppends(reranker, b[..j], b[j + 1..]);
    }
  }

  /** However the vector store orders its rows, ranking, public result and dense order
      are the same. */
  lemma RowOrderDoesNotMatter(reranker: Reranker, a: seq<Row>, b: seq<Row>, formal: set<Uuid>, threshold: Option<int>, topK: nat)
    requires multiset(a) == multiset(b) && DistinctChunks(Candidates(a, formal))
    ensures
      var ca, cb := Candidates(a, formal), Candidates(b, formal);
      && Ranked(reranker, ca) == Ranked(reranker, cb)
      && PublicResult(reranker, ca, threshold, topK) == PublicResult(reranker, cb, threshold, topK)
      && SortBy(DenseLeq, ca) == SortBy(DenseLeq, cb)
    ensures (forall r :: r in a ==> !ReadRow(r, formal).Invalid?) <==> (forall r :: r in b ==> !ReadRow(r, formal).Invalid?)
  {
    var ca, cb := Candidates(a, formal), Candidates(b, formal);
    CandidatesPermute(a, b, formal);
    forall r ensures r in a <==> r in b {
      assert r in multiset(a) <==> r in multiset(b);
    }
    hide Candidates, ReadRow;
    ScoreAllPermutes(reranker, ca, cb);
    StrictOnDistinct(reranker, ca);
    ScoredOrders();
    DenseOrders();
    SortIgnoresOrder(ScoredLeq, ScoreAll(reranker, ca), ScoreAll(reranker, cb));
    SortIgnoresOrder(DenseLeq, ca, cb);
  }
}
