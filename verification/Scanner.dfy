/** The threshold scanner: does any score threshold meet the quality gate?
    (scripts/p14_d4_threshold_feasibility.py) */
module Scanner {
  import opened Wrappers
  import opened Text
  import opened Ordering

  // ---- data -------------------------------------------------------------

  /** The place of a finite double among the finite doubles, zero in the middle: the
      scanner only compares scores, and nextUp (section 5.3.1 of IEEE 754-2008) is
      the next place. */
  const MAX_SCORE := 0x7FEF_FFFF_FFFF_FFFF

  type Score = s: int | -MAX_SCORE <= s <= MAX_SCORE

  datatype Category = Grounded | NoEvidence | Isolation

  datatype Kind = SameDocument | OtherDocument | Unknown

  datatype Candidate = Candidate(
    key: string, rank: int, score: Score, covers: bool, strict: bool, violates: bool, kind: Kind)

  datatype Question = Question(caseId: string, category: Category, candidates: seq<Candidate>)

  datatype Snapshot = Snapshot(fingerprint: string, questions: seq<Question>)

  // ---- what a valid snapshot is -----------------------------------------

  predicate IsLowerHex(s: string, length: nat) {
    |s| == length && forall i :: 0 <= i < |s| ==> '0' <= s[i] <= '9' || 'a' <= s[i] <= 'f'
  }

  ghost predicate DistinctRanks(s: seq<Candidate>) {
    forall i, j :: 0 <= i < j < |s| ==> s[i].rank != s[j].rank
  }

  ghost predicate DistinctKeys(s: seq<Candidate>) {
    forall i, j :: 0 <= i < j < |s| ==> s[i].key != s[j].key
  }

  /** The ranks are the numbers from 1 to the number of candidates. */
  ghost predicate RanksAreComplete(s: seq<Candidate>) {
    && DistinctRanks(s)
    && (forall c :: c in s ==> 1 <= c.rank <= |s|)
    && (forall r :: 1 <= r <= |s| ==> HasRank(s, r))
  }

  predicate HasRank(s: seq<Candidate>, r: int) { exists c :: c in s && c.rank == r }

  /** A better rank never has a lower score. */
  ghost predicate ScoresFollowRanks(s: seq<Candidate>) {
    forall c, d :: c in s && d in s && c.rank < d.rank ==> c.score >= d.score
  }

  ghost predicate ValidQuestion(q: Question) {
    && Strip(q.caseId) != "" && |q.candidates| == 30
    && (forall c :: c in q.candidates ==> IsLowerHex(c.key, 64))
    && DistinctKeys(q.candidates) && RanksAreComplete(q.candidates) && ScoresFollowRanks(q.candidates)
  }

  function CountCategory(qs: seq<Question>, c: Category): nat {
    if qs == [] then 0
    else CountCategory(qs[..|qs| - 1], c) + if qs[|qs| - 1].category == c then 1 else 0
  }

  ghost predicate ValidSnapshot(s: Snapshot) {
    && IsLowerHex(s.fingerprint, 64) && |s.questions| == 12
    && CountCategory(s.questions, Grounded) == 8
    && CountCategory(s.questions, NoEvidence) == 2
    && CountCategory(s.questions, Isolation) == 2
    && (forall i, j :: 0 <= i < j < |s.questions| ==> s.questions[i].caseId != s.questions[j].caseId)
    && (forall q :: q in s.questions ==> ValidQuestion(q))
  }

  // ---- scoring one threshold --------------------------------------------

  predicate RankLeq(c: Candidate, d: Candidate) { c.rank <= d.rank }

  /** `None` is no threshold at all. */
  predicate Reaches(c: Candidate, t: Option<int>) { t.None? || c.score >= t.value }

  function Eligible(s: seq<Candidate>, t: Option<int>): seq<Candidate> {
    if s == [] then [] else (if Reaches(s[0], t) then [s[0]] else []) + Eligible(s[1..], t)
  }

  /** Filter by score, sort by rank, cut to ten. */
  function Selected(q: Question, t: Option<int>): seq<Candidate> {
    var sorted := SortBy(RankLeq, Eligible(q.candidates, t));
    if |sorted| <= 10 then sorted else sorted[..10]
  }

  datatype Metric = PublicHits | StrictHits | NoEvidenceRejected | IsolationPassed

  function CategoryOf(m: Metric): Category {
    match m
    case PublicHits => Grounded
    case StrictHits => Grounded
    case NoEvidenceRejected => NoEvidence
    case IsolationPassed => Isolation
  }

  /** The question counts for the metric when these candidates are selected for it. */
  predicate Earns(m: Metric, selected: seq<Candidate>) {
    match m
    case PublicHits => exists c :: c in selected && c.covers
    case StrictHits => exists c :: c in selected && c.strict
    case NoEvidenceRejected => selected == []
    case IsolationPassed => !exists c :: c in selected && c.violates
  }

  predicate Scores(m: Metric, q: Question, t: Option<int>) {
    q.category == CategoryOf(m) && Earns(m, Selected(q, t))
  }

  function Tally(m: Metric, qs: seq<Question>, t: Option<int>): nat {
    if qs == [] then 0
    else Tally(m, qs[..|qs| - 1], t) + if Scores(m, qs[|qs| - 1], t) then 1 else 0
  }

  datatype Metrics = Metrics(publicHits: nat, strictHits: nat, noEvidenceRejected: nat, isolationPassed: nat, passed: bool)

  function MetricsAt(s: Snapshot, t: Option<int>): Metrics {
    var hits := Tally(PublicHits, s.questions, t);
    var rejected := Tally(NoEvidenceRejected, s.questions, t);
    var isolated := Tally(IsolationPassed, s.questions, t);
    Metrics(hits, Tally(StrictHits, s.questions, t), rejected, isolated, hits >= 7 && rejected == 2 && isolated == 2)
  }

  predicate Passed(s: Snapshot, t: int) { MetricsAt(s, Some(t)).passed }

  /** What one question adds to each metric. */
  method ScoreQuestion(q: Question, t: Option<int>) returns (hit: nat, strictHit: nat, rejected: nat, isolated: nat)
    ensures hit == if Scores(PublicHits, q, t) then 1 else 0
    ensures strictHit == if Scores(StrictHits, q, t) then 1 else 0
    ensures rejected == if Scores(NoEvidenceRejected, q, t) then 1 else 0
    ensures isolated == if Scores(IsolationPassed, q, t) then 1 else 0
  {
    hide Selected;
    hit, strictHit, rejected, isolated := 0, 0, 0, 0;
    var selected := Selected(q, t);
    match q.category {
      case Grounded =>
        if exists c :: c in selected && c.covers {
          hit := 1;
        }
        if exists c :: c in selected && c.strict {
          strictHit := 1;
        }
      case NoEvidence =>
        if selected == [] {
          rejected := 1;
        }
      case Isolation =>
        if !exists c :: c in selected && c.violates {
          isolated := 1;
        }
    }
  }

  /** `_score_validated_snapshot`. */
  method ScoreSnapshot(s: Snapshot, t: Option<int>) returns (m: Metrics)
    ensures m == MetricsAt(s, t)
  {
    hide Scores;
    var hits, strictHits, rejected, isolated := 0, 0, 0, 0;
    for i := 0 to |s.questions|
      invariant hits == Tally(PublicHits, s.questions[..i], t)
      invariant strictHits == Tally(StrictHits, s.questions[..i], t)
      invariant rejected == Tally(NoEvidenceRejected, s.questions[..i], t)
      invariant isolated == Tally(IsolationPassed, s.questions[..i], t)
    {
      assert s.questions[..i + 1][..i] == s.questions[..i];
      var h, st, r, iso := ScoreQuestion(s.questions[i], t);
      hits, strictHits, rejected, isolated := hits + h, strictHits + st, rejected + r, isolated + iso;
    }
    assert s.questions[..|s.questions|] == s.questions;
    m := Metrics(hits, strictHits, rejected, isolated, hits >= 7 && rejected == 2 && isolated == 2);
  }

  // ---- filtering first or cutting first ---------------------------------

  lemma RankOrders()
    ensures Orders(RankLeq)
  {}

  lemma {:induction false} EligibleIs(s: seq<Candidate>, t: Option<int>, c: Candidate)
    ensures c in Eligible(s, t) <==> c in s && Reaches(c, t)
  {
    if s != [] {
      EligibleIs(s[1..], t, c);
      assert s == [s[0]] + s[1..];
    }
  }

  ghost predicate AvoidsRank(s: seq<Candidate>, r: int) { forall c :: c in s ==> c.rank != r }

  lemma RanksApartCons(c: Candidate, s: seq<Candidate>)
    ensures DistinctRanks([c] + s) <==> DistinctRanks(s) && AvoidsRank(s, c.rank)
  {
    var all := [c] + s;
    assert forall i :: 0 <= i < |s| ==> all[i + 1] == s[i];
    if DistinctRanks(all) {
      forall i, j | 0 <= i < j < |s| ensures s[i].rank != s[j].rank {
        assert all[i + 1].rank != all[j + 1].rank;
      }
      forall d | d in s ensures d.rank != c.rank {
        var i :| 0 <= i < |s| && s[i] == d;
        assert all[0].rank != all[i + 1].rank;
      }
    }
  }

  lemma {:induction false} EligibleKeepsRanksApart(s: seq<Candidate>, t: Option<int>)
    requires DistinctRanks(s)
    ensures DistinctRanks(Eligible(s, t))
  {
    hide DistinctRanks;
    if s != [] {
      assert s == [s[0]] + s[1..];
      RanksApartCons(s[0], s[1..]);
      EligibleKeepsRanksApart(s[1..], t);
      forall c | c in Eligible(s[1..], t) ensures c.rank != s[0].rank {
        EligibleIs(s[1..], t, c);
      }
      RanksApartCons(s[0], Eligible(s[1..], t));
      assert [] + Eligible(s[1..], t) == Eligible(s[1..], t);
    } else {
      assert Eligible(s, t) == s;
    }
  }

  lemma {:induction false} InsertRanksApart(c: Candidate, s: seq<Candidate>)
    ensures DistinctRanks(InsertBy(RankLeq, c, s)) <==> DistinctRanks(s) && AvoidsRank(s, c.rank)
  {
    hide DistinctRanks;
    if s == [] || RankLeq(c, s[0]) {
      RanksApartCons(c, s);
    } else {
      assert s == [s[0]] + s[1..];
      RanksApartCons(s[0], s[1..]);
      InsertRanksApart(c, s[1..]);
      InsertByElements(RankLeq, c, s[1..]);
      assert forall d :: d in InsertBy(RankLeq, c, s[1..]) <==> d == c || d in s[1..] by {
        forall d ensures d in InsertBy(RankLeq, c, s[1..]) <==> d == c || d in s[1..] {
          assert d in multiset(InsertBy(RankLeq, c, s[1..])) <==> d in multiset(s[1..]) + multiset{c};
        }
      }
      RanksApartCons(s[0], InsertBy(RankLeq, c, s[1..]));
      assert s[0] in s;
    }
  }

  /** Sorting neither makes nor mends equal ranks. */
  lemma {:induction false} SortRanksApart(s: seq<Candidate>)
    ensures DistinctRanks(SortBy(RankLeq, s)) <==> DistinctRanks(s)
  {
    hide DistinctRanks, Orders, Sorted;
    if s != [] {
      assert s == [s[0]] + s[1..];
      RanksApartCons(s[0], s[1..]);
      SortRanksApart(s[1..]);
      RankOrders();
      SortBySorts(RankLeq, s[1..]);
      InsertRanksApart(s[0], SortBy(RankLeq, s[1..]));
    } else {
      assert SortBy(RankLeq, s) == s;
    }
  }

  function Ranks(s: seq<Candidate>): seq<int> { seq(|s|, i requires 0 <= i < |s| => s[i].rank) }

  lemma SortedRanksIncrease(s: seq<Candidate>)
    requires DistinctRanks(s)
    ensures Increasing(Ranks(SortBy(RankLeq, s)))
  {
    RankOrders();
    SortBySorts(RankLeq, s);
    SortRanksApart(s);
    var sorted := SortBy(RankLeq, s);
    forall i, k | 0 <= i < k < |sorted| ensures sorted[i].rank < sorted[k].rank {
      assert RankLeq(sorted[i], sorted[k]);
    }
  }

  /** A candidate of better rank reaches the threshold, too. */
  lemma BetterRanksReach(s: seq<Candidate>, t: Option<int>, c: Candidate, r: int)
    requires RanksAreComplete(s) && (t.Some? ==> ScoresFollowRanks(s))
    requires c in Eligible(s, t) && 1 <= r < c.rank
    ensures exists d :: d in Eligible(s, t) && d.rank == r
  {
    EligibleIs(s, t, c);
    assert HasRank(s, r);
    var d :| d in s && d.rank == r;
    EligibleIs(s, t, d);
  }

  lemma EligibleRanksAreGapless(s: seq<Candidate>, t: Option<int>, sorted: seq<Candidate>, i: nat)
    requires RanksAreComplete(s) && (t.Some? ==> ScoresFollowRanks(s))
    requires forall c :: c in sorted <==> c in Eligible(s, t)
    requires i < |sorted|
    ensures sorted[i].rank >= 1
    ensures forall y :: 1 <= y < sorted[i].rank ==> y in Ranks(sorted)
  {
    hide Eligible, ScoresFollowRanks, DistinctRanks;
    assert sorted[i] in sorted;
    EligibleIs(s, t, sorted[i]);
    forall y | 1 <= y < sorted[i].rank ensures y in Ranks(sorted) {
      BetterRanksReach(s, t, sorted[i], y);
      var d :| d in Eligible(s, t) && d.rank == y;
      assert d in sorted;
      var k :| 0 <= k < |sorted| && sorted[k] == d;
      assert Ranks(sorted)[k] == y;
    }
  }

  /** What reaches a threshold has the first ranks, without a gap: sorted by rank,
      its places are its ranks. */
  lemma PlacesAreRanks(s: seq<Candidate>, t: Option<int>, j: nat)
    requires RanksAreComplete(s) && (t.Some? ==> ScoresFollowRanks(s))
    requires j < |SortBy(RankLeq, Eligible(s, t))|
    ensures SortBy(RankLeq, Eligible(s, t))[j].rank == j + 1
  {
    var eligible := Eligible(s, t);
    var sorted := SortBy(RankLeq, eligible);
    EligibleKeepsRanksApart(s, t);
    SortedRanksIncrease(eligible);
    RankOrders();
    SortBySorts(RankLeq, eligible);
    hide Orders, Sorted, SortBy, Eligible, RanksAreComplete, ScoresFollowRanks, Increasing;
    var ranks := Ranks(sorted);
    forall i | 0 <= i < |ranks| ensures ranks[i] >= 1 && forall y :: 1 <= y < ranks[i] ==> y in ranks {
      EligibleRanksAreGapless(s, t, sorted, i);
    }
    GaplessPlaces(ranks, j);
  }

  /** Filtering and then cutting to ten selects what cutting to ten and then
      filtering would: the candidates of rank at most ten that reach the threshold. */
  lemma FilterThenCutIsCutThenFilter(q: Question, t: Option<int>, c: Candidate)
    requires ValidQuestion(q)
    ensures c in Selected(q, t) <==> c in q.candidates && c.rank <= 10 && Reaches(c, t)
  {
    RankOrders();
    var eligible := Eligible(q.candidates, t);
    var sorted := SortBy(RankLeq, eligible);
    SortBySorts(RankLeq, eligible);
    EligibleIs(q.candidates, t, c);
    forall j | 0 <= j < |sorted| ensures sorted[j].rank == j + 1 {
      PlacesAreRanks(q.candidates, t, j);
    }
    if c in sorted {
      var i :| 0 <= i < |sorted| && sorted[i] == c;
      if i < 10 {
        assert Selected(q, t)[i] == c;
      }
    }
  }

  // ---- the closed form --------------------------------------------------

  function CoverScores(s: seq<Candidate>): seq<int> {
    if s == [] then [] else (if s[0].covers then [s[0].score as int] else []) + CoverScores(s[1..])
  }

  lemma {:induction false} CoverScoresAre(s: seq<Candidate>, x: int)
    ensures x in CoverScores(s) <==> exists c :: c in s && c.covers && c.score == x
  {
    if s != [] {
      CoverScoresAre(s[1..], x);
      assert s == [s[0]] + s[1..];
      if c :| c in s && c.covers && c.score == x {
        assert c == s[0] || c in s[1..];
      }
    }
  }

  /** The best score of a matching candidate among the first ten, if one matches. */
  function BestCover(q: Question): Option<int> {
    var scores := CoverScores(Selected(q, None));
    if scores == [] then None else Some(MaxOf(scores))
  }

  function Bests(qs: seq<Question>): seq<int> {
    if qs == [] then []
    else
      var q := qs[|qs| - 1];
      var best := BestCover(q);
      Bests(qs[..|qs| - 1]) + if q.category == Grounded && best.Some? then [best.value] else []
  }

  /** The seventh best of those scores. */
  function Required(s: Snapshot): Option<int> {
    var sorted := SortBy(Down, Bests(s.questions));
    if |sorted| >= 7 then Some(sorted[6]) else None
  }

  function AllScores(s: seq<Candidate>): seq<int> { seq(|s|, i requires 0 <= i < |s| => s[i].score as int) }

  function NoEvidenceScores(qs: seq<Question>): seq<int> {
    if qs == [] then []
    else
      NoEvidenceScores(qs[..|qs| - 1])
      + if qs[|qs| - 1].category == NoEvidence then AllScores(qs[|qs| - 1].candidates) else []
  }

  function Violations(s: seq<Candidate>): seq<int> {
    if s == [] then [] else (if s[0].violates then [s[0].score as int] else []) + Violations(s[1..])
  }

  function IsolationScores(qs: seq<Question>): seq<int> {
    if qs == [] then []
    else
      IsolationScores(qs[..|qs| - 1])
      + if qs[|qs| - 1].category == Isolation then Violations(Selected(qs[|qs| - 1], None)) else []
  }

  function MaxIsolation(s: Snapshot): Option<int> {
    var scores := IsolationScores(s.questions);
    if scores == [] then None else Some(MaxOf(scores))
  }

  function Blocking(maxNoEvidence: int, maxIsolation: Option<int>): int {
    if maxIsolation.Some? && maxIsolation.value > maxNoEvidence then maxIsolation.value else maxNoEvidence
  }

  lemma BestCoverDecides(q: Question, t: int)
    requires ValidQuestion(q)
    ensures Earns(PublicHits, Selected(q, Some(t))) <==> BestCover(q).Some? && BestCover(q).value >= t
  {
    var top := Selected(q, None);
    var scores := CoverScores(top);
    if c :| c in Selected(q, Some(t)) && c.covers {
      FilterThenCutIsCutThenFilter(q, Some(t), c);
      FilterThenCutIsCutThenFilter(q, None, c);
      CoverScoresAre(top, c.score);
    }
    if scores != [] && MaxOf(scores) >= t {
      CoverScoresAre(top, MaxOf(scores));
      var c :| c in top && c.covers && c.score == MaxOf(scores);
      FilterThenCutIsCutThenFilter(q, None, c);
      FilterThenCutIsCutThenFilter(q, Some(t), c);
    }
  }

  lemma {:induction false} ReachingAppends(a: seq<int>, b: seq<int>, t: int)
    ensures Reaching(a + b, t) == Reaching(a, t) + Reaching(b, t)
  {
    if a == [] {
      assert a + b == b;
    } else {
      assert (a + b)[1..] == a[1..] + b;
      ReachingAppends(a[1..], b, t);
    }
  }

  lemma {:induction false} HitsAreBestsReaching(qs: seq<Question>, t: int)
    requires forall q :: q in qs ==> ValidQuestion(q)
    ensures Tally(PublicHits, qs, Some(t)) == Reaching(Bests(qs), t)
  {
    hide ValidQuestion, Selected, BestCover, Earns;
    if qs != [] {
      var n := |qs| - 1;
      HitsAreBestsReaching(qs[..n], t);
      BestCoverDecides(qs[n], t);
      var best := BestCover(qs[n]);
      ReachingAppends(Bests(qs[..n]), if qs[n].category == Grounded && best.Some? then [best.value] else [], t);
    }
  }

  /** At least seven grounded questions match exactly up to the required score. */
  lemma HitsSufficeIff(s: Snapshot, t: int)
    requires ValidSnapshot(s)
    ensures Tally(PublicHits, s.questions, Some(t)) >= 7 <==> Required(s).Some? && t <= Required(s).value
  {
    hide ValidQuestion, Bests, Tally, CountCategory;
    HitsAreBestsReaching(s.questions, t);
    NthGreatestDecides(Bests(s.questions), 7, t);
  }

  /** A tally is full exactly when every question of its category counts. */
  lemma {:induction false} TallyFullIff(m: Metric, qs: seq<Question>, t: Option<int>)
    ensures Tally(m, qs, t) <= CountCategory(qs, CategoryOf(m))
    ensures Tally(m, qs, t) == CountCategory(qs, CategoryOf(m)) <==>
            forall q :: q in qs && q.category == CategoryOf(m) ==> Scores(m, q, t)
  {
    hide Scores;
    if qs != [] {
      var n := |qs| - 1;
      TallyFullIff(m, qs[..n], t);
      assert qs == qs[..n] + [qs[n]];
      assert Scores(m, qs[n], t) ==> qs[n].category == CategoryOf(m) by {
        ScoresOnlyItsCategory(m, qs[n], t);
      }
      assert forall q :: q in qs <==> q in qs[..n] || q == qs[n];
    }
  }

  lemma ScoresOnlyItsCategory(m: Metric, q: Question, t: Option<int>)
    ensures Scores(m, q, t) ==> q.category == CategoryOf(m)
    ensures q.category == CategoryOf(m) ==> (Scores(m, q, t) <==> Earns(m, Selected(q, t)))
  {}

  lemma {:induction false} NoEvidenceScoresAre(qs: seq<Question>, x: int)
    ensures x in NoEvidenceScores(qs) <==>
            exists q, c :: q in qs && q.category == NoEvidence && c in q.candidates && c.score == x
  {
    if qs != [] {
      var n := |qs| - 1;
      var last := qs[n];
      NoEvidenceScoresAre(qs[..n], x);
      assert qs == qs[..n] + [last];
      if x in AllScores(last.candidates) {
        var i :| 0 <= i < |last.candidates| && AllScores(last.candidates)[i] == x;
        assert last.candidates[i] in last.candidates;
      }
      if q, c :| q in qs && q.category == NoEvidence && c in q.candidates && c.score == x {
        if q == last {
          var i :| 0 <= i < |last.candidates| && last.candidates[i] == c;
          assert AllScores(last.candidates)[i] == x;
        } else {
          assert q in qs[..n];
        }
      }
    }
  }

  lemma {:induction false} ViolationsAre(s: seq<Candidate>, x: int)
    ensures x in Violations(s) <==> exists c :: c in s && c.violates && c.score == x
  {
    if s != [] {
      ViolationsAre(s[1..], x);
      assert s == [s[0]] + s[1..];
      if c :| c in s && c.violates && c.score == x {
        assert c == s[0] || c in s[1..];
      }
    }
  }

  lemma {:induction false} IsolationScoresAre(qs: seq<Question>, x: int)
    requires forall q :: q in qs ==> ValidQuestion(q)
    ensures x in IsolationScores(qs) <==>
            exists q, c :: q in qs && q.category == Isolation && c in q.candidates && c.rank <= 10 && c.violates && c.score == x
  {
    hide ValidQuestion, Selected, Violations;
    if qs != [] {
      var n := |qs| - 1;
      var last := qs[n];
      IsolationScoresAre(qs[..n], x);
      assert qs == qs[..n] + [last];
      ViolationsAre(Selected(last, None), x);
      if x in Violations(Selected(last, None)) {
        var c :| c in Selected(last, None) && c.violates && c.score == x;
        FilterThenCutIsCutThenFilter(last, None, c);
      }
      if q, c :| q in qs && q.category == Isolation && c in q.candidates && c.rank <= 10 && c.violates && c.score == x {
        if q == last {
          FilterThenCutIsCutThenFilter(last, None, c);
        } else {
          assert q in qs[..n];
        }
      }
    }
  }

  /** A question without evidence selects nothing exactly above all its scores. */
  lemma RejectedIff(q: Question, t: int)
    requires ValidQuestion(q)
    ensures Selected(q, Some(t)) == [] <==> forall c :: c in q.candidates ==> c.score < t
  {
    if Selected(q, Some(t)) == [] {
      assert HasRank(q.candidates, 1);
      var best :| best in q.candidates && best.rank == 1;
      FilterThenCutIsCutThenFilter(q, Some(t), best);
      assert best !in Selected(q, Some(t));
      forall c | c in q.candidates ensures c.score < t {
        if c.rank > 1 {
          assert best.score >= c.score;
        } else {
          FilterThenCutIsCutThenFilter(q, Some(t), c);
          assert c !in Selected(q, Some(t));
        }
      }
    } else {
      var c := Selected(q, Some(t))[0];
      FilterThenCutIsCutThenFilter(q, Some(t), c);
    }
  }

  lemma NoEvidenceRejectedIff(s: Snapshot, t: int)
    requires ValidSnapshot(s)
    ensures Tally(NoEvidenceRejected, s.questions, Some(t)) == 2 <==> forall x :: x in NoEvidenceScores(s.questions) ==> x < t
  {
    hide ValidQuestion, Selected, Scores;
    TallyFullIff(NoEvidenceRejected, s.questions, Some(t));
    if Tally(NoEvidenceRejected, s.questions, Some(t)) == 2 {
      forall x | x in NoEvidenceScores(s.questions) ensures x < t {
        NoEvidenceScoresAre(s.questions, x);
        var q, c :| q in s.questions && q.category == NoEvidence && c in q.candidates && c.score == x;
        ScoresOnlyItsCategory(NoEvidenceRejected, q, Some(t));
        RejectedIff(q, t);
      }
    } else {
      var q :| q in s.questions && q.category == NoEvidence && !Scores(NoEvidenceRejected, q, Some(t));
      ScoresOnlyItsCategory(NoEvidenceRejected, q, Some(t));
      RejectedIff(q, t);
      var c :| c in q.candidates && c.score >= t;
      NoEvidenceScoresAre(s.questions, c.score);
    }
  }

  /** An isolation question passes exactly above all its violations of rank at most ten. */
  lemma IsolatedIff(q: Question, t: int)
    requires ValidQuestion(q)
    ensures Earns(IsolationPassed, Selected(q, Some(t))) <==>
            forall c :: c in q.candidates && c.rank <= 10 && c.violates ==> c.score < t
  {
    hide ValidQuestion, Selected;
    forall c ensures c in Selected(q, Some(t)) <==> c in q.candidates && c.rank <= 10 && Reaches(c, Some(t)) {
      FilterThenCutIsCutThenFilter(q, Some(t), c);
    }
  }

  lemma IsolationPassedIff(s: Snapshot, t: int)
    requires ValidSnapshot(s)
    ensures Tally(IsolationPassed, s.questions, Some(t)) == 2 <==> forall x :: x in IsolationScores(s.questions) ==> x < t
  {
    hide ValidQuestion, Selected, Scores, Earns;
    TallyFullIff(IsolationPassed, s.questions, Some(t));
    if Tally(IsolationPassed, s.questions, Some(t)) == 2 {
      forall x | x in IsolationScores(s.questions) ensures x < t {
        IsolationScoresAre(s.questions, x);
        var q, c :| q in s.questions && q.category == Isolation && c in q.candidates && c.rank <= 10 && c.violates && c.score == x;
        ScoresOnlyItsCategory(IsolationPassed, q, Some(t));
        IsolatedIff(q, t);
      }
    } else {
      var q :| q in s.questions && q.category == Isolation && !Scores(IsolationPassed, q, Some(t));
      ScoresOnlyItsCategory(IsolationPassed, q, Some(t));
      IsolatedIff(q, t);
      var c :| c in q.candidates && c.rank <= 10 && c.violates && c.score >= t;
      IsolationScoresAre(s.questions, c.score);
    }
  }

  lemma {:induction false} SomeQuestionOf(qs: seq<Question>, c: Category)
    requires CountCategory(qs, c) > 0
    ensures exists q :: q in qs && q.category == c
  {
    var n := |qs| - 1;
    if qs[n].category != c {
      SomeQuestionOf(qs[..n], c);
      var q :| q in qs[..n] && q.category == c;
      assert q in qs;
    }
  }

  lemma NoEvidenceScoresExist(s: Snapshot)
    requires ValidSnapshot(s)
    ensures NoEvidenceScores(s.questions) != []
  {
    SomeQuestionOf(s.questions, NoEvidence);
    var q :| q in s.questions && q.category == NoEvidence;
    var c := q.candidates[0];
    NoEvidenceScoresAre(s.questions, c.score);
  }

  /** The score that blocks the gate: the best of a question without evidence, or of
      an isolation violation among the first ten. */
  function BlockingScore(s: Snapshot): int
    requires ValidSnapshot(s)
  {
    NoEvidenceScoresExist(s);
    Blocking(MaxOf(NoEvidenceScores(s.questions)), MaxIsolation(s))
  }

  /** The gate is not monotone in the threshold, but it has a closed form: it is
      passed exactly above the blocking score and up to the required one. */
  lemma GateHasClosedForm(s: Snapshot, t: int)
    requires ValidSnapshot(s)
    ensures Passed(s, t) <==> Required(s).Some? && BlockingScore(s) < t <= Required(s).value
  {
    hide ValidSnapshot, Required, NoEvidenceScores, IsolationScores;
    NoEvidenceScoresExist(s);
    HitsSufficeIff(s, t);
    NoEvidenceRejectedIff(s, t);
    IsolationPassedIff(s, t);
  }

  // ---- the scan ---------------------------------------------------------

  function ScoreSet(s: Snapshot): set<int> {
    set q, c | q in s.questions && c in q.candidates :: c.score as int
  }

  /** Every score that occurs, and the next number above it if there is one. */
  function ThresholdSet(s: Snapshot): set<int> {
    ScoreSet(s) + NextScores(ScoreSet(s))
  }

  function NextScores(scores: set<int>): set<int> {
    set x | x in scores && x < MAX_SCORE :: x + 1
  }

  function FeasibleSet(s: Snapshot): set<int> {
    set t | t in ThresholdSet(s) && Passed(s, t)
  }

  /** `_threshold_candidates`. */
  method ThresholdCandidates(s: Snapshot) returns (ts: seq<int>)
    ensures Increasing(ts)
    ensures forall t :: t in ts <==> t in ThresholdSet(s)
  {
    var scores := ScoreSet(s);
    var thresholds := scores;
    var rest := scores;
    while rest != {}
      invariant rest <= scores
      invariant thresholds == scores + NextScores(scores - rest)
      decreases rest
    {
      SomeElement(rest);
      var score :| score in rest;
      OneMoreNext(scores, rest, score);
      rest := rest - {score};
      if score < MAX_SCORE {
        thresholds := thresholds + {score + 1};
      }
    }
    assert scores - rest == scores;
    ts := SortedSet(thresholds);
  }

  lemma OneMoreNext(scores: set<int>, rest: set<int>, score: int)
    requires rest <= scores && score in rest
    ensures
      NextScores(scores - (rest - {score})) ==
      NextScores(scores - rest) + if score < MAX_SCORE then {score + 1} else {}
  {
    forall x
      ensures
        x in NextScores(scores - (rest - {score})) <==>
        x in NextScores(scores - rest) + if score < MAX_SCORE then {score + 1} else {}
    {
      NextScoresAre(scores - (rest - {score}), x);
      NextScoresAre(scores - rest, x);
    }
  }

  lemma NextScoresAre(scores: set<int>, t: int)
    ensures t in NextScores(scores) <==> t - 1 in scores && t - 1 < MAX_SCORE
  {
    if t - 1 in scores && t - 1 < MAX_SCORE {
      assert t == (t - 1) + 1;
    }
  }

  datatype Report = Report(
    feasible: bool,
    feasibleCount: nat,
    feasibleMin: Option<int>,
    feasibleMax: Option<int>,
    suggested: Option<int>,
    suggestedMetrics: Option<Metrics>,
    baseline: Metrics,
    maxNoEvidence: int,
    maxIsolation: Option<int>,
    maxBlocking: int,
    required: Option<int>,
    separationMargin: Option<int>,
    qualityGateMargin: Option<int>)

  /** What each entry of the report is. */
  ghost predicate Describes(s: Snapshot, r: Report)
    requires ValidSnapshot(s)
  {
    NoEvidenceScoresExist(s);
    var feasible := FeasibleSet(s);
    && (r.feasible <==> feasible != {})
    && r.feasibleCount == |feasible|
    && (r.feasible <==> r.feasibleMin.Some?) && (r.feasible <==> r.feasibleMax.Some?)
    && (r.feasible ==>
          && r.feasibleMin.value in feasible && r.feasibleMax.value in feasible
          && forall t :: t in feasible ==> r.feasibleMin.value <= t <= r.feasibleMax.value)
    && r.suggested == r.feasibleMin
    && r.suggestedMetrics == (if r.suggested.Some? then Some(MetricsAt(s, r.suggested)) else None)
    && r.baseline == MetricsAt(s, None)
    && r.maxNoEvidence == MaxOf(NoEvidenceScores(s.questions))
    && r.maxIsolation == MaxIsolation(s)
    && r.maxBlocking == BlockingScore(s)
    && r.required == Required(s)
    && r.separationMargin == (if r.required.Some? then Some(r.required.value - r.maxNoEvidence) else None)
    && r.qualityGateMargin == (if r.required.Some? then Some(r.required.value - r.maxBlocking) else None)
  }

  method FeasibleThresholds(s: Snapshot) returns (feasible: seq<int>)
    ensures forall t :: t in feasible <==> t in FeasibleSet(s)
    ensures |feasible| == |FeasibleSet(s)|
  {
    var ts := ThresholdCandidates(s);
    feasible := [];
    for i := 0 to |ts|
      invariant Increasing(feasible)
      invariant forall t :: t in feasible <==> t in ts[..i] && Passed(s, t)
    {
      var m := ScoreSnapshot(s, Some(ts[i]));
      forall k | 0 <= k < |feasible| ensures feasible[k] < ts[i] {
        assert feasible[k] in feasible;
        var j :| 0 <= j < i && ts[..i][j] == feasible[k];
      }
      if m.passed {
        feasible := feasible + [ts[i]];
      }
      assert ts[..i + 1] == ts[..i] + [ts[i]];
    }
    assert ts[..|ts|] == ts;
    IncreasingSize(feasible);
    assert (set t | t in feasible) == FeasibleSet(s);
  }

  method GroundedBestScores(qs: seq<Question>) returns (bests: seq<int>)
    ensures bests == Bests(qs)
  {
    bests := [];
    for i := 0 to |qs|
      invariant bests == Bests(qs[..i])
    {
      assert qs[..i + 1][..i] == qs[..i];
      if qs[i].category == Grounded {
        var matching := CoverScores(Selected(qs[i], None));
        if matching != [] {
          bests := bests + [MaxOf(matching)];
        }
      }
    }
    assert qs[..|qs|] == qs;
  }

  /** `_scan`. */
  method Scan(s: Snapshot) returns (r: Report)
    requires ValidSnapshot(s)
    ensures Describes(s, r)
  {
    hide ValidSnapshot, FeasibleSet, MetricsAt, NoEvidenceScores, IsolationScores, Bests, SortBy;
    var feasible := FeasibleThresholds(s);
    var noEvidence := NoEvidenceScores(s.questions);
    NoEvidenceScoresExist(s);
    var bests := GroundedBestScores(s.questions);
    bests := SortBy(Down, bests);
    var isolation := IsolationScores(s.questions);
    var required := if |bests| >= 7 then Some(bests[6]) else None;
    var maxNoEvidence := MaxOf(noEvidence);
    var maxIsolation := if isolation != [] then Some(MaxOf(isolation)) else None;
    var maxBlocking := Blocking(maxNoEvidence, maxIsolation);
    var suggested := if feasible != [] then Some(MinOf(feasible)) else None;
    var suggestedMetrics := None;
    if suggested.Some? {
      var m := ScoreSnapshot(s, suggested);
      suggestedMetrics := Some(m);
    }
    var baseline := ScoreSnapshot(s, None);
    SameMembers(feasible, FeasibleSet(s));
    r := Report(
      feasible != [], |feasible|, suggested, if feasible != [] then Some(MaxOf(feasible)) else None,
      suggested, suggestedMetrics, baseline, maxNoEvidence, maxIsolation, maxBlocking, required,
      if required.Some? then Some(required.value - maxNoEvidence) else None,
      if required.Some? then Some(required.value - maxBlocking) else None);
  }

  lemma SameMembers(a: seq<int>, b: set<int>)
    requires forall x :: x in a <==> x in b
    ensures a == [] <==> b == {}
  {
    if a != [] {
      var x := a[0];
      assert x in a;
      assert x in b;
    } else {
      assert forall x :: x !in b;
    }
  }

  // ---- a finite scan decides for all numbers ----------------------------

  lemma BlockingIsAScore(s: Snapshot)
    requires ValidSnapshot(s)
    ensures BlockingScore(s) in ScoreSet(s)
  {
    NoEvidenceScoresExist(s);
    hide ValidQuestion, Selected;
    var x := MaxOf(NoEvidenceScores(s.questions));
    NoEvidenceScoresAre(s.questions, x);
    var q, c :| q in s.questions && q.category == NoEvidence && c in q.candidates && c.score == x;
    assert (c.score as int) in ScoreSet(s);
    if MaxIsolation(s).Some? {
      var y := MaxIsolation(s).value;
      IsolationScoresAre(s.questions, y);
      var p, d :| p in s.questions && p.category == Isolation && d in p.candidates && d.rank <= 10 && d.violates && d.score == y;
      assert (d.score as int) in ScoreSet(s);
    }
  }

  lemma {:induction false} BestsAreScores(qs: seq<Question>, x: int)
    requires x in Bests(qs) && forall q :: q in qs ==> ValidQuestion(q)
    ensures exists q, c :: q in qs && c in q.candidates && c.score == x
  {
    hide ValidQuestion, Selected;
    var n := |qs| - 1;
    if x in Bests(qs[..n]) {
      BestsAreScores(qs[..n], x);
      var q, c :| q in qs[..n] && c in q.candidates && c.score == x;
      assert q in qs;
    } else {
      var scores := CoverScores(Selected(qs[n], None));
      CoverScoresAre(Selected(qs[n], None), x);
      var c :| c in Selected(qs[n], None) && c.covers && c.score == x;
      FilterThenCutIsCutThenFilter(qs[n], None, c);
      assert qs[n] in qs;
    }
  }

  lemma RequiredIsAScore(s: Snapshot)
    requires ValidSnapshot(s) && Required(s).Some?
    ensures Required(s).value in ScoreSet(s)
  {
    hide ValidQuestion;
    SortBySorts(Down, Bests(s.questions));
    var x := Required(s).value;
    assert x in SortBy(Down, Bests(s.questions));
    BestsAreScores(s.questions, x);
    var q, c :| q in s.questions && c in q.candidates && c.score == x;
    assert (c.score as int) in ScoreSet(s);
  }

  /** The scan misses nothing: if any number whatever passes the gate, the least that
      does is the suggested threshold, one step above the blocking score; the
      greatest is the required score; and all that tells whether there is one is the
      sign of the margin. */
  lemma ScanIsComplete(s: Snapshot, r: Report)
    requires ValidSnapshot(s) && Describes(s, r)
    ensures r.feasible <==> exists t: int :: Passed(s, t)
    ensures r.feasible <==> r.qualityGateMargin.Some? && r.qualityGateMargin.value > 0
    ensures
      r.feasible ==>
        && r.suggested == Some(r.maxBlocking + 1) && r.feasibleMax == r.required
        && r.suggestedMetrics.Some? && r.suggestedMetrics.value.passed
        && forall t: int :: Passed(s, t) <==> r.suggested.value <= t <= r.feasibleMax.value
    ensures
      r.feasibleCount ==
      |set t | t in ThresholdSet(s) && r.required.Some? && r.maxBlocking < t <= r.required.value|
  {
    hide ValidSnapshot, MetricsAt, ScoreSet, NoEvidenceScores, MaxIsolation;
    var b := BlockingScore(s);
    forall t: int ensures Passed(s, t) <==> Required(s).Some? && b < t <= Required(s).value {
      GateHasClosedForm(s, t);
    }
    BlockingIsAScore(s);
    if Required(s).Some? {
      RequiredIsAScore(s);
      ScoresAreScores(s, Required(s).value);
      if b < Required(s).value {
        NextScoresAre(ScoreSet(s), b + 1);
        assert b + 1 in FeasibleSet(s);
        assert Required(s).value in FeasibleSet(s);
      }
    }
    assert FeasibleSet(s) == set t | t in ThresholdSet(s) && r.required.Some? && r.maxBlocking < t <= r.required.value;
    if r.feasible {
      assert Passed(s, r.suggested.value);
    }
  }

  lemma ScoresAreScores(s: Snapshot, x: int)
    requires x in ScoreSet(s)
    ensures -MAX_SCORE <= x <= MAX_SCORE
  {}

  // ---- the order of the input does not matter ---------------------------

  /** A question without the order of its candidates. */
  datatype Bag = Bag(caseId: string, category: Category, candidates: multiset<Candidate>)

  function BagOf(q: Question): Bag { Bag(q.caseId, q.category, multiset(q.candidates)) }

  function Bags(qs: seq<Question>): seq<Bag> { seq(|qs|, i requires 0 <= i < |qs| => BagOf(qs[i])) }

  /** The same questions with the same candidates, all in any order. */
  predicate SameQuestions(a: seq<Question>, b: seq<Question>) { multiset(Bags(a)) == multiset(Bags(b)) }

  lemma SameBagSelects(q: Question, p: Question, t: Option<int>, c: Candidate)
    requires ValidQuestion(q) && ValidQuestion(p) && BagOf(q) == BagOf(p)
    ensures c in Selected(q, t) <==> c in Selected(p, t)
  {
    FilterThenCutIsCutThenFilter(q, t, c);
    FilterThenCutIsCutThenFilter(p, t, c);
    assert c in q.candidates <==> c in multiset(q.candidates);
    assert c in p.candidates <==> c in multiset(p.candidates);
  }

  lemma SameBagScores(m: Metric, q: Question, p: Question, t: Option<int>)
    requires ValidQuestion(q) && ValidQuestion(p) && BagOf(q) == BagOf(p)
    ensures Scores(m, q, t) <==> Scores(m, p, t)
  {
    hide ValidQuestion, Selected;
    var a, b := Selected(q, t), Selected(p, t);
    forall c ensures c in a <==> c in b {
      SameBagSelects(q, p, t, c);
    }
    assert q.category == p.category;
    assert a == [] <==> b == [] by {
      if a != [] { assert a[0] in b; }
      if b != [] { assert b[0] in a; }
    }
  }

  lemma {:induction false} TallyAppends(m: Metric, a: seq<Question>, b: seq<Question>, t: Option<int>)
    ensures Tally(m, a + b, t) == Tally(m, a, t) + Tally(m, b, t)
    decreases |b|
  {
    hide Scores;
    if b == [] {
      assert a + b == a;
    } else {
      var n := |b| - 1;
      assert (a + b)[..|a + b| - 1] == a + b[..n];
      TallyAppends(m, a, b[..n], t);
    }
  }

  lemma BagsAppend(a: seq<Question>, b: seq<Question>)
    ensures Bags(a + b) == Bags(a) + Bags(b)
    ensures multiset(Bags(a + b)) == multiset(Bags(a)) + multiset(Bags(b))
  {
    hide BagOf;
    assert Bags(a + b) == Bags(a) + Bags(b);
  }

  /** The question of `b` that matches the last one of `a`, and the rest of `b`. */
  lemma TakeMatch(a: seq<Question>, b: seq<Question>) returns (j: nat)
    requires SameQuestions(a, b) && a != []
    ensures j < |b| && BagOf(b[j]) == BagOf(a[|a| - 1])
    ensures SameQuestions(a[..|a| - 1], b[..j] + b[j + 1..])
    ensures b == b[..j] + [b[j]] + b[j + 1..]
  {
    hide BagOf;
    var n := |a| - 1;
    assert a == a[..n] + [a[n]];
    BagsAppend(a[..n], [a[n]]);
    assert Bags([a[n]]) == [BagOf(a[n])];
    assert BagOf(a[n]) in multiset(Bags(b));
    j :| 0 <= j < |b| && Bags(b)[j] == BagOf(a[n]);
    assert b == b[..j] + [b[j]] + b[j + 1..];
    BagsAppend(b[..j] + [b[j]], b[j + 1..]);
    BagsAppend(b[..j], [b[j]]);
    BagsAppend(b[..j], b[j + 1..]);
    assert Bags([b[j]]) == [BagOf(b[j])];
    CancelOne(multiset(Bags(a[..n])), multiset(Bags(b[..j])) + multiset(Bags(b[j + 1..])), BagOf(a[n]));
  }

  lemma CancelOne(x: multiset<Bag>, y: multiset<Bag>, b: Bag)
    requires x + multiset{b} == y + multiset{b}
    ensures x == y
  {
    assert x == (x + multiset{b}) - multiset{b};
    assert y == (y + multiset{b}) - multiset{b};
  }

  lemma {:induction false} TallyIgnoresOrder(m: Metric, a: seq<Question>, b: seq<Question>, t: Option<int>)
    requires SameQuestions(a, b)
    requires forall q :: q in a || q in b ==> ValidQuestion(q)
    ensures Tally(m, a, t) == Tally(m, b, t)
    decreases |a|
  {
    hide ValidQuestion, Scores, BagOf;
    if a == [] {
      assert |multiset(Bags(b))| == |b|;
      assert |multiset(Bags(a))| == 0;
    } else {
      var j := TakeMatch(a, b);
      var n := |a| - 1;
      TallyIgnoresOrder(m, a[..n], b[..j] + b[j + 1..], t);
      SameBagScores(m, a[n], b[j], t);
      TallyAppends(m, b[..j], b[j + 1..], t);
      TallyAppends(m, b[..j] + [b[j]], b[j + 1..], t);
      TallyAppends(m, b[..j], [b[j]], t);
      assert Tally(m, [b[j]], t) == if Scores(m, b[j], t) then 1 else 0 by {
        assert Tally(m, [], t) == 0;
        assert [b[j]][..0] == [];
      }
    }
  }

  /** Every question has its match. */
  lemma MatchOf(a: seq<Question>, b: seq<Question>, q: Question) returns (p: Question)
    requires SameQuestions(a, b) && q in a
    ensures p in b && BagOf(p) == BagOf(q)
  {
    hide BagOf;
    var i :| 0 <= i < |a| && a[i] == q;
    assert Bags(a)[i] == BagOf(q);
    assert BagOf(q) in multiset(Bags(b));
    var j :| 0 <= j < |b| && Bags(b)[j] == BagOf(q);
    p := b[j];
  }

  lemma SameScoreSets(s: Snapshot, s': Snapshot)
    requires SameQuestions(s.questions, s'.questions)
    ensures ScoreSet(s) <= ScoreSet(s')
  {
    hide SameQuestions;
    forall x | x in ScoreSet(s) ensures x in ScoreSet(s') {
      var q, c :| q in s.questions && c in q.candidates && c.score as int == x;
      var p := MatchOf(s.questions, s'.questions, q);
      assert c in multiset(p.candidates);
      assert c in p.candidates;
    }
  }

  lemma SameNoEvidenceScores(s: Snapshot, s': Snapshot, x: int)
    requires SameQuestions(s.questions, s'.questions) && x in NoEvidenceScores(s.questions)
    ensures x in NoEvidenceScores(s'.questions)
  {
    hide SameQuestions;
    NoEvidenceScoresAre(s.questions, x);
    var q, c :| q in s.questions && q.category == NoEvidence && c in q.candidates && c.score == x;
    var p := MatchOf(s.questions, s'.questions, q);
    assert c in multiset(p.candidates);
    NoEvidenceScoresAre(s'.questions, x);
  }

  lemma SameIsolationScores(s: Snapshot, s': Snapshot, x: int)
    requires ValidSnapshot(s) && ValidSnapshot(s')
    requires SameQuestions(s.questions, s'.questions) && x in IsolationScores(s.questions)
    ensures x in IsolationScores(s'.questions)
  {
    hide SameQuestions, ValidQuestion;
    IsolationScoresAre(s.questions, x);
    var q, c :| q in s.questions && q.category == Isolation && c in q.candidates && c.rank <= 10 && c.violates && c.score == x;
    var p := MatchOf(s.questions, s'.questions, q);
    assert c in multiset(p.candidates);
    IsolationScoresAre(s'.questions, x);
  }

  lemma SameMax(a: seq<int>, b: seq<int>)
    requires forall x :: x in a <==> x in b
    ensures a == [] <==> b == []
    ensures a != [] ==> MaxOf(a) == MaxOf(b)
  {
    SameMembers(a, set x | x in b);
    SameMembers(b, set x | x in b);
  }

  lemma RequiredCarriesOver(s: Snapshot, s': Snapshot)
    requires ValidSnapshot(s) && ValidSnapshot(s') && SameQuestions(s.questions, s'.questions)
    ensures Required(s).Some? ==> Required(s').Some? && Required(s).value <= Required(s').value
  {
    hide SameQuestions, ValidQuestion, Required;
    if Required(s).Some? {
      var t := Required(s).value;
      TallyIgnoresOrder(PublicHits, s.questions, s'.questions, Some(t));
      HitsSufficeIff(s, t);
      HitsSufficeIff(s', t);
    }
  }

  lemma SameRequired(s: Snapshot, s': Snapshot)
    requires ValidSnapshot(s) && ValidSnapshot(s') && SameQuestions(s.questions, s'.questions)
    ensures Required(s) == Required(s')
  {
    hide ValidSnapshot, Required;
    RequiredCarriesOver(s, s');
    RequiredCarriesOver(s', s);
  }

  lemma SameMetrics(s: Snapshot, s': Snapshot, t: Option<int>)
    requires ValidSnapshot(s) && ValidSnapshot(s') && SameQuestions(s.questions, s'.questions)
    ensures MetricsAt(s, t) == MetricsAt(s', t)
  {
    hide SameQuestions, ValidQuestion;
    TallyIgnoresOrder(PublicHits, s.questions, s'.questions, t);
    TallyIgnoresOrder(StrictHits, s.questions, s'.questions, t);
    TallyIgnoresOrder(NoEvidenceRejected, s.questions, s'.questions, t);
    TallyIgnoresOrder(IsolationPassed, s.questions, s'.questions, t);
  }

  lemma SameSymmetric(a: seq<Question>, b: seq<Question>)
    requires SameQuestions(a, b)
    ensures SameQuestions(b, a)
  {}

  /** The report says the same however questions and candidates are ordered, and a
      snapshot has only one report. */
  lemma ReportIgnoresOrder(s: Snapshot, s': Snapshot, r: Report, r': Report)
    requires ValidSnapshot(s) && ValidSnapshot(s') && SameQuestions(s.questions, s'.questions)
    requires Describes(s, r) && Describes(s', r')
    ensures r == r'
  {
    hide SameQuestions, ValidSnapshot, MetricsAt, Required, NoEvidenceScores, IsolationScores, ScoreSet;
    SameSymmetric(s.questions, s'.questions);
    NoEvidenceScoresExist(s);
    NoEvidenceScoresExist(s');
    forall t ensures MetricsAt(s, t) == MetricsAt(s', t) {
      SameMetrics(s, s', t);
    }
    SameRequired(s, s');
    SameScoreSets(s, s');
    SameScoreSets(s', s);
    assert FeasibleSet(s) == FeasibleSet(s');
    forall x ensures x in NoEvidenceScores(s.questions) <==> x in NoEvidenceScores(s'.questions) {
      if x in NoEvidenceScores(s.questions) { SameNoEvidenceScores(s, s', x); }
      if x in NoEvidenceScores(s'.questions) { SameNoEvidenceScores(s', s, x); }
    }
    SameMax(NoEvidenceScores(s.questions), NoEvidenceScores(s'.questions));
    forall x ensures x in IsolationScores(s.questions) <==> x in IsolationScores(s'.questions) {
      if x in IsolationScores(s.questions) { SameIsolationScores(s, s', x); }
      if x in IsolationScores(s'.questions) { SameIsolationScores(s', s, x); }
    }
    SameMax(IsolationScores(s.questions), IsolationScores(s'.questions));
  }
}
