/** What the scanner's report says, told by the questions and their candidates alone. */
module ScannerMeaning {
  import opened Wrappers
  import opened Ordering
  import opened Scanner

  /** The candidate is shown at this threshold: among the first ten and good enough. */
  predicate Shown(c: Candidate, t: Option<int>) { c.rank <= 10 && (t.Some? ==> t.value <= c.score) }

  function Hitting(qs: seq<Question>, t: Option<int>): set<nat> {
    set i: nat | i < |qs| && qs[i].category == Grounded && exists c :: c in qs[i].candidates && c.covers && Shown(c, t)
  }

  function HittingStrictly(qs: seq<Question>, t: Option<int>): set<nat> {
    set i: nat | i < |qs| && qs[i].category == Grounded && exists c :: c in qs[i].candidates && c.strict && Shown(c, t)
  }

  function Rejecting(qs: seq<Question>, t: Option<int>): set<nat> {
    set i: nat | i < |qs| && qs[i].category == NoEvidence && forall c :: c in qs[i].candidates ==> t.Some? && c.score < t.value
  }

  function Isolating(qs: seq<Question>, t: Option<int>): set<nat> {
    set i: nat | i < |qs| && qs[i].category == Isolation && forall c :: c in qs[i].candidates && c.violates ==> !Shown(c, t)
  }

  /** The counters are numbers of questions, and seven, two and two of them pass. */
  ghost predicate Counts(m: Metrics, qs: seq<Question>, t: Option<int>) {
    && m.publicHits == |Hitting(qs, t)| && m.strictHits == |HittingStrictly(qs, t)|
    && m.noEvidenceRejected == |Rejecting(qs, t)| && m.isolationPassed == |Isolating(qs, t)|
    && (m.passed <==> |Hitting(qs, t)| >= 7 && |Rejecting(qs, t)| == 2 && |Isolating(qs, t)| == 2)
  }

  function Scoring(m: Metric, qs: seq<Question>, t: Option<int>): set<nat> {
    set i: nat | i < |qs| && Scores(m, qs[i], t)
  }

  lemma {:induction false} TallyCounts(m: Metric, qs: seq<Question>, t: Option<int>)
    ensures Tally(m, qs, t) == |Scoring(m, qs, t)|
  {
    hide Scores;
    if qs == [] {
      assert Scoring(m, qs, t) == {};
    } else {
      TallyCounts(m, qs[..|qs| - 1], t);
      OneMoreScores(m, qs, t);
    }
  }

  lemma OneMoreScores(m: Metric, qs: seq<Question>, t: Option<int>)
    requires qs != []
    ensures
      var n := |qs| - 1;
      |Scoring(m, qs, t)| == |Scoring(m, qs[..n], t)| + if Scores(m, qs[n], t) then 1 else 0
  {
    hide Scores;
    var n := |qs| - 1;
    var before := Scoring(m, qs[..n], t);
    assert n !in before;
    forall i: nat ensures i in Scoring(m, qs, t) <==> i in before || (i == n && Scores(m, qs[n], t)) {
      if i < n {
        assert qs[..n][i] == qs[i];
      }
    }
    hide Scoring;
    if Scores(m, qs[n], t) {
      assert Scoring(m, qs, t) == before + {n};
    } else {
      assert Scoring(m, qs, t) == before;
    }
  }

  lemma SelectedNothingIff(q: Question, t: Option<int>)
    requires ValidQuestion(q)
    ensures Selected(q, t) == [] <==> forall c :: c in q.candidates ==> t.Some? && c.score < t.value
  {
    if t.Some? {
      RejectedIff(q, t.value);
    } else {
      assert HasRank(q.candidates, 1);
      var best :| best in q.candidates && best.rank == 1;
      FilterThenCutIsCutThenFilter(q, None, best);
    }
  }

  lemma ScoresMean(q: Question, t: Option<int>)
    requires ValidQuestion(q)
    ensures Scores(PublicHits, q, t) <==> q.category == Grounded && exists c :: c in q.candidates && c.covers && Shown(c, t)
    ensures Scores(StrictHits, q, t) <==> q.category == Grounded && exists c :: c in q.candidates && c.strict && Shown(c, t)
    ensures Scores(NoEvidenceRejected, q, t) <==>
            q.category == NoEvidence && forall c :: c in q.candidates ==> t.Some? && c.score < t.value
    ensures Scores(IsolationPassed, q, t) <==>
            q.category == Isolation && forall c :: c in q.candidates && c.violates ==> !Shown(c, t)
  {
    forall c ensures c in Selected(q, t) <==> c in q.candidates && Shown(c, t) {
      FilterThenCutIsCutThenFilter(q, t, c);
    }
    SelectedNothingIff(q, t);
    hide Selected, ValidQuestion, Shown;
  }

  /** The counters of a threshold, or of none. */
  lemma MetricsCount(s: Snapshot, t: Option<int>)
    requires ValidSnapshot(s)
    ensures Counts(MetricsAt(s, t), s.questions, t)
  {
    var qs := s.questions;
    TallyCounts(PublicHits, qs, t);
    TallyCounts(StrictHits, qs, t);
    TallyCounts(NoEvidenceRejected, qs, t);
    TallyCounts(IsolationPassed, qs, t);
    forall i: nat | i < |qs|
      ensures
        && (i in Scoring(PublicHits, qs, t) <==> i in Hitting(qs, t))
        && (i in Scoring(StrictHits, qs, t) <==> i in HittingStrictly(qs, t))
        && (i in Scoring(NoEvidenceRejected, qs, t) <==> i in Rejecting(qs, t))
        && (i in Scoring(IsolationPassed, qs, t) <==> i in Isolating(qs, t))
    {
      assert qs[i] in qs;
      ScoresMean(qs[i], t);
      hide Scores, ValidQuestion, Shown;
    }
    hide Scores, ValidSnapshot, Tally;
    assert Scoring(PublicHits, qs, t) == Hitting(qs, t);
    assert Scoring(StrictHits, qs, t) == HittingStrictly(qs, t);
    assert Scoring(NoEvidenceRejected, qs, t) == Rejecting(qs, t);
    assert Scoring(IsolationPassed, qs, t) == Isolating(qs, t);
  }

  /** A score of some question of this kind, `leaked` ones only or all. */
  predicate ScoreOf(qs: seq<Question>, c: Category, leaked: bool, x: int) {
    exists q, d :: q in qs && q.category == c && d in q.candidates && d.score == x && (leaked ==> d.violates && d.rank <= 10)
  }

  /** A threshold the scanner tries: a score, or the next number after one. */
  predicate Worth(qs: seq<Question>, t: int) {
    exists q, c :: q in qs && c in q.candidates && (t == c.score || (t == c.score + 1 && c.score < MAX_SCORE))
  }

  /** What the entries of the report are: the numbers that pass among those worth trying;
      the counters without a threshold and with the suggested one; the best score of a
      question without evidence; the best of a leak among the first ten; the greater of
      the two; the greatest threshold that seven questions reach; and the two margins. */
  ghost predicate Reports(s: Snapshot, r: Report) {
    ReportsThresholds(s, r) && ReportsScores(s, r) && ReportsMargins(s, r)
  }

  ghost predicate ReportsThresholds(s: Snapshot, r: Report) {
    && (r.feasible <==> exists t :: Worth(s.questions, t) && Good(s, t))
    && (r.feasible <==> r.feasibleMin.Some?) && (r.feasible <==> r.feasibleMax.Some?)
    && (r.feasible ==>
          && Worth(s.questions, r.feasibleMin.value) && Good(s, r.feasibleMin.value)
          && Worth(s.questions, r.feasibleMax.value) && Good(s, r.feasibleMax.value)
          && forall t :: Worth(s.questions, t) && Good(s, t) ==> r.feasibleMin.value <= t <= r.feasibleMax.value)
    && r.suggested == r.feasibleMin && (r.suggestedMetrics.Some? <==> r.feasible)
    && (r.feasible ==> Counts(r.suggestedMetrics.value, s.questions, r.suggested))
    && Counts(r.baseline, s.questions, None)
  }

  ghost predicate ReportsScores(s: Snapshot, r: Report) {
    && ScoreOf(s.questions, NoEvidence, false, r.maxNoEvidence)
    && (forall x :: ScoreOf(s.questions, NoEvidence, false, x) ==> x <= r.maxNoEvidence)
    && (r.maxIsolation.Some? <==> exists x :: ScoreOf(s.questions, Isolation, true, x))
    && (r.maxIsolation.Some? ==> ScoreOf(s.questions, Isolation, true, r.maxIsolation.value))
    && (r.maxIsolation.Some? ==> forall x :: ScoreOf(s.questions, Isolation, true, x) ==> x <= r.maxIsolation.value)
    && r.maxBlocking >= r.maxNoEvidence && (r.maxIsolation.Some? ==> r.maxBlocking >= r.maxIsolation.value)
    && (r.maxBlocking == r.maxNoEvidence || Some(r.maxBlocking) == r.maxIsolation)
  }

  ghost predicate ReportsMargins(s: Snapshot, r: Report) {
    && (forall t :: |Hitting(s.questions, Some(t))| >= 7 <==> r.required.Some? && t <= r.required.value)
    && r.separationMargin == (if r.required.Some? then Some(r.required.value - r.maxNoEvidence) else None)
    && r.qualityGateMargin == (if r.required.Some? then Some(r.required.value - r.maxBlocking) else None)
  }

  /** The threshold passes the gate. */
  ghost predicate Good(s: Snapshot, t: int) {
    |Hitting(s.questions, Some(t))| >= 7 && |Rejecting(s.questions, Some(t))| == 2 && |Isolating(s.questions, Some(t))| == 2
  }

  lemma WorthIff(s: Snapshot, t: int)
    ensures t in ThresholdSet(s) <==> Worth(s.questions, t)
  {
    hide MAX_SCORE;
    if t in NextScores(ScoreSet(s)) {
      var x :| x in ScoreSet(s) && x < MAX_SCORE && t == x + 1;
    }
    if Worth(s.questions, t) {
      var q, c :| q in s.questions && c in q.candidates && (t == c.score || (t == c.score + 1 && c.score < MAX_SCORE));
      assert (c.score as int) in ScoreSet(s);
    }
  }

  lemma FeasibleIff(s: Snapshot, t: int)
    requires ValidSnapshot(s)
    ensures t in FeasibleSet(s) <==> Worth(s.questions, t) && Good(s, t)
    ensures Passed(s, t) <==> Good(s, t)
  {
    hide ValidSnapshot;
    WorthIff(s, t);
    MetricsCount(s, Some(t));
    hide MetricsAt, Hitting, Rejecting, Isolating, ThresholdSet, Worth;
  }

  lemma ScoresAre(s: Snapshot, x: int)
    requires ValidSnapshot(s)
    ensures x in NoEvidenceScores(s.questions) <==> ScoreOf(s.questions, NoEvidence, false, x)
    ensures x in IsolationScores(s.questions) <==> ScoreOf(s.questions, Isolation, true, x)
  {
    hide ValidQuestion;
    NoEvidenceScoresAre(s.questions, x);
    IsolationScoresAre(s.questions, x);
    hide NoEvidenceScores, IsolationScores;
  }

  /** The report `_scan` makes says just that, of every valid snapshot. */
  lemma ScanReports(s: Snapshot, r: Report)
    requires ValidSnapshot(s) && Describes(s, r)
    ensures Reports(s, r)
    ensures r.feasibleCount == |set t | t in ThresholdSet(s) && Good(s, t)|
  {
    ThresholdsReported(s, r);
    ScoresReported(s, r);
    MarginsReported(s, r);
    hide Describes, ReportsThresholds, ReportsScores, ReportsMargins, ValidSnapshot;
  }

  lemma ThresholdsReported(s: Snapshot, r: Report)
    requires ValidSnapshot(s) && Describes(s, r)
    ensures ReportsThresholds(s, r)
    ensures r.feasibleCount == |set t | t in ThresholdSet(s) && Good(s, t)|
  {
    hide ValidSnapshot, MetricsAt, NoEvidenceScores, MaxIsolation, BlockingScore, Required, ThresholdSet, FeasibleSet, Counts;
    forall t: int ensures t in FeasibleSet(s) <==> Worth(s.questions, t) && Good(s, t) {
      FeasibleIff(s, t);
    }
    MetricsCount(s, None);
    if r.suggested.Some? {
      MetricsCount(s, r.suggested);
    }
    FeasibleIsGood(s);
    FeasibleFacts(s, r);
    hide Good, Worth;
  }

  lemma FeasibleIsGood(s: Snapshot)
    requires ValidSnapshot(s)
    ensures FeasibleSet(s) == set t | t in ThresholdSet(s) && Good(s, t)
  {
    hide ValidSnapshot, ThresholdSet, Passed, Good;
    forall t: int ensures Passed(s, t) <==> Good(s, t) {
      FeasibleIff(s, t);
    }
  }

  lemma ScoresReported(s: Snapshot, r: Report)
    requires ValidSnapshot(s) && Describes(s, r)
    ensures ReportsScores(s, r)
  {
    NoEvidenceScoresExist(s);
    hide ValidSnapshot, MetricsAt, NoEvidenceScores, IsolationScores, Required, FeasibleSet, ScoreOf;
    forall x ensures (x in NoEvidenceScores(s.questions) <==> ScoreOf(s.questions, NoEvidence, false, x))
                     && (x in IsolationScores(s.questions) <==> ScoreOf(s.questions, Isolation, true, x)) {
      ScoresAre(s, x);
    }
    var isolation := IsolationScores(s.questions);
    assert isolation != [] ==> isolation[0] in isolation;
  }

  lemma MarginsReported(s: Snapshot, r: Report)
    requires ValidSnapshot(s) && Describes(s, r)
    ensures ReportsMargins(s, r)
  {
    hide ValidSnapshot, MetricsAt, NoEvidenceScores, MaxIsolation, BlockingScore, Required, FeasibleSet, Hitting, Tally;
    forall t: int ensures |Hitting(s.questions, Some(t))| >= 7 <==> Required(s).Some? && t <= Required(s).value {
      HitsSufficeIff(s, t);
      HitsAreTallied(s, Some(t));
    }
  }

  lemma HitsAreTallied(s: Snapshot, t: Option<int>)
    requires ValidSnapshot(s)
    ensures Tally(PublicHits, s.questions, t) == |Hitting(s.questions, t)|
  {
    MetricsCount(s, t);
    hide Tally, Hitting;
  }

  lemma FeasibleFacts(s: Snapshot, r: Report)
    requires ValidSnapshot(s) && Describes(s, r)
    ensures r.feasible <==> exists t :: t in FeasibleSet(s)
  {
    hide ValidSnapshot, FeasibleSet;
    if FeasibleSet(s) != {} {
      var t :| t in FeasibleSet(s);
    }
  }
}
