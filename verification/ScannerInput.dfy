/** Which files the threshold scanner accepts: reading a candidate snapshot from
    untrusted JSON (scripts/p14_d4_threshold_feasibility.py). */
module ScannerInput {
  import opened Wrappers
  import opened Text
  import opened Ordering
  import opened Scanner
  import M = ScannerMeaning

  // ---- JSON, as far as the scanner looks at it --------------------------

  /** An object's `exactFields` says that it is an object with the expected names and
      no others; `None` is a value of the wrong type, or outside its enumeration, or
      a number that is not finite. */
  datatype RawCandidate = RawCandidate(
    exactFields: bool, key: Option<string>, rank: Option<int>, score: Option<Score>,
    covers: Option<bool>, strict: Option<bool>, violates: Option<bool>, kind: Option<Kind>)

  datatype RawQuestion = RawQuestion(
    exactFields: bool, caseId: Option<string>, category: Option<Category>, candidates: Option<seq<RawCandidate>>)

  datatype RawSnapshot = RawSnapshot(
    exactFields: bool, fingerprint: Option<string>, questions: Option<seq<RawQuestion>>)

  function EncodeCandidate(c: Candidate): RawCandidate {
    RawCandidate(true, Some(c.key), Some(c.rank), Some(c.score), Some(c.covers), Some(c.strict), Some(c.violates), Some(c.kind))
  }

  function EncodeCandidates(cs: seq<Candidate>): seq<RawCandidate> {
    seq(|cs|, i requires 0 <= i < |cs| => EncodeCandidate(cs[i]))
  }

  function EncodeQuestion(q: Question): RawQuestion {
    RawQuestion(true, Some(q.caseId), Some(q.category), Some(EncodeCandidates(q.candidates)))
  }

  function Encode(s: Snapshot): RawSnapshot {
    RawSnapshot(true, Some(s.fingerprint),
                Some(seq(|s.questions|, i requires 0 <= i < |s.questions| => EncodeQuestion(s.questions[i]))))
  }

  lemma CandidatesDecode(cs: seq<Candidate>, ds: seq<Candidate>)
    requires EncodeCandidates(cs) == EncodeCandidates(ds)
    ensures cs == ds
  {
    assert |cs| == |EncodeCandidates(cs)| == |ds|;
    forall i | 0 <= i < |cs| ensures cs[i] == ds[i] {
      assert EncodeCandidates(cs)[i] == EncodeCandidates(ds)[i];
    }
  }

  /** A file says one thing only. */
  lemma EncodingIsUnique(a: Snapshot, b: Snapshot)
    requires Encode(a) == Encode(b)
    ensures a == b
  {
    assert |a.questions| == |Encode(a).questions.value| == |b.questions|;
    forall i | 0 <= i < |a.questions| ensures a.questions[i] == b.questions[i] {
      assert Encode(a).questions.value[i] == Encode(b).questions.value[i];
      CandidatesDecode(a.questions[i].candidates, b.questions[i].candidates);
    }
  }

  // ---- ranks ------------------------------------------------------------

  function OneTo(n: nat): seq<int> { seq(n, i => i + 1) }

  lemma {:induction false} InsertCommutesWithRanks(c: Candidate, s: seq<Candidate>)
    ensures Ranks(InsertBy(RankLeq, c, s)) == InsertBy(Up, c.rank, Ranks(s))
  {
    if s == [] || RankLeq(c, s[0]) {
      assert Ranks([c] + s) == [c.rank] + Ranks(s);
    } else {
      InsertCommutesWithRanks(c, s[1..]);
      assert Ranks(s)[1..] == Ranks(s[1..]);
      assert Ranks([s[0]] + InsertBy(RankLeq, c, s[1..])) == [s[0].rank] + Ranks(InsertBy(RankLeq, c, s[1..]));
    }
  }

  lemma {:induction false} SortCommutesWithRanks(s: seq<Candidate>)
    ensures Ranks(SortBy(RankLeq, s)) == SortBy(Up, Ranks(s))
  {
    if s == [] {
      assert Ranks(s) == [];
    } else {
      SortCommutesWithRanks(s[1..]);
      assert Ranks(s)[1..] == Ranks(s[1..]);
      InsertCommutesWithRanks(s[0], SortBy(RankLeq, s[1..]));
    }
  }

  lemma {:induction false} EverythingIsEligible(s: seq<Candidate>)
    ensures Eligible(s, None) == s
  {
    if s != [] {
      EverythingIsEligible(s[1..]);
    }
  }

  /** All that is needed of sorting by rank. */
  lemma RankedFacts(s: seq<Candidate>)
    ensures
      var sorted := SortBy(RankLeq, s);
      && |sorted| == |s| && (forall c :: c in sorted <==> c in s)
      && (DistinctRanks(sorted) <==> DistinctRanks(s))
      && Ranks(sorted) == SortBy(Up, Ranks(s))
      && (RanksAreComplete(s) ==> forall j :: 0 <= j < |sorted| ==> sorted[j].rank == j + 1)
  {
    SortCommutesWithRanks(s);
    RankOrders();
    SortBySorts(RankLeq, s);
    SortRanksApart(s);
    hide Orders, Sorted, DistinctRanks;
    var sorted := SortBy(RankLeq, s);
    if RanksAreComplete(s) {
      hide RanksAreComplete, SortBy;
      EverythingIsEligible(s);
      forall j | 0 <= j < |sorted| ensures sorted[j].rank == j + 1 {
        PlacesAreRanks(s, None, j);
      }
    }
  }

  lemma NumberedIsComplete(s: seq<Candidate>)
    requires forall j :: 0 <= j < |s| ==> s[j].rank == j + 1
    ensures RanksAreComplete(s)
  {
    forall r | 1 <= r <= |s| ensures HasRank(s, r) {
      assert s[r - 1] in s;
    }
  }

  lemma CompleteCarriesOver(sorted: seq<Candidate>, s: seq<Candidate>)
    requires RanksAreComplete(sorted) && |sorted| == |s| && (forall c :: c in sorted <==> c in s)
    requires DistinctRanks(s)
    ensures RanksAreComplete(s)
  {
    forall r | 1 <= r <= |s| ensures HasRank(s, r) {
      assert HasRank(sorted, r);
      var c :| c in sorted && c.rank == r;
      assert c in s;
    }
  }

  /** The scanner compares the sorted ranks with 1, 2, 3, ...: that is right. */
  lemma RankCheckIsExact(s: seq<Candidate>)
    ensures SortBy(Up, Ranks(s)) == OneTo(|s|) <==> RanksAreComplete(s)
  {
    RankedFacts(s);
    hide SortBy, DistinctRanks, RanksAreComplete;
    var sorted := SortBy(RankLeq, s);
    if Ranks(sorted) == OneTo(|s|) {
      forall j | 0 <= j < |sorted| ensures sorted[j].rank == j + 1 {
        assert Ranks(sorted)[j] == j + 1;
      }
      NumberedIsComplete(sorted);
      assert DistinctRanks(sorted) by { CompleteIsDistinct(sorted); }
      CompleteCarriesOver(sorted, s);
    }
    if RanksAreComplete(s) {
      assert Ranks(sorted) == OneTo(|s|);
    }
  }

  lemma CompleteIsDistinct(s: seq<Candidate>)
    requires RanksAreComplete(s)
    ensures DistinctRanks(s)
  {}

  lemma {:induction false} ScoresFall(sorted: seq<Candidate>, i: nat, j: nat)
    requires i <= j < |sorted|
    requires forall k :: 0 <= k < |sorted| - 1 ==> sorted[k].score >= sorted[k + 1].score
    ensures sorted[i].score >= sorted[j].score
    decreases j
  {
    if i < j {
      ScoresFall(sorted, i, j - 1);
      assert sorted[j - 1].score >= sorted[j - 1 + 1].score;
    }
  }

  /** Comparing neighbours in rank order is enough. */
  lemma NeighbourCheckIsExact(s: seq<Candidate>)
    requires RanksAreComplete(s)
    ensures
      var sorted := SortBy(RankLeq, s);
      |sorted| == |s|
      && ((forall k :: 0 <= k < |sorted| - 1 ==> sorted[k].score >= sorted[k + 1].score) <==> ScoresFollowRanks(s))
  {
    RankedFacts(s);
    hide SortBy, RanksAreComplete, DistinctRanks;
    var sorted := SortBy(RankLeq, s);
    if ScoresFollowRanks(s) {
      forall k | 0 <= k < |sorted| - 1 ensures sorted[k].score >= sorted[k + 1].score {
        assert sorted[k] in sorted && sorted[k + 1] in sorted;
      }
    } else {
      var c, d :| c in s && d in s && c.rank < d.rank && c.score < d.score;
      assert c in sorted && d in sorted;
      var i :| 0 <= i < |sorted| && sorted[i] == c;
      var j :| 0 <= j < |sorted| && sorted[j] == d;
      if forall k :: 0 <= k < |sorted| - 1 ==> sorted[k].score >= sorted[k + 1].score {
        ScoresFall(sorted, i, j);
      }
    }
  }

  // ---- reading ----------------------------------------------------------

  method ReadCandidate(raw: RawCandidate) returns (c: Option<Candidate>)
    ensures c.Some? ==> EncodeCandidate(c.value) == raw && IsLowerHex(c.value.key, 64)
    ensures c.None? ==> forall d: Candidate :: IsLowerHex(d.key, 64) ==> EncodeCandidate(d) != raw
  {
    hide IsLowerHex;
    if !raw.exactFields || raw.key.None? || !IsLowerHex(raw.key.value, 64) {
      return None;
    }
    if raw.rank.None? || raw.score.None? {
      return None;
    }
    if raw.covers.None? || raw.strict.None? || raw.violates.None? || raw.kind.None? {
      return None;
    }
    c := Some(Candidate(raw.key.value, raw.rank.value, raw.score.value,
                        raw.covers.value, raw.strict.value, raw.violates.value, raw.kind.value));
  }

  ghost predicate GoodKeys(cs: seq<Candidate>) {
    (forall c :: c in cs ==> IsLowerHex(c.key, 64)) && DistinctKeys(cs)
  }

  lemma CandidateAt(raws: seq<RawCandidate>, ds: seq<Candidate>, i: nat)
    requires GoodKeys(ds) && EncodeCandidates(ds) == raws && i < |raws|
    ensures i < |ds| == |raws| && IsLowerHex(ds[i].key, 64) && EncodeCandidate(ds[i]) == raws[i]
    ensures forall j :: 0 <= j < i ==> EncodeCandidate(ds[j]) == raws[j] && ds[j].key != ds[i].key
  {
    assert |ds| == |raws|;
    assert ds[i] in ds;
    forall j | 0 <= j <= i ensures EncodeCandidate(ds[j]) == raws[j] {
      assert EncodeCandidates(ds)[j] == EncodeCandidate(ds[j]);
    }
  }

  /** The inner loop: every candidate in turn, with the keys seen so far. */
  method ReadCandidates(raws: seq<RawCandidate>) returns (cs: Option<seq<Candidate>>)
    ensures cs.Some? ==> EncodeCandidates(cs.value) == raws && GoodKeys(cs.value)
    ensures cs.None? ==> forall ds :: GoodKeys(ds) ==> EncodeCandidates(ds) != raws
  {
    hide IsLowerHex;
    var read: seq<Candidate> := [];
    var keys: set<string> := {};
    for i := 0 to |raws|
      invariant |read| == i
      invariant forall j :: 0 <= j < i ==> EncodeCandidate(read[j]) == raws[j]
      invariant forall j :: 0 <= j < i ==> IsLowerHex(read[j].key, 64)
      invariant forall j :: 0 <= j < i ==> read[j].key in keys
      invariant forall k :: k in keys ==> exists j :: 0 <= j < i && read[j].key == k
      invariant DistinctKeys(read)
    {
      var c := ReadCandidate(raws[i]);
      if c.None? || c.value.key in keys {
        forall ds | GoodKeys(ds) ensures EncodeCandidates(ds) != raws {
          if EncodeCandidates(ds) == raws {
            CandidateAt(raws, ds, i);
          }
        }
        return None;
      }
      keys := keys + {c.value.key};
      read := read + [c.value];
    }
    assert EncodeCandidates(read) == raws;
    cs := Some(read);
  }

  /** One question. */
  method ReadQuestion(raw: RawQuestion) returns (q: Option<Question>)
    ensures q.Some? ==> EncodeQuestion(q.value) == raw && ValidQuestion(q.value)
    ensures q.None? ==> forall p :: ValidQuestion(p) ==> EncodeQuestion(p) != raw
  {
    hide RanksAreComplete, ScoresFollowRanks, SortBy, Strip, IsLowerHex, DistinctKeys;
    if !raw.exactFields || raw.category.None? || raw.caseId.None? || Strip(raw.caseId.value) == "" {
      return None;
    }
    if raw.candidates.None? || |raw.candidates.value| != 30 {
      return None;
    }
    var read := ReadCandidates(raw.candidates.value);
    if read.None? {
      forall p | ValidQuestion(p) ensures EncodeQuestion(p) != raw {
        assert GoodKeys(p.candidates);
      }
      return None;
    }
    var cs := read.value;
    forall p | EncodeQuestion(p) == raw ensures p.candidates == cs {
      CandidatesDecode(p.candidates, cs);
    }
    RankCheckIsExact(cs);
    if SortBy(Up, Ranks(cs)) != OneTo(30) {
      return None;
    }
    NeighbourCheckIsExact(cs);
    var ranked := SortBy(RankLeq, cs);
    for k := 0 to |ranked| - 1
      invariant forall l :: 0 <= l < k ==> ranked[l].score >= ranked[l + 1].score
    {
      if ranked[k].score < ranked[k + 1].score {
        assert !ScoresFollowRanks(cs);
        return None;
      }
    }
    q := Some(Question(raw.caseId.value, raw.category.value, cs));
  }

  ghost predicate DistinctCases(qs: seq<Question>) {
    forall i, j :: 0 <= i < j < |qs| ==> qs[i].caseId != qs[j].caseId
  }

  ghost predicate GoodQuestions(qs: seq<Question>) {
    (forall q :: q in qs ==> ValidQuestion(q)) && DistinctCases(qs)
  }

  function EncodeQuestions(qs: seq<Question>): seq<RawQuestion> {
    seq(|qs|, i requires 0 <= i < |qs| => EncodeQuestion(qs[i]))
  }

  lemma QuestionAt(raws: seq<RawQuestion>, ps: seq<Question>, i: nat)
    requires GoodQuestions(ps) && EncodeQuestions(ps) == raws && i < |raws|
    ensures i < |ps| == |raws| && ValidQuestion(ps[i]) && EncodeQuestion(ps[i]) == raws[i]
    ensures forall j :: 0 <= j < i ==> EncodeQuestion(ps[j]) == raws[j] && ps[j].caseId != ps[i].caseId
  {
    hide ValidQuestion;
    assert |ps| == |raws|;
    assert ps[i] in ps;
    forall j | 0 <= j <= i ensures EncodeQuestion(ps[j]) == raws[j] {
      assert EncodeQuestions(ps)[j] == EncodeQuestion(ps[j]);
    }
  }

  /** The outer loop: every question in turn, with the case ids seen so far. */
  method ReadQuestions(raws: seq<RawQuestion>) returns (qs: Option<seq<Question>>)
    ensures qs.Some? ==> EncodeQuestions(qs.value) == raws && GoodQuestions(qs.value)
    ensures qs.None? ==> forall ps :: GoodQuestions(ps) ==> EncodeQuestions(ps) != raws
  {
    hide ValidQuestion;
    var read: seq<Question> := [];
    var cases: set<string> := {};
    for i := 0 to |raws|
      invariant |read| == i
      invariant forall j :: 0 <= j < i ==> EncodeQuestion(read[j]) == raws[j]
      invariant forall j :: 0 <= j < i ==> ValidQuestion(read[j])
      invariant forall j :: 0 <= j < i ==> read[j].caseId in cases
      invariant forall k :: k in cases ==> exists j :: 0 <= j < i && read[j].caseId == k
      invariant DistinctCases(read)
    {
      var q := ReadQuestion(raws[i]);
      if q.None? || q.value.caseId in cases {
        forall ps | GoodQuestions(ps) ensures EncodeQuestions(ps) != raws {
          if EncodeQuestions(ps) == raws {
            QuestionAt(raws, ps, i);
          }
        }
        return None;
      }
      cases := cases + {q.value.caseId};
      read := read + [q.value];
    }
    assert EncodeQuestions(read) == raws;
    qs := Some(read);
  }

  /** `validate_snapshot`: it accepts exactly the files that say a valid snapshot. */
  method ValidateSnapshot(raw: RawSnapshot) returns (s: Option<Snapshot>)
    ensures s.Some? ==> Encode(s.value) == raw && ValidSnapshot(s.value)
    ensures s.None? ==> forall x :: ValidSnapshot(x) ==> Encode(x) != raw
    ensures s.Some? <==> WellFormed(raw)
    ensures s.Some? ==> IsRead(s.value, raw)
  {
    ReadExactlyTheWellFormed(raw);
    hide ValidQuestion, IsLowerHex, CountCategory, WellFormed, IsRead;
    if !raw.exactFields || raw.fingerprint.None? || !IsLowerHex(raw.fingerprint.value, 64) {
      return None;
    }
    if raw.questions.None? || |raw.questions.value| != 12 {
      return None;
    }
    var read := ReadQuestions(raw.questions.value);
    if read.None? {
      forall x | ValidSnapshot(x) ensures Encode(x) != raw {
        assert GoodQuestions(x.questions);
        assert Encode(x).questions.value == EncodeQuestions(x.questions);
      }
      return None;
    }
    var candidate := Snapshot(raw.fingerprint.value, read.value);
    assert Encode(candidate).questions.value == EncodeQuestions(read.value);
    assert Encode(candidate) == raw;
    if CountCategory(read.value, Grounded) != 8 || CountCategory(read.value, NoEvidence) != 2
       || CountCategory(read.value, Isolation) != 2 {
      forall x | Encode(x) == raw ensures x == candidate {
        EncodingIsUnique(x, candidate);
      }
      return None;
    }
    s := Some(candidate);
  }

  // ---- which files, member by member ------------------------------------

  predicate Hexadecimal(s: Option<string>) {
    s.Some? && |s.value| == 64 && forall i :: 0 <= i < 64 ==> s.value[i] in "0123456789abcdef"
  }

  predicate WellFormedCandidate(c: RawCandidate) {
    && c.exactFields && Hexadecimal(c.key) && c.rank.Some? && c.score.Some?
    && c.covers.Some? && c.strict.Some? && c.violates.Some? && c.kind.Some?
  }

  predicate RankIn(cs: seq<RawCandidate>, r: int) { exists i :: 0 <= i < |cs| && cs[i].rank == Some(r) }

  /** Thirty candidates with keys of their own, ranked 1 to 30, a better rank never with a
      lower score. */
  ghost predicate WellFormedQuestion(q: RawQuestion) {
    && q.exactFields && q.category.Some? && q.caseId.Some? && !AllSpace(q.caseId.value)
    && q.candidates.Some? && |q.candidates.value| == 30
    && var cs := q.candidates.value;
       && (forall i :: 0 <= i < 30 ==> WellFormedCandidate(cs[i]) && 1 <= cs[i].rank.value <= 30)
       && (forall i, j :: 0 <= i < j < 30 ==> cs[i].key != cs[j].key && cs[i].rank != cs[j].rank)
       && (forall r :: 1 <= r <= 30 ==> RankIn(cs, r))
       && (forall i, j :: 0 <= i < 30 && 0 <= j < 30 && cs[i].rank.value < cs[j].rank.value ==> cs[i].score.value >= cs[j].score.value)
  }

  function OfCategory(qs: seq<RawQuestion>, c: Category): set<nat> {
    set i: nat | i < |qs| && qs[i].category == Some(c)
  }

  /** Twelve questions with case ids of their own: eight, two and two of the categories. */
  ghost predicate WellFormed(raw: RawSnapshot) {
    && raw.exactFields && Hexadecimal(raw.fingerprint)
    && raw.questions.Some? && |raw.questions.value| == 12
    && var qs := raw.questions.value;
       && (forall i :: 0 <= i < 12 ==> WellFormedQuestion(qs[i]))
       && (forall i, j :: 0 <= i < j < 12 ==> qs[i].caseId != qs[j].caseId)
       && |OfCategory(qs, Grounded)| == 8 && |OfCategory(qs, NoEvidence)| == 2 && |OfCategory(qs, Isolation)| == 2
  }

  /** The snapshot is what the file says, member by member. */
  predicate IsRead(s: Snapshot, raw: RawSnapshot) {
    && raw.fingerprint == Some(s.fingerprint) && raw.questions.Some? && |raw.questions.value| == |s.questions|
    && forall i :: 0 <= i < |s.questions| ==>
         var q, r := s.questions[i], raw.questions.value[i];
         && r.caseId == Some(q.caseId) && r.category == Some(q.category)
         && r.candidates.Some? && |r.candidates.value| == |q.candidates|
         && forall j :: 0 <= j < |q.candidates| ==> IsReadCandidate(q.candidates[j], r.candidates.value[j])
  }

  predicate IsReadCandidate(c: Candidate, r: RawCandidate) {
    && r.key == Some(c.key) && r.rank == Some(c.rank) && r.score == Some(c.score) && r.covers == Some(c.covers)
    && r.strict == Some(c.strict) && r.violates == Some(c.violates) && r.kind == Some(c.kind)
  }

  lemma HexadecimalIff(s: string)
    ensures IsLowerHex(s, 64) <==> Hexadecimal(Some(s))
  {
    forall c: char ensures c in "0123456789abcdef" <==> '0' <= c <= '9' || 'a' <= c <= 'f' {
      HexDigit(c);
    }
  }

  lemma HexDigit(c: char)
    ensures c in "0123456789abcdef" <==> '0' <= c <= '9' || 'a' <= c <= 'f'
  {
    var digits := "0123456789abcdef";
    assert digits[0] == '0' && digits[1] == '1' && digits[2] == '2' && digits[3] == '3' && digits[4] == '4' && digits[5] == '5';
    assert digits[6] == '6' && digits[7] == '7' && digits[8] == '8' && digits[9] == '9' && digits[10] == 'a' && digits[11] == 'b';
    assert digits[12] == 'c' && digits[13] == 'd' && digits[14] == 'e' && digits[15] == 'f';
  }

  lemma {:induction false} CountIsSize(qs: seq<Question>, c: Category)
    ensures CountCategory(qs, c) == |OfCategory(EncodeQuestions(qs), c)|
  {
    hide EncodeCandidates;
    if qs == [] {
      assert OfCategory(EncodeQuestions(qs), c) == {};
    } else {
      var n := |qs| - 1;
      CountIsSize(qs[..n], c);
      assert OfCategory(EncodeQuestions(qs), c) ==
             OfCategory(EncodeQuestions(qs[..n]), c) + if qs[n].category == c then {n} else {};
    }
  }

  lemma KeysEncode(cs: seq<Candidate>)
    ensures
      var rs := EncodeCandidates(cs);
      && |rs| == |cs|
      && ((forall c :: c in cs ==> IsLowerHex(c.key, 64)) <==> forall i :: 0 <= i < |rs| ==> WellFormedCandidate(rs[i]))
      && (DistinctKeys(cs) <==> forall i, j :: 0 <= i < j < |rs| ==> rs[i].key != rs[j].key)
  {
    var rs := EncodeCandidates(cs);
    forall i | 0 <= i < |cs| ensures rs[i] == EncodeCandidate(cs[i]) && (IsLowerHex(cs[i].key, 64) <==> Hexadecimal(rs[i].key)) {
      HexadecimalIff(cs[i].key);
    }
    hide IsLowerHex, Hexadecimal, EncodeCandidates;
    ElementsAreThere(cs);
    assert (forall c :: c in cs ==> IsLowerHex(c.key, 64)) <==> (forall i :: 0 <= i < |cs| ==> IsLowerHex(cs[i].key, 64));
  }

  lemma AllRanksEncode(cs: seq<Candidate>)
    ensures
      var rs := EncodeCandidates(cs);
      && |rs| == |cs| && (forall i :: 0 <= i < |rs| ==> rs[i].rank == Some(cs[i].rank))
      && (RanksAreComplete(cs) <==>
            && (forall i, j :: 0 <= i < j < |cs| ==> cs[i].rank != cs[j].rank)
            && (forall i :: 0 <= i < |cs| ==> 1 <= cs[i].rank <= |cs|)
            && (forall r :: 1 <= r <= |cs| ==> RankIn(rs, r)))
  {
    forall r ensures HasRank(cs, r) <==> RankIn(EncodeCandidates(cs), r) {
      RanksEncode(cs, r);
    }
    hide HasRank, RankIn;
    ElementsAreThere(cs);
    assert (forall c :: c in cs ==> 1 <= c.rank <= |cs|) <==> (forall i :: 0 <= i < |cs| ==> 1 <= cs[i].rank <= |cs|);
  }

  lemma ScoresEncode(cs: seq<Candidate>)
    ensures
      var rs := EncodeCandidates(cs);
      && |rs| == |cs| && (forall i :: 0 <= i < |rs| ==> rs[i].score == Some(cs[i].score))
      && (ScoresFollowRanks(cs) <==>
            forall i, j :: 0 <= i < |cs| && 0 <= j < |cs| && cs[i].rank < cs[j].rank ==> cs[i].score >= cs[j].score)
  {
    ElementsAreThere(cs);
  }

  lemma ValidQuestionIsWellFormed(q: Question)
    requires |q.candidates| == 30
    ensures ValidQuestion(q) <==> WellFormedQuestion(EncodeQuestion(q))
  {
    StripTrims(q.caseId);
    KeysEncode(q.candidates);
    AllRanksEncode(q.candidates);
    ScoresEncode(q.candidates);
    hide Strip, AllSpace, IsLowerHex, RanksAreComplete, ScoresFollowRanks, DistinctKeys, RankIn, EncodeCandidates;
    var cs, rs := q.candidates, EncodeCandidates(q.candidates);
    assert (forall i, j :: 0 <= i < j < 30 ==> rs[i].key != rs[j].key && rs[i].rank != rs[j].rank) <==>
           (forall i, j :: 0 <= i < j < 30 ==> rs[i].key != rs[j].key) && (forall i, j :: 0 <= i < j < 30 ==> cs[i].rank != cs[j].rank);
    hide WellFormedCandidate;
  }

  lemma ElementsAreThere(cs: seq<Candidate>)
    ensures forall c :: c in cs ==> exists i :: 0 <= i < |cs| && cs[i] == c
    ensures forall i :: 0 <= i < |cs| ==> cs[i] in cs
  {}

  lemma RanksEncode(cs: seq<Candidate>, r: int)
    ensures HasRank(cs, r) <==> RankIn(EncodeCandidates(cs), r)
  {
    var rs := EncodeCandidates(cs);
    if HasRank(cs, r) {
      var c :| c in cs && c.rank == r;
      var i :| 0 <= i < |cs| && cs[i] == c;
      assert rs[i].rank == Some(r);
    }
    if RankIn(rs, r) {
      var i :| 0 <= i < |rs| && rs[i].rank == Some(r);
      assert cs[i] in cs && cs[i].rank == r;
    }
  }

  lemma EncodingIsRead(s: Snapshot)
    ensures IsRead(s, Encode(s))
  {}

  lemma QuestionsEncode(qs: seq<Question>)
    ensures
      var raws := EncodeQuestions(qs);
      && |raws| == |qs| && (forall i :: 0 <= i < |qs| ==> raws[i].caseId == Some(qs[i].caseId))
      && ((forall q :: q in qs ==> ValidQuestion(q)) <==> forall i :: 0 <= i < |qs| ==> WellFormedQuestion(raws[i]))
  {
    var raws := EncodeQuestions(qs);
    forall i | 0 <= i < |qs| ensures qs[i] in qs && (ValidQuestion(qs[i]) <==> WellFormedQuestion(raws[i])) {
      assert raws[i] == EncodeQuestion(qs[i]);
      if |qs[i].candidates| == 30 {
        ValidQuestionIsWellFormed(qs[i]);
      }
    }
    hide ValidQuestion, WellFormedQuestion;
    if forall i :: 0 <= i < |qs| ==> ValidQuestion(qs[i]) {
      forall q | q in qs ensures ValidQuestion(q) {
        var i :| 0 <= i < |qs| && qs[i] == q;
      }
    }
  }

  /** A valid snapshot is encoded by a well-formed file. */
  lemma ValidIsWellFormed(s: Snapshot)
    ensures ValidSnapshot(s) <==> WellFormed(Encode(s))
  {
    var qs := s.questions;
    assert Encode(s).questions.value == EncodeQuestions(qs);
    hide Encode;
    assert Encode(s) == RawSnapshot(true, Some(s.fingerprint), Some(EncodeQuestions(qs))) by {
      EncodeIs(s);
    }
    HexadecimalIff(s.fingerprint);
    CountIsSize(qs, Grounded);
    CountIsSize(qs, NoEvidence);
    CountIsSize(qs, Isolation);
    QuestionsEncode(qs);
    hide IsLowerHex, Hexadecimal, ValidQuestion, WellFormedQuestion, CountCategory, OfCategory, EncodeQuestions;
  }

  lemma EncodeIs(s: Snapshot)
    ensures Encode(s) == RawSnapshot(true, Some(s.fingerprint), Some(EncodeQuestions(s.questions)))
  {
    assert Encode(s).questions.value == EncodeQuestions(s.questions);
  }

  // What a well-formed file is decoded to.

  function DecodeCandidate(r: RawCandidate): Candidate
    requires WellFormedCandidate(r)
  {
    Candidate(r.key.value, r.rank.value, r.score.value, r.covers.value, r.strict.value, r.violates.value, r.kind.value)
  }

  ghost function DecodeQuestion(r: RawQuestion): Question
    requires WellFormedQuestion(r)
  {
    var cs := r.candidates.value;
    Question(r.caseId.value, r.category.value, seq(|cs|, i requires 0 <= i < |cs| => DecodeCandidate(cs[i])))
  }

  ghost function Decode(raw: RawSnapshot): Snapshot
    requires WellFormed(raw)
  {
    var qs := raw.questions.value;
    Snapshot(raw.fingerprint.value, seq(|qs|, i requires 0 <= i < |qs| => DecodeQuestion(qs[i])))
  }

  lemma QuestionRoundTrip(r: RawQuestion)
    requires WellFormedQuestion(r)
    ensures EncodeQuestion(DecodeQuestion(r)) == r
  {
    var q := DecodeQuestion(r);
    hide Hexadecimal, AllSpace;
    forall i | 0 <= i < 30 ensures EncodeCandidates(q.candidates)[i] == r.candidates.value[i] {}
    assert EncodeCandidates(q.candidates) == r.candidates.value;
  }

  lemma RoundTrip(raw: RawSnapshot)
    requires WellFormed(raw)
    ensures Encode(Decode(raw)) == raw
  {
    var s := Decode(raw);
    hide Hexadecimal, WellFormedQuestion, EncodeQuestion, DecodeQuestion;
    forall i | 0 <= i < 12 ensures Encode(s).questions.value[i] == raw.questions.value[i] {
      QuestionRoundTrip(raw.questions.value[i]);
    }
    assert Encode(s).questions.value == raw.questions.value;
  }

  /** The scanner reads exactly the well-formed files, and reads what they say. */
  lemma ReadExactlyTheWellFormed(raw: RawSnapshot)
    ensures WellFormed(raw) <==> exists s :: ValidSnapshot(s) && Encode(s) == raw
    ensures forall s :: ValidSnapshot(s) && Encode(s) == raw ==> IsRead(s, raw)
  {
    hide ValidSnapshot, WellFormed, IsRead, Encode, Decode;
    if WellFormed(raw) {
      RoundTrip(raw);
      ValidIsWellFormed(Decode(raw));
    }
    forall s | ValidSnapshot(s) && Encode(s) == raw ensures WellFormed(raw) && IsRead(s, raw) {
      ValidIsWellFormed(s);
      EncodingIsRead(s);
    }
  }

  /** `analyze_snapshot`: a report exactly of a well-formed file. */
  method AnalyzeSnapshot(raw: RawSnapshot) returns (r: Option<Report>)
    ensures r.Some? ==> exists s :: ValidSnapshot(s) && Encode(s) == raw && Describes(s, r.value)
    ensures r.None? ==> forall s :: ValidSnapshot(s) ==> Encode(s) != raw
    ensures r.Some? <==> WellFormed(raw)
    ensures r.Some? ==> exists s :: IsRead(s, raw) && M.Reports(s, r.value)
  {
    ReadExactlyTheWellFormed(raw);
    hide ValidSnapshot, Describes, WellFormed, IsRead, Encode, M.Reports;
    var s := ValidateSnapshot(raw);
    if s.None? {
      return None;
    }
    var report := Scan(s.value);
    M.ScanReports(s.value, report);
    r := Some(report);
  }
}
