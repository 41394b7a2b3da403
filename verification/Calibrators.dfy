/** Choosing a fixed distance or reranker threshold that meets the acceptance gate
    (scripts/archive_v1_p14_acceptance.py). */
module Calibrators {
  import opened Wrappers
  import opened Ordering

  // ---- data -------------------------------------------------------------

  /** The two calibrators differ in what they keep: items at most this distant, or
      items with at least this reranker score. */
  datatype Measure = Distance | RerankerScore

  /** Numbers are places of finite doubles, zero in the middle. A cosine distance
      lies between 0 and 2. */
  const MAX_DISTANCE := 0x4000_0000_0000_0000
  const MAX_FINITE := 0x7FEF_FFFF_FFFF_FFFF

  /** `value` is `None` when the item has no usable distance or reranker score;
      `matches` says that it contains the expected evidence. */
  datatype Item = NotAnObject | Item(value: Option<int>, matches: bool, filename: string)

  datatype Category = Grounded | NoEvidence | Isolation | UnknownCategory

  datatype Outcome = Outcome(
    category: Category, items: Option<seq<Item>>, hiddenFilename: string, allowed: Option<set<string>>)

  datatype CalibrationError = ThresholdInvalid | OutcomesInvalid | NoCandidates | NoThreshold

  predicate UsableItem(measure: Measure, item: Item) {
    && item.Item? && item.value.Some?
    && match measure
       case Distance => 0 <= item.value.value <= MAX_DISTANCE
       case RerankerScore => -MAX_FINITE <= item.value.value <= MAX_FINITE
  }

  predicate UsableOutcome(measure: Measure, o: Outcome) {
    && o.category != UnknownCategory && o.items.Some?
    && forall i :: 0 <= i < |o.items.value| ==> UsableItem(measure, o.items.value[i])
  }

  predicate Usable(measure: Measure, outcomes: seq<Outcome>) {
    forall i :: 0 <= i < |outcomes| ==> UsableOutcome(measure, outcomes[i])
  }

  predicate ValidThreshold(measure: Measure, t: int) {
    match measure
    case Distance => t >= 0
    case RerankerScore => -MAX_FINITE <= t <= MAX_FINITE
  }

  // ---- scoring one threshold --------------------------------------------

  /** On this scale less is better, and looser thresholds are greater. */
  function Scaled(measure: Measure, x: int): int { if measure.Distance? then x else -x }

  predicate Keeps(measure: Measure, t: int, item: Item)
    requires UsableItem(measure, item)
  {
    Scaled(measure, item.value.value) <= Scaled(measure, t)
  }

  function Filtered(measure: Measure, items: seq<Item>, t: int): seq<Item>
    requires forall i :: 0 <= i < |items| ==> UsableItem(measure, items[i])
  {
    if items == [] then []
    else (if Keeps(measure, t, items[0]) then [items[0]] else []) + Filtered(measure, items[1..], t)
  }

  function Filenames(items: seq<Item>): set<string> {
    set i | i in items && i.Item? :: i.filename
  }

  /** The outcome passes when these items are kept. */
  predicate Passes(o: Outcome, kept: seq<Item>) {
    match o.category
    case Grounded => exists i :: i in kept && i.Item? && i.matches
    case NoEvidence => kept == []
    case Isolation => o.hiddenFilename !in Filenames(kept) && (o.allowed.None? || Filenames(kept) <= o.allowed.value)
    case UnknownCategory => false
  }

  predicate PassesAt(measure: Measure, o: Outcome, t: int) {
    UsableOutcome(measure, o) && Passes(o, Filtered(measure, o.items.value, t))
  }

  function Total(outcomes: seq<Outcome>, c: Category): nat {
    if outcomes == [] then 0
    else Total(outcomes[..|outcomes| - 1], c) + if outcomes[|outcomes| - 1].category == c then 1 else 0
  }

  function PassedCount(measure: Measure, outcomes: seq<Outcome>, c: Category, t: int): nat {
    if outcomes == [] then 0
    else
      var last := outcomes[|outcomes| - 1];
      PassedCount(measure, outcomes[..|outcomes| - 1], c, t) + if last.category == c && PassesAt(measure, last, t) then 1 else 0
  }

  lemma NoneCounted(measure: Measure, t: int)
    ensures forall c :: Total([], c) == 0 && PassedCount(measure, [], c, t) == 0
  {}

  lemma OneMoreCounted(measure: Measure, outcomes: seq<Outcome>, i: nat, c: Category, t: int)
    requires i < |outcomes|
    ensures
      && Total(outcomes[..i + 1], c) == Total(outcomes[..i], c) + (if outcomes[i].category == c then 1 else 0)
      && PassedCount(measure, outcomes[..i + 1], c, t)
         == PassedCount(measure, outcomes[..i], c, t) + (if outcomes[i].category == c && PassesAt(measure, outcomes[i], t) then 1 else 0)
  {
    hide PassesAt;
    assert outcomes[..i + 1][..i] == outcomes[..i];
  }

  datatype Score = Score(
    groundedTotal: nat, groundedPassed: nat, noEvidenceTotal: nat, noEvidencePassed: nat,
    isolationTotal: nat, isolationPassed: nat, passed: bool)

  predicate Gate(groundedTotal: nat, groundedPassed: nat, noEvidenceTotal: nat, noEvidencePassed: nat,
                 isolationTotal: nat, isolationPassed: nat) {
    && groundedTotal == 8 && groundedPassed >= 7
    && noEvidenceTotal == 2 && noEvidencePassed == 2
    && isolationTotal == 2 && isolationPassed == 2
  }

  function ScoreAt(measure: Measure, outcomes: seq<Outcome>, t: int): Score {
    var g, n, i := Total(outcomes, Grounded), Total(outcomes, NoEvidence), Total(outcomes, Isolation);
    var gp := PassedCount(measure, outcomes, Grounded, t);
    var np := PassedCount(measure, outcomes, NoEvidence, t);
    var ip := PassedCount(measure, outcomes, Isolation, t);
    Score(g, gp, n, np, i, ip, Gate(g, gp, n, np, i, ip))
  }

  /** Some outcomes, scored at this threshold, meet the gate. */
  predicate GatePassed(measure: Measure, outcomes: seq<Outcome>, t: int) {
    ValidThreshold(measure, t) && ScoreAt(measure, outcomes, t).passed
  }

  method FilterItems(measure: Measure, o: Outcome, t: int) returns (r: Result<seq<Item>, CalibrationError>)
    ensures r.Success? <==> o.items.Some? && forall i :: 0 <= i < |o.items.value| ==> UsableItem(measure, o.items.value[i])
    ensures r.Success? ==> r.value == Filtered(measure, o.items.value, t)
  {
    if o.items.None? {
      return Failure(OutcomesInvalid);
    }
    var items := o.items.value;
    for i := 0 to |items|
      invariant forall j :: 0 <= j < i ==> UsableItem(measure, items[j])
    {
      if !UsableItem(measure, items[i]) {
        return Failure(OutcomesInvalid);
      }
    }
    r := Success(Filtered(measure, items, t));
  }

  /** `score_retrieval_outcomes` and `score_reranker_outcomes`. */
  method ScoreOutcomes(measure: Measure, outcomes: seq<Outcome>, t: int) returns (r: Result<Score, CalibrationError>)
    ensures r.Success? <==> ValidThreshold(measure, t) && Usable(measure, outcomes)
    ensures r.Success? ==> r.value == ScoreAt(measure, outcomes, t)
    ensures r.Success? ==> (r.value.passed <==> MeetsGate(measure, outcomes, t))
  {
    hide MeetsGate;
    if Usable(measure, outcomes) {
      PassesIffGateIsMet(measure, outcomes, t);
    }
    hide Filtered, Passes, UsableItem, Total, PassedCount;
    if !ValidThreshold(measure, t) {
      return Failure(ThresholdInvalid);
    }
    assert outcomes[..0] == [];
    NoneCounted(measure, t);
    var g, gp, n, np, iso, ip := 0, 0, 0, 0, 0, 0;
    for i := 0 to |outcomes|
      invariant forall j :: 0 <= j < i ==> UsableOutcome(measure, outcomes[j])
      invariant g == Total(outcomes[..i], Grounded) && gp == PassedCount(measure, outcomes[..i], Grounded, t)
      invariant n == Total(outcomes[..i], NoEvidence) && np == PassedCount(measure, outcomes[..i], NoEvidence, t)
      invariant iso == Total(outcomes[..i], Isolation) && ip == PassedCount(measure, outcomes[..i], Isolation, t)
    {
      var o := outcomes[i];
      OneMoreCounted(measure, outcomes, i, Grounded, t);
      OneMoreCounted(measure, outcomes, i, NoEvidence, t);
      OneMoreCounted(measure, outcomes, i, Isolation, t);
      var kept := FilterItems(measure, o, t);
      if kept.Failure? {
        assert !UsableOutcome(measure, outcomes[i]);
        return Failure(OutcomesInvalid);
      }
      match o.category {
        case Grounded =>
          g := g + 1;
          if Passes(o, kept.value) { gp := gp + 1; }
        case NoEvidence =>
          n := n + 1;
          if Passes(o, kept.value) { np := np + 1; }
        case Isolation =>
          iso := iso + 1;
          if Passes(o, kept.value) { ip := ip + 1; }
        case UnknownCategory =>
          assert !UsableOutcome(measure, outcomes[i]);
          return Failure(OutcomesInvalid);
      }
    }
    assert outcomes[..|outcomes|] == outcomes;
    r := Success(Score(g, gp, n, np, iso, ip, Gate(g, gp, n, np, iso, ip)));
  }

  // ---- what the scores count --------------------------------------------

  /** The item is near enough, or scored high enough. */
  predicate InReach(measure: Measure, item: Item, t: int) {
    && item.Item? && item.value.Some?
    && match measure
       case Distance => item.value.value <= t
       case RerankerScore => item.value.value >= t
  }

  /** What each kind of question asks of the items in reach. */
  predicate Met(measure: Measure, o: Outcome, t: int)
    requires o.items.Some?
  {
    match o.category
    case Grounded => exists item :: item in o.items.value && InReach(measure, item, t) && item.matches
    case NoEvidence => forall item :: item in o.items.value ==> !InReach(measure, item, t)
    case Isolation =>
      forall item :: item in o.items.value && InReach(measure, item, t) ==>
                       item.filename != o.hiddenFilename && (o.allowed.Some? ==> item.filename in o.allowed.value)
    case UnknownCategory => false
  }

  function Asked(outcomes: seq<Outcome>, c: Category): set<nat> {
    set i: nat | i < |outcomes| && outcomes[i].category == c
  }

  function Answered(measure: Measure, outcomes: seq<Outcome>, c: Category, t: int): set<nat>
    requires forall i :: 0 <= i < |outcomes| ==> outcomes[i].items.Some?
  {
    set i: nat | i < |outcomes| && outcomes[i].category == c && Met(measure, outcomes[i], t)
  }

  lemma PassesIffMet(measure: Measure, o: Outcome, t: int)
    requires UsableOutcome(measure, o)
    ensures PassesAt(measure, o, t) <==> Met(measure, o, t)
  {
    var kept := Filtered(measure, o.items.value, t);
    forall item ensures item in kept <==> item in o.items.value && InReach(measure, item, t) {
      FilteredIs(measure, o.items.value, t, item);
    }
    if o.category == Isolation {
      assert forall item :: item in kept ==> item.Item? && item.filename in Filenames(kept);
    }
    if o.category == NoEvidence && kept != [] {
      assert kept[0] in kept;
    }
  }

  lemma {:induction false} TotalCounts(outcomes: seq<Outcome>, c: Category)
    ensures Total(outcomes, c) == |Asked(outcomes, c)|
  {
    if outcomes != [] {
      var n := |outcomes| - 1;
      TotalCounts(outcomes[..n], c);
      assert Asked(outcomes, c) == Asked(outcomes[..n], c) + if outcomes[n].category == c then {n} else {};
    } else {
      assert Asked(outcomes, c) == {};
    }
  }

  lemma {:induction false} PassedCounts(measure: Measure, outcomes: seq<Outcome>, c: Category, t: int)
    requires Usable(measure, outcomes)
    ensures PassedCount(measure, outcomes, c, t) == |Answered(measure, outcomes, c, t)|
  {
    hide PassesAt, Met, UsableItem;
    if outcomes != [] {
      var n := |outcomes| - 1;
      var before := outcomes[..n];
      PassedCounts(measure, before, c, t);
      PassesIffMet(measure, outcomes[n], t);
      OneMoreAnswered(measure, outcomes, c, t);
    } else {
      assert Answered(measure, outcomes, c, t) == {};
    }
  }

  lemma OneMoreAnswered(measure: Measure, outcomes: seq<Outcome>, c: Category, t: int)
    requires outcomes != [] && forall i :: 0 <= i < |outcomes| ==> outcomes[i].items.Some?
    ensures
      var n := |outcomes| - 1;
      Answered(measure, outcomes, c, t) ==
      Answered(measure, outcomes[..n], c, t) + (if outcomes[n].category == c && Met(measure, outcomes[n], t) then {n} else {})
    ensures |outcomes| - 1 !in Answered(measure, outcomes[..|outcomes| - 1], c, t)
  {
    hide Met;
  }

  /** The counters are numbers of questions: those of a kind, and those of them whose
      items in reach are as they should be. */
  lemma ScoreCounts(measure: Measure, outcomes: seq<Outcome>, t: int)
    requires Usable(measure, outcomes)
    ensures
      var s := ScoreAt(measure, outcomes, t);
      && s.groundedTotal == |Asked(outcomes, Grounded)| && s.groundedPassed == |Answered(measure, outcomes, Grounded, t)|
      && s.noEvidenceTotal == |Asked(outcomes, NoEvidence)| && s.noEvidencePassed == |Answered(measure, outcomes, NoEvidence, t)|
      && s.isolationTotal == |Asked(outcomes, Isolation)| && s.isolationPassed == |Answered(measure, outcomes, Isolation, t)|
  {
    assert forall i :: 0 <= i < |outcomes| ==> outcomes[i].items.Some?;
    hide Usable;
    forall c ensures Total(outcomes, c) == |Asked(outcomes, c)| { TotalCounts(outcomes, c); }
    forall c ensures PassedCount(measure, outcomes, c, t) == |Answered(measure, outcomes, c, t)| {
      PassedCounts(measure, outcomes, c, t);
    }
  }

  /** The grounded questions none of whose items in reach is the expected evidence. */
  function Missed(measure: Measure, outcomes: seq<Outcome>, t: int): set<nat>
    requires forall i :: 0 <= i < |outcomes| ==> outcomes[i].items.Some?
  {
    set i: nat | i < |outcomes| && outcomes[i].category == Grounded
                 && forall item :: item in outcomes[i].items.value && InReach(measure, item, t) ==> !item.matches
  }

  /** The gate: eight, two and two questions; at most one grounded question misses its
      evidence; nothing is in reach of a question without evidence, and nothing of
      another project, or of a file that is not allowed, of a question of isolation. */
  ghost predicate MeetsGate(measure: Measure, outcomes: seq<Outcome>, t: int)
    requires forall i :: 0 <= i < |outcomes| ==> outcomes[i].items.Some?
  {
    && (measure.Distance? ==> 0 <= t) && (measure.RerankerScore? ==> -MAX_FINITE <= t <= MAX_FINITE)
    && |set i: nat | i < |outcomes| && outcomes[i].category == Grounded| == 8
    && |set i: nat | i < |outcomes| && outcomes[i].category == NoEvidence| == 2
    && |set i: nat | i < |outcomes| && outcomes[i].category == Isolation| == 2
    && |Missed(measure, outcomes, t)| <= 1
    && (forall o, item :: o in outcomes && o.category == NoEvidence && item in o.items.value ==> !InReach(measure, item, t))
    && (forall o, item :: o in outcomes && o.category == Isolation && item in o.items.value && InReach(measure, item, t) ==>
                            item.filename != o.hiddenFilename && (o.allowed.Some? ==> item.filename in o.allowed.value))
  }

  lemma AllAnsweredIff(measure: Measure, outcomes: seq<Outcome>, c: Category, t: int)
    requires Usable(measure, outcomes)
    ensures |Answered(measure, outcomes, c, t)| == |Asked(outcomes, c)| <==>
            forall o :: o in outcomes && o.category == c ==> Met(measure, o, t)
  {
    hide Met;
    var asked, answered := Asked(outcomes, c), Answered(measure, outcomes, c, t);
    assert answered <= asked;
    assert asked == answered + (asked - answered);
    if forall o :: o in outcomes && o.category == c ==> Met(measure, o, t) {
      assert asked == answered;
    } else {
      var o :| o in outcomes && o.category == c && !Met(measure, o, t);
      var i: nat :| i < |outcomes| && outcomes[i] == o;
      assert i in asked && !Met(measure, outcomes[i], t);
      assert i in asked - answered;
    }
  }

  lemma MissedAreTheRest(measure: Measure, outcomes: seq<Outcome>, t: int)
    requires Usable(measure, outcomes)
    ensures |Answered(measure, outcomes, Grounded, t)| + |Missed(measure, outcomes, t)| == |Asked(outcomes, Grounded)|
  {
    var answered, missed := Answered(measure, outcomes, Grounded, t), Missed(measure, outcomes, t);
    assert Asked(outcomes, Grounded) == answered + missed && answered * missed == {};
  }

  /** A score passes exactly when the outcomes meet the gate. */
  lemma PassesIffGateIsMet(measure: Measure, outcomes: seq<Outcome>, t: int)
    requires Usable(measure, outcomes)
    ensures GatePassed(measure, outcomes, t) <==> MeetsGate(measure, outcomes, t)
  {
    ScoreCounts(measure, outcomes, t);
    MissedAreTheRest(measure, outcomes, t);
    AllAnsweredIff(measure, outcomes, NoEvidence, t);
    AllAnsweredIff(measure, outcomes, Isolation, t);
    assert forall c :: Asked(outcomes, c) == set i: nat | i < |outcomes| && outcomes[i].category == c;
    hide Answered, Missed, Usable, InReach, ScoreAt;
    assert (forall o :: o in outcomes && o.category == NoEvidence ==> Met(measure, o, t)) <==>
           (forall o, item :: o in outcomes && o.category == NoEvidence && item in o.items.value ==> !InReach(measure, item, t));
  }

  // ---- looser thresholds keep more --------------------------------------

  lemma {:induction false} FilteredIs(measure: Measure, items: seq<Item>, t: int, item: Item)
    requires forall i :: 0 <= i < |items| ==> UsableItem(measure, items[i])
    ensures item in Filtered(measure, items, t) <==> item in items && UsableItem(measure, item) && Keeps(measure, t, item)
  {
    if items != [] {
      FilteredIs(measure, items[1..], t, item);
      assert items == [items[0]] + items[1..];
    }
  }

  lemma {:induction false} SameCutFilters(measure: Measure, items: seq<Item>, t: int, u: int)
    requires forall i :: 0 <= i < |items| ==> UsableItem(measure, items[i])
    requires forall i :: 0 <= i < |items| ==> (Keeps(measure, t, items[i]) <==> Keeps(measure, u, items[i]))
    ensures Filtered(measure, items, t) == Filtered(measure, items, u)
  {
    if items != [] {
      SameCutFilters(measure, items[1..], t, u);
    }
  }

  /** Every value that occurs. */
  function Values(outcomes: seq<Outcome>): set<int> {
    set o, i | o in outcomes && o.items.Some? && i in o.items.value && i.Item? && i.value.Some? :: i.value.value
  }

  /** The two thresholds cut all occurring values alike. */
  predicate SameCut(measure: Measure, outcomes: seq<Outcome>, t: int, u: int) {
    forall v :: v in Values(outcomes) ==> (Scaled(measure, v) <= Scaled(measure, t) <==> Scaled(measure, v) <= Scaled(measure, u))
  }

  lemma SameCutPasses(measure: Measure, outcomes: seq<Outcome>, o: Outcome, t: int, u: int)
    requires SameCut(measure, outcomes, t, u) && o in outcomes
    ensures PassesAt(measure, o, t) <==> PassesAt(measure, o, u)
  {
    if UsableOutcome(measure, o) {
      forall i | 0 <= i < |o.items.value| ensures Keeps(measure, t, o.items.value[i]) <==> Keeps(measure, u, o.items.value[i]) {
        assert o.items.value[i] in o.items.value;
        assert o.items.value[i].value.value in Values(outcomes);
      }
      SameCutFilters(measure, o.items.value, t, u);
    }
  }

  lemma {:induction false} SameCutCounts(measure: Measure, all: seq<Outcome>, outcomes: seq<Outcome>, c: Category, t: int, u: int)
    requires SameCut(measure, all, t, u) && forall o :: o in outcomes ==> o in all
    ensures PassedCount(measure, outcomes, c, t) == PassedCount(measure, outcomes, c, u)
  {
    hide SameCut, PassesAt;
    if outcomes != [] {
      var n := |outcomes| - 1;
      SameCutCounts(measure, all, outcomes[..n], c, t, u);
      SameCutPasses(measure, all, outcomes[n], t, u);
    }
  }

  lemma SameCutScores(measure: Measure, outcomes: seq<Outcome>, t: int, u: int)
    requires SameCut(measure, outcomes, t, u)
    ensures ScoreAt(measure, outcomes, t) == ScoreAt(measure, outcomes, u)
  {
    SameCutCounts(measure, outcomes, outcomes, Grounded, t, u);
    SameCutCounts(measure, outcomes, outcomes, NoEvidence, t, u);
    SameCutCounts(measure, outcomes, outcomes, Isolation, t, u);
  }

  /** Nothing kept, nothing grounded. */
  lemma {:induction false} NothingKeptNothingGrounded(measure: Measure, outcomes: seq<Outcome>, t: int)
    requires Usable(measure, outcomes)
    requires forall v :: v in Values(outcomes) ==> Scaled(measure, v) > Scaled(measure, t)
    ensures PassedCount(measure, outcomes, Grounded, t) == 0
  {
    if outcomes != [] {
      var n := |outcomes| - 1;
      assert forall v :: v in Values(outcomes[..n]) ==> v in Values(outcomes);
      NothingKeptNothingGrounded(measure, outcomes[..n], t);
      var o := outcomes[n];
      forall i: Item ensures i !in Filtered(measure, o.items.value, t) {
        FilteredIs(measure, o.items.value, t, i);
        if i in o.items.value && UsableItem(measure, i) {
          assert i.value.value in Values(outcomes);
        }
      }
    }
  }

  /** The thresholds a calibrator tries. */
  function Tried(measure: Measure, outcomes: seq<Outcome>): set<int> {
    match measure
    case Distance => {0} + Values(outcomes)
    case RerankerScore => Values(outcomes)
  }

  ghost predicate LoosestBelow(measure: Measure, tried: set<int>, t: int, c: int) {
    c in tried && Scaled(measure, c) <= Scaled(measure, t)
    && forall x :: x in tried && Scaled(measure, x) <= Scaled(measure, t) ==> Scaled(measure, x) <= Scaled(measure, c)
  }

  lemma {:induction false} LoosestExists(measure: Measure, tried: set<int>, t: int) returns (c: int)
    requires exists x :: x in tried && Scaled(measure, x) <= Scaled(measure, t)
    ensures LoosestBelow(measure, tried, t, c)
    decreases |tried|
  {
    var first :| first in tried && Scaled(measure, first) <= Scaled(measure, t);
    var better := set x | x in tried && Scaled(measure, first) < Scaled(measure, x) <= Scaled(measure, t);
    c := first;
    if better != {} {
      SubsetIsSmaller(better, tried, first);
      SomeElement(better);
      c := LoosestExists(measure, better, t);
    }
    forall x | x in tried && Scaled(measure, x) <= Scaled(measure, t) ensures Scaled(measure, x) <= Scaled(measure, c) {
      if Scaled(measure, first) < Scaled(measure, x) {
        assert x in better;
      }
    }
  }

  lemma SubsetIsSmaller(a: set<int>, b: set<int>, x: int)
    requires a <= b && x in b && x !in a
    ensures |a| < |b|
  {
    assert x in b - a;
    assert b == a + (b - a);
  }

  /** Whatever number passes the gate, one of the tried thresholds cuts like it. */
  lemma TriedThresholdsSuffice(measure: Measure, outcomes: seq<Outcome>, t: int) returns (c: int)
    requires Usable(measure, outcomes) && GatePassed(measure, outcomes, t)
    ensures c in Tried(measure, outcomes) && Scaled(measure, c) <= Scaled(measure, t)
    ensures SameCut(measure, outcomes, t, c) && GatePassed(measure, outcomes, c)
  {
    if measure.RerankerScore? && forall v :: v in Values(outcomes) ==> Scaled(measure, v) > Scaled(measure, t) {
      NothingKeptNothingGrounded(measure, outcomes, t);
    }
    assert measure.Distance? ==> 0 in Tried(measure, outcomes) && Scaled(measure, 0) <= Scaled(measure, t);
    c := LoosestExists(measure, Tried(measure, outcomes), t);
    SameCutScores(measure, outcomes, t, c);
    TriedIsValid(measure, outcomes, c);
  }

  lemma TriedIsValid(measure: Measure, outcomes: seq<Outcome>, c: int)
    requires Usable(measure, outcomes) && c in Tried(measure, outcomes)
    ensures ValidThreshold(measure, c)
  {
    if c in Values(outcomes) {
      var o, i :| o in outcomes && o.items.Some? && i in o.items.value && i.Item? && i.value.Some? && i.value.value == c;
      assert UsableOutcome(measure, o);
      assert UsableItem(measure, i);
    }
  }

  // ---- choosing ---------------------------------------------------------

  /** Everything `u` keeps is kept by `t`, too. */
  predicate KeepsAllOf(measure: Measure, outcomes: seq<Outcome>, t: int, u: int) {
    forall v :: v in Values(outcomes) && Scaled(measure, v) <= Scaled(measure, u) ==> Scaled(measure, v) <= Scaled(measure, t)
  }

  /** `choose_distance_threshold` and `choose_reranker_score_threshold`: an error
      means that no number at all would do; what is returned does, and keeps all that
      any other would keep. */
  method ChooseThreshold(measure: Measure, outcomes: seq<Outcome>) returns (r: Result<(int, Score), CalibrationError>)
    ensures r.Success? ==> Usable(measure, outcomes) && GatePassed(measure, outcomes, r.value.0)
    ensures r.Success? ==> MeetsGate(measure, outcomes, r.value.0)
    ensures r.Success? ==> r.value.1 == ScoreAt(measure, outcomes, r.value.0)
    ensures r.Success? ==> forall t :: GatePassed(measure, outcomes, t) ==> KeepsAllOf(measure, outcomes, r.value.0, t)
    ensures r.Failure? ==> !Usable(measure, outcomes) || forall t :: !GatePassed(measure, outcomes, t) && !MeetsGate(measure, outcomes, t)
  {
    hide MeetsGate;
    if Usable(measure, outcomes) {
      forall t ensures GatePassed(measure, outcomes, t) <==> MeetsGate(measure, outcomes, t) {
        PassesIffGateIsMet(measure, outcomes, t);
      }
    }
    hide ScoreAt, ValidThreshold, Values, Usable, KeepsAllOf, SameCut;
    var values := SortedSet(Values(outcomes));
    if values == [] {
      NoValuesNoThreshold(measure, outcomes);
      return Failure(NoCandidates);
    }
    var candidates := if measure.Distance? then [0] + values else values;
    assert forall c :: c in candidates <==> c in Tried(measure, outcomes);
    var best: Option<(int, Score)> := None;
    for i := 0 to |candidates|
      invariant best.Some? ==> Usable(measure, outcomes) && GatePassed(measure, outcomes, best.value.0)
      invariant best.Some? ==> best.value.1 == ScoreAt(measure, outcomes, best.value.0)
      invariant i > 0 ==> Usable(measure, outcomes)
      invariant forall j :: 0 <= j < i && GatePassed(measure, outcomes, candidates[j]) ==>
                  best.Some? && Scaled(measure, candidates[j]) <= Scaled(measure, best.value.0)
    {
      var score := ScoreOutcomes(measure, outcomes, candidates[i]);
      if score.Failure? {
        assert candidates[i] in candidates;
        assert !Usable(measure, outcomes) by {
          if Usable(measure, outcomes) {
            TriedIsValid(measure, outcomes, candidates[i]);
          }
        }
        return Failure(OutcomesInvalid);
      }
      if score.value.passed && (best.None? || Scaled(measure, best.value.0) < Scaled(measure, candidates[i])) {
        best := Some((candidates[i], score.value));
      }
    }
    forall t | GatePassed(measure, outcomes, t)
      ensures best.Some? && KeepsAllOf(measure, outcomes, best.value.0, t)
    {
      var c := TriedThresholdsSuffice(measure, outcomes, t);
      assert c in candidates;
      LooserKeepsAll(measure, outcomes, best.value.0, t, c);
    }
    if best.None? {
      return Failure(NoThreshold);
    }
    r := Success(best.value);
  }

  lemma LooserKeepsAll(measure: Measure, outcomes: seq<Outcome>, best: int, t: int, c: int)
    requires SameCut(measure, outcomes, t, c) && Scaled(measure, c) <= Scaled(measure, best)
    ensures KeepsAllOf(measure, outcomes, best, t)
  {}

  lemma NoValuesNoThreshold(measure: Measure, outcomes: seq<Outcome>)
    requires forall v :: v !in Values(outcomes)
    ensures Usable(measure, outcomes) ==> forall t :: !GatePassed(measure, outcomes, t)
  {
    if Usable(measure, outcomes) {
      forall t ensures !GatePassed(measure, outcomes, t) {
        NothingKeptNothingGrounded(measure, outcomes, t);
      }
    }
  }

  // ---- the ceiling ------------------------------------------------------

  function NoEvidenceValues(outcomes: seq<Outcome>): set<int> {
    set o, i | o in outcomes && o.category == NoEvidence && o.items.Some? && i in o.items.value && i.Item? && i.value.Some? :: i.value.value
  }

  predicate RejectsAllNoEvidence(measure: Measure, outcomes: seq<Outcome>, t: int) {
    forall v :: v in NoEvidenceValues(outcomes) ==> Scaled(measure, v) > Scaled(measure, t)
  }

  /** The next number on the strict side of the best item without evidence; there is
      none below distance 0. */
  function CeilingThreshold(measure: Measure, best: int): int {
    match measure
    case Distance => if best > 0 then best - 1 else 0
    case RerankerScore => best + 1
  }

  function BestOf(measure: Measure, s: seq<int>): int
    requires s != []
  {
    if measure.Distance? then MinOf(s) else MaxOf(s)
  }

  lemma {:induction false} LooserGroundsMore(measure: Measure, outcomes: seq<Outcome>, t: int, u: int)
    requires Usable(measure, outcomes) && Scaled(measure, u) <= Scaled(measure, t)
    ensures PassedCount(measure, outcomes, Grounded, u) <= PassedCount(measure, outcomes, Grounded, t)
  {
    if outcomes != [] {
      var n := |outcomes| - 1;
      LooserGroundsMore(measure, outcomes[..n], t, u);
      var o := outcomes[n];
      if o.category == Grounded && PassesAt(measure, o, u) {
        var i :| i in Filtered(measure, o.items.value, u) && i.Item? && i.matches;
        FilteredIs(measure, o.items.value, u, i);
        FilteredIs(measure, o.items.value, t, i);
      }
    }
  }

  /** `score_at_no_evidence_ceiling`, and the same step of the reranker calibrator. */
  method ScoreAtCeiling(measure: Measure, outcomes: seq<Outcome>) returns (r: Result<(int, Score), CalibrationError>)
    ensures r.Failure? <==>
            || !Usable(measure, outcomes) || NoEvidenceValues(outcomes) == {}
            || (measure.RerankerScore? && MAX_FINITE in NoEvidenceValues(outcomes))
    ensures r.Success? ==> Usable(measure, outcomes)
    ensures r.Success? ==> r.value.1 == ScoreAt(measure, outcomes, r.value.0)
    ensures r.Success? ==>
              (RejectsAllNoEvidence(measure, outcomes, r.value.0) <==> !(measure.Distance? && 0 in NoEvidenceValues(outcomes)))
    ensures r.Success? ==>
              forall t :: ValidThreshold(measure, t) && RejectsAllNoEvidence(measure, outcomes, t) ==>
                            ScoreAt(measure, outcomes, t).groundedPassed <= r.value.1.groundedPassed
  {
    hide NoEvidenceValues, Usable;
    var values := SortedSet(NoEvidenceValues(outcomes));
    if values == [] {
      assert forall v :: v in NoEvidenceValues(outcomes) ==> v in values;
      return Failure(NoCandidates);
    }
    var best := BestOf(measure, values);
    var t := CeilingThreshold(measure, best);
    assert best in NoEvidenceValues(outcomes);
    var score := ScoreOutcomes(measure, outcomes, t);
    NoEvidenceValuesAreValid(measure, outcomes, best);
    if score.Failure? {
      return Failure(score.error);
    }
    forall u | ValidThreshold(measure, u) && RejectsAllNoEvidence(measure, outcomes, u)
      ensures ScoreAt(measure, outcomes, u).groundedPassed <= score.value.groundedPassed
    {
      assert Scaled(measure, best) > Scaled(measure, u);
      LooserGroundsMore(measure, outcomes, t, u);
    }
    r := Success((t, score.value));
  }

  lemma NoEvidenceValuesAreValid(measure: Measure, outcomes: seq<Outcome>, v: int)
    requires v in NoEvidenceValues(outcomes)
    ensures Usable(measure, outcomes) && measure.Distance? ==> v >= 0
    ensures Usable(measure, outcomes) && measure.RerankerScore? ==> -MAX_FINITE <= v <= MAX_FINITE
  {
    assert v in Values(outcomes);
    if Usable(measure, outcomes) {
      TriedIsValid(measure, outcomes, v);
    }
  }

  lemma {:induction false} CountedNeverExceeds(measure: Measure, outcomes: seq<Outcome>, c: Category, t: int)
    ensures PassedCount(measure, outcomes, c, t) <= Total(outcomes, c)
  {
    if outcomes != [] {
      CountedNeverExceeds(measure, outcomes[..|outcomes| - 1], c, t);
    }
  }

  /** One outcome that does not pass keeps the count below the total. */
  lemma {:induction false} FailingIsNotCounted(measure: Measure, outcomes: seq<Outcome>, o: Outcome, t: int)
    requires o in outcomes && !PassesAt(measure, o, t)
    ensures PassedCount(measure, outcomes, o.category, t) < Total(outcomes, o.category)
  {
    hide PassesAt;
    var n := |outcomes| - 1;
    if outcomes[n] == o {
      CountedNeverExceeds(measure, outcomes[..n], o.category, t);
    } else {
      FailingIsNotCounted(measure, outcomes[..n], o, t);
    }
  }

  /** Some number rejects every item without evidence, exactly when none is at distance
      0: then the ceiling's does, and otherwise no number at all passes the gate. */
  lemma CeilingRejectsIffNoneAtZero(outcomes: seq<Outcome>)
    requires Usable(Distance, outcomes)
    ensures (exists t :: ValidThreshold(Distance, t) && RejectsAllNoEvidence(Distance, outcomes, t)) <==> 0 !in NoEvidenceValues(outcomes)
    ensures 0 in NoEvidenceValues(outcomes) ==> forall t :: !GatePassed(Distance, outcomes, t)
  {
    if 0 in NoEvidenceValues(outcomes) {
      var o, item :| o in outcomes && o.category == NoEvidence && o.items.Some? && item in o.items.value
                     && item.Item? && item.value == Some(0);
      forall t ensures !GatePassed(Distance, outcomes, t) {
        if ValidThreshold(Distance, t) {
          FilteredIs(Distance, o.items.value, t, item);
          FailingIsNotCounted(Distance, outcomes, o, t);
        }
      }
    } else {
      forall v | v in NoEvidenceValues(outcomes) ensures v > 0 {
        NoEvidenceValuesAreValid(Distance, outcomes, v);
      }
      assert RejectsAllNoEvidence(Distance, outcomes, 0);
    }
  }

  const AT_ZERO := Outcome(NoEvidence, Some([Item(Some(0), false, "a")]), "", None)

  /** One question without evidence whose best item is at distance 0 spoils any outcomes:
      they stay usable, no number rejects that item, and none passes the gate. */
  lemma OneAtZeroSpoilsAll(outcomes: seq<Outcome>)
    requires Usable(Distance, outcomes)
    ensures
      var spoilt := outcomes + [AT_ZERO];
      && Usable(Distance, spoilt)
      && forall t :: ValidThreshold(Distance, t) ==>
                       !RejectsAllNoEvidence(Distance, spoilt, t) && !GatePassed(Distance, spoilt, t)
  {
    var spoilt := outcomes + [AT_ZERO];
    assert spoilt[|outcomes|] == AT_ZERO && AT_ZERO in spoilt;
    assert AT_ZERO.items.value[0] in AT_ZERO.items.value;
    assert 0 in NoEvidenceValues(spoilt);
    CeilingRejectsIffNoneAtZero(spoilt);
  }
}
