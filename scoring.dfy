/**
 * The scoring engine of the Operational Equity Framework assessment
 * (framework/scoring_algorithm.py, `EquityFrameworkScorer`).
 *
 * The question catalog, which the scorer reads once from a JSON file, is an
 * immutable `Catalog` value passed to every operation. Percentages are exact
 * rationals (`real`); the source's one-decimal rounding for display is not
 * modelled.
 */
module Scoring {

  // ---------------------------------------------------------------------------
  // Catalog and responses

  datatype Pillar = PROCESS | PEOPLE | TECHNOLOGY

  /** The pillars in declaration order (`self.pillars`). */
  const Pillars: seq<Pillar> := [PROCESS, PEOPLE, TECHNOLOGY]

  /** The position of a pillar in `Pillars`. */
  function Rank(p: Pillar): (k: nat)
    ensures k < |Pillars| && Pillars[k] == p
  {
    match p
    case PROCESS => 0
    case PEOPLE => 1
    case TECHNOLOGY => 2
  }

  /** Every question is worth at most this many points. */
  const PointsPerQuestion: int := 5

  /** One catalog question: its id, its wording, its rationale and its option -> points map. */
  datatype Question = Question(id: string, text: string, rationale: string, scoring: map<string, int>)

  /** The four interpretation texts of the scoring guide, keyed '0-40', '41-60', '61-80', '81-100'. */
  datatype Guide = Guide(upTo40: string, upTo60: string, upTo80: string, above80: string)

  /** The assessment definition: the questions of each pillar, in order, and the scoring guide. */
  datatype Catalog = Catalog(
    process: seq<Question>,
    people: seq<Question>,
    technology: seq<Question>,
    guide: Guide)

  /** A respondent's answers, keyed by question id; an absent key means "not answered". */
  type Responses = map<string, string>

  /** `get_questions_for_pillar` */
  function QuestionsFor(cat: Catalog, pillar: Pillar): seq<Question>
  {
    match pillar
    case PROCESS => cat.process
    case PEOPLE => cat.people
    case TECHNOLOGY => cat.technology
  }

  /** The documented range of every scoring value: 0 to 5 points. */
  predicate ScoringInRange(q: Question)
  {
    forall option :: option in q.scoring ==> 0 <= q.scoring[option] <= PointsPerQuestion
  }

  predicate AllInRange(qs: seq<Question>)
  {
    forall i :: 0 <= i < |qs| ==> ScoringInRange(qs[i])
  }

  /** A catalog whose every scoring value lies in the documented range. */
  predicate WellFormed(cat: Catalog)
  {
    AllInRange(cat.process) && AllInRange(cat.people) && AllInRange(cat.technology)
  }

  // ---------------------------------------------------------------------------
  // Question and pillar scores

  /** `calculate_question_score`: the mapped points, or 0 for an answer the map does not know. */
  function QuestionScore(q: Question, response: string): (points: int)
    ensures response in q.scoring ==> points == q.scoring[response]
    ensures response !in q.scoring ==> points == 0
    ensures ScoringInRange(q) ==> 0 <= points <= PointsPerQuestion
  {
    if response in q.scoring then q.scoring[response] else 0
  }

  /** What one question adds to its pillar: its score if answered, nothing otherwise. */
  function Earned(q: Question, responses: Responses): int
  {
    if q.id in responses then QuestionScore(q, responses[q.id]) else 0
  }

  /** Points earned by a sequence of questions, summed in order. */
  function PillarPoints(qs: seq<Question>, responses: Responses): int
  {
    if qs == [] then 0
    else PillarPoints(qs[..|qs| - 1], responses) + Earned(qs[|qs| - 1], responses)
  }

  /** `max_points`: five points per question. */
  function MaxPoints(qs: seq<Question>): int
  {
    PointsPerQuestion * |qs|
  }

  /** The pillar percentage: `points / max * 100`, and 0 for a pillar without questions. */
  function Percent(points: int, maxPoints: int): real
  {
    if maxPoints > 0 then (points as real / maxPoints as real) * 100.0 else 0.0
  }

  lemma {:induction false} PillarPointsBounds(qs: seq<Question>, responses: Responses)
    requires AllInRange(qs)
    ensures 0 <= PillarPoints(qs, responses) <= MaxPoints(qs)
  {
    if qs != [] {
      PillarPointsBounds(qs[..|qs| - 1], responses);
      assert ScoringInRange(qs[|qs| - 1]);
    }
  }

  /** Summing is additive over a split of the question list. */
  lemma {:induction false} PillarPointsConcat(a: seq<Question>, b: seq<Question>, responses: Responses)
    ensures PillarPoints(a + b, responses) == PillarPoints(a, responses) + PillarPoints(b, responses)
  {
    if b == [] {
      assert a + b == a;
    } else {
      var n := |b| - 1;
      assert (a + b)[..|a + b| - 1] == a + b[..n];
      PillarPointsConcat(a, b[..n], responses);
    }
  }

  /** An unanswered question adds nothing, wherever it stands in the pillar. */
  lemma PillarPointsSkipUnanswered(a: seq<Question>, q: Question, b: seq<Question>, responses: Responses)
    requires q.id !in responses
    ensures PillarPoints(a + [q] + b, responses) == PillarPoints(a + b, responses)
  {
    PillarPointsConcat(a + [q], b, responses);
    PillarPointsConcat(a, [q], responses);
    PillarPointsConcat(a, b, responses);
    assert [q][..0] == [];
  }

  /** With no answers at all a pillar earns nothing. */
  lemma {:induction false} PillarPointsNoResponses(qs: seq<Question>)
    ensures PillarPoints(qs, map[]) == 0
  {
    if qs != [] {
      PillarPointsNoResponses(qs[..|qs| - 1]);
    }
  }

  /** The question was answered with an option worth the full five points. */
  predicate AnsweredWithMax(q: Question, responses: Responses)
  {
    q.id in responses && responses[q.id] in q.scoring && q.scoring[responses[q.id]] == PointsPerQuestion
  }

  /** Full marks on every question give the pillar maximum. */
  lemma {:induction false} PillarPointsAllMax(qs: seq<Question>, responses: Responses)
    requires forall i :: 0 <= i < |qs| ==> AnsweredWithMax(qs[i], responses)
    ensures PillarPoints(qs, responses) == MaxPoints(qs)
  {
    if qs != [] {
      PillarPointsAllMax(qs[..|qs| - 1], responses);
      assert AnsweredWithMax(qs[|qs| - 1], responses);
    }
  }

  /** Responses are read only for the pillar's own question ids. */
  lemma {:induction false} PillarPointsReadsOwnAnswers(qs: seq<Question>, r1: Responses, r2: Responses)
    requires forall i :: 0 <= i < |qs| ==>
      (qs[i].id in r1 <==> qs[i].id in r2) && (qs[i].id in r1 ==> r1[qs[i].id] == r2[qs[i].id])
    ensures PillarPoints(qs, r1) == PillarPoints(qs, r2)
  {
    if qs != [] {
      PillarPointsReadsOwnAnswers(qs[..|qs| - 1], r1, r2);
    }
  }

  /** A percentage of earned points within the maximum lies in [0, 100]. */
  lemma PercentBounds(points: int, maxPoints: int)
    requires 0 <= points <= maxPoints
    ensures 0.0 <= Percent(points, maxPoints) <= 100.0
  {
  }

  /**
   * Comparing a percentage with a bound is the same as comparing integers
   * crossed-multiplied: `points/max*100 <= bound` iff `points*100 <= bound*max`.
   */
  lemma PercentCrossMultiplied(points: int, maxPoints: int, bound: real)
    requires maxPoints > 0
    ensures Percent(points, maxPoints) <= bound <==> (points * 100) as real <= bound * maxPoints as real
  {
  }

  /**
   * `calculate_pillar_score`: the points earned, the maximum and the
   * percentage of one pillar.
   */
  method CalculatePillarScore(cat: Catalog, pillar: Pillar, responses: Responses)
    returns (points: int, maxPoints: int, percentage: real)
    ensures points == PillarPoints(QuestionsFor(cat, pillar), responses)
    ensures maxPoints == MaxPoints(QuestionsFor(cat, pillar))
    ensures percentage == Percent(points, maxPoints)
    ensures maxPoints == 0 ==> percentage == 0.0
    ensures WellFormed(cat) ==> 0 <= points <= maxPoints && 0.0 <= percentage <= 100.0
  {
    var questions := QuestionsFor(cat, pillar);
    var totalPoints := 0;
    maxPoints := |questions| * PointsPerQuestion;
    for i := 0 to |questions|
      invariant totalPoints == PillarPoints(questions[..i], responses)
    {
      var question := questions[i];
      if question.id in responses {
        var response := responses[question.id];
        var questionPoints := QuestionScore(question, response);
        totalPoints := totalPoints + questionPoints;
      }
      assert questions[..i + 1][..i] == questions[..i];
    }
    assert questions[..|questions|] == questions;
    percentage := if maxPoints > 0 then (totalPoints as real / maxPoints as real) * 100.0 else 0.0;
    points := totalPoints;
    if WellFormed(cat) {
      PillarPointsBounds(questions, responses);
      PercentBounds(points, maxPoints);
    }
  }

  // ---------------------------------------------------------------------------
  // Interpretation bands

  /** The four bands of `_interpret_score`, by their scoring-guide keys. */
  datatype Band = UpTo40 | UpTo60 | UpTo80 | Above80

  /** `_interpret_score`: inclusive upper bounds at 40, 60 and 80. */
  function InterpretBand(percentage: real): (band: Band)
    ensures InBand(band, percentage)
  {
    if percentage <= 40.0 then UpTo40
    else if percentage <= 60.0 then UpTo60
    else if percentage <= 80.0 then UpTo80
    else Above80
  }

  function BandKey(band: Band): string
  {
    match band
    case UpTo40 => "0-40"
    case UpTo60 => "41-60"
    case UpTo80 => "61-80"
    case Above80 => "81-100"
  }

  function BandRank(band: Band): nat
  {
    match band
    case UpTo40 => 0
    case UpTo60 => 1
    case UpTo80 => 2
    case Above80 => 3
  }

  /** The interpretation text the scoring guide gives a percentage. */
  function Interpret(guide: Guide, percentage: real): (text: string)
    ensures percentage <= 40.0 ==> text == guide.upTo40
    ensures 40.0 < percentage <= 60.0 ==> text == guide.upTo60
    ensures 60.0 < percentage <= 80.0 ==> text == guide.upTo80
    ensures 80.0 < percentage ==> text == guide.above80
  {
    match InterpretBand(percentage)
    case UpTo40 => guide.upTo40
    case UpTo60 => guide.upTo60
    case UpTo80 => guide.upTo80
    case Above80 => guide.above80
  }

  /** The interval each band covers: lower bound exclusive, upper bound inclusive. */
  predicate InBand(band: Band, percentage: real)
  {
    var bounds := [40.0, 60.0, 80.0];
    var rank := BandRank(band);
    (rank == 0 || bounds[rank - 1] < percentage) && (rank == 3 || percentage <= bounds[rank])
  }

  /** The bands are exhaustive and disjoint: a percentage gets a band exactly when it lies in it. */
  lemma InterpretBandPartition(percentage: real, band: Band)
    ensures InterpretBand(percentage) == band <==> InBand(band, percentage)
  {
  }

  /** A higher percentage never gets a lower band. */
  lemma InterpretBandMonotone(p: real, q: real)
    requires p <= q
    ensures BandRank(InterpretBand(p)) <= BandRank(InterpretBand(q))
  {
  }

  // ---------------------------------------------------------------------------
  // Overall score

  /** The score of one pillar as `calculate_overall_score` records it. */
  datatype PillarResult = PillarResult(
    pointsEarned: int,
    maxPoints: int,
    percentage: real,
    interpretation: string)

  datatype OverallResult = OverallResult(
    percentage: real,
    interpretation: string,
    breakdown: map<Pillar, real>)

  datatype Results = Results(pillars: map<Pillar, PillarResult>, overall: OverallResult)

  function PillarPercentage(cat: Catalog, pillar: Pillar, responses: Responses): real
  {
    var qs := QuestionsFor(cat, pillar);
    Percent(PillarPoints(qs, responses), MaxPoints(qs))
  }

  /** The unweighted mean of the three pillar percentages. */
  function OverallPercentage(cat: Catalog, responses: Responses): real
  {
    (PillarPercentage(cat, PROCESS, responses)
     + PillarPercentage(cat, PEOPLE, responses)
     + PillarPercentage(cat, TECHNOLOGY, responses)) / 3.0
  }

  function Sum(xs: seq<real>): real
  {
    if xs == [] then 0.0 else Sum(xs[..|xs| - 1]) + xs[|xs| - 1]
  }

  lemma PillarPercentageBounds(cat: Catalog, pillar: Pillar, responses: Responses)
    requires WellFormed(cat)
    ensures 0.0 <= PillarPercentage(cat, pillar, responses) <= 100.0
  {
    var qs := QuestionsFor(cat, pillar);
    PillarPointsBounds(qs, responses);
    PercentBounds(PillarPoints(qs, responses), MaxPoints(qs));
  }

  lemma OverallBounds(cat: Catalog, responses: Responses)
    requires WellFormed(cat)
    ensures 0.0 <= OverallPercentage(cat, responses) <= 100.0
  {
    PillarPercentageBounds(cat, PROCESS, responses);
    PillarPercentageBounds(cat, PEOPLE, responses);
    PillarPercentageBounds(cat, TECHNOLOGY, responses);
  }

  /** The overall score lies between the lowest and the highest pillar percentage. */
  lemma OverallBetweenPillars(cat: Catalog, responses: Responses)
    ensures (exists p :: PillarPercentage(cat, p, responses) <= OverallPercentage(cat, responses))
    ensures (exists p :: OverallPercentage(cat, responses) <= PillarPercentage(cat, p, responses))
  {
    var a := PillarPercentage(cat, PROCESS, responses);
    var b := PillarPercentage(cat, PEOPLE, responses);
    var c := PillarPercentage(cat, TECHNOLOGY, responses);
    if a <= b && a <= c {
      assert PillarPercentage(cat, PROCESS, responses) <= OverallPercentage(cat, responses);
    } else if b <= c {
      assert PillarPercentage(cat, PEOPLE, responses) <= OverallPercentage(cat, responses);
    } else {
      assert PillarPercentage(cat, TECHNOLOGY, responses) <= OverallPercentage(cat, responses);
    }
    if a >= b && a >= c {
      assert OverallPercentage(cat, responses) <= PillarPercentage(cat, PROCESS, responses);
    } else if b >= c {
      assert OverallPercentage(cat, responses) <= PillarPercentage(cat, PEOPLE, responses);
    } else {
      assert OverallPercentage(cat, responses) <= PillarPercentage(cat, TECHNOLOGY, responses);
    }
  }

  /** What `calculate_overall_score` records for one pillar. */
  function PillarResultOf(cat: Catalog, pillar: Pillar, responses: Responses): PillarResult
  {
    var qs := QuestionsFor(cat, pillar);
    var points := PillarPoints(qs, responses);
    var percentage := Percent(points, MaxPoints(qs));
    PillarResult(points, MaxPoints(qs), percentage, Interpret(cat.guide, percentage))
  }

  /**
   * `calculate_overall_score`: every pillar's score, then the overall
   * percentage as the mean of the pillar percentages.
   */
  method CalculateOverallScore(cat: Catalog, responses: Responses) returns (results: Results)
    ensures results.pillars.Keys == {PROCESS, PEOPLE, TECHNOLOGY}
    ensures forall p :: p in results.pillars ==> results.pillars[p] == PillarResultOf(cat, p, responses)
    ensures results.overall.percentage == OverallPercentage(cat, responses)
    ensures results.overall.interpretation == Interpret(cat.guide, OverallPercentage(cat, responses))
    ensures results.overall.breakdown == map p | p in results.pillars :: results.pillars[p].percentage
    ensures WellFormed(cat) ==> 0.0 <= results.overall.percentage <= 100.0
  {
    var pillarResults: map<Pillar, PillarResult> := map[];
    var pillarScores: seq<real> := [];
    for i := 0 to |Pillars|
      invariant |pillarScores| == i
      invariant forall k :: 0 <= k < i ==> pillarScores[k] == PillarPercentage(cat, Pillars[k], responses)
      invariant pillarResults == ResultsBefore(cat, responses, i)
    {
      var pillar := Pillars[i];
      var points, maxPoints, percentage := CalculatePillarScore(cat, pillar, responses);
      ResultsBeforeStep(cat, responses, i);
      pillarResults := pillarResults[pillar := PillarResult(points, maxPoints, percentage, Interpret(cat.guide, percentage))];
      pillarScores := pillarScores + [percentage];
    }
    ResultsBeforeAll(cat, responses);
    var overallPercentage := Sum(pillarScores) / |pillarScores| as real;
    assert overallPercentage == OverallPercentage(cat, responses) by {
      SumOfThree(pillarScores);
    }
    results := Results(
      pillarResults,
      OverallResult(
        overallPercentage,
        Interpret(cat.guide, overallPercentage),
        map p | p in pillarResults :: pillarResults[p].percentage));
    if WellFormed(cat) {
      OverallBounds(cat, responses);
    }
  }

  /** The per-pillar results once the pillars before position `i` are scored. */
  function ResultsBefore(cat: Catalog, responses: Responses, i: int): map<Pillar, PillarResult>
  {
    map p | p in {PROCESS, PEOPLE, TECHNOLOGY} && Rank(p) < i :: PillarResultOf(cat, p, responses)
  }

  lemma ResultsBeforeStep(cat: Catalog, responses: Responses, i: int)
    requires 0 <= i < |Pillars|
    ensures ResultsBefore(cat, responses, i)[Pillars[i] := PillarResultOf(cat, Pillars[i], responses)]
      == ResultsBefore(cat, responses, i + 1)
  {
  }

  lemma ResultsBeforeAll(cat: Catalog, responses: Responses)
    ensures ResultsBefore(cat, responses, |Pillars|).Keys == {PROCESS, PEOPLE, TECHNOLOGY}
    ensures Pillars[0] == PROCESS && Pillars[1] == PEOPLE && Pillars[2] == TECHNOLOGY
  {
  }

  lemma SumOfThree(xs: seq<real>)
    requires |xs| == 3
    ensures Sum(xs) == xs[0] + xs[1] + xs[2]
  {
    assert xs[..2][..1] == [xs[0]];
    assert [xs[0]][..0] == [];
    assert Sum([xs[0]]) == xs[0];
    assert Sum(xs[..2]) == xs[0] + xs[1];
  }

  // ---------------------------------------------------------------------------
  // Gaps

  /** One entry of `identify_gaps`. */
  datatype Gap = Gap(
    id: string,
    question: string,
    response: string,
    score: int,
    maxScore: int,
    rationale: string)

  /** An answered question scoring at most the threshold. */
  predicate IsGap(q: Question, responses: Responses, threshold: int)
  {
    q.id in responses && QuestionScore(q, responses[q.id]) <= threshold
  }

  function GapOf(q: Question, responses: Responses): Gap
    requires q.id in responses
  {
    var response := responses[q.id];
    Gap(q.id, q.text, response, QuestionScore(q, response), PointsPerQuestion, q.rationale)
  }

  /** The gaps of one pillar, in question order. */
  function PillarGaps(qs: seq<Question>, responses: Responses, threshold: int): (gaps: seq<Gap>)
    ensures |gaps| <= |qs|
    ensures forall g :: g in gaps ==> g.maxScore == PointsPerQuestion && g.score <= threshold
  {
    if qs == [] then []
    else
      var q := qs[|qs| - 1];
      PillarGaps(qs[..|qs| - 1], responses, threshold)
      + (if IsGap(q, responses, threshold) then [GapOf(q, responses)] else [])
  }

  /** A gap is listed exactly when it belongs to an answered question at or below the threshold. */
  lemma {:induction false} PillarGapsMember(qs: seq<Question>, responses: Responses, threshold: int, g: Gap)
    ensures g in PillarGaps(qs, responses, threshold) <==>
      exists i :: 0 <= i < |qs| && IsGap(qs[i], responses, threshold) && g == GapOf(qs[i], responses)
  {
    if qs != [] {
      var n := |qs| - 1;
      PillarGapsMember(qs[..n], responses, threshold, g);
      if exists i :: 0 <= i < n && IsGap(qs[..n][i], responses, threshold) && g == GapOf(qs[..n][i], responses) {
        var i :| 0 <= i < n && IsGap(qs[..n][i], responses, threshold) && g == GapOf(qs[..n][i], responses);
        assert qs[..n][i] == qs[i];
      }
      if exists i :: 0 <= i < |qs| && IsGap(qs[i], responses, threshold) && g == GapOf(qs[i], responses) {
        var i :| 0 <= i < |qs| && IsGap(qs[i], responses, threshold) && g == GapOf(qs[i], responses);
        if i < n {
          assert qs[..n][i] == qs[i];
        }
      }
    }
  }

  /** Gaps keep question order: the gaps of a split list are the gaps of its parts, in order. */
  lemma {:induction false} PillarGapsConcat(a: seq<Question>, b: seq<Question>, responses: Responses, threshold: int)
    ensures PillarGaps(a + b, responses, threshold) ==
      PillarGaps(a, responses, threshold) + PillarGaps(b, responses, threshold)
  {
    if b == [] {
      assert a + b == a;
    } else {
      var n := |b| - 1;
      assert (a + b)[..|a + b| - 1] == a + b[..n];
      assert (a + b)[|a + b| - 1] == b[n];
      PillarGapsConcat(a, b[..n], responses, threshold);
    }
  }

  /** With no answers there are no gaps. */
  lemma {:induction false} PillarGapsNoResponses(qs: seq<Question>, threshold: int)
    ensures PillarGaps(qs, map[], threshold) == []
  {
    if qs != [] {
      PillarGapsNoResponses(qs[..|qs| - 1], threshold);
    }
  }

  /** The inner loop of `identify_gaps`: the gaps of one pillar's questions, in order. */
  method CollectGaps(questions: seq<Question>, responses: Responses, threshold: int) returns (pillarGaps: seq<Gap>)
    ensures pillarGaps == PillarGaps(questions, responses, threshold)
  {
    pillarGaps := [];
    for j := 0 to |questions|
      invariant pillarGaps == PillarGaps(questions[..j], responses, threshold)
    {
      var question := questions[j];
      if question.id in responses {
        var response := responses[question.id];
        var score := QuestionScore(question, response);
        if score <= threshold {
          pillarGaps := pillarGaps + [Gap(question.id, question.text, response, score, PointsPerQuestion, question.rationale)];
        }
      }
      assert questions[..j + 1][..j] == questions[..j];
    }
    assert questions[..|questions|] == questions;
  }

  /** The gap map after the pillars before position `i` are done; the others are still empty. */
  function GapsBefore(cat: Catalog, responses: Responses, threshold: int, i: int): map<Pillar, seq<Gap>>
  {
    map p | p in {PROCESS, PEOPLE, TECHNOLOGY} ::
      if Rank(p) < i then PillarGaps(QuestionsFor(cat, p), responses, threshold) else []
  }

  lemma GapsBeforeStep(cat: Catalog, responses: Responses, threshold: int, i: int)
    requires 0 <= i < |Pillars|
    ensures GapsBefore(cat, responses, threshold, i)[Pillars[i] := PillarGaps(QuestionsFor(cat, Pillars[i]), responses, threshold)]
      == GapsBefore(cat, responses, threshold, i + 1)
  {
  }

  /** The threshold `identify_gaps` uses when its caller gives none. */
  const DefaultThreshold: int := 2

  /** `identify_gaps`: for every pillar, the answered questions scoring at most `threshold` (`DefaultThreshold` unless given). */
  method IdentifyGaps(cat: Catalog, responses: Responses, threshold: int) returns (gaps: map<Pillar, seq<Gap>>)
    ensures gaps.Keys == {PROCESS, PEOPLE, TECHNOLOGY}
    ensures forall p :: p in gaps ==> gaps[p] == PillarGaps(QuestionsFor(cat, p), responses, threshold)
  {
    gaps := map[PROCESS := [], PEOPLE := [], TECHNOLOGY := []];
    GapsBeforeNone(cat, responses, threshold);
    for i := 0 to |Pillars|
      invariant gaps == GapsBefore(cat, responses, threshold, i)
    {
      var pillar := Pillars[i];
      var pillarGaps := CollectGaps(QuestionsFor(cat, pillar), responses, threshold);
      GapsBeforeStep(cat, responses, threshold, i);
      gaps := gaps[pillar := pillarGaps];
    }
    GapsBeforeAll(cat, responses, threshold);
  }

  lemma GapsBeforeNone(cat: Catalog, responses: Responses, threshold: int)
    ensures GapsBefore(cat, responses, threshold, 0) == map[PROCESS := [], PEOPLE := [], TECHNOLOGY := []]
  {
  }

  lemma GapsBeforeAll(cat: Catalog, responses: Responses, threshold: int)
    ensures GapsBefore(cat, responses, threshold, |Pillars|).Keys == {PROCESS, PEOPLE, TECHNOLOGY}
    ensures forall p :: p in GapsBefore(cat, responses, threshold, |Pillars|) ==>
      GapsBefore(cat, responses, threshold, |Pillars|)[p] == PillarGaps(QuestionsFor(cat, p), responses, threshold)
  {
  }

  // ---------------------------------------------------------------------------
  // Recommendations

  /** Stable insertion: `x` goes before the first element whose score is not below its own. */
  function InsertByScore(x: (Pillar, real), sorted: seq<(Pillar, real)>): (r: seq<(Pillar, real)>)
    ensures |r| == |sorted| + 1
    ensures multiset(r) == multiset(sorted) + multiset{x}
    ensures r[0] == if sorted == [] || x.1 <= sorted[0].1 then x else sorted[0]
  {
    if sorted == [] || x.1 <= sorted[0].1 then [x] + sorted
    else
      assert sorted == [sorted[0]] + sorted[1..];
      [sorted[0]] + InsertByScore(x, sorted[1..])
  }

  /** `list.sort(key=score)`: a stable sort by ascending score. */
  function SortByScore(s: seq<(Pillar, real)>): (r: seq<(Pillar, real)>)
    ensures |r| == |s|
    ensures multiset(r) == multiset(s)
    ensures Ascending(r)
  {
    if s == [] then []
    else
      assert s == [s[0]] + s[1..];
      InsertAscending(s[0], SortByScore(s[1..]));
      InsertByScore(s[0], SortByScore(s[1..]))
  }

  /** Scores never decrease along the sequence. */
  predicate Ascending(s: seq<(Pillar, real)>)
  {
    forall i, j :: 0 <= i < j < |s| ==> s[i].1 <= s[j].1
  }

  /** Inserting into an ascending sequence keeps it ascending. */
  lemma {:induction false} InsertAscending(x: (Pillar, real), sorted: seq<(Pillar, real)>)
    requires Ascending(sorted)
    ensures Ascending(InsertByScore(x, sorted))
  {
    if sorted != [] && x.1 > sorted[0].1 {
      var tail := sorted[1..];
      assert Ascending(tail) by {
        forall i, j | 0 <= i < j < |tail| ensures tail[i].1 <= tail[j].1 {
          assert tail[i] == sorted[i + 1] && tail[j] == sorted[j + 1];
        }
      }
      InsertAscending(x, tail);
      var rest := InsertByScore(x, tail);
      assert sorted[0].1 <= rest[0].1;
      var r := [sorted[0]] + rest;
      assert InsertByScore(x, sorted) == r;
      forall i, j | 0 <= i < j < |r| ensures r[i].1 <= r[j].1 {
        if i == 0 {
          assert r[j] == rest[j - 1];
          if j > 1 {
            assert rest[0].1 <= rest[j - 1].1;
          }
        } else {
          assert r[i] == rest[i - 1] && r[j] == rest[j - 1];
        }
      }
    }
  }

  /** The elements carrying score `v`, in order. */
  function WithScore(s: seq<(Pillar, real)>, v: real): seq<(Pillar, real)>
  {
    if s == [] then [] else (if s[0].1 == v then [s[0]] else []) + WithScore(s[1..], v)
  }

  /** Insertion puts `x` before every element of equal score. */
  lemma {:induction false} InsertWithScore(x: (Pillar, real), sorted: seq<(Pillar, real)>, v: real)
    requires Ascending(sorted)
    ensures WithScore(InsertByScore(x, sorted), v) == (if x.1 == v then [x] else []) + WithScore(sorted, v)
  {
    var r := InsertByScore(x, sorted);
    if sorted == [] || x.1 <= sorted[0].1 {
      assert r == [x] + sorted;
      assert r[1..] == sorted;
    } else {
      var rest := InsertByScore(x, sorted[1..]);
      assert r == [sorted[0]] + rest;
      assert r[0] == sorted[0] && r[1..] == rest;
      assert Ascending(sorted[1..]) by {
        forall i, j | 0 <= i < j < |sorted[1..]| ensures sorted[1..][i].1 <= sorted[1..][j].1 {
          assert sorted[1..][i] == sorted[i + 1] && sorted[1..][j] == sorted[j + 1];
        }
      }
      InsertWithScore(x, sorted[1..], v);
      assert WithScore(sorted, v) == (if sorted[0].1 == v then [sorted[0]] else []) + WithScore(sorted[1..], v);
    }
  }

  /** Stability: among elements of equal score the sort keeps the input order. */
  lemma {:induction false} SortByScoreStable(s: seq<(Pillar, real)>, v: real)
    ensures WithScore(SortByScore(s), v) == WithScore(s, v)
  {
    if s != [] {
      SortByScoreStable(s[1..], v);
      InsertWithScore(s[0], SortByScore(s[1..]), v);
    }
  }

  /** The first index holding a minimum score: the reference for a stable sort's head. */
  function FirstMinIndex(s: seq<(Pillar, real)>): (k: nat)
    requires |s| > 0
    ensures k < |s|
    ensures forall j :: 0 <= j < |s| ==> s[k].1 <= s[j].1
    ensures forall j :: 0 <= j < k ==> s[j].1 > s[k].1
  {
    if |s| == 1 then 0
    else
      var k := FirstMinIndex(s[1..]) + 1;
      if s[0].1 <= s[k].1 then 0 else k
  }

  /** The head of the stable sort is the first element with the minimum score. */
  lemma {:induction false} SortHeadIsFirstMin(s: seq<(Pillar, real)>)
    requires |s| > 0
    ensures SortByScore(s)[0] == s[FirstMinIndex(s)]
  {
    if |s| > 1 {
      SortHeadIsFirstMin(s[1..]);
    }
  }

  /** The pillars and their percentages, in declaration order. */
  function PillarScoreList(results: Results): seq<(Pillar, real)>
    requires results.pillars.Keys == {PROCESS, PEOPLE, TECHNOLOGY}
  {
    seq(|Pillars|, i requires 0 <= i < |Pillars| => (Pillars[i], results.pillars[Pillars[i]].percentage))
  }

  /** The lowest-scoring pillar: the head of the scores sorted ascending. */
  function PriorityFocus(scores: seq<(Pillar, real)>): (focus: (Pillar, real))
    requires |scores| > 0
    ensures exists k ::
      && 0 <= k < |scores| && focus == scores[k]
      && (forall j :: 0 <= j < |scores| ==> scores[k].1 <= scores[j].1)
      && (forall j :: 0 <= j < k ==> scores[j].1 > scores[k].1)
  {
    SortHeadIsFirstMin(scores);
    SortByScore(scores)[0]
  }

  const ProcessActions: seq<string> := [
    "Review and document all care pathways with equity lens",
    "Implement language accessibility across scheduling and service delivery",
    "Add evening/weekend appointment availability",
    "Establish transportation assistance programs",
    "Integrate community health workers into care teams"
  ]

  const PeopleActions: seq<string> := [
    "Implement mandatory equity training for 100% of staff annually",
    "Tie equity metrics to performance evaluations",
    "Hire and retain workforce representative of patient population",
    "Establish Chief Equity Officer position with budget authority",
    "Create equity champion network across departments"
  ]

  const TechnologyActions: seq<string> := [
    "Enable real-time outcome stratification by race/ethnicity in EHR",
    "Implement automated risk alerts for maternal health conditions",
    "Deploy multilingual patient portal",
    "Establish monthly equity dashboard reporting to leadership",
    "Conduct equity impact assessments for all new technology"
  ]

  /** The five fixed actions recommended for each pillar. */
  function RecommendedActions(pillar: Pillar): (actions: seq<string>)
    ensures |actions| == 5
  {
    match pillar
    case PROCESS => ProcessActions
    case PEOPLE => PeopleActions
    case TECHNOLOGY => TechnologyActions
  }

  /** The overall assessment message; its bands use strict upper bounds. */
  datatype Message = Critical | Moderate | Strong | BestInClass

  function MessageRank(message: Message): nat
  {
    match message
    case Critical => 0
    case Moderate => 1
    case Strong => 2
    case BestInClass => 3
  }

  function OverallMessage(overall: real): (message: Message)
    ensures InMessageBand(message, overall)
  {
    if overall < 40.0 then Critical
    else if overall < 60.0 then Moderate
    else if overall < 80.0 then Strong
    else BestInClass
  }
  /** The interval each message covers: lower bound inclusive, upper bound exclusive. */
  predicate InMessageBand(message: Message, overall: real)
  {
    var bounds := [40.0, 60.0, 80.0];
    var rank := MessageRank(message);
    (rank == 0 || bounds[rank - 1] <= overall) && (rank == 3 || overall < bounds[rank])
  }


  /**
   * The message and the interpretation band agree everywhere except at the
   * boundaries 40, 60 and 80 themselves, where the message is one band higher.
   */
  lemma MessageVersusInterpretation(overall: real)
    ensures MessageRank(OverallMessage(overall)) ==
      BandRank(InterpretBand(overall)) + (if overall == 40.0 || overall == 60.0 || overall == 80.0 then 1 else 0)
  {
  }

  /** What `_generate_recommendations` selects. */
  datatype Recommendation = Recommendation(
    focus: Pillar,
    focusScore: real,
    actions: seq<string>,
    message: Message)

  /** `_generate_recommendations`, without the printing. */
  function GenerateRecommendations(results: Results): (rec: Recommendation)
    requires results.pillars.Keys == {PROCESS, PEOPLE, TECHNOLOGY}
    ensures rec.focus in results.pillars && rec.focusScore == results.pillars[rec.focus].percentage
    ensures forall p :: p in results.pillars ==> rec.focusScore <= results.pillars[p].percentage
    ensures exists k ::
      && 0 <= k < |Pillars| && Pillars[k] == rec.focus
      && (forall j :: 0 <= j < k ==> results.pillars[Pillars[j]].percentage > rec.focusScore)
    ensures rec.actions == RecommendedActions(rec.focus) && |rec.actions| == 5
    ensures rec.message == OverallMessage(results.overall.percentage)
  {
    var scores := PillarScoreList(results);
    var lowest := PriorityFocus(scores);
    assert forall p :: p in results.pillars ==> p == scores[0].0 || p == scores[1].0 || p == scores[2].0;
    Recommendation(lowest.0, lowest.1, RecommendedActions(lowest.0), OverallMessage(results.overall.percentage))
  }

  // ---------------------------------------------------------------------------
  // Scenarios

  /**
   * The worked example: pillars at 40, 34 and 21 percent average to 95/3,
   * about 31.7, which is in the 0-40 band with the CRITICAL message, and
   * TECHNOLOGY is the priority focus.
   */
  lemma GoldenScenario(cat: Catalog, responses: Responses)
    requires PillarPercentage(cat, PROCESS, responses) == 40.0
    requires PillarPercentage(cat, PEOPLE, responses) == 34.0
    requires PillarPercentage(cat, TECHNOLOGY, responses) == 21.0
    ensures OverallPercentage(cat, responses) == 95.0 / 3.0
    ensures InterpretBand(OverallPercentage(cat, responses)) == UpTo40
    ensures OverallMessage(OverallPercentage(cat, responses)) == Critical
    ensures PriorityFocus([
      (PROCESS, PillarPercentage(cat, PROCESS, responses)),
      (PEOPLE, PillarPercentage(cat, PEOPLE, responses)),
      (TECHNOLOGY, PillarPercentage(cat, TECHNOLOGY, responses))]).0 == TECHNOLOGY
  {
  }

  /** A score of exactly 40 is in the 0-40 band but gets the MODERATE message. */
  lemma FortyIsModerate()
    ensures InterpretBand(40.0) == UpTo40 && BandKey(InterpretBand(40.0)) == "0-40"
    ensures OverallMessage(40.0) == Moderate
  {
  }

  /** Ties go to the pillar declared first. */
  lemma TiesGoToFirstPillar(x: real)
    ensures PriorityFocus([(PROCESS, x), (PEOPLE, x), (TECHNOLOGY, x)]).0 == PROCESS
  {
  }

  /** With no answers every pillar scores 0 percent. */
  lemma PillarPercentageNoResponses(cat: Catalog, pillar: Pillar)
    ensures PillarPercentage(cat, pillar, map[]) == 0.0
  {
    PillarPointsNoResponses(QuestionsFor(cat, pillar));
  }

  /** An empty response set scores 0 overall, in the 0-40 band, with PROCESS as priority. */
  lemma NoResponsesScenario(cat: Catalog)
    ensures OverallPercentage(cat, map[]) == 0.0
    ensures InterpretBand(OverallPercentage(cat, map[])) == UpTo40
    ensures OverallMessage(OverallPercentage(cat, map[])) == Critical
    ensures PriorityFocus([
      (PROCESS, PillarPercentage(cat, PROCESS, map[])),
      (PEOPLE, PillarPercentage(cat, PEOPLE, map[])),
      (TECHNOLOGY, PillarPercentage(cat, TECHNOLOGY, map[]))]).0 == PROCESS
  {
    PillarPercentageNoResponses(cat, PROCESS);
    PillarPercentageNoResponses(cat, PEOPLE);
    PillarPercentageNoResponses(cat, TECHNOLOGY);
    TiesGoToFirstPillar(0.0);
  }

  /** A pillar with questions, all answered with full marks, scores 100 percent. */
  lemma PillarPercentageAllMax(cat: Catalog, pillar: Pillar, responses: Responses)
    requires |QuestionsFor(cat, pillar)| > 0
    requires forall i :: 0 <= i < |QuestionsFor(cat, pillar)| ==> AnsweredWithMax(QuestionsFor(cat, pillar)[i], responses)
    ensures PillarPercentage(cat, pillar, responses) == 100.0
  {
    var qs := QuestionsFor(cat, pillar);
    PillarPointsAllMax(qs, responses);
    var m := MaxPoints(qs) as real;
    assert PillarPoints(qs, responses) as real / m == 1.0;
  }

  /** Full marks everywhere score 100 overall, in the 81-100 band, and message BEST-IN-CLASS. */
  lemma AllMaxScenario(cat: Catalog, responses: Responses)
    requires |cat.process| > 0 && |cat.people| > 0 && |cat.technology| > 0
    requires forall i :: 0 <= i < |cat.process| ==> AnsweredWithMax(cat.process[i], responses)
    requires forall i :: 0 <= i < |cat.people| ==> AnsweredWithMax(cat.people[i], responses)
    requires forall i :: 0 <= i < |cat.technology| ==> AnsweredWithMax(cat.technology[i], responses)
    ensures OverallPercentage(cat, responses) == 100.0
    ensures InterpretBand(OverallPercentage(cat, responses)) == Above80
    ensures OverallMessage(OverallPercentage(cat, responses)) == BestInClass
  {
    PillarPercentageAllMax(cat, PROCESS, responses);
    PillarPercentageAllMax(cat, PEOPLE, responses);
    PillarPercentageAllMax(cat, TECHNOLOGY, responses);
  }
}
