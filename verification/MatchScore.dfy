/** Score arithmetic of the matcher (app/llm/matcher.py), over the reals. */
module MatchScore {

  const DEAL_BREAKER_SCORE_CAP := 40
  const HARD_SKILL_MISS_CAP := 25
  const CONSERVATIVE_SALARY_SCORE_CAP := 0.5

  /** The six dimensions, raw from the model or already validated. */
  datatype Dimensions = Dimensions(
    skillMatch: real,
    salaryFit: real,
    seniorityFit: real,
    workModeLocation: real,
    contractType: real,
    redFlags: real)

  function Min(a: int, b: int): int { if a <= b then a else b }

  /** The validator `_clamp_to_unit_interval`. */
  function Clamp(x: real): real {
    if x < 0.0 then 0.0 else if x > 1.0 then 1.0 else x
  }

  function Clamped(d: Dimensions): Dimensions {
    Dimensions(Clamp(d.skillMatch), Clamp(d.salaryFit), Clamp(d.seniorityFit),
               Clamp(d.workModeLocation), Clamp(d.contractType), Clamp(d.redFlags))
  }

  predicate InUnit(d: Dimensions) {
    && 0.0 <= d.skillMatch <= 1.0
    && 0.0 <= d.salaryFit <= 1.0
    && 0.0 <= d.seniorityFit <= 1.0
    && 0.0 <= d.workModeLocation <= 1.0
    && 0.0 <= d.contractType <= 1.0
    && 0.0 <= d.redFlags <= 1.0
  }

  function WeightedTotal(d: Dimensions): real {
    0.30 * d.skillMatch + 0.25 * d.salaryFit + 0.15 * d.seniorityFit
    + 0.15 * d.workModeLocation + 0.10 * d.contractType + 0.05 * d.redFlags
  }

  /** Python's `round`: to the nearest integer, ties to the even one. */
  function Round(x: real): int {
    var below := x.Floor;
    var part := x - below as real;
    if part < 0.5 then below
    else if part > 0.5 then below + 1
    else if below % 2 == 0 then below
    else below + 1
  }

  /** The output after the missing-salary rule; `salaryKnown` when the profile states a minimum or
      a target. */
  function Conservative(d: Dimensions, salaryKnown: bool): Dimensions {
    if salaryKnown || d.salaryFit <= CONSERVATIVE_SALARY_SCORE_CAP then d
    else d.(salaryFit := CONSERVATIVE_SALARY_SCORE_CAP)
  }

  /** The percentage before any cap. */
  function PreCap(raw: Dimensions, salaryKnown: bool): int {
    Round(WeightedTotal(Conservative(Clamped(raw), salaryKnown)) * 100.0)
  }

  /** The smallest of the score and the caps that apply. */
  function Capped(score: int, dealBreaker: bool, hardSkillMissing: bool): int {
    if hardSkillMissing then Min(score, HARD_SKILL_MISS_CAP)
    else if dealBreaker then Min(score, DEAL_BREAKER_SCORE_CAP)
    else score
  }

  /** The structured output object, whose fields the matcher updates in place. */
  class MatcherOutput {
    var dimensions: Dimensions

    constructor (raw: Dimensions)
      ensures dimensions == Clamped(raw)
    {
      dimensions := Clamped(raw);
    }

    method ApplyMissingSalaryConservatism(salaryMin: bool, salaryTarget: bool)
      modifies this
      ensures dimensions == Conservative(old(dimensions), salaryMin || salaryTarget)
    {
      if !salaryMin && !salaryTarget {
        var fit := dimensions.salaryFit;
        dimensions := dimensions.(salaryFit := if CONSERVATIVE_SALARY_SCORE_CAP < fit then CONSERVATIVE_SALARY_SCORE_CAP else fit);
      }
    }
  }

  /** `_score_offer` once the model has answered. */
  method ScorePercent(raw: Dimensions, salaryMin: bool, salaryTarget: bool, dealBreaker: bool, hardSkillMissing: bool)
    returns (score: int)
    ensures score == Capped(PreCap(raw, salaryMin || salaryTarget), dealBreaker, hardSkillMissing)
    ensures 0 <= score <= 100
  {
    var output := new MatcherOutput(raw);
    output.ApplyMissingSalaryConservatism(salaryMin, salaryTarget);
    score := Round(WeightedTotal(output.dimensions) * 100.0);
    ScoreInRange(raw, salaryMin || salaryTarget, dealBreaker, hardSkillMissing);
    if dealBreaker { score := Min(score, DEAL_BREAKER_SCORE_CAP); }
    if hardSkillMissing { score := Min(score, HARD_SKILL_MISS_CAP); }
  }

  /** Rounding moves by at most a half, and by exactly a half only to an even integer. */
  lemma RoundNearest(x: real)
    ensures -0.5 <= Round(x) as real - x <= 0.5
    ensures Round(x) as real - x == 0.5 || Round(x) as real - x == -0.5 ==> Round(x) % 2 == 0
  {
  }

  lemma RoundMonotone(x: real, y: real)
    requires x <= y
    ensures Round(x) <= Round(y)
  {
    assert x.Floor <= y.Floor;
    if x.Floor < y.Floor {
      assert Round(x) <= x.Floor + 1;
    }
  }

  lemma RoundBetween(x: real, lo: int, hi: int)
    requires lo as real <= x <= hi as real
    ensures lo <= Round(x) <= hi
  {
    RoundMonotone(lo as real, x);
    RoundMonotone(x, hi as real);
    assert (lo as real).Floor == lo && (hi as real).Floor == hi;
  }

  /** For any raw answer of the model the final score is an integer percentage. */
  lemma ScoreInRange(raw: Dimensions, salaryKnown: bool, dealBreaker: bool, hardSkillMissing: bool)
    ensures 0 <= PreCap(raw, salaryKnown) <= 100
    ensures 0 <= Capped(PreCap(raw, salaryKnown), dealBreaker, hardSkillMissing) <= 100
  {
    var d := Conservative(Clamped(raw), salaryKnown);
    assert InUnit(d);
    RoundBetween(WeightedTotal(d) * 100.0, 0, 100);
  }

  predicate AtMost(a: Dimensions, b: Dimensions) {
    && a.skillMatch <= b.skillMatch
    && a.salaryFit <= b.salaryFit
    && a.seniorityFit <= b.seniorityFit
    && a.workModeLocation <= b.workModeLocation
    && a.contractType <= b.contractType
    && a.redFlags <= b.redFlags
  }

  lemma ConservativeMonotone(a: Dimensions, b: Dimensions, salaryKnown: bool)
    requires AtMost(a, b)
    ensures AtMost(Conservative(Clamped(a), salaryKnown), Conservative(Clamped(b), salaryKnown))
  {
  }

  lemma TotalMonotone(a: Dimensions, b: Dimensions)
    requires AtMost(a, b)
    ensures WeightedTotal(a) <= WeightedTotal(b)
  {
  }

  /** The dimensions raised by the same fraction of a second answer. */
  function Shifted(d: Dimensions, part: real, e: Dimensions): Dimensions {
    Dimensions(d.skillMatch + part * e.skillMatch, d.salaryFit + part * e.salaryFit, d.seniorityFit + part * e.seniorityFit,
               d.workModeLocation + part * e.workModeLocation, d.contractType + part * e.contractType, d.redFlags + part * e.redFlags)
  }

  /** The total is linear in the six dimensions. */
  lemma TotalIsLinear(d: Dimensions, part: real, e: Dimensions)
    ensures WeightedTotal(Shifted(d, part, e)) == WeightedTotal(d) + part * WeightedTotal(e)
  {
    var t := WeightedTotal(e);
    assert part * t == 0.30 * (part * e.skillMatch) + 0.25 * (part * e.salaryFit) + 0.15 * (part * e.seniorityFit)
                     + 0.15 * (part * e.workModeLocation) + 0.10 * (part * e.contractType) + 0.05 * (part * e.redFlags);
  }

  /** What each dimension is worth, alone at its best: 30, 25, 15, 15, 10 and 5 percent. The total being
      linear, these determine it. */
  lemma WeightOfEachDimension()
    ensures WeightedTotal(Dimensions(1.0, 0.0, 0.0, 0.0, 0.0, 0.0)) * 100.0 == 30.0
    ensures WeightedTotal(Dimensions(0.0, 1.0, 0.0, 0.0, 0.0, 0.0)) * 100.0 == 25.0
    ensures WeightedTotal(Dimensions(0.0, 0.0, 1.0, 0.0, 0.0, 0.0)) * 100.0 == 15.0
    ensures WeightedTotal(Dimensions(0.0, 0.0, 0.0, 1.0, 0.0, 0.0)) * 100.0 == 15.0
    ensures WeightedTotal(Dimensions(0.0, 0.0, 0.0, 0.0, 1.0, 0.0)) * 100.0 == 10.0
    ensures WeightedTotal(Dimensions(0.0, 0.0, 0.0, 0.0, 0.0, 1.0)) * 100.0 == 5.0
  {
  }

  lemma PerfectScore()
    ensures PreCap(Dimensions(1.0, 1.0, 1.0, 1.0, 1.0, 1.0), true) == 100
  {
    var d := Dimensions(1.0, 1.0, 1.0, 1.0, 1.0, 1.0);
    assert Conservative(Clamped(d), true) == d;
    assert WeightedTotal(d) * 100.0 == 100.0;
    assert (100.0).Floor == 100;
  }

  /** Raising any dimension never lowers the final score. */
  lemma ScoreMonotone(a: Dimensions, b: Dimensions, salaryKnown: bool, dealBreaker: bool, hardSkillMissing: bool)
    requires AtMost(a, b)
    ensures Capped(PreCap(a, salaryKnown), dealBreaker, hardSkillMissing)
         <= Capped(PreCap(b, salaryKnown), dealBreaker, hardSkillMissing)
  {
    var x, y := Conservative(Clamped(a), salaryKnown), Conservative(Clamped(b), salaryKnown);
    ConservativeMonotone(a, b, salaryKnown);
    TotalMonotone(x, y);
    RoundMonotone(WeightedTotal(x) * 100.0, WeightedTotal(y) * 100.0);
  }

  /** The caps may be applied in either order: the result is the least of the score and every cap
      that applies, 40 for a deal breaker and 25 for a missing hard skill. */
  lemma CapsCommute(score: int, dealBreaker: bool, hardSkillMissing: bool)
    ensures var dealFirst := if dealBreaker then Min(score, 40) else score;
            var both := if hardSkillMissing then Min(dealFirst, 25) else dealFirst;
            var skillFirst := if hardSkillMissing then Min(score, 25) else score;
            var other := if dealBreaker then Min(skillFirst, 40) else skillFirst;
            && both == other == Capped(score, dealBreaker, hardSkillMissing)
            && both <= score
            && (dealBreaker ==> both <= 40)
            && (hardSkillMissing ==> both <= 25)
            && (both == score || (dealBreaker && both == 40) || (hardSkillMissing && both == 25))
  {
  }

  /** Answers within bounds are taken as they are; others count as the nearest bound. */
  lemma ClampNearest(x: real, y: real)
    requires 0.0 <= y <= 1.0
    ensures 0.0 <= Clamp(x) <= 1.0 && Clamp(y) == y
    ensures x <= Clamp(x) <= y || y <= Clamp(x) <= x
  {
  }

  /** The missing-salary rule never raises the score and costs at most 13 points. */
  lemma SalaryRuleCost(raw: Dimensions)
    ensures PreCap(raw, true) - 13 <= PreCap(raw, false) <= PreCap(raw, true)
  {
    var d := Clamped(raw);
    var e := Conservative(d, false);
    assert d.salaryFit - 0.5 <= e.salaryFit <= d.salaryFit;
    var x, y := WeightedTotal(d) * 100.0, WeightedTotal(e) * 100.0;
    assert x - 12.5 <= y <= x;
    RoundMonotone(y, x);
    RoundNearest(x);
    RoundNearest(y);
  }

  /** Thirteen is reached: with full salary fit and a total of 25.5 the rule gives 13 instead of 26. */
  lemma SalaryRuleCostIsTight()
    ensures var raw := Dimensions(0.0, 1.0, 0.0, 0.0, 0.0, 0.1);
            PreCap(raw, true) == 26 && PreCap(raw, false) == 13
  {
    var raw := Dimensions(0.0, 1.0, 0.0, 0.0, 0.0, 0.1);
    assert WeightedTotal(Conservative(Clamped(raw), true)) * 100.0 == 25.5;
    assert WeightedTotal(Conservative(Clamped(raw), false)) * 100.0 == 13.0;
    assert (25.5).Floor == 25 && (13.0).Floor == 13;
  }
}
