/** The six-category score (scoring/v1.py), over exact reals. */
module Score {
  import opened Wrappers
  import opened Contracts

  const CATEGORY_ORDER: seq<Category> := [Documentation, Activity, Issues, Cicd, Security, CodeHealth]

  const CATEGORY_NAMES: set<string> := {"Documentation", "Activity", "Issues", "CI/CD", "Security", "Code Health"}

  function Name(c: Category): string {
    match c
    case Documentation => "Documentation"
    case Activity => "Activity"
    case Issues => "Issues"
    case Cicd => "CI/CD"
    case Security => "Security"
    case CodeHealth => "Code Health"
  }

  datatype Policy = Policy(
    weights: map<string, real>,
    minimumScoreCategories: int,
    minimumProvisionalCategories: int,
    scoreK: real,
    provisionalK: real)
  {
    /** What `__post_init__` accepts. */
    predicate Accepted() {
      && 1 <= minimumScoreCategories <= |CATEGORY_ORDER|
      && 1 <= minimumProvisionalCategories <= minimumScoreCategories
      && 0.0 < provisionalK <= scoreK <= 1.0
    }
  }

  datatype Coverage = Coverage(covered: nat, total: nat, coveredWeight: Option<real>, totalWeight: Option<real>)

  /** The fields of a category result that the engine reads. */
  datatype Measured = Measured(
    status: CategoryStatus,
    score: Option<real>,
    coverage: Coverage,
    confidence: real,
    signals: map<string, nat>)

  datatype ScoreInput = ScoreInput(
    documentation: Option<Measured>, activity: Option<Measured>, issues: Option<Measured>,
    cicd: Option<Measured>, security: Option<Measured>, codeHealth: Option<Measured>)
  {
    function Get(c: Category): Option<Measured> {
      match c
      case Documentation => documentation
      case Activity => activity
      case Issues => issues
      case Cicd => cicd
      case Security => security
      case CodeHealth => codeHealth
    }
  }

  datatype Presentation = INSUFFICIENT_DATA | PROVISIONAL_SCORE | SCORE

  datatype ScoreStatus = SCORE_PASS | SCORE_WARN | SCORE_FAIL | SCORE_INCONCLUSIVE

  datatype Scored = Scored(
    overall: Option<real>,
    beforeCaps: Option<real>,
    presentation: Presentation,
    coverageK: real,
    evidenceCoverage: real,
    confidence: real,
    capApplied: bool,
    status: ScoreStatus)

  // ---- Reading one category ----

  function Bounded(x: real): real {
    if x < 0.0 then 0.0 else if x > 1.0 then 1.0 else x
  }

  function CoverageRatio(r: Measured): real {
    if r.coverage.totalWeight.Some? && r.coverage.totalWeight.value != 0.0 && r.coverage.coveredWeight.Some? then
      r.coverage.coveredWeight.value / r.coverage.totalWeight.value
    else if r.coverage.total != 0 then r.coverage.covered as real / r.coverage.total as real
    else if r.score.Some? then 1.0 else 0.0
  }

  /** The number a category contributes, if it is measurable. */
  function Value(r: Option<Measured>): Option<real> {
    if r.None? || r.value.status in {SKIPPED, ERROR, INCONCLUSIVE} then None
    else if r.value.score.Some? && 0.0 <= r.value.score.value <= 100.0 then r.value.score
    else None
  }

  function CoverageOf(r: Option<Measured>): real {
    if r.None? then 0.0 else Bounded(CoverageRatio(r.value))
  }

  function ConfidenceOf(r: Option<Measured>): real {
    if r.None? then 0.0 else Bounded(r.value.confidence)
  }

  function Quality(r: Option<Measured>): real {
    if Value(r).Some? then CoverageOf(r) * ConfidenceOf(r) else 0.0
  }

  // ---- Sums over the categories ----

  function Sum(cs: seq<Category>, f: Category -> real): real {
    if cs == [] then 0.0 else Sum(cs[..|cs| - 1], f) + f(cs[|cs| - 1])
  }

  function Total(f: Category -> real): real {
    Sum(CATEGORY_ORDER, f)
  }

  // ---- Weights ----

  function Raw(policy: Policy, c: Category): real {
    if Name(c) in policy.weights && policy.weights[Name(c)] > 0.0 then policy.weights[Name(c)] else 0.0
  }

  function RawWeights(policy: Policy): Category -> real {
    (c: Category) => Raw(policy, c)
  }

  function RawTotal(policy: Policy): real {
    Total(RawWeights(policy))
  }

  /** When `normalized_weights` does not raise. */
  predicate Usable(policy: Policy) {
    && (forall name :: name in policy.weights ==> name in CATEGORY_NAMES)
    && RawTotal(policy) > 0.0
  }

  function Weight(policy: Policy, c: Category): real
    requires RawTotal(policy) > 0.0
  {
    Raw(policy, c) / RawTotal(policy)
  }

  // ---- The formula ----

  predicate IsNumeric(input: ScoreInput, c: Category) {
    Value(input.Get(c)).Some?
  }

  function NumericCount(cs: seq<Category>, input: ScoreInput): nat {
    if cs == [] then 0
    else NumericCount(cs[..|cs| - 1], input) + (if IsNumeric(input, cs[|cs| - 1]) then 1 else 0)
  }

  // The per-category terms of the sums, as functions of the category.

  function WeightTerm(policy: Policy, input: ScoreInput): Category -> real
    requires RawTotal(policy) > 0.0
  {
    (c: Category) => if IsNumeric(input, c) then Weight(policy, c) else 0.0
  }

  function PointsTerm(policy: Policy, input: ScoreInput): Category -> real
    requires RawTotal(policy) > 0.0
  {
    (c: Category) => if IsNumeric(input, c) then Weight(policy, c) * Value(input.Get(c)).value else 0.0
  }

  function QualityTerm(policy: Policy, input: ScoreInput): Category -> real
    requires RawTotal(policy) > 0.0
  {
    (c: Category) => Weight(policy, c) * Quality(input.Get(c))
  }

  function CoverageTerm(policy: Policy, input: ScoreInput): Category -> real
    requires RawTotal(policy) > 0.0
  {
    (c: Category) => Weight(policy, c) * CoverageOf(input.Get(c))
  }

  function ConfidenceTerm(policy: Policy, input: ScoreInput): Category -> real
    requires RawTotal(policy) > 0.0
  {
    (c: Category) => Weight(policy, c) * ConfidenceOf(input.Get(c))
  }

  function Available(policy: Policy, input: ScoreInput): real
    requires RawTotal(policy) > 0.0
  {
    Total(WeightTerm(policy, input))
  }

  function Points(policy: Policy, input: ScoreInput): real
    requires RawTotal(policy) > 0.0
  {
    Total(PointsTerm(policy, input))
  }

  /** The weighted mean of the measurable categories. */
  function Mean(policy: Policy, input: ScoreInput): Option<real>
    requires RawTotal(policy) > 0.0
  {
    if Available(policy, input) == 0.0 then None else Some(Points(policy, input) / Available(policy, input))
  }

  function CoverageK(policy: Policy, input: ScoreInput): real
    requires RawTotal(policy) > 0.0
  {
    Total(QualityTerm(policy, input))
  }

  function EvidenceCoverage(policy: Policy, input: ScoreInput): real
    requires RawTotal(policy) > 0.0
  {
    Total(CoverageTerm(policy, input))
  }

  function Confidence(policy: Policy, input: ScoreInput): real
    requires RawTotal(policy) > 0.0
  {
    Total(ConfidenceTerm(policy, input))
  }

  function Present(policy: Policy, numeric: nat, k: real): Presentation {
    if numeric >= policy.minimumScoreCategories && k >= policy.scoreK then SCORE
    else if numeric >= policy.minimumProvisionalCategories && k >= policy.provisionalK then PROVISIONAL_SCORE
    else INSUFFICIENT_DATA
  }

  predicate Signalled(r: Option<Measured>, signal: string) {
    r.Some? && signal in r.value.signals && r.value.signals[signal] > 0
  }

  /** `_security_cap`; severe marks a confirmed secret or critical finding. */
  function SecurityCap(r: Option<Measured>): Option<(real, bool)> {
    if Signalled(r, "confirmed_secret_count") || Signalled(r, "secret_findings") then Some((40.0, true))
    else if Signalled(r, "critical_findings") then Some((40.0, true))
    else if Signalled(r, "high_findings") then Some((60.0, false))
    else None
  }

  function Capped(mean: Option<real>, cap: Option<(real, bool)>): Option<real> {
    if mean.Some? && cap.Some? && mean.value > cap.value.0 then Some(cap.value.0) else mean
  }

  function StatusOf(presentation: Presentation, cap: Option<(real, bool)>, capApplied: bool,
                    numeric: nat): ScoreStatus {
    if presentation == INSUFFICIENT_DATA then SCORE_INCONCLUSIVE
    else if cap.Some? && cap.value.1 then SCORE_FAIL
    else if presentation == PROVISIONAL_SCORE || capApplied || numeric < |CATEGORY_ORDER| then SCORE_WARN
    else SCORE_PASS
  }

  function ScoreOf(policy: Policy, input: ScoreInput): Scored
    requires RawTotal(policy) > 0.0
  {
    var mean, cap := Mean(policy, input), SecurityCap(input.security);
    var k, numeric := CoverageK(policy, input), NumericCount(CATEGORY_ORDER, input);
    var presentation := Present(policy, numeric, k);
    var capApplied := Capped(mean, cap) != mean;
    Scored(if presentation == INSUFFICIENT_DATA then None else Capped(mean, cap),
           mean, presentation, Bounded(k), Bounded(EvidenceCoverage(policy, input)), Bounded(Confidence(policy, input)),
           capApplied, StatusOf(presentation, cap, capApplied, numeric))
  }

  /** The running sums of the engine's pass over the categories. */
  datatype Tally = Tally(numeric: nat, available: real, points: real, k: real, evidence: real, confidence: real)

  ghost function TallyOf(policy: Policy, input: ScoreInput, cs: seq<Category>): Tally
    requires RawTotal(policy) > 0.0
  {
    Tally(NumericCount(cs, input), Sum(cs, WeightTerm(policy, input)), Sum(cs, PointsTerm(policy, input)),
          Sum(cs, QualityTerm(policy, input)), Sum(cs, CoverageTerm(policy, input)),
          Sum(cs, ConfidenceTerm(policy, input)))
  }

  lemma SumSnoc(cs: seq<Category>, c: Category, f: Category -> real)
    ensures Sum(cs + [c], f) == Sum(cs, f) + f(c)
  {
    assert (cs + [c])[..|cs|] == cs;
  }

  /** One more category adds its terms to the sums. */
  lemma TallyGrows(policy: Policy, input: ScoreInput, cs: seq<Category>, c: Category)
    requires RawTotal(policy) > 0.0
    ensures var t, u := TallyOf(policy, input, cs), TallyOf(policy, input, cs + [c]);
            && u.numeric == t.numeric + (if Value(input.Get(c)).Some? then 1 else 0)
            && u.available == t.available + WeightTerm(policy, input)(c)
            && u.points == t.points + PointsTerm(policy, input)(c)
            && u.k == t.k + QualityTerm(policy, input)(c)
            && u.evidence == t.evidence + CoverageTerm(policy, input)(c)
            && u.confidence == t.confidence + ConfidenceTerm(policy, input)(c)
  {
    hide Sum, Weight, RawTotal, Quality, CoverageOf, ConfidenceOf, Value, WeightTerm, PointsTerm, QualityTerm,
         CoverageTerm, ConfidenceTerm;
    SumSnoc(cs, c, WeightTerm(policy, input));
    SumSnoc(cs, c, PointsTerm(policy, input));
    SumSnoc(cs, c, QualityTerm(policy, input));
    SumSnoc(cs, c, CoverageTerm(policy, input));
    SumSnoc(cs, c, ConfidenceTerm(policy, input));
    assert (cs + [c])[..|cs|] == cs;
  }

  method TallyCategories(policy: Policy, input: ScoreInput, order: seq<Category>) returns (t: Tally)
    requires RawTotal(policy) > 0.0
    ensures t == TallyOf(policy, input, order)
  {
    hide Weight, RawTotal, Quality, CoverageOf, ConfidenceOf, Value, Sum, NumericCount, TallyOf;
    t := Tally(0, 0.0, 0.0, 0.0, 0.0, 0.0);
    NothingTallied(policy, input);
    for i := 0 to |order|
      invariant t == TallyOf(policy, input, order[..i])
    {
      var category := order[i];
      TallyGrows(policy, input, order[..i], category);
      assert order[..i + 1] == order[..i] + [category];
      var result, weight := input.Get(category), Weight(policy, category);
      var value := Value(result);
      if value.Some? {
        t := t.(numeric := t.numeric + 1, available := t.available + weight, points := t.points + weight * value.value);
      }
      t := t.(k := t.k + weight * Quality(result),
              evidence := t.evidence + weight * CoverageOf(result),
              confidence := t.confidence + weight * ConfidenceOf(result));
    }
    assert order[..|order|] == order;
  }

  lemma NothingTallied(policy: Policy, input: ScoreInput)
    requires RawTotal(policy) > 0.0
    ensures TallyOf(policy, input, []) == Tally(0, 0.0, 0.0, 0.0, 0.0, 0.0)
  {
    hide RawTotal;
  }

  /** `ScoreEngineV1.score`: the pass over the categories, then the arithmetic on its sums. */
  method ScoreEngine(policy: Policy, input: ScoreInput) returns (r: Result<Scored>)
    ensures r.Err? <==> !Usable(policy)
    ensures r.Ok? ==> r.value == ScoreOf(policy, input)
  {
    hide Sum, NumericCount, Weight, Quality, CoverageOf, ConfidenceOf, Value, SecurityCap;
    if exists name :: name in policy.weights && name !in CATEGORY_NAMES {
      return Err(ValueError);
    }
    if RawTotal(policy) <= 0.0 { return Err(ValueError); }
    var t := TallyCategories(policy, input, CATEGORY_ORDER);
    var raw := if t.available == 0.0 then None else Some(t.points / t.available);
    var presentation := Present(policy, t.numeric, t.k);
    var cap := SecurityCap(input.security);
    var afterCap, capApplied := raw, false;
    if raw.Some? && cap.Some? && raw.value > cap.value.0 {
      afterCap, capApplied := Some(cap.value.0), true;
    }
    if presentation == INSUFFICIENT_DATA { afterCap := None; }
    r := Ok(Scored(afterCap, raw, presentation, Bounded(t.k), Bounded(t.evidence), Bounded(t.confidence),
                   capApplied, StatusOf(presentation, cap, capApplied, t.numeric)));
  }
}
