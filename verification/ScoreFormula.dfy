/** What a score is, field by field: weights by name, sums over the six fields, counts as cardinalities. */
module ScoreFormula {
  import opened Wrappers
  import opened Contracts
  import opened Score
  import opened RealArithmetic
  import opened ScoreProperties

  // ---- One category ----

  /** A result that counts: not skipped, failed or inconclusive, with a score in range. */
  ghost predicate Measurable(r: Option<Measured>) {
    && r.Some? && r.value.status != SKIPPED && r.value.status != CategoryStatus.ERROR && r.value.status != INCONCLUSIVE
    && r.value.score.Some? && 0.0 <= r.value.score.value && r.value.score.value <= 100.0
  }

  ghost function Measurables(input: ScoreInput): set<Category> {
    set c: Category | Measurable(input.Get(c))
  }

  lemma NumericIsMeasurable(input: ScoreInput, c: Category)
    ensures IsNumeric(input, c) <==> Measurable(input.Get(c))
    ensures Measurable(input.Get(c)) ==> input.Get(c).Some? && Value(input.Get(c)) == input.Get(c).value.score
  {}

  /** A number between 0 and 1, namely x where x is one. */
  ghost predicate Bounds(x: real, b: real) {
    (x <= 0.0 && b == 0.0) || (0.0 <= x <= 1.0 && b == x) || (1.0 <= x && b == 1.0)
  }

  /** The coverage of a category is the covered share, by weight where there are weights and by count otherwise,
      kept within [0, 1]; without a denominator a scored category is covered and an unscored one is not. */
  lemma CoverageReadings(r: Measured)
    ensures var x, coverage := CoverageOf(Some(r)), r.coverage;
            if coverage.totalWeight.Some? && coverage.totalWeight.value != 0.0 && coverage.coveredWeight.Some? then
              exists q: real :: q * coverage.totalWeight.value == coverage.coveredWeight.value && Bounds(q, x)
            else if coverage.total > 0 then
              x * coverage.total as real ==
                (if coverage.covered <= coverage.total then coverage.covered else coverage.total) as real
            else x == (if r.score.Some? then 1.0 else 0.0)
    ensures Bounds(r.confidence, ConfidenceOf(Some(r)))
    ensures CoverageOf(None) == 0.0 && ConfidenceOf(None) == 0.0
  {
    var coverage := r.coverage;
    if coverage.totalWeight.Some? && coverage.totalWeight.value != 0.0 && coverage.coveredWeight.Some? {
      var q := coverage.coveredWeight.value / coverage.totalWeight.value;
      assert q * coverage.totalWeight.value == coverage.coveredWeight.value && Bounds(q, CoverageOf(Some(r)));
    } else if coverage.total > 0 {
      CountShare(coverage.covered, coverage.total);
    }
  }

  lemma ShareBounds(c: real, t: real)
    requires 0.0 <= c && 0.0 < t
    ensures (c / t) * t == c && 0.0 <= c / t
    ensures c <= t ==> c / t <= 1.0
    ensures t <= c ==> 1.0 <= c / t
  {
    var q := c / t;
    assert q * t == c by { DivideBack(c, t); }
    QuotientBounds(c, t, 0.0, q);
    if c <= t { QuotientBounds(c, t, 0.0, 1.0); }
    if t <= c { QuotientBounds(c, t, 1.0, q); }
  }

  lemma CountShare(covered: nat, total: nat)
    requires total > 0
    ensures Bounded(covered as real / total as real) * total as real ==
            (if covered <= total then covered else total) as real
  {
    ShareBounds(covered as real, total as real);
  }

  // ---- How many categories, and how good ----

  lemma {:induction false} CountIsCardinality(cs: seq<Category>, input: ScoreInput)
    requires forall i, j :: 0 <= i < j < |cs| ==> cs[i] != cs[j]
    ensures NumericCount(cs, input) == |set c | c in cs && Measurable(input.Get(c))|
  {
    hide Measurable, Value;
    if cs == [] {
      assert (set c | c in cs && Measurable(input.Get(c))) == {};
    } else {
      var rest, last := cs[..|cs| - 1], cs[|cs| - 1];
      CountIsCardinality(rest, input);
      NumericIsMeasurable(input, last);
      assert cs == rest + [last] && last !in rest;
      var before := set c | c in rest && Measurable(input.Get(c));
      assert (set c | c in cs && Measurable(input.Get(c))) ==
        if Measurable(input.Get(last)) then before + {last} else before;
    }
  }

  lemma NumericCountIs(input: ScoreInput)
    ensures NumericCount(CATEGORY_ORDER, input) == |Measurables(input)| && |Measurables(input)| <= 6
    ensures |Measurables(input)| == 6 <==> forall c: Category :: Measurable(input.Get(c))
  {
    hide Measurable, Value;
    CountIsCardinality(CATEGORY_ORDER, input);
    CountBound(CATEGORY_ORDER, input);
    forall c: Category ensures c in CATEGORY_ORDER && (IsNumeric(input, c) <==> Measurable(input.Get(c))) {
      AllCategories(c);
      NumericIsMeasurable(input, c);
    }
    assert (set c | c in CATEGORY_ORDER && Measurable(input.Get(c))) == Measurables(input);
  }

  /** What is presented: a score exactly when enough categories are measurable and K is high enough for one, and
      nothing exactly when one of them is too low even for a provisional score. */
  lemma PresentationThresholds(policy: Policy, input: ScoreInput)
    requires policy.Accepted() && RawTotal(policy) > 0.0
    ensures var s, n := ScoreOf(policy, input), |Measurables(input)|;
            && (s.presentation == SCORE <==> n >= policy.minimumScoreCategories && s.coverageK >= policy.scoreK)
            && (s.presentation == INSUFFICIENT_DATA <==>
                  n < policy.minimumProvisionalCategories || s.coverageK < policy.provisionalK)
            && s.coverageK == CoverageK(policy, input)
  {
    hide NumericCount, CATEGORY_ORDER, CoverageK, EvidenceCoverage, Confidence, Mean, SecurityCap, Measurables;
    NumericCountIs(input);
    CoverageKBounds(policy, input);
  }

  // ---- Caps and status ----

  /** The security result counts findings under one of the signals. */
  ghost predicate Counts(security: Option<Measured>, signals: set<string>) {
    security.Some? && exists signal :: signal in signals && signal in security.value.signals
                                       && security.value.signals[signal] != 0
  }

  ghost predicate CountsSevere(security: Option<Measured>) {
    Counts(security, {"confirmed_secret_count", "secret_findings", "critical_findings"})
  }

  /** The overall score is the mean, limited to 40 by secrets and critical findings and to 60 by high findings; a
      limit that lowers it is reported. The status is the first of inconclusive, failed and warned that applies. */
  lemma CapsAndStatus(policy: Policy, input: ScoreInput)
    requires policy.Accepted() && RawTotal(policy) > 0.0
    ensures var s, mean := ScoreOf(policy, input), Mean(policy, input);
            && s.beforeCaps == mean
            && (mean.Some? ==>
                  var limited := if CountsSevere(input.security) then (if mean.value < 40.0 then mean.value else 40.0)
                                 else if Counts(input.security, {"high_findings"})
                                 then (if mean.value < 60.0 then mean.value else 60.0) else mean.value;
                  && (s.overall == if s.presentation == INSUFFICIENT_DATA then None else Some(limited))
                  && (s.capApplied <==> limited < mean.value))
            && (s.status == SCORE_INCONCLUSIVE <==> s.presentation == INSUFFICIENT_DATA)
            && (s.status == SCORE_FAIL <==> s.presentation != INSUFFICIENT_DATA && CountsSevere(input.security))
            && (s.status == SCORE_PASS <==> s.presentation == SCORE && !CountsSevere(input.security) && !s.capApplied
                                            && forall c: Category :: Measurable(input.Get(c)))
            && (s.presentation != INSUFFICIENT_DATA ==> mean.Some?)
            && (mean.None? ==> !s.capApplied)
  {
    hide NumericCount, CATEGORY_ORDER, CoverageK, EvidenceCoverage, Confidence, Mean, SecurityCap, Measurables,
         Measurable, Signalled, Counts;
    NumericCountIs(input);
    ScoreWellDefined(policy, input);
    Limits(input.security);
    assert |CATEGORY_ORDER| == 6 by { OrderLength(); }
  }

  lemma OrderLength()
    ensures |CATEGORY_ORDER| == 6
  {}

  lemma Limits(security: Option<Measured>)
    ensures SecurityCap(security) == if CountsSevere(security) then Some((40.0, true))
                                     else if Counts(security, {"high_findings"}) then Some((60.0, false)) else None
  {}

  // ---- The formula ----

  /** The weight the policy gives a name; negative weights count as none. */
  ghost function Given(policy: Policy, name: string): real {
    if name in policy.weights && 0.0 < policy.weights[name] then policy.weights[name] else 0.0
  }

  /** The six categories' terms, each under its weight's name and its field. */
  ghost function Weighted6(policy: Policy, input: ScoreInput, term: Option<Measured> -> real): real {
    Given(policy, "Documentation") * term(input.documentation) + Given(policy, "Activity") * term(input.activity)
    + Given(policy, "Issues") * term(input.issues) + Given(policy, "CI/CD") * term(input.cicd)
    + Given(policy, "Security") * term(input.security) + Given(policy, "Code Health") * term(input.codeHealth)
  }

  ghost function One(): Option<Measured> -> real { (r: Option<Measured>) => 1.0 }

  ghost function IfMeasurable(): Option<Measured> -> real {
    (r: Option<Measured>) => if Measurable(r) then 1.0 else 0.0
  }

  ghost function ScoreIfMeasurable(): Option<Measured> -> real {
    (r: Option<Measured>) => if Measurable(r) then r.value.score.value else 0.0
  }

  ghost function QualityIfMeasurable(): Option<Measured> -> real {
    (r: Option<Measured>) => if Measurable(r) then CoverageOf(r) * ConfidenceOf(r) else 0.0
  }

  lemma SixTerms(f: Category -> real)
    ensures Total(f) == f(Documentation) + f(Activity) + f(Issues) + f(Cicd) + f(Security) + f(CodeHealth)
  {
    var cs := CATEGORY_ORDER;
    assert cs[..5][..4] == cs[..4] && cs[..4][..3] == cs[..3] && cs[..3][..2] == cs[..2] && cs[..2][..1] == cs[..1];
    assert Sum(cs[..1], f) == f(Documentation);
    assert Sum(cs[..2], f) == Sum(cs[..1], f) + f(Activity);
    assert Sum(cs[..3], f) == Sum(cs[..2], f) + f(Issues);
    assert Sum(cs[..4], f) == Sum(cs[..3], f) + f(Cicd);
    assert Sum(cs[..5], f) == Sum(cs[..4], f) + f(Security);
    assert Sum(cs, f) == Sum(cs[..5], f) + f(CodeHealth);
  }

  /** Raw weights times a term. */
  ghost function RawTerm(policy: Policy, input: ScoreInput, term: Option<Measured> -> real): Category -> real {
    (c: Category) => Raw(policy, c) * term(input.Get(c))
  }

  lemma RawTermIs(policy: Policy, input: ScoreInput, term: Option<Measured> -> real, c: Category, w: real,
                  r: Option<Measured>)
    requires w == Raw(policy, c) && r == input.Get(c)
    ensures RawTerm(policy, input, term)(c) == w * term(r)
  {
    hide Raw;
  }

  lemma RawTermTotal(policy: Policy, input: ScoreInput, term: Option<Measured> -> real)
    ensures Total(RawTerm(policy, input, term)) == Weighted6(policy, input, term)
  {
    hide Total, Raw, Given, RawTerm;
    var f := RawTerm(policy, input, term);
    SixTerms(f);
    GivenIsRaw(policy);
    RawTermIs(policy, input, term, Documentation, Given(policy, "Documentation"), input.documentation);
    RawTermIs(policy, input, term, Activity, Given(policy, "Activity"), input.activity);
    RawTermIs(policy, input, term, Issues, Given(policy, "Issues"), input.issues);
    RawTermIs(policy, input, term, Cicd, Given(policy, "CI/CD"), input.cicd);
    RawTermIs(policy, input, term, Security, Given(policy, "Security"), input.security);
    RawTermIs(policy, input, term, CodeHealth, Given(policy, "Code Health"), input.codeHealth);
  }

  lemma GivenIsRaw(policy: Policy)
    ensures Raw(policy, Documentation) == Given(policy, "Documentation")
    ensures Raw(policy, Activity) == Given(policy, "Activity")
    ensures Raw(policy, Issues) == Given(policy, "Issues")
    ensures Raw(policy, Cicd) == Given(policy, "CI/CD")
    ensures Raw(policy, Security) == Given(policy, "Security")
    ensures Raw(policy, CodeHealth) == Given(policy, "Code Health")
  {}

  lemma Unnormalised(policy: Policy, x: real, c: Category)
    requires RawTotal(policy) > 0.0
    ensures RawTotal(policy) * (Weight(policy, c) * x) == Raw(policy, c) * x
  {
    hide Raw, RawTotal;
    DivideBack(Raw(policy, c), RawTotal(policy));
    assert RawTotal(policy) * (Weight(policy, c) * x) == (RawTotal(policy) * Weight(policy, c)) * x;
  }

  /** A sum of normalised terms, times the total weight, is the sum of the raw ones. */
  lemma NormalisedSum(policy: Policy, input: ScoreInput, f: Category -> real, term: Option<Measured> -> real)
    requires RawTotal(policy) > 0.0
    requires forall c: Category :: f(c) == Weight(policy, c) * term(input.Get(c))
    ensures RawTotal(policy) * Total(f) == Weighted6(policy, input, term)
  {
    hide Raw, RawTotal, Weight, CATEGORY_ORDER, Sum, Weighted6;
    forall c: Category ensures RawTerm(policy, input, term)(c) == RawTotal(policy) * f(c) {
      Unnormalised(policy, term(input.Get(c)), c);
    }
    SumScaled(CATEGORY_ORDER, f, RawTerm(policy, input, term), RawTotal(policy));
    RawTermTotal(policy, input, term);
  }

  /** The formula. With W the sum of the given weights, over all six categories: K is the weighted mean of coverage
      times confidence where measurable, the evidence coverage that of all coverages, the confidence that of all
      confidences; and the mean score is that of the measurable scores over the measurable weight alone. */
  lemma Formula(policy: Policy, input: ScoreInput)
    requires RawTotal(policy) > 0.0
    ensures var w, s := Weighted6(policy, input, One()), ScoreOf(policy, input);
            && w > 0.0
            && w * s.coverageK == Weighted6(policy, input, QualityIfMeasurable())
            && w * s.evidenceCoverage == Weighted6(policy, input, r => CoverageOf(r))
            && w * s.confidence == Weighted6(policy, input, r => ConfidenceOf(r))
            && var measurable := Weighted6(policy, input, IfMeasurable());
               && (s.beforeCaps.Some? <==> measurable > 0.0)
               && (s.beforeCaps.Some? ==>
                     measurable * s.beforeCaps.value == Weighted6(policy, input, ScoreIfMeasurable()))
  {
    hide Raw, RawTotal, Weight, CATEGORY_ORDER, Sum, Weighted6, CoverageOf, ConfidenceOf, Value, Measurable,
         SecurityCap, NumericCount, Total;
    TotalGiven(policy, input);
    CoverageKBounds(policy, input);
    SumsAre(policy, input);
    MeanIs(policy, input);
  }

  /** The engine accepts the weights exactly when they name the six categories only and some weight is positive. */
  lemma AcceptedWeights(policy: Policy)
    ensures Usable(policy) <==>
              && (forall name :: name in policy.weights ==>
                    name in {"Documentation", "Activity", "Issues", "CI/CD", "Security", "Code Health"})
              && exists name :: name in policy.weights && policy.weights[name] > 0.0
  {
    hide RawTotal, Given;
    var nothing := ScoreInput(None, None, None, None, None, None);
    TotalGiven(policy, nothing);
    forall name ensures Given(policy, name) > 0.0 <==> name in policy.weights && policy.weights[name] > 0.0
      ensures Given(policy, name) >= 0.0 {
      GivenIs(policy, name);
    }
    assert RawTotal(policy) == Given(policy, "Documentation") + Given(policy, "Activity") + Given(policy, "Issues")
                               + Given(policy, "CI/CD") + Given(policy, "Security") + Given(policy, "Code Health");
    if Usable(policy) {
      assert exists name :: Given(policy, name) > 0.0;
    }
  }

  lemma GivenIs(policy: Policy, name: string)
    ensures Given(policy, name) > 0.0 <==> name in policy.weights && policy.weights[name] > 0.0
    ensures Given(policy, name) >= 0.0
  {}

  lemma TotalGiven(policy: Policy, input: ScoreInput)
    ensures RawTotal(policy) == Weighted6(policy, input, One())
  {
    hide Raw, Given, CATEGORY_ORDER, Sum, Total;
    SixTerms(RawWeights(policy));
    GivenIsRaw(policy);
  }

  lemma SumsAre(policy: Policy, input: ScoreInput)
    requires RawTotal(policy) > 0.0
    ensures var w := RawTotal(policy);
            && w * CoverageK(policy, input) == Weighted6(policy, input, QualityIfMeasurable())
            && w * EvidenceCoverage(policy, input) == Weighted6(policy, input, r => CoverageOf(r))
            && w * Confidence(policy, input) == Weighted6(policy, input, r => ConfidenceOf(r))
            && w * Available(policy, input) == Weighted6(policy, input, IfMeasurable())
            && w * Points(policy, input) == Weighted6(policy, input, ScoreIfMeasurable())
  {
    hide Raw, RawTotal, Weight, Total, Weighted6, CoverageOf, ConfidenceOf, Value, Measurable;
    forall c: Category ensures IsNumeric(input, c) <==> Measurable(input.Get(c))
      ensures Measurable(input.Get(c)) ==> input.Get(c).Some? && Value(input.Get(c)) == input.Get(c).value.score {
      NumericIsMeasurable(input, c);
    }
    NormalisedSum(policy, input, QualityTerm(policy, input), QualityIfMeasurable());
    NormalisedSum(policy, input, CoverageTerm(policy, input), r => CoverageOf(r));
    NormalisedSum(policy, input, ConfidenceTerm(policy, input), r => ConfidenceOf(r));
    NormalisedSum(policy, input, WeightTerm(policy, input), IfMeasurable());
    NormalisedSum(policy, input, PointsTerm(policy, input), ScoreIfMeasurable());
  }

  lemma MeanIs(policy: Policy, input: ScoreInput)
    requires RawTotal(policy) > 0.0
    ensures var mean, measurable := Mean(policy, input), Weighted6(policy, input, IfMeasurable());
            && (mean.Some? <==> measurable > 0.0)
            && (mean.Some? ==> measurable * mean.value == Weighted6(policy, input, ScoreIfMeasurable()))
  {
    hide Raw, RawTotal, Weight, CATEGORY_ORDER, Sum, Weighted6, Measurable, Available, Points;
    SumsAre(policy, input);
    var w, a, p := RawTotal(policy), Available(policy, input), Points(policy, input);
    AvailableNonNegative(policy, input);
    if a > 0.0 {
      ProductStrict(w, 0.0, a);
      DivideBack(p, a);
      assert (w * a) * (p / a) == w * (a * (p / a));
    }
  }

  lemma AvailableNonNegative(policy: Policy, input: ScoreInput)
    requires RawTotal(policy) > 0.0
    ensures 0.0 <= Available(policy, input)
  {
    hide WeightTerm, RawTotal, Sum, CATEGORY_ORDER;
    WeightTermNonNegative(policy, input);
    SumNonNegative(CATEGORY_ORDER, WeightTerm(policy, input));
  }
}
