/** What the score means: when there is one, its bounds, and how it reacts to its inputs. */
module ScoreProperties {
  import opened Wrappers
  import opened Contracts
  import opened Score
  import opened RealArithmetic

  // ---- Sums ----

  lemma {:induction false} SumOrdered(cs: seq<Category>, f: Category -> real, g: Category -> real)
    requires forall c: Category :: f(c) <= g(c)
    ensures Sum(cs, f) <= Sum(cs, g)
  {
    if cs != [] { SumOrdered(cs[..|cs| - 1], f, g); }
  }

  lemma {:induction false} SumScaled(cs: seq<Category>, f: Category -> real, g: Category -> real, k: real)
    requires forall c: Category :: g(c) == k * f(c)
    ensures Sum(cs, g) == k * Sum(cs, f)
  {
    if cs != [] {
      SumScaled(cs[..|cs| - 1], f, g, k);
      var x, y := Sum(cs[..|cs| - 1], f), f(cs[|cs| - 1]);
      assert k * (x + y) == k * x + k * y;
    }
  }

  lemma {:induction false} SumNonNegative(cs: seq<Category>, f: Category -> real)
    requires forall c: Category :: 0.0 <= f(c)
    ensures 0.0 <= Sum(cs, f)
    ensures forall c :: c in cs ==> f(c) <= Sum(cs, f)
  {
    if cs != [] {
      SumNonNegative(cs[..|cs| - 1], f);
      assert cs == cs[..|cs| - 1] + [cs[|cs| - 1]];
    }
  }

  lemma {:induction false} SumZero(cs: seq<Category>, f: Category -> real)
    requires forall c: Category :: f(c) == 0.0
    ensures Sum(cs, f) == 0.0
  {
    if cs != [] { SumZero(cs[..|cs| - 1], f); }
  }

  lemma AllCategories(c: Category)
    ensures c in CATEGORY_ORDER
  {
    assert CATEGORY_ORDER[0] == Documentation && CATEGORY_ORDER[1] == Activity && CATEGORY_ORDER[2] == Issues;
    assert CATEGORY_ORDER[3] == Cicd && CATEGORY_ORDER[4] == Security && CATEGORY_ORDER[5] == CodeHealth;
  }

  // ---- Weights ----

  lemma WeightNonNegative(policy: Policy, c: Category)
    requires RawTotal(policy) > 0.0
    ensures 0.0 <= Weight(policy, c)
  {
    QuotientBounds(Raw(policy, c), RawTotal(policy), 0.0, Weight(policy, c));
  }

  function WeightOf(policy: Policy): Category -> real
    requires RawTotal(policy) > 0.0
  {
    (c: Category) => Weight(policy, c)
  }

  /** Normalised weights are non-negative and sum to one. */
  lemma WeightsNormalised(policy: Policy)
    requires RawTotal(policy) > 0.0
    ensures forall c: Category :: 0.0 <= Weight(policy, c)
    ensures Total(WeightOf(policy)) == 1.0
  {
    hide Raw, CATEGORY_ORDER, Sum;
    var t := RawTotal(policy);
    forall c: Category ensures 0.0 <= Weight(policy, c) && RawWeights(policy)(c) == t * WeightOf(policy)(c) {
      WeightNonNegative(policy, c);
      DivideBack(Raw(policy, c), t);
    }
    SumScaled(CATEGORY_ORDER, WeightOf(policy), RawWeights(policy), t);
    TotalsMatch(policy);
    UnitFactor(t, Total(WeightOf(policy)), Sum(CATEGORY_ORDER, RawWeights(policy)));
  }

  lemma TotalsMatch(policy: Policy)
    requires RawTotal(policy) > 0.0
    ensures RawTotal(policy) == Sum(CATEGORY_ORDER, RawWeights(policy))
    ensures Total(WeightOf(policy)) == Sum(CATEGORY_ORDER, WeightOf(policy))
  {
    hide Weight, Raw, Sum;
  }

  lemma BoundedReadings(r: Option<Measured>)
    ensures 0.0 <= CoverageOf(r) <= 1.0 && 0.0 <= ConfidenceOf(r) <= 1.0
  {
    hide CoverageRatio;
  }

  lemma UnitReadings(r: Option<Measured>)
    ensures 0.0 <= CoverageOf(r) <= 1.0 && 0.0 <= ConfidenceOf(r) <= 1.0
    ensures 0.0 <= Quality(r) <= CoverageOf(r) && Quality(r) <= ConfidenceOf(r)
  {
    hide CoverageOf, ConfidenceOf, Value, Quality;
    BoundedReadings(r);
    QualityCases(r);
    ProductOrNothing(Quality(r), CoverageOf(r), ConfidenceOf(r));
    ProductOrNothing(Quality(r), ConfidenceOf(r), CoverageOf(r));
  }

  lemma ProductOrNothing(q: real, x: real, y: real)
    requires 0.0 <= x <= 1.0 && 0.0 <= y <= 1.0 && (q == 0.0 || q == x * y)
    ensures 0.0 <= q <= x
  {
    ProductBounds(x, y);
  }

  lemma QualityCases(r: Option<Measured>)
    ensures Quality(r) == 0.0 || Quality(r) == CoverageOf(r) * ConfidenceOf(r)
  {
    hide CoverageOf, ConfidenceOf, Value;
  }

  lemma Weighted(w: real, small: real, large: real, s: real, l: real)
    requires 0.0 <= w && 0.0 <= small <= large <= 1.0 && s == w * small && l == w * large
    ensures 0.0 <= s <= l <= w
  {
    ProductsOrdered(w, 0.0, small, 0.0, s);
    ProductsOrdered(w, small, large, s, l);
    ProductsOrdered(w, large, 1.0, l, w);
  }

  lemma TermsOrdered(policy: Policy, input: ScoreInput, c: Category)
    requires RawTotal(policy) > 0.0
    ensures 0.0 <= QualityTerm(policy, input)(c) <= CoverageTerm(policy, input)(c) <= WeightOf(policy)(c)
    ensures QualityTerm(policy, input)(c) <= ConfidenceTerm(policy, input)(c) <= WeightOf(policy)(c)
  {
    hide Weight, Quality, CoverageOf, ConfidenceOf, RawTotal;
    var r := input.Get(c);
    UnitReadings(r);
    WeightNonNegative(policy, c);
    Weighted(WeightOf(policy)(c), Quality(r), CoverageOf(r), QualityTerm(policy, input)(c),
             CoverageTerm(policy, input)(c));
    Weighted(WeightOf(policy)(c), Quality(r), ConfidenceOf(r), QualityTerm(policy, input)(c),
             ConfidenceTerm(policy, input)(c));
  }

  /** K lies in [0, 1] and never exceeds the evidence coverage or the confidence, which do so too. */
  lemma CoverageKBounds(policy: Policy, input: ScoreInput)
    requires RawTotal(policy) > 0.0
    ensures 0.0 <= CoverageK(policy, input) <= EvidenceCoverage(policy, input) <= 1.0
    ensures CoverageK(policy, input) <= Confidence(policy, input) <= 1.0
  {
    hide Weight, WeightOf, QualityTerm, CoverageTerm, ConfidenceTerm, Sum, CATEGORY_ORDER, RawTotal;
    WeightsNormalised(policy);
    forall c: Category
      ensures 0.0 <= QualityTerm(policy, input)(c) <= CoverageTerm(policy, input)(c) <= WeightOf(policy)(c)
      ensures QualityTerm(policy, input)(c) <= ConfidenceTerm(policy, input)(c) <= WeightOf(policy)(c)
    {
      TermsOrdered(policy, input, c);
    }
    SumNonNegative(CATEGORY_ORDER, QualityTerm(policy, input));
    SumOrdered(CATEGORY_ORDER, QualityTerm(policy, input), CoverageTerm(policy, input));
    SumOrdered(CATEGORY_ORDER, CoverageTerm(policy, input), WeightOf(policy));
    SumOrdered(CATEGORY_ORDER, QualityTerm(policy, input), ConfidenceTerm(policy, input));
    SumOrdered(CATEGORY_ORDER, ConfidenceTerm(policy, input), WeightOf(policy));
  }

  // ---- The mean ----

  lemma WeightTermNonNegative(policy: Policy, input: ScoreInput)
    requires RawTotal(policy) > 0.0
    ensures forall c: Category :: 0.0 <= WeightTerm(policy, input)(c)
  {
    forall c: Category ensures 0.0 <= WeightTerm(policy, input)(c) { WeightNonNegative(policy, c); }
  }

  function Times(k: real, f: Category -> real): Category -> real {
    (c: Category) => k * f(c)
  }

  /** Whatever bounds the measurable scores bounds their mean. */
  lemma MeanBounds(policy: Policy, input: ScoreInput, lo: real, hi: real)
    requires RawTotal(policy) > 0.0 && Mean(policy, input).Some?
    requires forall c: Category :: IsNumeric(input, c) ==> lo <= Value(input.Get(c)).value <= hi
    ensures lo <= Mean(policy, input).value <= hi
  {
    hide Weight, Value, RawTotal, CATEGORY_ORDER, Sum;
    PointsBounded(policy, input, lo, hi);
    WeightTermNonNegative(policy, input);
    SumNonNegative(CATEGORY_ORDER, WeightTerm(policy, input));
    QuotientBounds(Points(policy, input), Available(policy, input), lo, hi);
  }

  lemma PointsTermBounded(policy: Policy, input: ScoreInput, lo: real, hi: real, c: Category)
    requires RawTotal(policy) > 0.0
    requires IsNumeric(input, c) ==> lo <= Value(input.Get(c)).value <= hi
    ensures Times(lo, WeightTerm(policy, input))(c) <= PointsTerm(policy, input)(c) <=
              Times(hi, WeightTerm(policy, input))(c)
  {
    hide Weight, Value, RawTotal;
    if IsNumeric(input, c) {
      var w, x := Weight(policy, c), Value(input.Get(c)).value;
      WeightNonNegative(policy, c);
      ProductOrdered(w, lo, x);
      ProductOrdered(w, x, hi);
      assert lo * w == w * lo && hi * w == w * hi;
    }
  }

  lemma PointsBounded(policy: Policy, input: ScoreInput, lo: real, hi: real)
    requires RawTotal(policy) > 0.0
    requires forall c: Category :: IsNumeric(input, c) ==> lo <= Value(input.Get(c)).value <= hi
    ensures lo * Available(policy, input) <= Points(policy, input) <= hi * Available(policy, input)
  {
    hide Value, RawTotal, CATEGORY_ORDER, WeightTerm, PointsTerm, Times;
    var w, p := WeightTerm(policy, input), PointsTerm(policy, input);
    forall c: Category ensures Times(lo, w)(c) <= p(c) <= Times(hi, w)(c) {
      PointsTermBounded(policy, input, lo, hi, c);
    }
    SumOrdered(CATEGORY_ORDER, Times(lo, w), p);
    SumOrdered(CATEGORY_ORDER, p, Times(hi, w));
    forall c: Category ensures Times(lo, w)(c) == lo * w(c) && Times(hi, w)(c) == hi * w(c) {
      TimesIs(lo, w, c);
      TimesIs(hi, w, c);
    }
    SumScaled(CATEGORY_ORDER, w, Times(lo, w), lo);
    SumScaled(CATEGORY_ORDER, w, Times(hi, w), hi);
  }

  lemma TimesIs(k: real, f: Category -> real, c: Category)
    ensures Times(k, f)(c) == k * f(c)
  {}

  /** Positive K means positive measurable weight. */
  lemma PositiveKNeedsWeight(policy: Policy, input: ScoreInput)
    requires RawTotal(policy) > 0.0 && CoverageK(policy, input) > 0.0
    ensures Available(policy, input) > 0.0
  {
    hide Weight, Value, RawTotal, CATEGORY_ORDER, QualityTerm, WeightTerm;
    WeightTermNonNegative(policy, input);
    SumNonNegative(CATEGORY_ORDER, WeightTerm(policy, input));
    forall c: Category ensures QualityTerm(policy, input)(c) <= WeightTerm(policy, input)(c) {
      EvidenceNeedsWeight(policy, input, c);
    }
    SumOrdered(CATEGORY_ORDER, QualityTerm(policy, input), WeightTerm(policy, input));
  }

  lemma EvidenceNeedsWeight(policy: Policy, input: ScoreInput, c: Category)
    requires RawTotal(policy) > 0.0
    ensures QualityTerm(policy, input)(c) <= WeightTerm(policy, input)(c)
  {
    hide Weight, Value, RawTotal, Quality;
    TermsOrdered(policy, input, c);
    if !IsNumeric(input, c) { NoEvidence(input, c); }
  }

  lemma NoEvidence(input: ScoreInput, c: Category)
    requires !IsNumeric(input, c)
    ensures Quality(input.Get(c)) == 0.0
  {}

  /** There is a score exactly when the presentation is not INSUFFICIENT_DATA; it is then the smaller of the
      weighted mean and the security cap, and lies in [0, 100]. */
  lemma ScoreWellDefined(policy: Policy, input: ScoreInput)
    requires policy.Accepted() && RawTotal(policy) > 0.0
    ensures var s, cap := ScoreOf(policy, input), SecurityCap(input.security);
            && (s.overall.Some? <==> s.presentation != INSUFFICIENT_DATA)
            && (s.overall.Some? ==>
                  && s.beforeCaps.Some?
                  && s.overall.value ==
                       (if cap.Some? && cap.value.0 < s.beforeCaps.value then cap.value.0 else s.beforeCaps.value)
                  && 0.0 <= s.overall.value <= 100.0)
            && s.coverageK == CoverageK(policy, input)
            && (s.status == SCORE_PASS ==> s.presentation == SCORE && s.overall == s.beforeCaps
                                            && forall c: Category :: IsNumeric(input, c))
  {
    hide Weight, Value, RawTotal, CoverageK, EvidenceCoverage, Confidence, Available, Points, NumericCount,
         CATEGORY_ORDER;
    var s := ScoreOf(policy, input);
    CoverageKBounds(policy, input);
    if s.presentation != INSUFFICIENT_DATA {
      PositiveKNeedsWeight(policy, input);
      ValuesInRange(input);
      MeanBounds(policy, input, 0.0, 100.0);
    }
    if s.status == SCORE_PASS { AllNumeric(input); }
  }

  predicate Severe(security: Option<Measured>) {
    Signalled(security, "confirmed_secret_count") || Signalled(security, "secret_findings") ||
      Signalled(security, "critical_findings")
  }

  /** No score above the security cap survives, and a severe finding always makes the status a failure. A high
      finding alone does not: below its cap, with everything measured, the status is still a pass. */
  lemma SecurityCapHolds(policy: Policy, input: ScoreInput)
    requires policy.Accepted() && RawTotal(policy) > 0.0 && ScoreOf(policy, input).overall.Some?
    ensures var s := ScoreOf(policy, input);
            && (Severe(input.security) ==> s.overall.value <= 40.0 && s.status == SCORE_FAIL)
            && (Signalled(input.security, "high_findings") ==> s.overall.value <= 60.0)
            && (s.status == SCORE_FAIL ==> Severe(input.security))
  {
    hide Mean, CoverageK, EvidenceCoverage, Confidence, NumericCount, RawTotal, Signalled;
  }

  lemma ValuesInRange(input: ScoreInput)
    ensures forall c: Category :: IsNumeric(input, c) ==> 0.0 <= Value(input.Get(c)).value <= 100.0
  {}

  lemma {:induction false} CountBound(cs: seq<Category>, input: ScoreInput)
    ensures NumericCount(cs, input) <= |cs|
    ensures NumericCount(cs, input) == |cs| <==> forall c :: c in cs ==> IsNumeric(input, c)
  {
    if cs != [] {
      CountBound(cs[..|cs| - 1], input);
      assert cs == cs[..|cs| - 1] + [cs[|cs| - 1]];
    }
  }

  lemma AllNumeric(input: ScoreInput)
    ensures NumericCount(CATEGORY_ORDER, input) >= |CATEGORY_ORDER| <==> forall c: Category :: IsNumeric(input, c)
  {
    CountBound(CATEGORY_ORDER, input);
    forall c: Category ensures c in CATEGORY_ORDER { AllCategories(c); }
  }

  // ---- Better evidence ----

  /** b measures at least what a measures, with at least its coverage and confidence. */
  ghost predicate BetterEvidence(a: ScoreInput, b: ScoreInput) {
    forall c: Category ::
      && (IsNumeric(a, c) ==> IsNumeric(b, c))
      && CoverageOf(a.Get(c)) <= CoverageOf(b.Get(c))
      && ConfidenceOf(a.Get(c)) <= ConfidenceOf(b.Get(c))
  }

  function Rank(p: Presentation): int {
    match p
    case INSUFFICIENT_DATA => 0
    case PROVISIONAL_SCORE => 1
    case SCORE => 2
  }

  lemma {:induction false} CountGrows(cs: seq<Category>, a: ScoreInput, b: ScoreInput)
    requires forall c: Category :: IsNumeric(a, c) ==> IsNumeric(b, c)
    ensures NumericCount(cs, a) <= NumericCount(cs, b)
  {
    if cs != [] { CountGrows(cs[..|cs| - 1], a, b); }
  }

  lemma QualityGrows(a: ScoreInput, b: ScoreInput, c: Category)
    requires BetterEvidence(a, b)
    ensures Quality(a.Get(c)) <= Quality(b.Get(c))
  {
    hide Value, CoverageOf, ConfidenceOf;
    UnitReadings(a.Get(c));
    UnitReadings(b.Get(c));
    ProductOrdered(CoverageOf(a.Get(c)), ConfidenceOf(a.Get(c)), ConfidenceOf(b.Get(c)));
    ProductOrdered(ConfidenceOf(b.Get(c)), CoverageOf(a.Get(c)), CoverageOf(b.Get(c)));
  }

  /** Making a category measurable, or raising its coverage or confidence, never lowers K and never
      demotes the presentation. */
  lemma BetterEvidenceNeverDemotes(policy: Policy, a: ScoreInput, b: ScoreInput)
    requires policy.Accepted() && RawTotal(policy) > 0.0 && BetterEvidence(a, b)
    ensures ScoreOf(policy, a).coverageK <= ScoreOf(policy, b).coverageK
    ensures Rank(ScoreOf(policy, a).presentation) <= Rank(ScoreOf(policy, b).presentation)
  {
    hide Weight, Quality, RawTotal, Mean, NumericCount, CATEGORY_ORDER, CoverageOf, ConfidenceOf, Value;
    CountGrows(CATEGORY_ORDER, a, b);
    forall c: Category ensures QualityTerm(policy, a)(c) <= QualityTerm(policy, b)(c) {
      QualityGrows(a, b, c);
      WeightNonNegative(policy, c);
      ProductOrdered(Weight(policy, c), Quality(a.Get(c)), Quality(b.Get(c)));
    }
    SumOrdered(CATEGORY_ORDER, QualityTerm(policy, a), QualityTerm(policy, b));
  }

  // ---- Better scores ----

  /** b differs from a only in higher scores of measurable categories. */
  ghost predicate HigherScores(a: ScoreInput, b: ScoreInput) {
    && (forall c: Category ::
          && (IsNumeric(a, c) <==> IsNumeric(b, c))
          && CoverageOf(a.Get(c)) == CoverageOf(b.Get(c)) && ConfidenceOf(a.Get(c)) == ConfidenceOf(b.Get(c))
          && (IsNumeric(a, c) ==> Value(a.Get(c)).value <= Value(b.Get(c)).value))
    && SecurityCap(a.security) == SecurityCap(b.security)
  }

  lemma SameEvidence(policy: Policy, a: ScoreInput, b: ScoreInput)
    requires RawTotal(policy) > 0.0 && HigherScores(a, b)
    ensures ScoreOf(policy, a).presentation == ScoreOf(policy, b).presentation
    ensures Available(policy, a) == Available(policy, b)
  {
    hide Weight, Value, RawTotal, Mean, NumericCount, CATEGORY_ORDER, CoverageOf, ConfidenceOf;
    CountGrows(CATEGORY_ORDER, a, b);
    CountGrows(CATEGORY_ORDER, b, a);
    forall c: Category
      ensures QualityTerm(policy, a)(c) == QualityTerm(policy, b)(c)
      ensures WeightTerm(policy, a)(c) == WeightTerm(policy, b)(c) {}
    SumOrdered(CATEGORY_ORDER, QualityTerm(policy, a), QualityTerm(policy, b));
    SumOrdered(CATEGORY_ORDER, QualityTerm(policy, b), QualityTerm(policy, a));
    SumOrdered(CATEGORY_ORDER, WeightTerm(policy, a), WeightTerm(policy, b));
    SumOrdered(CATEGORY_ORDER, WeightTerm(policy, b), WeightTerm(policy, a));
  }

  lemma PointsTermIs(policy: Policy, input: ScoreInput, c: Category)
    requires RawTotal(policy) > 0.0
    ensures PointsTerm(policy, input)(c) == if IsNumeric(input, c) then Weight(policy, c) * Value(input.Get(c)).value
                                            else 0.0
  {
    hide Weight, Value, RawTotal;
  }

  lemma HigherAt(a: ScoreInput, b: ScoreInput, c: Category)
    requires HigherScores(a, b)
    ensures IsNumeric(a, c) <==> IsNumeric(b, c)
    ensures IsNumeric(a, c) ==> Value(a.Get(c)).value <= Value(b.Get(c)).value
  {
    hide Value, CoverageOf, ConfidenceOf;
  }

  lemma PointsTermGrows(policy: Policy, a: ScoreInput, b: ScoreInput, c: Category)
    requires RawTotal(policy) > 0.0 && HigherScores(a, b)
    ensures PointsTerm(policy, a)(c) <= PointsTerm(policy, b)(c)
  {
    hide Weight, Value, RawTotal, PointsTerm, HigherScores;
    HigherAt(a, b, c);
    PointsTermIs(policy, a, c);
    PointsTermIs(policy, b, c);
    if IsNumeric(a, c) {
      WeightNonNegative(policy, c);
      ProductsOrdered(Weight(policy, c), Value(a.Get(c)).value, Value(b.Get(c)).value,
                      PointsTerm(policy, a)(c), PointsTerm(policy, b)(c));
    }
  }

  lemma PointsGrow(policy: Policy, a: ScoreInput, b: ScoreInput)
    requires RawTotal(policy) > 0.0 && HigherScores(a, b)
    ensures Points(policy, a) <= Points(policy, b)
  {
    hide RawTotal, CATEGORY_ORDER, PointsTerm, HigherScores;
    forall c: Category ensures PointsTerm(policy, a)(c) <= PointsTerm(policy, b)(c) {
      PointsTermGrows(policy, a, b, c);
    }
    SumOrdered(CATEGORY_ORDER, PointsTerm(policy, a), PointsTerm(policy, b));
  }

  /** Raising measurable scores never lowers the overall score and never takes it away. */
  lemma HigherScoresNeverLower(policy: Policy, a: ScoreInput, b: ScoreInput)
    requires policy.Accepted() && RawTotal(policy) > 0.0 && HigherScores(a, b)
    ensures ScoreOf(policy, a).overall.Some? <==> ScoreOf(policy, b).overall.Some?
    ensures ScoreOf(policy, a).overall.Some? ==> ScoreOf(policy, a).overall.value <= ScoreOf(policy, b).overall.value
  {
    hide Weight, Value, RawTotal, Available, Points, CoverageK, EvidenceCoverage, Confidence, NumericCount,
         HigherScores, CATEGORY_ORDER;
    ScoreWellDefined(policy, a);
    ScoreWellDefined(policy, b);
    SameEvidence(policy, a, b);
    PointsGrow(policy, a, b);
    SameCap(a, b);
    if ScoreOf(policy, a).overall.Some? {
      CoverageKBounds(policy, a);
      PositiveKNeedsWeight(policy, a);
      QuotientOrdered(Points(policy, a), Points(policy, b), Available(policy, a));
    }
  }

  lemma SameCap(a: ScoreInput, b: ScoreInput)
    requires HigherScores(a, b)
    ensures SecurityCap(a.security) == SecurityCap(b.security)
  {}

  // ---- Scaling ----

  function Scaled(policy: Policy, k: real): Policy {
    policy.(weights := map name | name in policy.weights :: k * policy.weights[name])
  }

  lemma RawScales(policy: Policy, k: real, c: Category)
    requires k > 0.0
    ensures Raw(Scaled(policy, k), c) == k * Raw(policy, c)
  {
    if Name(c) in policy.weights {
      var x := policy.weights[Name(c)];
      if x > 0.0 { ProductStrict(k, 0.0, x); } else { ProductOrdered(k, x, 0.0); }
    }
  }

  lemma WeightScales(policy: Policy, k: real)
    requires k > 0.0
    ensures RawTotal(Scaled(policy, k)) == k * RawTotal(policy)
    ensures RawTotal(policy) > 0.0 ==> RawTotal(Scaled(policy, k)) > 0.0
    ensures RawTotal(policy) > 0.0 ==> forall c: Category :: Weight(Scaled(policy, k), c) == Weight(policy, c)
  {
    hide Raw, CATEGORY_ORDER;
    forall c: Category ensures RawWeights(Scaled(policy, k))(c) == k * RawWeights(policy)(c) {
      RawScales(policy, k, c);
    }
    SumScaled(CATEGORY_ORDER, RawWeights(policy), RawWeights(Scaled(policy, k)), k);
    if RawTotal(policy) > 0.0 {
      ProductStrict(k, 0.0, RawTotal(policy));
      forall c: Category ensures Weight(Scaled(policy, k), c) == Weight(policy, c) {
        RawScales(policy, k, c);
        QuotientScales(Raw(policy, c), RawTotal(policy), k);
      }
    }
  }

  lemma {:induction false} SumSame(cs: seq<Category>, f: Category -> real, g: Category -> real)
    requires forall c: Category :: f(c) == g(c)
    ensures Sum(cs, f) == Sum(cs, g)
  {
    if cs != [] { SumSame(cs[..|cs| - 1], f, g); }
  }

  /** Multiplying all weights by one positive number changes nothing in the result. */
  lemma ScoreIgnoresWeightScale(policy: Policy, input: ScoreInput, k: real)
    requires k > 0.0 && RawTotal(policy) > 0.0
    ensures RawTotal(Scaled(policy, k)) > 0.0
    ensures ScoreOf(Scaled(policy, k), input) == ScoreOf(policy, input)
  {
    hide Weight, RawTotal, Value, Quality, CoverageOf, ConfidenceOf, NumericCount, CATEGORY_ORDER;
    WeightScales(policy, k);
    var p := Scaled(policy, k);
    SumSame(CATEGORY_ORDER, WeightTerm(p, input), WeightTerm(policy, input));
    SumSame(CATEGORY_ORDER, PointsTerm(p, input), PointsTerm(policy, input));
    SumSame(CATEGORY_ORDER, QualityTerm(p, input), QualityTerm(policy, input));
    SumSame(CATEGORY_ORDER, CoverageTerm(p, input), CoverageTerm(policy, input));
    SumSame(CATEGORY_ORDER, ConfidenceTerm(p, input), ConfidenceTerm(policy, input));
  }
}
