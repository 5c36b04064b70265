/** The CI/CD component score (scoring/calibration_v2.py). `decay(t)` stands for exp(-t). */
module Cicd {
  import opened Wrappers
  import opened RealArithmetic
  import opened Calibration

  /** exp(-t) for t >= 0: starts at one, stays positive, never rises. */
  ghost predicate Decays(decay: real -> real) {
    && decay(0.0) == 1.0
    && (forall t :: 0.0 <= t ==> 0.0 < decay(t) <= 1.0)
    && (forall t, u :: 0.0 <= t <= u ==> decay(u) <= decay(t))
  }

  datatype Observed = Observed(
    failureRate: Option<real>, failureStreak: int,
    p50: Option<real>, p95: Option<real>,
    failureRateDelta: Option<real>, durationDelta: Option<real>,
    available: Option<set<string>>)

  const NAMES: seq<string> := ["reliability", "failure_streak", "duration", "trend"]

  function ComponentWeight(name: string): real {
    if name == "reliability" then 0.75
    else if name == "failure_streak" then 0.15
    else if name == "duration" then 0.05
    else if name == "trend" then 0.05
    else 0.0
  }

  // ---- The components ----

  function Reliability(rate: real): real {
    Quality(RELIABILITY_ANCHORS, Ratio(rate) * 100.0)
  }

  function Streak(streak: int, decay: real -> real): real {
    100.0 * decay((if streak < 0 then 0 else streak) as real / 3.0)
  }

  function Seconds(seconds: real): real {
    Quality(DURATION_ANCHORS, if seconds < 0.0 then 0.0 else seconds)
  }

  function Trend(delta: real, durationDelta: Option<real>): real {
    var signal := delta / 0.20;
    Clamp(100.0 - 100.0 * (if durationDelta.Some? then 0.70 * signal + 0.30 * durationDelta.value / 0.50 else signal),
          0.0, 100.0)
  }

  /** The value a component has, before the caller's selection. */
  function Component(o: Observed, decay: real -> real, name: string): Option<real> {
    if name == "reliability" && o.failureRate.Some? then Some(Reliability(o.failureRate.value))
    else if name == "failure_streak" && o.failureRate.Some? then Some(Streak(o.failureStreak, decay))
    else if name == "duration" && o.p50.Some? && o.p95.Some? then
      Some((Seconds(o.p50.value) + Seconds(o.p95.value)) / 2.0)
    else if name == "trend" && o.failureRateDelta.Some? then Some(Trend(o.failureRateDelta.value, o.durationDelta))
    else None
  }

  predicate Measured(o: Observed, name: string) {
    || (name in {"reliability", "failure_streak"} && o.failureRate.Some?)
    || (name == "duration" && o.p50.Some? && o.p95.Some?)
    || (name == "trend" && o.failureRateDelta.Some?)
  }

  predicate Selected(o: Observed, name: string) {
    Measured(o, name) && (o.available.None? || name in o.available.value)
  }

  function Eligible(o: Observed): set<string> {
    set name | name in NAMES && Selected(o, name)
  }

  predicate Scorable(eligible: set<string>) {
    |eligible| >= 2 && ("reliability" in eligible || "failure_streak" in eligible)
  }

  // ---- The weighted mean ----

  function WeightSum(names: seq<string>, components: map<string, real>): real {
    if names == [] then 0.0
    else
      var name := names[|names| - 1];
      WeightSum(names[..|names| - 1], components) + (if name in components then ComponentWeight(name) else 0.0)
  }

  function PointSum(names: seq<string>, components: map<string, real>): real {
    if names == [] then 0.0
    else
      var name := names[|names| - 1];
      PointSum(names[..|names| - 1], components) +
        (if name in components then ComponentWeight(name) * components[name] else 0.0)
  }

  lemma {:induction false} WeightGrows(names: seq<string>, components: map<string, real>)
    ensures 0.0 <= WeightSum(names, components)
    ensures forall name :: name in names && name in components ==> ComponentWeight(name) <= WeightSum(names, components)
  {
    if names != [] {
      WeightGrows(names[..|names| - 1], components);
      assert names == names[..|names| - 1] + [names[|names| - 1]];
    }
  }

  lemma WeightPositive(components: map<string, real>)
    requires Scorable(components.Keys)
    ensures WeightSum(NAMES, components) > 0.0
  {
    WeightGrows(NAMES, components);
    assert NAMES[0] == "reliability" && NAMES[1] == "failure_streak";
  }

  function Average(components: map<string, real>): Option<real> {
    if !Scorable(components.Keys) then None
    else
      WeightPositive(components);
      Some(Clamp(PointSum(NAMES, components) / WeightSum(NAMES, components), 0.0, 100.0))
  }

  function Components(o: Observed, decay: real -> real): map<string, real> {
    map name | name in Eligible(o) :: Component(o, decay, name).value
  }

  function CicdScore(o: Observed, decay: real -> real): Option<real> {
    Average(Components(o, decay))
  }

  /** The components that can be measured, added to the dictionary one after the other. */
  method MeasureComponents(o: Observed, decay: real -> real) returns (components: map<string, real>)
    ensures forall name :: name in components <==> name in NAMES && Measured(o, name)
    ensures forall name :: name in components ==> Component(o, decay, name) == Some(components[name])
  {
    hide Quality, Streak, Trend, Clamp, RELIABILITY_ANCHORS, DURATION_ANCHORS;
    components := map[];
    if o.failureRate.Some? {
      var reliability := AnchoredQuality(Ratio(o.failureRate.value) * 100.0, RELIABILITY_ANCHORS);
      components := components["reliability" := reliability];
      components := components["failure_streak" := Streak(o.failureStreak, decay)];
    }
    if o.p50.Some? && o.p95.Some? {
      var p50 := AnchoredQuality(if o.p50.value < 0.0 then 0.0 else o.p50.value, DURATION_ANCHORS);
      var p95 := AnchoredQuality(if o.p95.value < 0.0 then 0.0 else o.p95.value, DURATION_ANCHORS);
      components := components["duration" := (p50 + p95) / 2.0];
    }
    if o.failureRateDelta.Some? {
      components := components["trend" := Trend(o.failureRateDelta.value, o.durationDelta)];
    }
  }

  method WeightedSums(components: map<string, real>) returns (total: real, points: real)
    ensures total == WeightSum(NAMES, components) && points == PointSum(NAMES, components)
  {
    hide ComponentWeight;
    total, points := 0.0, 0.0;
    for i := 0 to |NAMES|
      invariant total == WeightSum(NAMES[..i], components) && points == PointSum(NAMES[..i], components)
    {
      var name := NAMES[i];
      assert NAMES[..i + 1][..i] == NAMES[..i];
      if name in components {
        total := total + ComponentWeight(name);
        points := points + ComponentWeight(name) * components[name];
      }
    }
    assert NAMES[..|NAMES|] == NAMES;
  }

  /** `cicd_component_score`: measures the components, keeps the selected ones, and averages what is left. */
  method CicdComponentScore(o: Observed, decay: real -> real)
    returns (score: Option<real>, components: map<string, real>, eligible: set<string>)
    ensures eligible == Eligible(o) && components == Components(o, decay) && score == CicdScore(o, decay)
  {
    hide Component, Measured, WeightSum, PointSum, Clamp;
    components := MeasureComponents(o, decay);
    if o.available.Some? {
      components := map name | name in components && name in o.available.value :: components[name];
    }
    eligible := components.Keys;
    assert eligible == Eligible(o);
    assert components == Components(o, decay);
    if !Scorable(eligible) { return None, components, eligible; }
    WeightPositive(components);
    var total, points := WeightedSums(components);
    score := Some(Clamp(points / total, 0.0, 100.0));
  }

  // ---- When there is a score ----

  lemma TwoMembers(names: set<string>, a: string, b: string)
    requires a in names && b in names && a != b
    ensures |names| >= 2
  {
    var rest := names - {a};
    assert names == rest + {a};
    assert b in rest;
  }

  /** There is a score exactly when one of the two failure components is selected together with another
      component; without a selection, exactly when the failure rate is known. */
  lemma ScoreExists(o: Observed, decay: real -> real)
    ensures CicdScore(o, decay).Some? <==>
              || (Selected(o, "reliability") &&
                  (Selected(o, "failure_streak") || Selected(o, "duration") || Selected(o, "trend")))
              || (Selected(o, "failure_streak") && (Selected(o, "duration") || Selected(o, "trend")))
    ensures o.available.None? ==> (CicdScore(o, decay).Some? <==> o.failureRate.Some?)
  {
    hide Component, Selected, WeightSum, PointSum, Clamp;
    assert Components(o, decay).Keys == Eligible(o);
    EligibleNames(o);
    if CicdScore(o, decay).Some? {
      if "reliability" in Eligible(o) {
        Another(Eligible(o), "reliability");
      } else {
        Another(Eligible(o), "failure_streak");
      }
    } else {
      forall a, b | a in Eligible(o) && b in Eligible(o) && a != b ensures |Eligible(o)| >= 2 {
        TwoMembers(Eligible(o), a, b);
      }
    }
    WithoutSelection(o);
  }

  lemma EligibleNames(o: Observed)
    ensures forall name :: name in Eligible(o) <==>
              name in {"reliability", "failure_streak", "duration", "trend"} && Selected(o, name)
  {
    hide Selected;
    assert NAMES[0] == "reliability" && NAMES[1] == "failure_streak" && NAMES[2] == "duration" && NAMES[3] == "trend";
  }

  lemma WithoutSelection(o: Observed)
    ensures Selected(o, "reliability") ==> o.failureRate.Some?
    ensures Selected(o, "failure_streak") ==> o.failureRate.Some?
    ensures o.available.None? && o.failureRate.Some? ==> Selected(o, "reliability") && Selected(o, "failure_streak")
  {}

  lemma Another(names: set<string>, a: string)
    requires |names| >= 2 && a in names
    ensures exists b :: b in names && b != a
  {
    var rest := names - {a};
    assert names == rest + {a};
    var b :| b in rest;
  }

  // ---- The score, in numbers ----

  /** Which components there are, and their values: a failure rate loses a point per percent, a streak decays over three
      runs, the duration is the mean of the median's and the 95th percentile's, and the trend loses five points per
      percentage point of failure rate,
          or three and a half and six tenths per percent of duration where both are known. */
  lemma ComponentValues(o: Observed, decay: real -> real, name: string)
    ensures name in Components(o, decay) <==>
              && (o.available.None? || name in o.available.value)
              && match name
                 case "reliability" => o.failureRate.Some?
                 case "failure_streak" => o.failureRate.Some?
                 case "duration" => o.p50.Some? && o.p95.Some?
                 case "trend" => o.failureRateDelta.Some?
                 case _ => false
    ensures name in Components(o, decay) ==>
              var value := Components(o, decay)[name];
              && (name == "reliability" ==> value == 100.0 - 100.0 * Clamp(o.failureRate.value, 0.0, 1.0))
              && (name == "failure_streak" ==>
                    value == 100.0 * decay(if o.failureStreak <= 0 then 0.0 else o.failureStreak as real / 3.0))
              && (name == "duration" ==>
                    2.0 * value == Quality(DURATION_ANCHORS, o.p50.value) + Quality(DURATION_ANCHORS, o.p95.value))
              && (name == "trend" && o.durationDelta.None? ==>
                    value == Clamp(100.0 - 500.0 * o.failureRateDelta.value, 0.0, 100.0))
              && (name == "trend" && o.durationDelta.Some? ==>
                    value == Clamp(100.0 - 350.0 * o.failureRateDelta.value - 60.0 * o.durationDelta.value, 0.0, 100.0))
  {
    hide Quality, Clamp, RELIABILITY_ANCHORS, DURATION_ANCHORS, Reliability, Streak, Seconds, Trend, Eligible;
    EligibleNames(o);
    if name in Components(o, decay) {
      ComponentMeasured(o, decay, name);
      if name == "reliability" { RateValue(o.failureRate.value); }
      else if name == "failure_streak" { StreakValue(o.failureStreak, decay); }
      else if name == "duration" { SecondsValue(o.p50.value); SecondsValue(o.p95.value); }
      else { TrendValue(o.failureRateDelta.value, o.durationDelta); }
    }
  }

  lemma RateValue(rate: real)
    ensures Reliability(rate) == 100.0 - 100.0 * Clamp(rate, 0.0, 1.0)
  {
    hide Quality;
    ReliabilityIsLinear(Ratio(rate) * 100.0);
  }

  lemma StreakValue(streak: int, decay: real -> real)
    ensures Streak(streak, decay) == 100.0 * decay(if streak <= 0 then 0.0 else streak as real / 3.0)
  {
    assert 0.0 / 3.0 == 0.0;
  }

  lemma SecondsValue(seconds: real)
    ensures Seconds(seconds) == Quality(DURATION_ANCHORS, seconds)
  {
    hide Quality;
    DurationIsPiecewise(seconds);
    DurationIsPiecewise(0.0);
  }

  lemma TrendValue(delta: real, d: Option<real>)
    ensures Trend(delta, d) ==
              Clamp(if d.None? then 100.0 - 500.0 * delta else 100.0 - 350.0 * delta - 60.0 * d.value, 0.0, 100.0)
  {}

  /** There is a score exactly when two components are left and one of them is about failures. It is their mean, with
      weights 75, 15, 5 and 5. */
  lemma ScoreInNumbers(o: Observed, decay: real -> real)
    requires Decays(decay)
    ensures var c := Components(o, decay);
            && (CicdScore(o, decay).Some? <==> |c| >= 2 && ("reliability" in c || "failure_streak" in c))
            && (CicdScore(o, decay).Some? ==>
                  CicdScore(o, decay).value *
                  ((if "reliability" in c then 75.0 else 0.0) + (if "failure_streak" in c then 15.0 else 0.0)
                   + (if "duration" in c then 5.0 else 0.0) + (if "trend" in c then 5.0 else 0.0))
                  == (if "reliability" in c then 75.0 * c["reliability"] else 0.0)
                     + (if "failure_streak" in c then 15.0 * c["failure_streak"] else 0.0)
                     + (if "duration" in c then 5.0 * c["duration"] else 0.0)
                     + (if "trend" in c then 5.0 * c["trend"] else 0.0))
  {
    hide Components, Decays, WeightSum, PointSum, Clamp;
    var c := Components(o, decay);
    assert |c| == |c.Keys|;
    if CicdScore(o, decay).Some? {
      ComponentsBetween(o, decay);
      ScoreIsMean(o, decay, 0.0, 100.0);
      SumsInNumbers(c);
      var score := CicdScore(o, decay).value;
      assert score * (100.0 * WeightSum(NAMES, c)) == 100.0 * (score * WeightSum(NAMES, c));
    }
  }

  lemma SumsInNumbers(c: map<string, real>)
    ensures 100.0 * WeightSum(NAMES, c) ==
              (if "reliability" in c then 75.0 else 0.0) + (if "failure_streak" in c then 15.0 else 0.0)
              + (if "duration" in c then 5.0 else 0.0) + (if "trend" in c then 5.0 else 0.0)
    ensures 100.0 * PointSum(NAMES, c) ==
              (if "reliability" in c then 75.0 * c["reliability"] else 0.0)
              + (if "failure_streak" in c then 15.0 * c["failure_streak"] else 0.0)
              + (if "duration" in c then 5.0 * c["duration"] else 0.0)
              + (if "trend" in c then 5.0 * c["trend"] else 0.0)
  {
    assert NAMES[..3][..2] == NAMES[..2] && NAMES[..2][..1] == NAMES[..1] && NAMES[..1][..0] == [];
    assert WeightSum(NAMES[..1], c) == (if "reliability" in c then 0.75 else 0.0);
    assert PointSum(NAMES[..1], c) == (if "reliability" in c then 0.75 * c["reliability"] else 0.0);
    assert WeightSum(NAMES[..2], c) == WeightSum(NAMES[..1], c) + (if "failure_streak" in c then 0.15 else 0.0);
    assert PointSum(NAMES[..2], c) ==
           PointSum(NAMES[..1], c) + (if "failure_streak" in c then 0.15 * c["failure_streak"] else 0.0);
    assert WeightSum(NAMES[..3], c) == WeightSum(NAMES[..2], c) + (if "duration" in c then 0.05 else 0.0);
    assert PointSum(NAMES[..3], c) == PointSum(NAMES[..2], c) + (if "duration" in c then 0.05 * c["duration"] else 0.0);
  }

  // ---- Its range ----

  lemma {:induction false} PointsBetween(names: seq<string>, components: map<string, real>, lo: real, hi: real)
    requires forall name :: name in components ==> lo <= components[name] <= hi
    ensures lo * WeightSum(names, components) <= PointSum(names, components) <= hi * WeightSum(names, components)
  {
    hide ComponentWeight;
    if names != [] {
      var rest, name := names[..|names| - 1], names[|names| - 1];
      PointsBetween(rest, components, lo, hi);
      if name in components {
        WeightPositiveOrZero(name);
        OneMore(lo, hi, WeightSum(rest, components), PointSum(rest, components), ComponentWeight(name),
                components[name]);
      }
    }
  }

  lemma OneMore(lo: real, hi: real, sum: real, points: real, w: real, v: real)
    requires 0.0 <= w && lo <= v <= hi && lo * sum <= points <= hi * sum
    ensures lo * (sum + w) <= points + w * v <= hi * (sum + w)
  {
    ProductOrdered(w, lo, v);
    ProductOrdered(w, v, hi);
    assert lo * (sum + w) == lo * sum + w * lo && hi * (sum + w) == hi * sum + w * hi;
  }

  lemma WeightPositiveOrZero(name: string)
    ensures 0.0 <= ComponentWeight(name)
  {}

  lemma SecondsBetween(seconds: real)
    ensures 0.0 <= Seconds(seconds) <= 100.0
  {
    hide Quality;
    QualityBounds(DURATION_ANCHORS, if seconds < 0.0 then 0.0 else seconds);
  }

  lemma ComponentBetween(o: Observed, decay: real -> real, name: string)
    requires Decays(decay) && Component(o, decay, name).Some?
    ensures 0.0 <= Component(o, decay, name).value <= 100.0
  {
    hide Quality, Seconds, RELIABILITY_ANCHORS;
    if o.failureRate.Some? { ReliabilityIsLinear(Ratio(o.failureRate.value) * 100.0); }
    if o.p50.Some? { SecondsBetween(o.p50.value); }
    if o.p95.Some? { SecondsBetween(o.p95.value); }
  }

  lemma ComponentsBetween(o: Observed, decay: real -> real)
    requires Decays(decay)
    ensures forall name :: name in Components(o, decay) ==> 0.0 <= Components(o, decay)[name] <= 100.0
  {
    hide Component, Decays;
    forall name | name in Components(o, decay) ensures 0.0 <= Components(o, decay)[name] <= 100.0 {
      ComponentMeasured(o, decay, name);
      ComponentBetween(o, decay, name);
    }
  }

  lemma ComponentMeasured(o: Observed, decay: real -> real, name: string)
    ensures Component(o, decay, name).Some? <==> Measured(o, name)
  {
    hide Reliability, Streak, Seconds, Trend;
  }

  /** The score is the exact weighted mean of the selected components, so the final clamp changes nothing,
      and it lies between the worst and the best of them. */
  lemma ScoreIsMean(o: Observed, decay: real -> real, lo: real, hi: real)
    requires Decays(decay) && CicdScore(o, decay).Some?
    requires forall name :: name in Components(o, decay) ==> lo <= Components(o, decay)[name] <= hi
    ensures var c := Components(o, decay); CicdScore(o, decay).value * WeightSum(NAMES, c) == PointSum(NAMES, c)
    ensures lo <= CicdScore(o, decay).value <= hi && 0.0 <= CicdScore(o, decay).value <= 100.0
  {
    hide Components, WeightSum, PointSum, Decays, Clamp;
    var c := Components(o, decay);
    WeightPositive(c);
    ComponentsBetween(o, decay);
    PointsBetween(NAMES, c, 0.0, 100.0);
    PointsBetween(NAMES, c, lo, hi);
    ClampedMean(PointSum(NAMES, c), WeightSum(NAMES, c), lo, hi);
  }

  /** A quotient that is in range already is not clamped. */
  lemma ClampedMean(points: real, total: real, lo: real, hi: real)
    requires total > 0.0 && 0.0 * total <= points <= 100.0 * total && lo * total <= points <= hi * total
    ensures var mean := Clamp(points / total, 0.0, 100.0);
            mean == points / total && mean * total == points && lo <= mean <= hi && 0.0 <= mean <= 100.0
  {
    QuotientBounds(points, total, 0.0, 100.0);
    QuotientBounds(points, total, lo, hi);
    DivideBack(points, total);
  }

  // ---- Worse observations ----

  ghost predicate NotSmaller(a: Option<real>, b: Option<real>) {
    (a.Some? <==> b.Some?) && (a.Some? ==> a.value <= b.value)
  }

  /** b was observed in the same respects as a, and is at least as bad in each. */
  ghost predicate Worse(a: Observed, b: Observed) {
    && NotSmaller(a.failureRate, b.failureRate) && a.failureStreak <= b.failureStreak
    && NotSmaller(a.p50, b.p50) && NotSmaller(a.p95, b.p95)
    && NotSmaller(a.failureRateDelta, b.failureRateDelta) && NotSmaller(a.durationDelta, b.durationDelta)
    && a.available == b.available
  }

  lemma ReliabilityFalls(rate: real, larger: real)
    requires rate <= larger
    ensures Reliability(larger) <= Reliability(rate)
  {
    hide Quality;
    QualityNeverRises(RELIABILITY_ANCHORS, Ratio(rate) * 100.0, Ratio(larger) * 100.0);
  }

  lemma StreakFalls(streak: int, longer: int, decay: real -> real)
    requires Decays(decay) && streak <= longer
    ensures Streak(longer, decay) <= Streak(streak, decay)
  {
    var s, l := if streak < 0 then 0 else streak, if longer < 0 then 0 else longer;
    assert 0.0 <= s as real / 3.0 <= l as real / 3.0;
  }

  lemma SecondsFall(seconds: real, more: real)
    requires seconds <= more
    ensures Seconds(more) <= Seconds(seconds)
  {
    hide Quality;
    QualityNeverRises(DURATION_ANCHORS, if seconds < 0.0 then 0.0 else seconds, if more < 0.0 then 0.0 else more);
  }

  lemma TrendFalls(delta: real, larger: real, d: Option<real>, e: Option<real>)
    requires delta <= larger && NotSmaller(d, e)
    ensures Trend(larger, e) <= Trend(delta, d)
  {}

  lemma ComponentFalls(a: Observed, b: Observed, decay: real -> real, name: string)
    requires Decays(decay) && Worse(a, b) && Component(a, decay, name).Some?
    ensures Component(b, decay, name).Some? && Component(b, decay, name).value <= Component(a, decay, name).value
  {
    hide Decays, Reliability, Streak, Seconds, Trend;
    if name == "reliability" { ReliabilityFalls(a.failureRate.value, b.failureRate.value); }
    else if name == "failure_streak" { StreakFalls(a.failureStreak, b.failureStreak, decay); }
    else if name == "duration" { SecondsFall(a.p50.value, b.p50.value); SecondsFall(a.p95.value, b.p95.value); }
    else { TrendFalls(a.failureRateDelta.value, b.failureRateDelta.value, a.durationDelta, b.durationDelta); }
  }

  lemma {:induction false} PointsFall(names: seq<string>, a: map<string, real>, b: map<string, real>)
    requires a.Keys == b.Keys && forall name :: name in a ==> b[name] <= a[name]
    ensures WeightSum(names, b) == WeightSum(names, a) && PointSum(names, b) <= PointSum(names, a)
  {
    hide ComponentWeight;
    if names != [] {
      var name := names[|names| - 1];
      PointsFall(names[..|names| - 1], a, b);
      if name in a {
        assert name in b;
        WeightPositiveOrZero(name);
        ProductOrdered(ComponentWeight(name), b[name], a[name]);
      }
    }
  }

  /** With the same components present, the score never rises with the failure rate, the streak, the median,
      the 95th percentile or either trend. */
  lemma WorseNeverRises(a: Observed, b: Observed, decay: real -> real)
    requires Decays(decay) && Worse(a, b)
    ensures CicdScore(a, decay).Some? <==> CicdScore(b, decay).Some?
    ensures CicdScore(a, decay).Some? ==> CicdScore(b, decay).value <= CicdScore(a, decay).value
  {
    hide Component, WeightSum, PointSum, Decays;
    var x, y := Components(a, decay), Components(b, decay);
    assert Eligible(a) == Eligible(b);
    forall name | name in x ensures name in y && y[name] <= x[name] {
      ComponentMeasured(a, decay, name);
      ComponentFalls(a, b, decay, name);
    }
    PointsFall(NAMES, x, y);
    if CicdScore(a, decay).Some? {
      WeightPositive(x);
      QuotientOrdered(PointSum(NAMES, y), PointSum(NAMES, x), WeightSum(NAMES, x));
    }
  }
}
