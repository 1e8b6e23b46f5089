/** `PresentationAnalyzer.calculate_conformance_percentage` (analyzer.py:160-278):
    seven weighted criteria, a percentage rounded to one decimal, a readiness
    tier, the "can send to designers" flag and the recommendations. */
module Scorer {
  import opened Strings
  import opened Slides
  import opened Rows

  const BackgroundWeight: real := 15.0
  const FontsWeight: real := 15.0
  const TextOverloadWeight: real := 10.0
  const TextOnImagesWeight: real := 15.0
  const AnimationsWeight: real := 15.0
  const TransitionsWeight: real := 10.0
  const SlideComplianceWeight: real := 20.0

  /** `sum(weights.values())`. */
  const TotalPossible: real := BackgroundWeight + FontsWeight + TextOverloadWeight + TextOnImagesWeight
    + AnimationsWeight + TransitionsWeight + SlideComplianceWeight

  /** The fixed "ready to send" threshold, independent of the tiers. */
  const SendThreshold: real := 57.0

  // ---------------------------------------------------------------------------
  // Rounding
  // ---------------------------------------------------------------------------

  /** `round(x, 1)`: the nearest multiple of 0.1, halves to the even tenth. The
      value is rounded as an exact number, not as its binary approximation. */
  function Round1(x: real): real {
    var y := x * 10.0;
    var f := y.Floor;
    var frac := y - f as real;
    var k := if frac < 0.5 then f else if frac > 0.5 then f + 1 else if f % 2 == 0 then f else f + 1;
    k as real / 10.0
  }

  /** Rounding never moves a value by more than half a tenth. */
  lemma {:induction false} Round1Close(x: real)
    ensures -0.05 <= Round1(x) - x <= 0.05
  {
    var y := x * 10.0;
    var f := y.Floor;
    assert f as real <= y < f as real + 1.0;
  }

  /** Rounding is monotone. */
  lemma {:induction false} Round1Monotone(x: real, y: real)
    requires x <= y
    ensures Round1(x) <= Round1(y)
  {
    var fx, fy := (x * 10.0).Floor, (y * 10.0).Floor;
    assert fx <= fy by {
      assert fx as real <= x * 10.0 <= y * 10.0 < fy as real + 1.0;
    }
    var kx := RoundedTenths(x);
    var ky := RoundedTenths(y);
    assert kx <= ky;
  }

  /** The number of tenths `Round1` returns, and how it relates to the floor. */
  lemma {:induction false} RoundedTenths(x: real) returns (k: int)
    ensures Round1(x) == k as real / 10.0
    ensures var f := (x * 10.0).Floor;
      && (f <= k <= f + 1)
      && (x * 10.0 - f as real < 0.5 ==> k == f)
      && (x * 10.0 - f as real > 0.5 ==> k == f + 1)
  {
    var y := x * 10.0;
    var f := y.Floor;
    var frac := y - f as real;
    k := if frac < 0.5 then f else if frac > 0.5 then f + 1 else if f % 2 == 0 then f else f + 1;
  }

  /** A value with at most one decimal is left as it is. */
  lemma {:induction false} Round1Tenths(k: int)
    ensures Round1(k as real / 10.0) == k as real / 10.0
  {
    var x := k as real / 10.0;
    assert x * 10.0 == k as real;
    assert (x * 10.0).Floor == k;
  }

  // ---------------------------------------------------------------------------
  // The criteria
  // ---------------------------------------------------------------------------

  /** `(total - issues) / total * weight`, or the whole weight when no slide was
      analyzed. */
  function Proportional(total: nat, issues: nat, weight: real): real {
    if total == 0 then weight else (total - issues) as real / total as real * weight
  }

  lemma {:induction false} ScaleMonotone(a: real, b: real, n: real, w: real)
    requires a <= b && n > 0.0 && w >= 0.0
    ensures a / n * w <= b / n * w
  {
    assert b / n - a / n == (b - a) / n;
    assert (b - a) / n >= 0.0;
    assert b / n * w - a / n * w == (b / n - a / n) * w;
  }

  lemma {:induction false} ScaleWhole(n: real, w: real)
    requires n > 0.0
    ensures n / n * w == w
  {
    assert n / n == 1.0;
  }

  /** A share of at most the whole, of a non-negative weight, lies between 0 and
      the weight. */
  lemma {:induction false} ScaleBounds(a: real, n: real, w: real)
    requires 0.0 <= a <= n && n > 0.0 && w >= 0.0
    ensures 0.0 <= a / n * w <= w
  {
    ScaleMonotone(0.0, a, n, w);
    ScaleMonotone(a, n, n, w);
    ScaleWhole(n, w);
    assert 0.0 / n * w == 0.0;
  }

  /** A proportional score lies between 0 and its weight as long as there are no
      more issues than slides, the weight is awarded in full when there is no
      slide or no issue, and more issues never raise it. */
  lemma {:induction false} ProportionalProperties(total: nat, issues: nat, more: nat, weight: real)
    requires weight >= 0.0 && issues <= more
    ensures issues <= total ==> 0.0 <= Proportional(total, issues, weight) <= weight
    ensures total == 0 || issues == 0 ==> Proportional(total, issues, weight) == weight
    ensures Proportional(total, more, weight) <= Proportional(total, issues, weight)
  {
    if total > 0 {
      var n := total as real;
      ScaleMonotone((total - more) as real, (total - issues) as real, n, weight);
      ScaleWhole(n, weight);
      if issues <= total {
        ScaleBounds((total - issues) as real, n, weight);
      }
    }
  }

  /** `fonts_count <= 2` earns the weight, 3 half of it, more nothing. */
  function FontsScore(fontsCount: nat): real {
    if fontsCount <= 2 then FontsWeight else if fontsCount <= 3 then FontsWeight * 0.5 else 0.0
  }

  /** One transition anywhere forfeits the whole weight. */
  function TransitionScore(hasTransitions: bool): real {
    if !hasTransitions then TransitionsWeight else 0.0
  }

  /** `compliant / total * weight`, or the whole weight when no slide was analyzed. */
  function ComplianceScore(total: nat, compliant: nat): real {
    if total == 0 then SlideComplianceWeight else compliant as real / total as real * SlideComplianceWeight
  }

  /** The counts the score is computed from: the analyzed rows give the slide
      count, text and animation issues and the compliant slides; the statistics
      give background issues, fonts, text on images and transitions (with the
      `.get` defaults when there are no statistics). */
  datatype Counts = Counts(
    total: nat, backgroundIssues: nat, fontsCount: nat, textIssues: nat,
    textOnImages: nat, animIssues: nat, hasTransitions: bool, compliant: nat)

  function CountsOf(rows: seq<Row>, stats: Option<Stats>): Counts {
    Counts(|rows|,
      if stats.Some? then stats.value.backgroundIssues else 0,
      if stats.Some? then stats.value.fontsCount else 0,
      Count(rows, TextFails),
      if stats.Some? then stats.value.textOnImages else 0,
      Count(rows, AnimationsFail),
      stats.Some? && stats.value.hasTransitions,
      Count(rows, Compliant))
  }

  /** `achieved_score`: the sum of the seven scores. */
  function Achieved(c: Counts): real {
    Proportional(c.total, c.backgroundIssues, BackgroundWeight)
    + FontsScore(c.fontsCount)
    + Proportional(c.total, c.textIssues, TextOverloadWeight)
    + Proportional(c.total, c.textOnImages, TextOnImagesWeight)
    + Proportional(c.total, c.animIssues, AnimationsWeight)
    + TransitionScore(c.hasTransitions)
    + ComplianceScore(c.total, c.compliant)
  }

  /** `round(achieved / total_possible * 100, 1)`. */
  function Percentage(c: Counts): real {
    Round1(Achieved(c) / TotalPossible * 100.0)
  }

  /** Issue counts that a run can produce: none exceeds the number of rows. */
  predicate Plausible(c: Counts) {
    c.backgroundIssues <= c.total && c.textIssues <= c.total && c.textOnImages <= c.total
    && c.animIssues <= c.total && c.compliant <= c.total
  }

  /** `c` is at least as bad as `d` on every criterion. */
  predicate NoBetter(c: Counts, d: Counts) {
    && c.total == d.total
    && c.backgroundIssues >= d.backgroundIssues && c.fontsCount >= d.fontsCount
    && c.textIssues >= d.textIssues && c.textOnImages >= d.textOnImages
    && c.animIssues >= d.animIssues && (d.hasTransitions ==> c.hasTransitions)
    && c.compliant <= d.compliant
  }

  lemma {:induction false} ComplianceProperties(total: nat, compliant: nat, more: nat)
    requires compliant <= more
    ensures compliant <= total ==> 0.0 <= ComplianceScore(total, compliant)
    ensures more <= total ==> ComplianceScore(total, more) <= SlideComplianceWeight
    ensures ComplianceScore(total, compliant) <= ComplianceScore(total, more)
  {
    if total > 0 {
      var n := total as real;
      ScaleMonotone(compliant as real, more as real, n, SlideComplianceWeight);
      ScaleMonotone(0.0, compliant as real, n, SlideComplianceWeight);
      assert 0.0 / n * SlideComplianceWeight == 0.0;
      if more <= total {
        ScaleBounds(more as real, n, SlideComplianceWeight);
      }
    }
  }

  /** Because the weights add up to 100, the percentage is the achieved score
      rounded, and it lies between 0 and 100. */
  lemma {:induction false} PercentageBounds(c: Counts)
    requires Plausible(c)
    ensures Percentage(c) == Round1(Achieved(c))
    ensures 0.0 <= Achieved(c) <= 100.0
    ensures 0.0 <= Percentage(c) <= 100.0
  {
    ProportionalProperties(c.total, c.backgroundIssues, c.backgroundIssues, BackgroundWeight);
    ProportionalProperties(c.total, c.textIssues, c.textIssues, TextOverloadWeight);
    ProportionalProperties(c.total, c.textOnImages, c.textOnImages, TextOnImagesWeight);
    ProportionalProperties(c.total, c.animIssues, c.animIssues, AnimationsWeight);
    ComplianceProperties(c.total, c.compliant, c.compliant);
    assert Achieved(c) / TotalPossible * 100.0 == Achieved(c);
    Round1Monotone(0.0, Achieved(c));
    Round1Monotone(Achieved(c), 100.0);
    Round1Tenths(0);
    Round1Tenths(1000);
  }

  /** More issues on any criterion, the others held fixed or worse, never raise
      the percentage. */
  lemma {:induction false} PercentageMonotone(c: Counts, d: Counts)
    requires NoBetter(c, d)
    ensures Achieved(c) <= Achieved(d)
    ensures Percentage(c) <= Percentage(d)
  {
    ProportionalProperties(c.total, d.backgroundIssues, c.backgroundIssues, BackgroundWeight);
    ProportionalProperties(c.total, d.textIssues, c.textIssues, TextOverloadWeight);
    ProportionalProperties(c.total, d.textOnImages, c.textOnImages, TextOnImagesWeight);
    ProportionalProperties(c.total, d.animIssues, c.animIssues, AnimationsWeight);
    ComplianceProperties(c.total, c.compliant, d.compliant);
    assert FontsScore(c.fontsCount) <= FontsScore(d.fontsCount);
    assert Achieved(c) / TotalPossible * 100.0 == Achieved(c);
    assert Achieved(d) / TotalPossible * 100.0 == Achieved(d);
    Round1Monotone(Achieved(c), Achieved(d));
  }

  // ---------------------------------------------------------------------------
  // Tiers, sending and recommendations
  // ---------------------------------------------------------------------------

  datatype Tier = Excellent | Good | Satisfactory | NeedsWork | CriticallyLow {
    /** `readiness_level`. */
    function Label(): string {
      match this
      case Excellent => "отлично"
      case Good => "хорошо"
      case Satisfactory => "удовлетворительно"
      case NeedsWork => "требует доработки"
      case CriticallyLow => "критически низкая"
    }

    /** 0 for the best tier, 4 for the worst. */
    function Rank(): nat {
      match this
      case Excellent => 0
      case Good => 1
      case Satisfactory => 2
      case NeedsWork => 3
      case CriticallyLow => 4
    }
  }

  /** The tier by the inclusive lower bounds 90, 75, 60 and 40. */
  function TierOf(percentage: real): Tier {
    if percentage >= 90.0 then Excellent
    else if percentage >= 75.0 then Good
    else if percentage >= 60.0 then Satisfactory
    else if percentage >= 40.0 then NeedsWork
    else CriticallyLow
  }

  /** A higher percentage never gives a worse tier. */
  lemma {:induction false} TierMonotone(p: real, q: real)
    requires p <= q
    ensures TierOf(q).Rank() <= TierOf(p).Rank()
  {
  }

  /** The send threshold sits inside the "needs work" tier: a deck can be sendable
      and still need work, and a "satisfactory" deck is always sendable. */
  lemma {:induction false} SendableInsideNeedsWork()
    ensures TierOf(58.0) == NeedsWork && 58.0 >= SendThreshold
    ensures forall p: real :: TierOf(p).Rank() <= Satisfactory.Rank() ==> p >= SendThreshold
  {
  }

  /** One recommendation of `calculate_conformance_percentage`: which advice it is
      and the count it quotes. `Message()` renders the Russian sentence. */
  datatype Advice =
    | Rework
    | FixBackground(slides: nat)
    | ReduceFonts(fonts: nat)
    | ReduceText(slides: nat)
    | RemoveTextOnImages(slides: nat)
    | RemoveAnimations(slides: nat)
    | RemoveTransitions
  {
    function Message(): string {
      match this
      case Rework => "Рекомендуется доработать презентацию перед отправкой дизайнерам"
      case FixBackground(n) => "Исправьте фон на " + NatToString(n) + " слайдах"
      case ReduceFonts(n) => "Уменьшите количество шрифтов с " + NatToString(n) + " до 2"
      case ReduceText(n) => "Уменьшите текст на " + NatToString(n) + " слайдах"
      case RemoveTextOnImages(n) => "Уберите текст с изображений на " + NatToString(n) + " слайдах"
      case RemoveAnimations(n) => "Удалите анимации с " + NatToString(n) + " слайдов"
      case RemoveTransitions => "Удалите переходы между слайдами"
    }

    /** The position of this advice in the order the source appends them. */
    function Rank(): nat {
      match this
      case Rework => 0
      case FixBackground(_) => 1
      case ReduceFonts(_) => 2
      case ReduceText(_) => 3
      case RemoveTextOnImages(_) => 4
      case RemoveAnimations(_) => 5
      case RemoveTransitions => 6
    }
  }

  /** The advice, appended in the order of analyzer.py:233-247. */
  function Advices(c: Counts, percentage: real): seq<Advice> {
    var r0 := AddIf([], percentage < SendThreshold, Rework);
    var r1 := AddIf(r0, c.backgroundIssues > 0, FixBackground(c.backgroundIssues));
    var r2 := AddIf(r1, c.fontsCount > 2, ReduceFonts(c.fontsCount));
    var r3 := AddIf(r2, c.textIssues > 0, ReduceText(c.textIssues));
    var r4 := AddIf(r3, c.textOnImages > 0, RemoveTextOnImages(c.textOnImages));
    var r5 := AddIf(r4, c.animIssues > 0, RemoveAnimations(c.animIssues));
    AddIf(r5, c.hasTransitions, RemoveTransitions)
  }

  /** The `recommendations` list: the advice rendered one sentence each. */
  function Recommendations(c: Counts, percentage: real): (recs: seq<string>)
    ensures |recs| == |Advices(c, percentage)|
    ensures forall i :: 0 <= i < |recs| ==> recs[i] == Advices(c, percentage)[i].Message()
  {
    var a := Advices(c, percentage);
    seq(|a|, i requires 0 <= i < |a| => a[i].Message())
  }

  predicate AdviceRanksIncrease(advice: seq<Advice>) {
    forall i, j :: 0 <= i < j < |advice| ==> advice[i].Rank() < advice[j].Rank()
  }

  /** Every advice ranks below `bound`. */
  predicate RanksBelow(advice: seq<Advice>, bound: nat) {
    forall i :: 0 <= i < |advice| ==> advice[i].Rank() < bound
  }

  lemma {:induction false} AddIfAdvice(advice: seq<Advice>, cond: bool, a: Advice)
    requires AdviceRanksIncrease(advice) && RanksBelow(advice, a.Rank())
    ensures AdviceRanksIncrease(AddIf(advice, cond, a)) && RanksBelow(AddIf(advice, cond, a), a.Rank() + 1)
  {
  }

  /** The advice comes in the fixed order rework, background, fonts, text, text on
      images, animations, transitions, each at most once. */
  lemma {:induction false} AdvicesOrdered(c: Counts, percentage: real)
    ensures AdviceRanksIncrease(Advices(c, percentage))
  {
    var r0 := AddIf([], percentage < SendThreshold, Rework);
    assert AdviceRanksIncrease(r0) && RanksBelow(r0, 1) by {
      AddIfAdvice([], percentage < SendThreshold, Rework);
    }
    var r1 := AddIf(r0, c.backgroundIssues > 0, FixBackground(c.backgroundIssues));
    assert AdviceRanksIncrease(r1) && RanksBelow(r1, 2) by {
      AddIfAdvice(r0, c.backgroundIssues > 0, FixBackground(c.backgroundIssues));
    }
    var r2 := AddIf(r1, c.fontsCount > 2, ReduceFonts(c.fontsCount));
    assert AdviceRanksIncrease(r2) && RanksBelow(r2, 3) by {
      AddIfAdvice(r1, c.fontsCount > 2, ReduceFonts(c.fontsCount));
    }
    var r3 := AddIf(r2, c.textIssues > 0, ReduceText(c.textIssues));
    assert AdviceRanksIncrease(r3) && RanksBelow(r3, 4) by {
      AddIfAdvice(r2, c.textIssues > 0, ReduceText(c.textIssues));
    }
    var r4 := AddIf(r3, c.textOnImages > 0, RemoveTextOnImages(c.textOnImages));
    assert AdviceRanksIncrease(r4) && RanksBelow(r4, 5) by {
      AddIfAdvice(r3, c.textOnImages > 0, RemoveTextOnImages(c.textOnImages));
    }
    var r5 := AddIf(r4, c.animIssues > 0, RemoveAnimations(c.animIssues));
    assert AdviceRanksIncrease(r5) && RanksBelow(r5, 6) by {
      AddIfAdvice(r4, c.animIssues > 0, RemoveAnimations(c.animIssues));
    }
    AddIfAdvice(r5, c.hasTransitions, RemoveTransitions);
  }

  /** What the advice list holds: each advice exactly when its condition holds,
      quoting the count it was computed from, and nothing else. */
  lemma {:induction false} AdvicesHold(c: Counts, percentage: real, x: Advice)
    ensures x in Advices(c, percentage) <==>
      || (x == Rework && percentage < SendThreshold)
      || (x == FixBackground(c.backgroundIssues) && c.backgroundIssues > 0)
      || (x == ReduceFonts(c.fontsCount) && c.fontsCount > 2)
      || (x == ReduceText(c.textIssues) && c.textIssues > 0)
      || (x == RemoveTextOnImages(c.textOnImages) && c.textOnImages > 0)
      || (x == RemoveAnimations(c.animIssues) && c.animIssues > 0)
      || (x == RemoveTransitions && c.hasTransitions)
  {
    var r0 := AddIf([], percentage < SendThreshold, Rework);
    var r1 := AddIf(r0, c.backgroundIssues > 0, FixBackground(c.backgroundIssues));
    var r2 := AddIf(r1, c.fontsCount > 2, ReduceFonts(c.fontsCount));
    var r3 := AddIf(r2, c.textIssues > 0, ReduceText(c.textIssues));
    var r4 := AddIf(r3, c.textOnImages > 0, RemoveTextOnImages(c.textOnImages));
    var r5 := AddIf(r4, c.animIssues > 0, RemoveAnimations(c.animIssues));
    AddIfIn([], percentage < SendThreshold, Rework, x);
    AddIfIn(r0, c.backgroundIssues > 0, FixBackground(c.backgroundIssues), x);
    AddIfIn(r1, c.fontsCount > 2, ReduceFonts(c.fontsCount), x);
    AddIfIn(r2, c.textIssues > 0, ReduceText(c.textIssues), x);
    AddIfIn(r3, c.textOnImages > 0, RemoveTextOnImages(c.textOnImages), x);
    AddIfIn(r4, c.animIssues > 0, RemoveAnimations(c.animIssues), x);
    AddIfIn(r5, c.hasTransitions, RemoveTransitions, x);
  }

  /** Each advice appears exactly when its count is non-zero (fonts: above two;
      the rework note: when the percentage is below 57), quoting that count. */
  lemma {:induction false} AdvicesPresent(c: Counts, percentage: real)
    ensures var a := Advices(c, percentage);
      && (Rework in a <==> percentage < SendThreshold)
      && (FixBackground(c.backgroundIssues) in a <==> c.backgroundIssues > 0)
      && (ReduceFonts(c.fontsCount) in a <==> c.fontsCount > 2)
      && (ReduceText(c.textIssues) in a <==> c.textIssues > 0)
      && (RemoveTextOnImages(c.textOnImages) in a <==> c.textOnImages > 0)
      && (RemoveAnimations(c.animIssues) in a <==> c.animIssues > 0)
      && (RemoveTransitions in a <==> c.hasTransitions)
  {
    AdvicesHold(c, percentage, Rework);
    AdvicesHold(c, percentage, FixBackground(c.backgroundIssues));
    AdvicesHold(c, percentage, ReduceFonts(c.fontsCount));
    AdvicesHold(c, percentage, ReduceText(c.textIssues));
    AdvicesHold(c, percentage, RemoveTextOnImages(c.textOnImages));
    AdvicesHold(c, percentage, RemoveAnimations(c.animIssues));
    AdvicesHold(c, percentage, RemoveTransitions);
  }

  /** No advice quotes anything but the counts. */
  lemma {:induction false} AdvicesQuoteCounts(c: Counts, percentage: real)
    ensures forall x :: x in Advices(c, percentage) ==>
      x in {Rework, FixBackground(c.backgroundIssues), ReduceFonts(c.fontsCount), ReduceText(c.textIssues),
            RemoveTextOnImages(c.textOnImages), RemoveAnimations(c.animIssues), RemoveTransitions}
  {
    forall x | x in Advices(c, percentage) {
      AdvicesHold(c, percentage, x);
    }
  }

  /** The number of recommendations is the number of failed criteria plus the
      rework note. */
  lemma {:induction false} AdviceCount(c: Counts, percentage: real)
    ensures |Advices(c, percentage)| ==
      (if percentage < SendThreshold then 1 else 0) + (if c.backgroundIssues > 0 then 1 else 0)
      + (if c.fontsCount > 2 then 1 else 0) + (if c.textIssues > 0 then 1 else 0)
      + (if c.textOnImages > 0 then 1 else 0) + (if c.animIssues > 0 then 1 else 0)
      + (if c.hasTransitions then 1 else 0)
  {
  }

  /** The report recommends nothing exactly when the deck is sendable and no
      criterion has an issue. */
  lemma {:induction false} NoRecommendationsIff(c: Counts, percentage: real)
    ensures Recommendations(c, percentage) == [] <==>
      && percentage >= SendThreshold && c.backgroundIssues == 0 && c.fontsCount <= 2
      && c.textIssues == 0 && c.textOnImages == 0 && c.animIssues == 0 && !c.hasTransitions
  {
    AdviceCount(c, percentage);
  }

  // ---------------------------------------------------------------------------
  // The report
  // ---------------------------------------------------------------------------

  /** One entry of `criteria_details`: the rounded score, the weight and the count
      the entry reports (issues, fonts, 0/1 for transitions, compliant slides). */
  datatype Detail = Detail(score: real, max: real, count: nat)

  datatype Report = Report(
    percentage: real,
    tier: Tier,
    canSend: bool,
    background: Detail,
    fonts: Detail,
    textOverload: Detail,
    textOnImages: Detail,
    animations: Detail,
    transitions: Detail,
    slideCompliance: Detail,
    recommendations: seq<string>,
    totalPossible: real,
    achieved: real,
    compliantSlides: nat,
    totalSlides: nat)

  function ReportOf(c: Counts): Report {
    var p := Percentage(c);
    Report(p, TierOf(p), p >= SendThreshold,
      Detail(Round1(Proportional(c.total, c.backgroundIssues, BackgroundWeight)), BackgroundWeight, c.backgroundIssues),
      Detail(Round1(FontsScore(c.fontsCount)), FontsWeight, c.fontsCount),
      Detail(Round1(Proportional(c.total, c.textIssues, TextOverloadWeight)), TextOverloadWeight, c.textIssues),
      Detail(Round1(Proportional(c.total, c.textOnImages, TextOnImagesWeight)), TextOnImagesWeight, c.textOnImages),
      Detail(Round1(Proportional(c.total, c.animIssues, AnimationsWeight)), AnimationsWeight, c.animIssues),
      Detail(Round1(TransitionScore(c.hasTransitions)), TransitionsWeight, if c.hasTransitions then 1 else 0),
      Detail(Round1(ComplianceScore(c.total, c.compliant)), SlideComplianceWeight, c.compliant),
      Recommendations(c, p), TotalPossible, Round1(Achieved(c)), c.compliant, c.total)
  }

  /** `calculate_conformance_percentage(results, presentation_stats)`. */
  function Conformance(rows: seq<Row>, stats: Option<Stats>): Report {
    ReportOf(CountsOf(rows, stats))
  }

  /** The counts taken from the rows never exceed the number of rows. */
  lemma {:induction false} CountsOfPlausible(rows: seq<Row>, stats: Option<Stats>)
    requires stats.Some? ==> stats.value.backgroundIssues <= |rows| && stats.value.textOnImages <= |rows|
    ensures Plausible(CountsOf(rows, stats))
  {
  }

  /** The rework note is given exactly below the sending threshold, and then it
      comes first. */
  lemma {:induction false} ReworkFirst(c: Counts, percentage: real)
    ensures var a := Advices(c, percentage);
      percentage < SendThreshold <==> a != [] && a[0] == Rework
  {
    var a := Advices(c, percentage);
    AdvicesHold(c, percentage, Rework);
    AdvicesOrdered(c, percentage);
    if Rework in a {
      var i :| 0 <= i < |a| && a[i] == Rework;
      assert i == 0 || a[0].Rank() < a[i].Rank();
    }
  }

  /** The report's percentage is in [0, 100], it is sendable exactly from 57, and
      its tier follows the thresholds. */
  lemma {:induction false} ReportProperties(rows: seq<Row>, stats: Option<Stats>)
    requires stats.Some? ==> stats.value.backgroundIssues <= |rows| && stats.value.textOnImages <= |rows|
    ensures var r := Conformance(rows, stats);
      && 0.0 <= r.percentage <= 100.0
      && (r.canSend <==> r.percentage >= 57.0)
      && (r.tier == Excellent <==> r.percentage >= 90.0)
      && (r.tier == CriticallyLow <==> r.percentage < 40.0)
  {
    PercentageBounds(CountsOf(rows, stats));
  }

  /** A deck whose every analyzed slide meets every criterion, with at most two
      fonts and no transition, scores 100.0: "excellent", sendable, nothing to
      recommend. */
  lemma {:induction false} CleanDeckScoresFull(c: Counts)
    requires c.total > 0 && c.backgroundIssues == 0 && c.fontsCount <= 2 && c.textIssues == 0
    requires c.textOnImages == 0 && c.animIssues == 0 && !c.hasTransitions && c.compliant == c.total
    ensures var r := ReportOf(c);
      r.percentage == 100.0 && r.tier == Excellent && r.canSend && r.recommendations == []
  {
    var n := c.total as real;
    assert n / n == 1.0;
    assert Achieved(c) == 100.0;
    Round1Tenths(1000);
  }

  /** Three slides, one with a non-white background: the background scores
      (3-1)/3*15 = 10.0. One with too much text: the text score is (3-1)/3*10,
      which is reported as 6.7. */
  lemma {:induction false} ThreeSlideExample()
    ensures Proportional(3, 1, BackgroundWeight) == 10.0
    ensures Round1(Proportional(3, 1, TextOverloadWeight)) == 6.7
  {
    var t := Proportional(3, 1, TextOverloadWeight);
    assert t == 20.0 / 3.0;
    assert (t * 10.0).Floor == 66 by {
      assert 66.0 <= t * 10.0 < 67.0;
    }
  }

  /** `calculate_conformance_percentage`, with its loop counting compliant rows. */
  method CalculateConformance(rows: seq<Row>, stats: Option<Stats>) returns (report: Report)
    ensures report == Conformance(rows, stats)
  {
    var compliant := 0;
    var i := 0;
    while i < |rows|
      invariant 0 <= i <= |rows|
      invariant compliant == Count(rows[..i], Compliant)
    {
      if Compliant(rows[i]) {
        compliant := compliant + 1;
      }
      assert rows[..i + 1][..i] == rows[..i];
      i := i + 1;
    }
    assert rows[..i] == rows;
    var c := CountsOf(rows, stats).(compliant := compliant);
    report := ReportOf(c);
  }
}
