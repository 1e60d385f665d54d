/** Assessment reduction and subject scoring: the rule table keyed by credit count, the
    clamp-and-scale of each raw mark, the 2-decimal subject score, and the letter grade
    and grade point derived from it. */
module Grades {
  import opened Common
  import opened Rounding
  import opened Text

  /** One component of a credit model: its raw maximum and the share of the subject
      score it is reduced to. */
  datatype AssessmentRule = AssessmentRule(name: string, maxRaw: real, reducedTo: real)

  datatype ScoreError =
    | NonPositiveMaxRaw
    | UnsupportedCredits(credits: int)
    | MissingScores(missing: seq<string>)

  const TwoCreditRules: seq<AssessmentRule> := [
    AssessmentRule("ISA1", 30.0, 25.0),
    AssessmentRule("ISA2", 30.0, 25.0),
    AssessmentRule("ESA", 50.0, 50.0)
  ]

  const FourCreditRules: seq<AssessmentRule> := [
    AssessmentRule("ISA1", 40.0, 20.0),
    AssessmentRule("ISA2", 40.0, 20.0),
    AssessmentRule("ESA", 100.0, 50.0),
    AssessmentRule("A1", 10.0, 2.5),
    AssessmentRule("A2", 10.0, 2.5),
    AssessmentRule("A3", 10.0, 2.5),
    AssessmentRule("A4", 10.0, 2.5)
  ]

  const FiveCreditRules: seq<AssessmentRule> := [
    AssessmentRule("ISA1", 40.0, 20.0),
    AssessmentRule("ISA2", 40.0, 20.0),
    AssessmentRule("ESA", 100.0, 50.0),
    AssessmentRule("A1", 10.0, 2.5),
    AssessmentRule("A2", 10.0, 2.5),
    AssessmentRule("A3", 10.0, 2.5),
    AssessmentRule("A4", 10.0, 2.5),
    AssessmentRule("LAB", 20.0, 20.0)
  ]

  /** RULES_BY_CREDITS, in the table's own component order. */
  function RulesByCredits(credits: int): (rules: Option<seq<AssessmentRule>>)
    ensures rules.Some? <==> credits == 2 || credits == 4 || credits == 5
    ensures rules.Some? ==> WellFormed(rules.value) && DistinctNames(rules.value)
  {
    if credits == 2 then Some(TwoCreditRules)
    else if credits == 4 then Some(FourCreditRules)
    else if credits == 5 then Some(FiveCreditRules)
    else None
  }

  predicate SupportedCredits(credits: int) {
    RulesByCredits(credits).Some?
  }

  ghost predicate WellFormed(rules: seq<AssessmentRule>) {
    forall i :: 0 <= i < |rules| ==> rules[i].maxRaw > 0.0 && rules[i].reducedTo >= 0.0
  }

  ghost predicate DistinctNames(rules: seq<AssessmentRule>) {
    forall i, j :: 0 <= i < j < |rules| ==> rules[i].name != rules[j].name
  }

  /** The component names of a credit model, in table order. */
  function Names(rules: seq<AssessmentRule>): (names: seq<string>)
  {
    seq(|rules|, i requires 0 <= i < |rules| => rules[i].name)
  }

  /** A name is listed exactly when some component of the table carries it, and there
      is one name per component. */
  lemma {:induction false} NamesMembers(rules: seq<AssessmentRule>, n: string)
    ensures |Names(rules)| == |rules|
    ensures n in Names(rules) <==> exists r :: r in rules && r.name == n
  {
    var names := Names(rules);
    if n in names {
      var i :| 0 <= i < |names| && names[i] == n;
      assert rules[i] in rules && rules[i].name == n;
    }
    if r :| r in rules && r.name == n {
      var i :| 0 <= i < |rules| && rules[i] == r;
      assert names[i] == n;
    }
  }

  /** The sum of the table's `reduced_to` ceilings. */
  function CeilingTotal(rules: seq<AssessmentRule>): real
  {
    if rules == [] then 0.0 else CeilingTotal(rules[..|rules| - 1]) + rules[|rules| - 1].reducedTo
  }

  /** The 2- and 4-credit ceilings add up to 100; the 5-credit table adds LAB 20 on top of
      the 4-credit components and adds up to 120. */
  lemma {:induction false} CeilingTotals()
    ensures CeilingTotal(TwoCreditRules) == 100.0
    ensures CeilingTotal(FourCreditRules) == 100.0
    ensures CeilingTotal(FiveCreditRules) == 120.0
  {
    var t := TwoCreditRules;
    assert t[..3] == t && t[..3][..2] == t[..2] && t[..2][..1] == t[..1] && t[..1][..0] == [];
    assert CeilingTotal(t[..1]) == 25.0;
    assert CeilingTotal(t[..2]) == 50.0;
    var r := FiveCreditRules;
    assert FourCreditRules == r[..7];
    assert r[..7][..6] == r[..6] && r[..6][..5] == r[..5] && r[..5][..4] == r[..4];
    assert r[..4][..3] == r[..3] && r[..3][..2] == r[..2] && r[..2][..1] == r[..1] && r[..1][..0] == [];
    assert CeilingTotal(r[..1]) == 20.0;
    assert CeilingTotal(r[..2]) == 40.0;
    assert CeilingTotal(r[..3]) == 90.0;
    assert CeilingTotal(r[..4]) == 92.5;
    assert CeilingTotal(r[..5]) == 95.0;
    assert CeilingTotal(r[..6]) == 97.5;
    assert CeilingTotal(r[..7]) == 100.0;
  }

  function Clamp(x: real, lo: real, hi: real): real
    requires lo <= hi
  {
    if x < lo then lo else if x > hi then hi else x
  }

  /** `_scale_to_weighted`: the raw mark clamped to [0, max_raw] and scaled linearly onto
      [0, reduced_to]. */
  function ScaleToWeighted(rawScore: real, maxRaw: real, reducedTo: real): (r: Result<real, ScoreError>)
    ensures r.Failure? <==> maxRaw <= 0.0
    ensures r.Failure? ==> r.error == NonPositiveMaxRaw
    ensures r.Success? && reducedTo >= 0.0 ==> 0.0 <= r.value <= reducedTo
    ensures r.Success? && rawScore <= 0.0 ==> r.value == 0.0
    ensures r.Success? && rawScore >= maxRaw ==> r.value == reducedTo
  {
    if maxRaw <= 0.0 then Failure(NonPositiveMaxRaw)
    else
      var clamped := Clamp(rawScore, 0.0, maxRaw);
      var ratio := clamped / maxRaw;
      assert 0.0 <= ratio <= 1.0;
      assert rawScore >= maxRaw ==> ratio == 1.0 by {
        if rawScore >= maxRaw {
          DivSelf(maxRaw);
        }
      }
      assert rawScore <= 0.0 ==> ratio == 0.0;
      Success(ratio * reducedTo)
  }

  lemma {:induction false} DivSelf(x: real)
    requires x > 0.0
    ensures x / x == 1.0
  {
  }

  lemma {:induction false} ScaleToWeightedMonotone(x: real, y: real, maxRaw: real, reducedTo: real)
    requires x <= y && maxRaw > 0.0 && reducedTo >= 0.0
    ensures ScaleToWeighted(x, maxRaw, reducedTo).value <= ScaleToWeighted(y, maxRaw, reducedTo).value
  {
    var cx, cy := Clamp(x, 0.0, maxRaw), Clamp(y, 0.0, maxRaw);
    assert cx / maxRaw <= cy / maxRaw;
    MulMonotone(cx / maxRaw, cy / maxRaw, reducedTo);
  }

  lemma {:induction false} MulMonotone(a: real, b: real, c: real)
    requires a <= b && c >= 0.0
    ensures a * c <= b * c
  {
  }

  /** The component names absent from the raw scores, in table order. */
  function Missing(rules: seq<AssessmentRule>, rawScores: map<string, real>): (missing: seq<string>)
    ensures forall n :: n in missing <==> n in Names(rules) && n !in rawScores
    ensures IsSubsequence(missing, Names(rules))
  {
    if rules == [] then []
    else
      var init := rules[..|rules| - 1];
      var name := rules[|rules| - 1].name;
      var m := Missing(init, rawScores);
      NamesSnoc(rules);
      if name in rawScores then
        SubsequenceExtend(m, Names(rules));
        m
      else
        assert (m + [name])[..|m|] == m;
        m + [name]
  }

  lemma {:induction false} NamesSnoc(rules: seq<AssessmentRule>)
    requires rules != []
    ensures Names(rules) == Names(rules[..|rules| - 1]) + [rules[|rules| - 1].name]
    ensures Names(rules)[..|rules| - 1] == Names(rules[..|rules| - 1])
  {
    assert Names(rules) == Names(rules[..|rules| - 1]) + [rules[|rules| - 1].name];
  }

  ghost predicate AllPresent(rules: seq<AssessmentRule>, rawScores: map<string, real>) {
    forall i :: 0 <= i < |rules| ==> rules[i].name in rawScores
  }

  lemma NoneMissing(rules: seq<AssessmentRule>, rawScores: map<string, real>)
    ensures Missing(rules, rawScores) == [] <==> AllPresent(rules, rawScores)
  {
    if !AllPresent(rules, rawScores) {
      var i :| 0 <= i < |rules| && rules[i].name !in rawScores;
      assert Names(rules)[i] == rules[i].name;
      assert rules[i].name in Names(rules);
    }
  }

  /** The unrounded total: the sum of every component's scaled mark. */
  function ScaledSum(rules: seq<AssessmentRule>, rawScores: map<string, real>): real
    requires WellFormed(rules) && AllPresent(rules, rawScores)
  {
    if rules == [] then 0.0
    else
      var rule := rules[|rules| - 1];
      ScaledSum(rules[..|rules| - 1], rawScores)
        + ScaleToWeighted(rawScores[rule.name], rule.maxRaw, rule.reducedTo).value
  }

  lemma {:induction false} ScaledSumBounds(rules: seq<AssessmentRule>, rawScores: map<string, real>)
    requires WellFormed(rules) && AllPresent(rules, rawScores)
    ensures 0.0 <= ScaledSum(rules, rawScores) <= CeilingTotal(rules)
  {
    if rules != [] {
      ScaledSumBounds(rules[..|rules| - 1], rawScores);
    }
  }

  /** Only the table's own components enter the sum. */
  lemma {:induction false} ScaledSumIgnoresOtherKeys(rules: seq<AssessmentRule>, rawScores: map<string, real>, key: string, v: real)
    requires WellFormed(rules) && AllPresent(rules, rawScores) && key !in Names(rules)
    ensures AllPresent(rules, rawScores[key := v])
    ensures ScaledSum(rules, rawScores[key := v]) == ScaledSum(rules, rawScores)
  {
    if rules != [] {
      var init := rules[..|rules| - 1];
      assert Names(rules) == Names(init) + [rules[|rules| - 1].name];
      ScaledSumIgnoresOtherKeys(init, rawScores, key, v);
    }
  }

  /** `calculate_subject_score` as a value: the configuration error, the missing
      components, or the total rounded to 2 decimals once, at the end. */
  function SubjectScore(credits: int, rawScores: map<string, real>): Result<real, ScoreError>
  {
    match RulesByCredits(credits)
    case None => Failure(UnsupportedCredits(credits))
    case Some(rules) =>
      var missing := Missing(rules, rawScores);
      if missing != [] then Failure(MissingScores(missing))
      else
        NoneMissing(rules, rawScores);
        Success(Round2(ScaledSum(rules, rawScores)))
  }

  /** `calculate_subject_score`: the loop that accumulates the scaled components. */
  method CalculateSubjectScore(credits: int, rawScores: map<string, real>) returns (r: Result<real, ScoreError>)
    ensures r == SubjectScore(credits, rawScores)
  {
    var found := RulesByCredits(credits);
    if found.None? {
      return Failure(UnsupportedCredits(credits));
    }
    var rules := found.value;
    var missing := Missing(rules, rawScores);
    if missing != [] {
      return Failure(MissingScores(missing));
    }
    NoneMissing(rules, rawScores);
    var total := AccumulateScaled(rules, rawScores);
    return Success(Round2(total));
  }

  /** The loop of `calculate_subject_score`: each component's scaled mark added in table order. */
  method AccumulateScaled(rules: seq<AssessmentRule>, rawScores: map<string, real>) returns (total: real)
    requires WellFormed(rules) && AllPresent(rules, rawScores)
    ensures total == ScaledSum(rules, rawScores)
  {
    total := 0.0;
    for i := 0 to |rules|
      invariant total == ScaledSum(rules[..i], rawScores)
    {
      var rule := rules[i];
      var weighted := ScaleToWeighted(rawScores[rule.name], rule.maxRaw, rule.reducedTo);
      assert rules[..i + 1][..i] == rules[..i];
      total := total + weighted.value;
    }
    assert rules[..|rules|] == rules;
  }

  /** A credit count outside {2, 4, 5} is a configuration error; with a supported count the
      score fails exactly when some component is absent, and then lists the absent names. */
  lemma {:induction false} SubjectScoreErrors(credits: int, rawScores: map<string, real>)
    ensures !SupportedCredits(credits) ==> SubjectScore(credits, rawScores) == Failure(UnsupportedCredits(credits))
    ensures SupportedCredits(credits) ==>
      var rules := RulesByCredits(credits).value;
      (SubjectScore(credits, rawScores).Failure? <==> !AllPresent(rules, rawScores))
      && (SubjectScore(credits, rawScores).Failure? ==>
            SubjectScore(credits, rawScores).error == MissingScores(Missing(rules, rawScores)))
  {
    if SupportedCredits(credits) {
      NoneMissing(RulesByCredits(credits).value, rawScores);
    }
  }

  /** The score lies between 0 and the table's ceiling total: 100 for 2 and 4 credits,
      120 for 5 credits. */
  lemma {:induction false} SubjectScoreBounds(credits: int, rawScores: map<string, real>)
    requires SubjectScore(credits, rawScores).Success?
    ensures 0.0 <= SubjectScore(credits, rawScores).value
    ensures SubjectScore(credits, rawScores).value <= (if credits == 5 then 120.0 else 100.0)
  {
    var rules := RulesByCredits(credits).value;
    NoneMissing(rules, rawScores);
    ScaledSumBounds(rules, rawScores);
    CeilingTotals();
    Round2Within(ScaledSum(rules, rawScores), 0, if credits == 5 then 120 else 100);
  }

  ghost predicate AtLeastMax(rules: seq<AssessmentRule>, rawScores: map<string, real>)
    requires AllPresent(rules, rawScores)
  {
    forall i :: 0 <= i < |rules| ==> rawScores[rules[i].name] >= rules[i].maxRaw
  }

  ghost predicate AtMostZero(rules: seq<AssessmentRule>, rawScores: map<string, real>)
    requires AllPresent(rules, rawScores)
  {
    forall i :: 0 <= i < |rules| ==> rawScores[rules[i].name] <= 0.0
  }

  lemma {:induction false} ScaledSumExtremes(rules: seq<AssessmentRule>, rawScores: map<string, real>)
    requires WellFormed(rules) && AllPresent(rules, rawScores)
    ensures AtLeastMax(rules, rawScores) ==> ScaledSum(rules, rawScores) == CeilingTotal(rules)
    ensures AtMostZero(rules, rawScores) ==> ScaledSum(rules, rawScores) == 0.0
  {
    if rules != [] {
      ScaledSumExtremes(rules[..|rules| - 1], rawScores);
    }
  }

  /** Full marks in every component give the table's ceiling (100, or 120 for 5 credits)
      and grade S, 10 points; nothing in any component gives 0, grade F, 4 points. */
  lemma {:induction false} EvaluateExtremes(credits: int, rawScores: map<string, real>)
    requires SupportedCredits(credits) && AllPresent(RulesByCredits(credits).value, rawScores)
    ensures AtLeastMax(RulesByCredits(credits).value, rawScores) ==>
      Evaluate(credits, rawScores) == Success(Evaluation(if credits == 5 then 120.0 else 100.0, "S", 10))
    ensures AtMostZero(RulesByCredits(credits).value, rawScores) ==>
      Evaluate(credits, rawScores) == Success(Evaluation(0.0, "F", 4))
  {
    var rules := RulesByCredits(credits).value;
    NoneMissing(rules, rawScores);
    ScaledSumExtremes(rules, rawScores);
    CeilingTotals();
    Round2OfHundredths(0);
    Round2OfHundredths(10000);
    Round2OfHundredths(12000);
  }

  lemma {:induction false} ScaledSumMonotone(rules: seq<AssessmentRule>, lower: map<string, real>, higher: map<string, real>)
    requires WellFormed(rules) && AllPresent(rules, lower) && AllPresent(rules, higher)
    requires forall i :: 0 <= i < |rules| ==> lower[rules[i].name] <= higher[rules[i].name]
    ensures ScaledSum(rules, lower) <= ScaledSum(rules, higher)
  {
    if rules != [] {
      var rule := rules[|rules| - 1];
      ScaledSumMonotone(rules[..|rules| - 1], lower, higher);
      ScaleToWeightedMonotone(lower[rule.name], higher[rule.name], rule.maxRaw, rule.reducedTo);
    }
  }

  /** Raising any component's raw mark never lowers the subject score. */
  lemma {:induction false} SubjectScoreMonotone(credits: int, lower: map<string, real>, higher: map<string, real>)
    requires SupportedCredits(credits)
    requires AllPresent(RulesByCredits(credits).value, lower)
    requires lower.Keys <= higher.Keys
    requires forall k :: k in lower ==> lower[k] <= higher[k]
    ensures SubjectScore(credits, lower).Success? && SubjectScore(credits, higher).Success?
    ensures SubjectScore(credits, lower).value <= SubjectScore(credits, higher).value
  {
    var rules := RulesByCredits(credits).value;
    NoneMissing(rules, lower);
    NoneMissing(rules, higher);
    ScaledSumMonotone(rules, lower, higher);
    Round2Monotone(ScaledSum(rules, lower), ScaledSum(rules, higher));
  }

  /** A key that is not a component of the credit model changes nothing: it is ignored,
      not rejected. */
  lemma {:induction false} SubjectScoreIgnoresOtherKeys(credits: int, rawScores: map<string, real>, key: string, v: real)
    requires SupportedCredits(credits) && key !in Names(RulesByCredits(credits).value)
    ensures SubjectScore(credits, rawScores[key := v]) == SubjectScore(credits, rawScores)
  {
    var rules := RulesByCredits(credits).value;
    var raw' := rawScores[key := v];
    MissingIgnoresOtherKeys(rules, rawScores, key, v);
    NoneMissing(rules, rawScores);
    if AllPresent(rules, rawScores) {
      ScaledSumIgnoresOtherKeys(rules, rawScores, key, v);
    }
  }

  lemma {:induction false} MissingIgnoresOtherKeys(rules: seq<AssessmentRule>, rawScores: map<string, real>, key: string, v: real)
    requires key !in Names(rules)
    ensures Missing(rules, rawScores[key := v]) == Missing(rules, rawScores)
  {
    if rules != [] {
      var init := rules[..|rules| - 1];
      assert Names(rules) == Names(init) + [rules[|rules| - 1].name];
      MissingIgnoresOtherKeys(init, rawScores, key, v);
    }
  }

  datatype Letter = S | A | B | C | D | E | F

  /** `to_letter_grade`: clamp to [0, 100], then bands closed at their lower end. */
  function ToLetterGrade(score100: real): Letter
  {
    var score := Clamp(score100, 0.0, 100.0);
    if score >= 90.0 then S
    else if score >= 80.0 then A
    else if score >= 70.0 then B
    else if score >= 60.0 then C
    else if score >= 50.0 then D
    else if score >= 40.0 then E
    else F
  }

  function LetterText(letter: Letter): string
  {
    match letter
    case S => "S" case A => "A" case B => "B" case C => "C" case D => "D" case E => "E" case F => "F"
  }

  /** The grade-point mapping of `to_grade_point`. */
  function Points(letter: Letter): int
  {
    match letter
    case S => 10 case A => 9 case B => 8 case C => 7 case D => 6 case E => 5 case F => 4
  }

  /** The letter whose text is exactly `text`, if any. */
  function ParseLetter(text: string): (r: Option<Letter>)
    ensures r.Some? ==> LetterText(r.value) == text
  {
    if text == "S" then Some(S)
    else if text == "A" then Some(A)
    else if text == "B" then Some(B)
    else if text == "C" then Some(C)
    else if text == "D" then Some(D)
    else if text == "E" then Some(E)
    else if text == "F" then Some(F)
    else None
  }

  /** `to_grade_point`: the mapping looked up on the upper-cased text; `None` where the
      source raises ValueError. */
  function ToGradePoint(letterGrade: string): (r: Option<int>)
    ensures r.Some? ==> 4 <= r.value <= 10
  {
    match ParseLetter(Upper(letterGrade))
    case Some(letter) => Some(Points(letter))
    case None => None
  }

  /** Every letter, in either case, maps to its point; any other text is rejected. */
  lemma {:induction false} ToGradePointCases(text: string)
    ensures ToGradePoint(text).Some? <==> exists l: Letter :: Upper(text) == LetterText(l)
    ensures forall l: Letter :: Upper(text) == LetterText(l) ==> ToGradePoint(text) == Some(Points(l))
  {
    if exists l: Letter :: Upper(text) == LetterText(l) {
      var l: Letter :| Upper(text) == LetterText(l);
      assert ParseLetter(LetterText(l)) == Some(l);
    }
  }

  lemma {:induction false} ToGradePointOfLetter(letter: Letter)
    ensures ToGradePoint(LetterText(letter)) == Some(Points(letter))
    ensures ToGradePoint(Lower(LetterText(letter))) == Some(Points(letter))
  {
    assert Upper(LetterText(letter)) == LetterText(letter);
    assert Upper(Lower(LetterText(letter))) == LetterText(letter);
  }

  /** The band edges: 90 is S, 89.99 is A, anything above 100 is S, anything below 40
      (negative scores included) is F. */
  lemma {:induction false} LetterBandEdges(score: real)
    ensures ToLetterGrade(90.0) == S && ToLetterGrade(89.99) == A
    ensures ToLetterGrade(80.0) == A && ToLetterGrade(40.0) == E && ToLetterGrade(39.99) == F
    ensures score > 100.0 ==> ToLetterGrade(score) == S
    ensures score < 40.0 ==> ToLetterGrade(score) == F
  {
  }

  /** A higher score never gets a lower grade point. */
  lemma {:induction false} LetterMonotone(x: real, y: real)
    requires x <= y
    ensures Points(ToLetterGrade(x)) <= Points(ToLetterGrade(y))
  {
  }

  datatype Evaluation = Evaluation(score: real, letter: string, point: int)

  /** The (score, letter, point) triple for a score. */
  function EvaluationOf(score: real): Evaluation
  {
    var letter := ToLetterGrade(score);
    Evaluation(score, LetterText(letter), Points(letter))
  }

  /** `evaluate_subject` as a value. */
  function Evaluate(credits: int, rawScores: map<string, real>): Result<Evaluation, ScoreError>
  {
    match SubjectScore(credits, rawScores)
    case Success(score) => Success(EvaluationOf(score))
    case Failure(e) => Failure(e)
  }

  /** `evaluate_subject`: the score, then its letter, then the letter's point. */
  method EvaluateSubject(credits: int, rawScores: map<string, real>) returns (r: Result<Evaluation, ScoreError>)
    ensures r == Evaluate(credits, rawScores)
    ensures r.Success? ==> ToGradePoint(r.value.letter) == Some(r.value.point) && 4 <= r.value.point <= 10
    ensures r.Success? ==> r.value.letter == LetterText(ToLetterGrade(r.value.score))
  {
    var score := CalculateSubjectScore(credits, rawScores);
    if score.Failure? {
      return Failure(score.error);
    }
    var letter := ToLetterGrade(score.value);
    var text := LetterText(letter);
    ToGradePointOfLetter(letter);
    var point := ToGradePoint(text);
    return Success(Evaluation(score.value, text, point.value));
  }

  /** A successful evaluation's point is the point of its score's letter, between 4 and 10. */
  lemma {:induction false} EvaluatePoint(credits: int, rawScores: map<string, real>)
    requires Evaluate(credits, rawScores).Success?
    ensures var ev := Evaluate(credits, rawScores).value;
      && ev.score == SubjectScore(credits, rawScores).value
      && ToGradePoint(ev.letter) == Some(ev.point)
      && ev.letter == LetterText(ToLetterGrade(ev.score))
      && 4 <= ev.point <= 10
  {
    ToGradePointOfLetter(ToLetterGrade(SubjectScore(credits, rawScores).value));
  }
}
