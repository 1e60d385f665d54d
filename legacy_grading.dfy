/** The older scoring scheme: marks clamped to [0, 100], rounded to an integer and looked
    up in a band table, theory components pooled into one percentage, and a 5-credit
    subject blending theory 80% with lab 20%. */
module LegacyGrading {
  import opened Common
  import opened Rounding
  import Grades

  /** One row of GRADE_BANDS: the integer range [low, high] with its letter and points. */
  datatype Band = Band(low: int, high: int, letter: Grades.Letter, points: int)

  const GradeBands: seq<Band> := [
    Band(90, 100, Grades.S, 10),
    Band(80, 89, Grades.A, 9),
    Band(70, 79, Grades.B, 8),
    Band(60, 69, Grades.C, 7),
    Band(50, 59, Grades.D, 6),
    Band(40, 49, Grades.E, 5),
    Band(0, 39, Grades.F, 4)
  ]

  /** `clamp_0_100`. */
  function Clamp0To100(value: real): (r: real)
    ensures 0.0 <= r <= 100.0
    ensures 0.0 <= value <= 100.0 ==> r == value
    ensures value < 0.0 ==> r == 0.0
    ensures value > 100.0 ==> r == 100.0
  {
    if value < 0.0 then 0.0 else if value > 100.0 then 100.0 else value
  }

  predicate InBand(b: Band, n: int) {
    b.low <= n <= b.high
  }

  /** The first band of `bands` whose range contains `n`. */
  function FirstBand(bands: seq<Band>, n: int): (r: Option<Band>)
    ensures r.Some? ==> r.value in bands && InBand(r.value, n)
    ensures r.None? ==> forall i :: 0 <= i < |bands| ==> !InBand(bands[i], n)
  {
    if bands == [] then None
    else if InBand(bands[0], n) then Some(bands[0])
    else FirstBand(bands[1..], n)
  }

  /** What `grade_from_marks` returns: the band of the rounded clamped marks, with the
      ("F", 4) fallback. */
  function GradeOf(marks: real): (Grades.Letter, int)
  {
    match FirstBand(GradeBands, RoundHalfEven(Clamp0To100(marks)))
    case Some(b) => (b.letter, b.points)
    case None => (Grades.F, 4)
  }

  /** The scan of `grade_from_marks` over a band table, stopping at the first band whose
      range holds `n`. */
  method ScanBands(bands: seq<Band>, n: int) returns (r: Option<Band>)
    ensures r == FirstBand(bands, n)
  {
    for i := 0 to |bands|
      invariant FirstBand(bands, n) == FirstBand(bands[i..], n)
    {
      var band := bands[i];
      if band.low <= n <= band.high {
        return Some(band);
      }
      assert bands[i..][1..] == bands[i + 1..];
    }
    return None;
  }

  /** `grade_from_marks`: the band of the rounded clamped marks, or ("F", 4). */
  method GradeFromMarks(marks: real) returns (letter: Grades.Letter, points: int)
    ensures (letter, points) == GradeOf(marks)
  {
    var rounded := RoundHalfEven(Clamp0To100(marks));
    var band := ScanBands(GradeBands, rounded);
    if band.Some? {
      return band.value.letter, band.value.points;
    }
    return Grades.F, 4;
  }

  /** The bands run downwards from [90, 100] to [0, 39], each starting one above where the
      next ends: they cover 0..100 and no two of them overlap. */
  lemma {:induction false} BandsPartition()
    ensures GradeBands[0].high == 100 && GradeBands[|GradeBands| - 1].low == 0
    ensures forall i :: 0 <= i < |GradeBands| - 1 ==> GradeBands[i + 1].high + 1 == GradeBands[i].low
    ensures forall i :: 0 <= i < |GradeBands| ==> GradeBands[i].low <= GradeBands[i].high
  {
  }

  lemma {:induction false} BandsDisjoint(i: int, j: int, n: int)
    requires 0 <= i < j < |GradeBands|
    ensures !(InBand(GradeBands[i], n) && InBand(GradeBands[j], n))
  {
  }

  lemma {:induction false} BandsCover(n: int)
    requires 0 <= n <= 100
    ensures FirstBand(GradeBands, n).Some?
  {
    var b := GradeBands;
    if n >= 90 { assert InBand(b[0], n); }
    else if n >= 80 { assert InBand(b[1], n); }
    else if n >= 70 { assert InBand(b[2], n); }
    else if n >= 60 { assert InBand(b[3], n); }
    else if n >= 50 { assert InBand(b[4], n); }
    else if n >= 40 { assert InBand(b[5], n); }
    else { assert InBand(b[6], n); }
  }

  /** After clamping and rounding the marks always fall in some band, so the ("F", 4)
      fallback is never taken. */
  lemma {:induction false} FallbackUnreachable(marks: real)
    ensures FirstBand(GradeBands, RoundHalfEven(Clamp0To100(marks))).Some?
  {
    var c := Clamp0To100(marks);
    RoundHalfEvenMonotone(0.0, c);
    RoundHalfEvenMonotone(c, 100.0);
    RoundHalfEvenOfInt(0);
    RoundHalfEvenOfInt(100);
    BandsCover(RoundHalfEven(c));
  }

  /** The graded examples: 95 is S, 84 is A, 20 is F, and 89.6 rounds up to 90 and is S
      here although the credit-table grading gives it A. */
  lemma {:induction false} GradeExamples()
    ensures GradeOf(95.0) == (Grades.S, 10)
    ensures GradeOf(84.0) == (Grades.A, 9)
    ensures GradeOf(20.0) == (Grades.F, 4)
    ensures GradeOf(89.6) == (Grades.S, 10) && Grades.ToLetterGrade(89.6) == Grades.A
  {
    RoundHalfEvenOfInt(95);
    RoundHalfEvenOfInt(84);
    RoundHalfEvenOfInt(20);
    RoundHalfEvenUnique(89.6, 90);
  }

  /** On whole marks the two grading schemes agree on the letter and the point. */
  lemma {:induction false} AgreesOnWholeMarks(k: int)
    ensures GradeOf(k as real).0 == Grades.ToLetterGrade(k as real)
    ensures GradeOf(k as real).1 == Grades.Points(Grades.ToLetterGrade(k as real))
  {
    var c := if k < 0 then 0 else if k > 100 then 100 else k;
    assert Clamp0To100(k as real) == c as real;
    RoundHalfEvenOfInt(c);
    WholeMarksBand(c);
    var band := FirstBand(GradeBands, c).value;
    assert GradeOf(k as real) == (band.letter, band.points);
    SameClampSameLetter(k as real, c as real);
  }

  lemma {:induction false} SameClampSameLetter(x: real, y: real)
    requires Grades.Clamp(x, 0.0, 100.0) == Grades.Clamp(y, 0.0, 100.0)
    ensures Grades.ToLetterGrade(x) == Grades.ToLetterGrade(y)
  {
  }

  /** The band a whole mark from 0 to 100 falls in carries the letter and points of the
      threshold grading. */
  lemma {:induction false} WholeMarksBand(c: int)
    requires 0 <= c <= 100
    ensures FirstBand(GradeBands, c).Some?
    ensures var band, letter := FirstBand(GradeBands, c).value, Grades.ToLetterGrade(c as real);
      band.letter == letter && band.points == Grades.Points(letter)
  {
    BandsCover(c);
    var band := FirstBand(GradeBands, c).value;
    var i :| 0 <= i < |GradeBands| && GradeBands[i] == band;
    if i == 0 {} else if i == 1 {} else if i == 2 {} else if i == 3 {}
    else if i == 4 {} else if i == 5 {} else {}
  }

  function ObtainedTotal(components: seq<(real, real)>): real
  {
    if components == [] then 0.0
    else ObtainedTotal(components[..|components| - 1]) + components[|components| - 1].0
  }

  function MaximumTotal(components: seq<(real, real)>): real
  {
    if components == [] then 0.0
    else MaximumTotal(components[..|components| - 1]) + components[|components| - 1].1
  }

  /** What `calc_weighted_total` returns: 0 when the maxima add up to at most 0, else
      the pooled percentage, clamped. */
  function WeightedTotal(components: seq<(real, real)>): real
  {
    var maximum := MaximumTotal(components);
    if maximum <= 0.0 then 0.0
    else Clamp0To100(ObtainedTotal(components) / maximum * 100.0)
  }

  /** `calc_weighted_total`: one pass summing scores and maxima. */
  method CalcWeightedTotal(components: seq<(real, real)>) returns (r: real)
    ensures r == WeightedTotal(components)
    ensures 0.0 <= r <= 100.0
  {
    var obtained := 0.0;
    var maximum := 0.0;
    for i := 0 to |components|
      invariant obtained == ObtainedTotal(components[..i])
      invariant maximum == MaximumTotal(components[..i])
    {
      var (score, maxMarks) := components[i];
      assert components[..i + 1][..i] == components[..i];
      obtained := obtained + score;
      maximum := maximum + maxMarks;
    }
    assert components[..|components|] == components;
    if maximum <= 0.0 {
      return 0.0;
    }
    return Clamp0To100(obtained / maximum * 100.0);
  }

  lemma {:induction false} FullMarksTotals(components: seq<(real, real)>)
    requires forall i :: 0 <= i < |components| ==> components[i].0 == components[i].1
    ensures ObtainedTotal(components) == MaximumTotal(components)
  {
    if components != [] {
      FullMarksTotals(components[..|components| - 1]);
    }
  }

  /** Full marks in every component give 100; no component at all gives 0. */
  lemma {:induction false} WeightedTotalExtremes(components: seq<(real, real)>)
    ensures WeightedTotal([]) == 0.0
    ensures MaximumTotal(components) > 0.0 &&
            (forall i :: 0 <= i < |components| ==> components[i].0 == components[i].1)
            ==> WeightedTotal(components) == 100.0
  {
    if forall i :: 0 <= i < |components| ==> components[i].0 == components[i].1 {
      FullMarksTotals(components);
    }
  }

  datatype FinalError = LabMarksRequired | UnsupportedCredits

  /** What `calc_subject_final` returns. */
  function SubjectFinal(credits: int, theory: seq<(real, real)>, labMarks: Option<real>, labMax: real): Result<real, FinalError>
  {
    var theoryPct := WeightedTotal(theory);
    if credits == 2 || credits == 4 then Success(theoryPct)
    else if credits == 5 then
      if labMarks.None? || labMax <= 0.0 then Failure(LabMarksRequired)
      else
        var labPct := Clamp0To100(labMarks.value / labMax * 100.0);
        Success(Clamp0To100(theoryPct * 0.80 + labPct * 0.20))
    else Failure(UnsupportedCredits)
  }

  /** `calc_subject_final`; `lab_max` defaults to 20 in the source. */
  method CalcSubjectFinal(credits: int, theory: seq<(real, real)>, labMarks: Option<real>, labMax: real)
    returns (r: Result<real, FinalError>)
    ensures r == SubjectFinal(credits, theory, labMarks, labMax)
    ensures r.Success? ==> 0.0 <= r.value <= 100.0
  {
    var theoryPct := CalcWeightedTotal(theory);
    if credits == 2 || credits == 4 {
      return Success(theoryPct);
    }
    if credits == 5 {
      if labMarks.None? || labMax <= 0.0 {
        return Failure(LabMarksRequired);
      }
      var labPct := Clamp0To100(labMarks.value / labMax * 100.0);
      return Success(Clamp0To100(theoryPct * 0.80 + labPct * 0.20));
    }
    return Failure(UnsupportedCredits);
  }

  /** The cases of `calc_subject_final`: 2 and 4 credits give the theory percentage,
      5 credits fail without lab marks or with a non-positive lab maximum and otherwise
      lie between the theory and lab percentages, any other count fails. */
  lemma {:induction false} SubjectFinalCases(credits: int, theory: seq<(real, real)>, labMarks: Option<real>, labMax: real)
    ensures credits == 2 || credits == 4 ==> SubjectFinal(credits, theory, labMarks, labMax) == Success(WeightedTotal(theory))
    ensures credits == 5 ==>
      (SubjectFinal(credits, theory, labMarks, labMax).Failure? <==> labMarks.None? || labMax <= 0.0)
    ensures credits == 5 && labMarks.Some? && labMax > 0.0 ==>
      var t := WeightedTotal(theory);
      var l := Clamp0To100(labMarks.value / labMax * 100.0);
      var r := SubjectFinal(credits, theory, labMarks, labMax).value;
      (t <= l ==> t <= r <= l) && (l <= t ==> l <= r <= t)
    ensures credits != 2 && credits != 4 && credits != 5 ==>
      SubjectFinal(credits, theory, labMarks, labMax) == Failure(UnsupportedCredits)
  {
    var t := WeightedTotal(theory);
    if labMarks.Some? && labMax > 0.0 {
      assert 0.0 <= t <= 100.0;
    }
  }

  /** The 4-credit worked example pools 186 out of 220, that is 930/11, within half a
      hundredth of 84.55. */
  lemma {:induction false} FourCreditExample()
    ensures var r := SubjectFinal(4, [(40.0, 50.0), (42.0, 50.0), (88.0, 100.0), (16.0, 20.0)], None, 20.0);
      r == Success(930.0 / 11.0) && -0.005 < r.value - 84.55 < 0.005
  {
    var cs: seq<(real, real)> := [(40.0, 50.0), (42.0, 50.0), (88.0, 100.0), (16.0, 20.0)];
    assert cs[..3][..2] == cs[..2] && cs[..2][..1] == cs[..1] && cs[..1][..0] == [] && cs[..4] == cs && cs[..4][..3] == cs[..3];
    assert ObtainedTotal(cs[..1]) == 40.0 && MaximumTotal(cs[..1]) == 50.0;
    assert ObtainedTotal(cs[..2]) == 82.0 && MaximumTotal(cs[..2]) == 100.0;
    assert ObtainedTotal(cs[..3]) == 170.0 && MaximumTotal(cs[..3]) == 200.0;
    assert ObtainedTotal(cs) == 186.0 && MaximumTotal(cs) == 220.0;
  }

  /** The 5-credit worked example: theory 189/220 and lab 18/20 blend to more than 80. */
  lemma {:induction false} FiveCreditExample()
    ensures var r := SubjectFinal(5, [(40.0, 50.0), (41.0, 50.0), (90.0, 100.0), (18.0, 20.0)], Some(18.0), 20.0);
      r.Success? && r.value > 80.0
  {
    var cs: seq<(real, real)> := [(40.0, 50.0), (41.0, 50.0), (90.0, 100.0), (18.0, 20.0)];
    assert cs[..3][..2] == cs[..2] && cs[..2][..1] == cs[..1] && cs[..1][..0] == [] && cs[..4] == cs && cs[..4][..3] == cs[..3];
    assert ObtainedTotal(cs[..1]) == 40.0 && MaximumTotal(cs[..1]) == 50.0;
    assert ObtainedTotal(cs[..2]) == 81.0 && MaximumTotal(cs[..2]) == 100.0;
    assert ObtainedTotal(cs[..3]) == 171.0 && MaximumTotal(cs[..3]) == 200.0;
    assert ObtainedTotal(cs) == 189.0 && MaximumTotal(cs) == 220.0;
  }
}
