/** The documents both storage services keep, and the computations they share: the
    per-component assessment payload, the grade document of a finished subject, and the
    SGPA and CGPA summaries gathered from stored grades and terms. */
module StoreDocs {
  import opened Common
  import opened Rounding
  import opened Grades
  import opened Gpa

  /** The fields of a subject document that grading reads. */
  datatype SubjectDoc = SubjectDoc(name: string, credits: int)

  /** One stored assessment: the component name, the rule's limits, the raw mark as
      entered and the weighted mark rounded to 2 decimals. */
  datatype AssessmentDoc = AssessmentDoc(kind: string, maxRaw: real, weightTo: real, scoreRaw: real, scoreWeighted: real)

  /** A subject's final grade document. */
  datatype GradeDoc = GradeDoc(
    subjectId: string, subjectName: string, credits: int,
    finalScore100: real, letterGrade: string, gradePoint: int)

  /** What `save_assessments_and_grade` returns: the partial marker with the missing
      components, or the grade document it stored. */
  datatype SaveResult = Partial(missing: seq<string>) | Final(grade: GradeDoc)

  /** The service errors the modelled operations raise. */
  datatype StoreError =
    | ActiveTermNotSet
    | ActiveTermNotFound
    | SubjectNotFound
    | UnsupportedCreditModel
    | NoGrades
    | NoSemesterResults
    | GpaFailed(cause: GpaError)

  /** A term document's summary fields; either may be absent. */
  datatype TermDoc = TermDoc(name: string, sgpa: Option<real>, totalCredits: Option<int>)

  /** An academic year and its terms, in the order the store lists them. */
  datatype YearDoc = YearDoc(yearLabel: string, terms: seq<TermDoc>)

  /** One entry of the CGPA trend. */
  datatype TrendPoint = TrendPoint(termLabel: string, sgpa: real, credits: int)

  /** The document written for a component that has a raw mark: the mark is kept as
      entered, and the weighted mark is `max(0, min(raw, max_raw)) / max_raw * reduced_to`
      rounded to 2 decimals. */
  function Payload(rule: AssessmentRule, raw: real): (d: AssessmentDoc)
    requires rule.maxRaw > 0.0
    ensures d.kind == rule.name && d.maxRaw == rule.maxRaw && d.weightTo == rule.reducedTo
    ensures d.scoreRaw == raw
    ensures d.scoreWeighted == Round2(ScaleToWeighted(raw, rule.maxRaw, rule.reducedTo).value)
  {
    var capped := if raw <= rule.maxRaw then raw else rule.maxRaw;
    var clamped := if capped > 0.0 then capped else 0.0;
    assert clamped == Clamp(raw, 0.0, rule.maxRaw);
    assert ScaleToWeighted(raw, rule.maxRaw, rule.reducedTo).value == clamped / rule.maxRaw * rule.reducedTo;
    AssessmentDoc(rule.name, rule.maxRaw, rule.reducedTo, raw, Round2(clamped / rule.maxRaw * rule.reducedTo))
  }

  /** The grade document of a fully assessed subject. */
  function GradeOf(subjectId: string, subject: SubjectDoc, ev: Evaluation): GradeDoc
  {
    GradeDoc(subjectId, subject.name, subject.credits, ev.score, ev.letter, ev.point)
  }

  /** A supported subject with every component present always evaluates. */
  lemma {:induction false} EvaluateComplete(credits: int, rawScores: map<string, real>)
    requires SupportedCredits(credits)
    requires Missing(RulesByCredits(credits).value, rawScores) == []
    ensures Evaluate(credits, rawScores).Success?
  {
    SubjectScoreErrors(credits, rawScores);
  }

  // ---------------------------------------------------------------- SGPA

  /** The `(credits, grade_point)` pair a grade contributes, or nothing when its credits
      are not positive. */
  function CourseResult(g: GradeDoc): Option<(int, int)>
  {
    if g.credits <= 0 then None else Some((g.credits, g.gradePoint))
  }

  /** The `total_credits` the SGPA methods store: the credits of the counted grades. */
  function PositiveCredits(docs: seq<GradeDoc>): int
  {
    if docs == [] then 0
    else
      var g := docs[|docs| - 1];
      PositiveCredits(docs[..|docs| - 1]) + (if g.credits <= 0 then 0 else g.credits)
  }

  /** `calculate_and_store_sgpa` before its write: no grade at all is an error, the grades
      with positive credits go to `calculate_sgpa`, and their credits are summed. */
  function SgpaSummary(docs: seq<GradeDoc>): Result<(real, int), StoreError>
  {
    if docs == [] then Failure(NoGrades)
    else
      match Sgpa(FilterMap(docs, CourseResult))
      case Failure(e) => Failure(GpaFailed(e))
      case Success(sgpa) => Success((sgpa, PositiveCredits(docs)))
  }

  /** `(credits, grade_point)` read as a weighted entry, as `calculate_sgpa` reads it. */
  function ResultEntry(c: (int, int)): Option<Entry>
  {
    Some((c.1 as real, c.0))
  }

  lemma {:induction false} CourseEntriesAsFilterMap(cs: seq<(int, int)>)
    ensures CourseEntries(cs) == FilterMap(cs, ResultEntry)
  {
    if cs != [] {
      var n := |cs| - 1;
      CourseEntriesAsFilterMap(cs[..n]);
      assert CourseEntries(cs) == CourseEntries(cs[..n]) + [ResultEntry(cs[n]).value];
    }
  }

  /** The stored total is the credit total `calculate_sgpa` divides by. */
  lemma {:induction false} PositiveCreditsTotal(docs: seq<GradeDoc>)
    ensures PositiveCredits(docs) as real == CreditTotal(CourseEntries(FilterMap(docs, CourseResult)))
  {
    if docs != [] {
      var n := |docs| - 1;
      PositiveCreditsTotal(docs[..n]);
      var init := FilterMap(docs[..n], CourseResult);
      var es := CourseEntries(FilterMap(docs, CourseResult));
      if docs[n].credits > 0 {
        var c := (docs[n].credits, docs[n].gradePoint);
        assert FilterMap(docs, CourseResult) == init + [c];
        assert es == CourseEntries(init) + [(c.1 as real, c.0)];
        assert es[..|es| - 1] == CourseEntries(init);
      }
    }
  }

  /** Every pair handed to `calculate_sgpa` comes from a grade with positive credits. */
  lemma CourseResultsFrom(docs: seq<GradeDoc>)
    ensures forall c :: c in FilterMap(docs, CourseResult) <==>
      exists i :: 0 <= i < |docs| && docs[i].credits > 0 && c == (docs[i].credits, docs[i].gradePoint)
  {
    FilterMapMembers(docs, CourseResult);
  }

  /** No grade is an error of its own; grades whose credits are all non-positive leave
      `calculate_sgpa` an empty list, which it rejects; a non-positive credit count never
      reaches it; and a result exists exactly when some grade has positive credits, its
      stored total then being positive. */
  lemma {:induction false} SgpaSummaryCases(docs: seq<GradeDoc>)
    ensures SgpaSummary(docs) == Failure(NoGrades) <==> docs == []
    ensures SgpaSummary(docs) == Failure(GpaFailed(ZeroTotalCredits))
      <==> docs != [] && forall i :: 0 <= i < |docs| ==> docs[i].credits <= 0
    ensures SgpaSummary(docs) != Failure(GpaFailed(NonPositiveCredits))
    ensures SgpaSummary(docs).Success? <==> exists i :: 0 <= i < |docs| && docs[i].credits > 0
    ensures SgpaSummary(docs).Success? ==> SgpaSummary(docs).value.1 > 0
  {
    var cs := FilterMap(docs, CourseResult);
    var es := CourseEntries(cs);
    CourseResultsFrom(docs);
    FilterMapEmpty(docs, CourseResult);
    assert AllPositive(es) by {
      forall i | 0 <= i < |es| ensures es[i].1 > 0 {
        assert cs[i] in cs;
      }
    }
    if exists i :: 0 <= i < |docs| && docs[i].credits > 0 {
      var i :| 0 <= i < |docs| && docs[i].credits > 0;
      assert (docs[i].credits, docs[i].gradePoint) in cs;
      PositiveCreditsTotal(docs);
      CreditTotalPositive(es);
    }
  }

  /** A grade with non-positive credits is skipped: adding one changes nothing. */
  lemma {:induction false} SgpaSummarySkips(docs: seq<GradeDoc>, g: GradeDoc)
    requires docs != [] && g.credits <= 0
    ensures SgpaSummary(docs + [g]) == SgpaSummary(docs)
  {
    assert (docs + [g])[..|docs|] == docs;
  }

  /** The summary does not depend on the order the grades are listed in. */
  lemma {:induction false} SgpaSummaryPermutation(a: seq<GradeDoc>, b: seq<GradeDoc>)
    requires multiset(a) == multiset(b)
    ensures SgpaSummary(a) == SgpaSummary(b)
  {
    assert |a| == |multiset(a)| == |b|;
    CourseEntriesPermutation(a, b);
    var ea, eb := CourseEntries(FilterMap(a, CourseResult)), CourseEntries(FilterMap(b, CourseResult));
    WeightedMeanPermutation(ea, eb);
    PositiveCreditsTotal(a);
    PositiveCreditsTotal(b);
    SumPermutation(ea, eb, Credit);
  }

  /** The weighted entries of two listings of the same grades are the same up to order. */
  lemma {:induction false} CourseEntriesPermutation(a: seq<GradeDoc>, b: seq<GradeDoc>)
    requires multiset(a) == multiset(b)
    ensures multiset(CourseEntries(FilterMap(a, CourseResult))) == multiset(CourseEntries(FilterMap(b, CourseResult)))
  {
    var ca, cb := FilterMap(a, CourseResult), FilterMap(b, CourseResult);
    FilterMapPermutation(a, b, CourseResult);
    CourseEntriesAsFilterMap(ca);
    CourseEntriesAsFilterMap(cb);
    FilterMapPermutation(ca, cb, ResultEntry);
  }

  /** With every stored point between 4 and 10, so is the SGPA. */
  lemma {:induction false} SgpaSummaryWithin(docs: seq<GradeDoc>)
    requires forall i :: 0 <= i < |docs| ==> 4 <= docs[i].gradePoint <= 10
    requires SgpaSummary(docs).Success?
    ensures 4.0 <= SgpaSummary(docs).value.0 <= 10.0
  {
    var cs := FilterMap(docs, CourseResult);
    CourseResultsFrom(docs);
    forall i | 0 <= i < |cs| ensures 4 <= cs[i].1 <= 10 {
      assert cs[i] in cs;
    }
    SgpaWithin(cs, 4, 10);
  }

  /** The loop both services run over the listed grades. */
  method CollectCourseResults(docs: seq<GradeDoc>) returns (courseResults: seq<(int, int)>, totalCredits: int)
    ensures courseResults == FilterMap(docs, CourseResult)
    ensures totalCredits == PositiveCredits(docs)
  {
    courseResults, totalCredits := [], 0;
    for i := 0 to |docs|
      invariant courseResults == FilterMap(docs[..i], CourseResult)
      invariant totalCredits == PositiveCredits(docs[..i])
    {
      assert docs[..i + 1][..i] == docs[..i];
      var grade := docs[i];
      if grade.credits > 0 {
        courseResults := courseResults + [(grade.credits, grade.gradePoint)];
        totalCredits := totalCredits + grade.credits;
      }
    }
    assert docs[..|docs|] == docs;
  }

  /** The SGPA computation of both services, ending where the write begins. */
  method SummariseGrades(docs: seq<GradeDoc>) returns (r: Result<(real, int), StoreError>)
    ensures r == SgpaSummary(docs)
  {
    if docs == [] {
      return Failure(NoGrades);
    }
    var courseResults, totalCredits := CollectCourseResults(docs);
    var sgpa := CalculateSgpa(courseResults);
    if sgpa.Failure? {
      return Failure(GpaFailed(sgpa.error));
    }
    return Success((sgpa.value, totalCredits));
  }

  // ---------------------------------------------------------------- CGPA

  /** A term counts towards the CGPA when it has an SGPA and non-zero total credits. */
  predicate Counted(t: TermDoc) {
    t.sgpa.Some? && t.totalCredits.Some? && t.totalCredits.value != 0
  }

  function TermResult(t: TermDoc): Option<(real, int)>
  {
    if Counted(t) then Some((t.sgpa.value, t.totalCredits.value)) else None
  }

  /** The trend entry of a counted term of the year labelled `yearLabel`. */
  function TermTrend(yearLabel: string): TermDoc -> Option<TrendPoint>
  {
    t => if Counted(t) then Some(TrendPoint(yearLabel + " - " + t.name, t.sgpa.value, t.totalCredits.value)) else None
  }

  /** The `(sgpa, credits)` pairs handed to `calculate_cgpa`, year by year. */
  function SemesterResults(years: seq<YearDoc>): seq<(real, int)>
  {
    if years == [] then []
    else SemesterResults(years[..|years| - 1]) + FilterMap(years[|years| - 1].terms, TermResult)
  }

  /** The trend returned beside the CGPA, year by year. */
  function Trend(years: seq<YearDoc>): seq<TrendPoint>
  {
    if years == [] then []
    else
      var y := years[|years| - 1];
      Trend(years[..|years| - 1]) + FilterMap(y.terms, TermTrend(y.yearLabel))
  }

  /** `calculate_and_store_cgpa` before its write. */
  function CgpaSummary(years: seq<YearDoc>): Result<(real, seq<TrendPoint>), StoreError>
  {
    var pairs := SemesterResults(years);
    if pairs == [] then Failure(NoSemesterResults)
    else
      match Cgpa(pairs)
      case Failure(e) => Failure(GpaFailed(e))
      case Success(cgpa) => Success((cgpa, Trend(years)))
  }

  /** A term's trend entry and its CGPA pair exist together and agree. */
  predicate TrendMatches(p: (real, int), t: TrendPoint) {
    t.sgpa == p.0 && t.credits == p.1
  }

  lemma {:induction false} TermsParallel(yearLabel: string, terms: seq<TermDoc>)
    ensures var ps, ts := FilterMap(terms, TermResult), FilterMap(terms, TermTrend(yearLabel));
      |ps| == |ts| && forall i :: 0 <= i < |ps| ==> TrendMatches(ps[i], ts[i])
  {
    if terms != [] {
      TermsParallel(yearLabel, terms[..|terms| - 1]);
    }
  }

  /** One trend entry per counted term, in the order of the pairs, with the same SGPA and
      credits. */
  lemma {:induction false} TrendParallel(years: seq<YearDoc>)
    ensures |Trend(years)| == |SemesterResults(years)|
    ensures forall i :: 0 <= i < |Trend(years)| ==> TrendMatches(SemesterResults(years)[i], Trend(years)[i])
  {
    if years != [] {
      var n := |years| - 1;
      TrendParallel(years[..n]);
      TermsParallel(years[n].yearLabel, years[n].terms);
    }
  }

  /** No pair is handed to `calculate_cgpa` exactly when no term counts. */
  lemma {:induction false} SemesterResultsEmpty(years: seq<YearDoc>)
    ensures SemesterResults(years) == [] <==>
      forall i, j :: 0 <= i < |years| && 0 <= j < |years[i].terms| ==> !Counted(years[i].terms[j])
  {
    if years != [] {
      var n := |years| - 1;
      SemesterResultsEmpty(years[..n]);
      FilterMapEmpty(years[n].terms, TermResult);
      forall i | 0 <= i < n ensures years[..n][i] == years[i] {}
    }
  }

  /** A counted term contributes its pair. */
  lemma {:induction false} SemesterResultsHas(years: seq<YearDoc>, i: nat, j: nat)
    requires i < |years| && j < |years[i].terms| && Counted(years[i].terms[j])
    ensures TermResult(years[i].terms[j]).value in SemesterResults(years)
  {
    var n := |years| - 1;
    if i < n {
      assert years[..n][i] == years[i];
      SemesterResultsHas(years[..n], i, j);
    } else {
      FilterMapHas(years[n].terms, j, TermResult);
    }
  }

  /** The CGPA fails for want of results exactly when no term anywhere counts, and a
      counted term with negative credits makes `calculate_cgpa` raise. */
  lemma {:induction false} CgpaSummaryErrors(years: seq<YearDoc>)
    ensures CgpaSummary(years) == Failure(NoSemesterResults) <==>
      forall i, j :: 0 <= i < |years| && 0 <= j < |years[i].terms| ==> !Counted(years[i].terms[j])
    ensures (exists i, j :: (0 <= i < |years| && 0 <= j < |years[i].terms|
        && Counted(years[i].terms[j]) && years[i].terms[j].totalCredits.value < 0))
      ==> CgpaSummary(years) == Failure(GpaFailed(NonPositiveCredits))
  {
    var pairs := SemesterResults(years);
    SemesterResultsEmpty(years);
    if exists i, j :: 0 <= i < |years| && 0 <= j < |years[i].terms|
        && Counted(years[i].terms[j]) && years[i].terms[j].totalCredits.value < 0
    {
      var i, j :| 0 <= i < |years| && 0 <= j < |years[i].terms|
        && Counted(years[i].terms[j]) && years[i].terms[j].totalCredits.value < 0;
      SemesterResultsHas(years, i, j);
      var k :| 0 <= k < |pairs| && pairs[k] == TermResult(years[i].terms[j]).value;
      assert !AllPositive(pairs);
    }
  }

  /** A successful CGPA comes with one trend entry per counted term, matching the pairs. */
  lemma {:induction false} CgpaSummaryTrend(years: seq<YearDoc>)
    requires CgpaSummary(years).Success?
    ensures var trend := CgpaSummary(years).value.1;
      |trend| == |SemesterResults(years)| > 0
      && forall i :: 0 <= i < |trend| ==> TrendMatches(SemesterResults(years)[i], trend[i])
  {
    TrendParallel(years);
  }

  /** The nested loop over years and their terms that both services run. */
  method CollectSemesterResults(years: seq<YearDoc>) returns (pairs: seq<(real, int)>, trend: seq<TrendPoint>)
    ensures pairs == SemesterResults(years)
    ensures trend == Trend(years)
  {
    pairs, trend := [], [];
    for i := 0 to |years|
      invariant pairs == SemesterResults(years[..i])
      invariant trend == Trend(years[..i])
    {
      var year := years[i];
      assert years[..i + 1][..i] == years[..i];
      ghost var before, beforeTrend := pairs, trend;
      for j := 0 to |year.terms|
        invariant pairs == before + FilterMap(year.terms[..j], TermResult)
        invariant trend == beforeTrend + FilterMap(year.terms[..j], TermTrend(year.yearLabel))
      {
        var term := year.terms[j];
        assert year.terms[..j + 1][..j] == year.terms[..j];
        if Counted(term) {
          pairs := pairs + [(term.sgpa.value, term.totalCredits.value)];
          trend := trend + [TrendPoint(year.yearLabel + " - " + term.name, term.sgpa.value, term.totalCredits.value)];
        }
      }
      assert year.terms[..|year.terms|] == year.terms;
    }
    assert years[..|years|] == years;
  }

  /** The CGPA computation of both services, ending where the write begins. */
  method SummariseTerms(years: seq<YearDoc>) returns (r: Result<(real, seq<TrendPoint>), StoreError>)
    ensures r == CgpaSummary(years)
  {
    var pairs, trend := CollectSemesterResults(years);
    if pairs == [] {
      return Failure(NoSemesterResults);
    }
    var cgpa := CalculateCgpa(pairs);
    if cgpa.Failure? {
      return Failure(GpaFailed(cgpa.error));
    }
    return Success((cgpa.value, trend));
  }
}
