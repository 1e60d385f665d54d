/** Credit-weighted averages of grade points: the semester GPA over (credits, point) pairs
    and the cumulative GPA over (semester GPA, semester credits) pairs, both rounded to
    2 decimals. */
module Gpa {
  import opened Common
  import opened Rounding

  datatype GpaError = NonPositiveCredits | ZeroTotalCredits

  /** A weighted entry: (value, credits). */
  type Entry = (real, int)

  function Product(e: Entry): real { e.0 * e.1 as real }

  function Credit(e: Entry): real { e.1 as real }

  /** Σ value × credits. */
  function WeightedSum(rs: seq<Entry>): real { Sum(rs, Product) }

  /** Σ credits. */
  function CreditTotal(rs: seq<Entry>): real { Sum(rs, Credit) }

  predicate AllPositive(rs: seq<Entry>) {
    forall i :: 0 <= i < |rs| ==> rs[i].1 > 0
  }

  lemma {:induction false} CreditTotalPositive(rs: seq<Entry>)
    requires AllPositive(rs)
    ensures CreditTotal(rs) >= |rs| as real
  {
    if rs != [] {
      CreditTotalPositive(rs[..|rs| - 1]);
    }
  }

  /** The weighted mean both calculators compute: a non-positive credit count is an error,
      an empty list has zero total credits, and otherwise Σ(value × credits) / Σ credits is
      rounded to 2 decimals. */
  function WeightedMean(rs: seq<Entry>): (r: Result<real, GpaError>)
    ensures r == Failure(NonPositiveCredits) <==> !AllPositive(rs)
    ensures r == Failure(ZeroTotalCredits) <==> AllPositive(rs) && rs == []
  {
    if !AllPositive(rs) then Failure(NonPositiveCredits)
    else if rs == [] then Failure(ZeroTotalCredits)
    else
      CreditTotalPositive(rs);
      Success(Round2(WeightedSum(rs) / CreditTotal(rs)))
  }

  /** The (credits, grade_point) pairs as weighted entries. */
  function CourseEntries(courseResults: seq<(int, int)>): (rs: seq<Entry>)
  {
    seq(|courseResults|, i requires 0 <= i < |courseResults| => (courseResults[i].1 as real, courseResults[i].0))
  }

  function Sgpa(courseResults: seq<(int, int)>): Result<real, GpaError>
  {
    WeightedMean(CourseEntries(courseResults))
  }

  /** The (sgpa, semester_credits) pairs are already weighted entries. */
  function Cgpa(semesterResults: seq<(real, int)>): Result<real, GpaError>
  {
    WeightedMean(semesterResults)
  }

  /** `calculate_sgpa`: one pass accumulating Σ credits × point and Σ credits, failing at the
      first non-positive credit count. */
  method CalculateSgpa(courseResults: seq<(int, int)>) returns (r: Result<real, GpaError>)
    ensures r == Sgpa(courseResults)
  {
    ghost var es := CourseEntries(courseResults);
    var weightedSum := 0.0;
    var totalCredits := 0;
    for i := 0 to |courseResults|
      invariant AllPositive(es[..i])
      invariant weightedSum == WeightedSum(es[..i])
      invariant totalCredits as real == CreditTotal(es[..i])
    {
      var (credits, gradePoint) := courseResults[i];
      if credits <= 0 {
        assert es[i].1 <= 0;
        return Failure(NonPositiveCredits);
      }
      assert es[..i + 1][..i] == es[..i];
      weightedSum := weightedSum + (credits * gradePoint) as real;
      totalCredits := totalCredits + credits;
    }
    assert es[..|courseResults|] == es;
    if totalCredits == 0 {
      CreditTotalPositive(es);
      return Failure(ZeroTotalCredits);
    }
    return Success(Round2(weightedSum / totalCredits as real));
  }

  /** `calculate_cgpa`: the same pass over (sgpa, semester credits). */
  method CalculateCgpa(semesterResults: seq<(real, int)>) returns (r: Result<real, GpaError>)
    ensures r == Cgpa(semesterResults)
  {
    var weightedSum := 0.0;
    var totalCredits := 0;
    for i := 0 to |semesterResults|
      invariant AllPositive(semesterResults[..i])
      invariant weightedSum == WeightedSum(semesterResults[..i])
      invariant totalCredits as real == CreditTotal(semesterResults[..i])
    {
      var (sgpa, credits) := semesterResults[i];
      if credits <= 0 {
        return Failure(NonPositiveCredits);
      }
      assert semesterResults[..i + 1][..i] == semesterResults[..i];
      weightedSum := weightedSum + sgpa * credits as real;
      totalCredits := totalCredits + credits;
    }
    assert semesterResults[..|semesterResults|] == semesterResults;
    if totalCredits == 0 {
      CreditTotalPositive(semesterResults);
      return Failure(ZeroTotalCredits);
    }
    return Success(Round2(weightedSum / totalCredits as real));
  }

  predicate ValuesWithin(rs: seq<Entry>, lo: real, hi: real) {
    forall i :: 0 <= i < |rs| ==> lo <= rs[i].0 <= hi
  }

  lemma {:induction false} WeightedSumWithin(rs: seq<Entry>, lo: real, hi: real)
    requires AllPositive(rs) && ValuesWithin(rs, lo, hi)
    ensures lo * CreditTotal(rs) <= WeightedSum(rs) <= hi * CreditTotal(rs)
  {
    if rs != [] {
      var init, e := rs[..|rs| - 1], rs[|rs| - 1];
      var c := e.1 as real;
      WeightedSumWithin(init, lo, hi);
      assert lo * c <= e.0 * c <= hi * c by {
        assert (e.0 - lo) * c >= 0.0 && (hi - e.0) * c >= 0.0;
      }
      assert WeightedSum(rs) == WeightedSum(init) + e.0 * c;
      assert CreditTotal(rs) == CreditTotal(init) + c;
      Distribute(lo, CreditTotal(init), c);
      Distribute(hi, CreditTotal(init), c);
    }
  }

  lemma {:induction false} Distribute(k: real, a: real, b: real)
    ensures k * (a + b) == k * a + k * b
  {
  }

  /** The unrounded mean lies between the smallest and the largest value averaged. */
  lemma {:induction false} MeanWithin(rs: seq<Entry>, lo: real, hi: real)
    requires AllPositive(rs) && rs != [] && ValuesWithin(rs, lo, hi)
    ensures CreditTotal(rs) > 0.0
    ensures lo <= WeightedSum(rs) / CreditTotal(rs) <= hi
  {
    CreditTotalPositive(rs);
    WeightedSumWithin(rs, lo, hi);
    var t := CreditTotal(rs);
    assert lo * t / t == lo && hi * t / t == hi;
  }

  /** With every grade point between lo and hi (whole numbers), the SGPA is too: in
      particular the SGPA of points from the 4..10 scale is in [4, 10], and equal points
      give exactly that point. */
  lemma {:induction false} SgpaWithin(courseResults: seq<(int, int)>, lo: int, hi: int)
    requires Sgpa(courseResults).Success?
    requires forall i :: 0 <= i < |courseResults| ==> lo <= courseResults[i].1 <= hi
    ensures lo as real <= Sgpa(courseResults).value <= hi as real
  {
    var es := CourseEntries(courseResults);
    MeanWithin(es, lo as real, hi as real);
    Round2Within(WeightedSum(es) / CreditTotal(es), lo, hi);
  }

  /** Courses that all carry the same grade point have exactly that point as SGPA. */
  lemma {:induction false} SgpaOfEqualPoints(courseResults: seq<(int, int)>, point: int)
    requires courseResults != [] && forall i :: 0 <= i < |courseResults| ==> courseResults[i].0 > 0
    requires forall i :: 0 <= i < |courseResults| ==> courseResults[i].1 == point
    ensures Sgpa(courseResults) == Success(point as real)
  {
    SgpaWithin(courseResults, point, point);
  }

  /** The CGPA of semester GPAs lies within half a hundredth of their range. */
  lemma {:induction false} CgpaWithin(semesterResults: seq<(real, int)>, lo: real, hi: real)
    requires Cgpa(semesterResults).Success? && ValuesWithin(semesterResults, lo, hi)
    ensures lo - 0.005 <= Cgpa(semesterResults).value <= hi + 0.005
  {
    MeanWithin(semesterResults, lo, hi);
  }

  /** The order of the courses (or semesters) does not change the result. */
  lemma {:induction false} WeightedMeanPermutation(a: seq<Entry>, b: seq<Entry>)
    requires multiset(a) == multiset(b)
    ensures WeightedMean(a) == WeightedMean(b)
  {
    assert |a| == |multiset(a)| == |b|;
    if !AllPositive(a) {
      var i :| 0 <= i < |a| && a[i].1 <= 0;
      assert a[i] in multiset(b);
    } else {
      forall i | 0 <= i < |b|
        ensures b[i].1 > 0
      {
        assert b[i] in multiset(a);
      }
      SumPermutation(a, b, Product);
      SumPermutation(a, b, Credit);
    }
  }

  /** The SGPA worked example: 4 credits at 9, 5 at 8 and 2 at 10 give 96/11, which
      rounds to 8.73. */
  lemma {:induction false} SgpaExample()
    ensures Sgpa([(4, 9), (5, 8), (2, 10)]) == Success(8.73)
  {
    var es := CourseEntries([(4, 9), (5, 8), (2, 10)]);
    assert es == [(9.0, 4), (8.0, 5), (10.0, 2)];
    assert es[..2][..1] == es[..1] && es[..1][..0] == [] && es[..3] == es && es[..3][..2] == es[..2];
    assert es[..1] == [(9.0, 4)] && es[..1][..0] == [] && es[..1][0] == (9.0, 4);
    assert Product((9.0, 4)) == 36.0 && Credit((9.0, 4)) == 4.0;
    assert Sum([], Product) == 0.0 && Sum([], Credit) == 0.0;
    assert WeightedSum(es[..1]) == 36.0 && CreditTotal(es[..1]) == 4.0;
    assert WeightedSum(es[..2]) == 76.0 && CreditTotal(es[..2]) == 9.0;
    assert WeightedSum(es) == 96.0 && CreditTotal(es) == 11.0;
    Round2Nearest(96.0 / 11.0, 873);
  }
}
