/** The older GPA calculators: credit-weighted means over course results that return 0.0
    instead of failing, and a cumulative GPA that pools the courses of all semesters. */
module LegacyGpa {
  import opened Common
  import opened Rounding
  import Gpa

  datatype CourseResult = CourseResult(credits: int, gradePoint: int)

  function CoursePoints(c: CourseResult): real { (c.credits * c.gradePoint) as real }

  function CourseCredits(c: CourseResult): real { c.credits as real }

  /** What `calc_sgpa` returns: 0.0 when the credits add up to 0, otherwise the weighted
      mean rounded to 2 decimals. No entry is checked on its own. */
  function SgpaOf(courses: seq<CourseResult>): real
  {
    var total := Sum(courses, CourseCredits);
    if total == 0.0 then 0.0 else Round2(Sum(courses, CoursePoints) / total)
  }

  /** `calc_sgpa`. */
  method CalcSgpa(courses: seq<CourseResult>) returns (r: real)
    ensures r == SgpaOf(courses)
  {
    var weighted := 0.0;
    var totalCredits := 0;
    for i := 0 to |courses|
      invariant weighted == Sum(courses[..i], CoursePoints)
      invariant totalCredits as real == Sum(courses[..i], CourseCredits)
    {
      var c := courses[i];
      assert courses[..i + 1][..i] == courses[..i];
      weighted := weighted + (c.credits * c.gradePoint) as real;
      totalCredits := totalCredits + c.credits;
    }
    assert courses[..|courses|] == courses;
    if totalCredits == 0 {
      return 0.0;
    }
    return Round2(weighted / totalCredits as real);
  }

  /** The courses of all semesters, in order. */
  function Flatten(semesters: seq<seq<CourseResult>>): (courses: seq<CourseResult>)
    ensures forall s, c :: s in semesters && c in s ==> c in courses
  {
    if semesters == [] then []
    else Flatten(semesters[..|semesters| - 1]) + semesters[|semesters| - 1]
  }

  /** `calc_cgpa`: the nested loops accumulate over every course of every semester, so the
      result is the SGPA of the concatenated course list, not a mean of semester SGPAs. */
  method CalcCgpa(semesterCourses: seq<seq<CourseResult>>) returns (r: real)
    ensures r == SgpaOf(Flatten(semesterCourses))
  {
    var weighted := 0.0;
    var totalCredits := 0;
    for i := 0 to |semesterCourses|
      invariant weighted == Sum(Flatten(semesterCourses[..i]), CoursePoints)
      invariant totalCredits as real == Sum(Flatten(semesterCourses[..i]), CourseCredits)
    {
      var sem := semesterCourses[i];
      ghost var before := Flatten(semesterCourses[..i]);
      assert semesterCourses[..i + 1][..i] == semesterCourses[..i];
      assert Flatten(semesterCourses[..i + 1]) == before + sem;
      assert before + sem[..0] == before;
      for j := 0 to |sem|
        invariant weighted == Sum(before + sem[..j], CoursePoints)
        invariant totalCredits as real == Sum(before + sem[..j], CourseCredits)
      {
        var c := sem[j];
        assert (before + sem[..j + 1])[..|before| + j] == before + sem[..j];
        weighted := weighted + (c.credits * c.gradePoint) as real;
        totalCredits := totalCredits + c.credits;
      }
      assert sem[..|sem|] == sem;
    }
    assert semesterCourses[..|semesterCourses|] == semesterCourses;
    if totalCredits == 0 {
      return 0.0;
    }
    return Round2(weighted / totalCredits as real);
  }

  /** Reordering the courses does not change the SGPA. */
  lemma {:induction false} SgpaPermutation(a: seq<CourseResult>, b: seq<CourseResult>)
    requires multiset(a) == multiset(b)
    ensures SgpaOf(a) == SgpaOf(b)
  {
    SumPermutation(a, b, CourseCredits);
    SumPermutation(a, b, CoursePoints);
  }

  /** Reordering the courses across and within semesters does not change the CGPA. */
  lemma {:induction false} CgpaPermutation(a: seq<seq<CourseResult>>, b: seq<seq<CourseResult>>)
    requires multiset(Flatten(a)) == multiset(Flatten(b))
    ensures SgpaOf(Flatten(a)) == SgpaOf(Flatten(b))
  {
    SgpaPermutation(Flatten(a), Flatten(b));
  }

  /** The course results as the (credits, grade_point) pairs of the other calculator. */
  function AsPairs(courses: seq<CourseResult>): (pairs: seq<(int, int)>)
  {
    seq(|courses|, i requires 0 <= i < |courses| => (courses[i].credits, courses[i].gradePoint))
  }

  lemma {:induction false} SumsAgree(courses: seq<CourseResult>)
    ensures Sum(courses, CoursePoints) == Gpa.WeightedSum(Gpa.CourseEntries(AsPairs(courses)))
    ensures Sum(courses, CourseCredits) == Gpa.CreditTotal(Gpa.CourseEntries(AsPairs(courses)))
  {
    if courses != [] {
      var init := courses[..|courses| - 1];
      var es := Gpa.CourseEntries(AsPairs(courses));
      assert Gpa.CourseEntries(AsPairs(init)) == es[..|es| - 1];
      SumsAgree(init);
      var c := courses[|courses| - 1];
      assert (c.credits * c.gradePoint) as real == c.gradePoint as real * c.credits as real;
    }
  }

  /** Where the stricter calculator succeeds (every credit count positive, some course),
      both compute the same SGPA. */
  lemma {:induction false} AgreesWithValidatedSgpa(courses: seq<CourseResult>)
    requires Gpa.Sgpa(AsPairs(courses)).Success?
    ensures SgpaOf(courses) == Gpa.Sgpa(AsPairs(courses)).value
  {
    SumsAgree(courses);
    Gpa.CreditTotalPositive(Gpa.CourseEntries(AsPairs(courses)));
  }

  /** Zero and negative credit counts are accepted: credits that cancel out give 0.0, and a
      negative count can push the result off the 4..10 scale. */
  lemma {:induction false} NoCreditValidation()
    ensures SgpaOf([CourseResult(1, 10), CourseResult(-1, 4)]) == 0.0
    ensures SgpaOf([CourseResult(-1, 10), CourseResult(2, 4)]) == -2.0
    ensures SgpaOf([]) == 0.0
  {
    var a := [CourseResult(1, 10), CourseResult(-1, 4)];
    assert a[..1] == [a[0]] && a[..1][..0] == [];
    assert Sum(a, CourseCredits) == 0.0;
    var b := [CourseResult(-1, 10), CourseResult(2, 4)];
    assert b[..1] == [b[0]] && b[..1][..0] == [];
    assert Sum(b, CourseCredits) == 1.0 && Sum(b, CoursePoints) == -2.0;
    Round2OfHundredths(-200);
  }

  /** The worked examples: 96/11 rounds to 8.73, and the two semesters pool 134 points over
      15 credits, which rounds to 8.93. */
  lemma {:induction false} Examples()
    ensures SgpaOf([CourseResult(4, 9), CourseResult(5, 8), CourseResult(2, 10)]) == 8.73
    ensures SgpaOf(Flatten([[CourseResult(4, 8), CourseResult(4, 9)], [CourseResult(5, 10), CourseResult(2, 8)]])) == 8.93
  {
    var a := [CourseResult(4, 9), CourseResult(5, 8), CourseResult(2, 10)];
    assert a[..2] == [a[0], a[1]] && a[..2][..1] == [a[0]] && a[..1] == [a[0]] && a[..1][..0] == [];
    assert Sum(a[..1], CoursePoints) == 36.0 && Sum(a[..1], CourseCredits) == 4.0;
    assert Sum(a[..2], CoursePoints) == 76.0 && Sum(a[..2], CourseCredits) == 9.0;
    assert Sum(a, CoursePoints) == 96.0 && Sum(a, CourseCredits) == 11.0;
    Round2Nearest(96.0 / 11.0, 873);
    var sems := [[CourseResult(4, 8), CourseResult(4, 9)], [CourseResult(5, 10), CourseResult(2, 8)]];
    assert sems[..1] == [sems[0]] && sems[..1][..0] == [];
    assert Flatten(sems[..1]) == sems[0];
    var f := Flatten(sems);
    assert f == [CourseResult(4, 8), CourseResult(4, 9), CourseResult(5, 10), CourseResult(2, 8)];
    assert f[..3] == [f[0], f[1], f[2]] && f[..3][..2] == [f[0], f[1]] && f[..2] == [f[0], f[1]];
    assert f[..2][..1] == [f[0]] && f[..1] == [f[0]] && f[..1][..0] == [];
    assert Sum(f[..1], CoursePoints) == 32.0 && Sum(f[..1], CourseCredits) == 4.0;
    assert Sum(f[..2], CoursePoints) == 68.0 && Sum(f[..2], CourseCredits) == 8.0;
    assert Sum(f[..3], CoursePoints) == 118.0 && Sum(f[..3], CourseCredits) == 13.0;
    assert Sum(f, CoursePoints) == 134.0 && Sum(f, CourseCredits) == 15.0;
    Round2Nearest(134.0 / 15.0, 893);
  }
}
