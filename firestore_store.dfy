/** The Firestore-backed service's grading and listing operations, over an in-memory
    document tree in place of the database client: the user's years and terms, the
    active term's subjects, assessments, grades, tasks and events, and the cached CGPA. */
module FirestoreStore {
  import opened Common
  import opened Text
  import opened Grades
  import opened Sorting
  import opened StoreDocs

  /** The task fields the listing reads; a missing `due_at` is None. */
  datatype TaskDoc = TaskDoc(title: string, dueAt: Option<int>, completed: bool)

  /** The event fields the listing reads; a missing `starts_at` is None. */
  datatype EventDoc = EventDoc(title: string, startsAt: Option<int>)

  /** The assessments and grades of the active term, which the save rewrites. */
  datatype GradeState = GradeState(
    assessments: map<(string, string), AssessmentDoc>,
    grades: map<string, GradeDoc>)

  /** The assessment documents after the per-rule loop has handled `rules` for subject
      `subjectId`: a component with a raw mark is (over)written, one without is deleted. */
  function StoredAssessments(
    stored: map<(string, string), AssessmentDoc>, subjectId: string,
    rules: seq<AssessmentRule>, rawScores: map<string, real>): map<(string, string), AssessmentDoc>
    requires WellFormed(rules)
  {
    if rules == [] then stored
    else
      var rule := rules[|rules| - 1];
      var before := StoredAssessments(stored, subjectId, rules[..|rules| - 1], rawScores);
      if rule.name in rawScores then before[(subjectId, rule.name) := Payload(rule, rawScores[rule.name])]
      else before - {(subjectId, rule.name)}
  }

  /** One more rule of the loop: write or delete that rule's document. */
  lemma {:induction false} StoredAssessmentsStep(
    stored: map<(string, string), AssessmentDoc>, subjectId: string,
    rules: seq<AssessmentRule>, i: nat, rawScores: map<string, real>)
    requires WellFormed(rules) && i < |rules|
    ensures var before := StoredAssessments(stored, subjectId, rules[..i], rawScores);
      var rule := rules[i];
      StoredAssessments(stored, subjectId, rules[..i + 1], rawScores)
        == if rule.name in rawScores then before[(subjectId, rule.name) := Payload(rule, rawScores[rule.name])]
           else before - {(subjectId, rule.name)}
  {
    assert rules[..i + 1][..i] == rules[..i];
  }

  /** Documents of other subjects, and of names outside the table, are left alone. */
  lemma {:induction false} StoredAssessmentsFrame(
    stored: map<(string, string), AssessmentDoc>, subjectId: string,
    rules: seq<AssessmentRule>, rawScores: map<string, real>)
    requires WellFormed(rules)
    ensures var after := StoredAssessments(stored, subjectId, rules, rawScores);
      forall k: (string, string) :: (k.0 != subjectId || k.1 !in Names(rules)) ==>
        (k in after <==> k in stored) && (k in stored ==> after[k] == stored[k])
  {
    if rules != [] {
      var n := |rules| - 1;
      NamesSnoc(rules);
      StoredAssessmentsFrame(stored, subjectId, rules[..n], rawScores);
    }
  }

  /** A table component is stored exactly when it has a raw mark, and then holds its payload. */
  lemma {:induction false} StoredAssessmentsComponents(
    stored: map<(string, string), AssessmentDoc>, subjectId: string,
    rules: seq<AssessmentRule>, rawScores: map<string, real>)
    requires WellFormed(rules) && DistinctNames(rules)
    ensures var after := StoredAssessments(stored, subjectId, rules, rawScores);
      forall i :: 0 <= i < |rules| ==>
        ((subjectId, rules[i].name) in after <==> rules[i].name in rawScores)
        && (rules[i].name in rawScores ==> after[(subjectId, rules[i].name)] == Payload(rules[i], rawScores[rules[i].name]))
  {
    if rules != [] {
      var n := |rules| - 1;
      var init := rules[..n];
      var before := StoredAssessments(stored, subjectId, init, rawScores);
      var after := StoredAssessments(stored, subjectId, rules, rawScores);
      StoredAssessmentsComponents(stored, subjectId, init, rawScores);
      forall i | 0 <= i < |rules|
        ensures (subjectId, rules[i].name) in after <==> rules[i].name in rawScores
        ensures rules[i].name in rawScores ==> after[(subjectId, rules[i].name)] == Payload(rules[i], rawScores[rules[i].name])
      {
        if i < n {
          assert init[i] == rules[i];
          assert rules[i].name != rules[n].name;
        }
      }
    }
  }

  /** Documents of other subjects, and of names outside the table, are left alone; a table
      component is stored exactly when it has a raw mark, and then holds its payload. */
  lemma {:induction false} StoredAssessmentsMeaning(
    stored: map<(string, string), AssessmentDoc>, subjectId: string,
    rules: seq<AssessmentRule>, rawScores: map<string, real>)
    requires WellFormed(rules) && DistinctNames(rules)
    ensures var after := StoredAssessments(stored, subjectId, rules, rawScores);
      forall k: (string, string) :: (k.0 != subjectId || k.1 !in Names(rules)) ==>
        (k in after <==> k in stored) && (k in stored ==> after[k] == stored[k])
    ensures var after := StoredAssessments(stored, subjectId, rules, rawScores);
      forall i :: 0 <= i < |rules| ==>
        ((subjectId, rules[i].name) in after <==> rules[i].name in rawScores)
        && (rules[i].name in rawScores ==> after[(subjectId, rules[i].name)] == Payload(rules[i], rawScores[rules[i].name]))
  {
    StoredAssessmentsFrame(stored, subjectId, rules, rawScores);
    StoredAssessmentsComponents(stored, subjectId, rules, rawScores);
  }

  /** Writing the same marks again changes nothing. */
  lemma {:induction false} StoredAssessmentsIdempotent(
    stored: map<(string, string), AssessmentDoc>, subjectId: string,
    rules: seq<AssessmentRule>, rawScores: map<string, real>)
    requires WellFormed(rules) && DistinctNames(rules)
    ensures var once := StoredAssessments(stored, subjectId, rules, rawScores);
      StoredAssessments(once, subjectId, rules, rawScores) == once
  {
    var once := StoredAssessments(stored, subjectId, rules, rawScores);
    var twice := StoredAssessments(once, subjectId, rules, rawScores);
    StoredAssessmentsMeaning(stored, subjectId, rules, rawScores);
    StoredAssessmentsMeaning(once, subjectId, rules, rawScores);
    forall k: (string, string) | k in once || k in twice ensures k in once && k in twice && once[k] == twice[k] {
      if k.0 == subjectId && k.1 in Names(rules) {
        var i :| 0 <= i < |rules| && Names(rules)[i] == k.1;
      }
    }
    assert once.Keys == twice.Keys;
  }

  /** `save_assessments_and_grade` as a function of the state it reads and writes. */
  function SaveOutcome(
    activeTermSet: bool, subjects: map<string, SubjectDoc>, state: GradeState,
    subjectId: string, rawScores: map<string, real>): (Result<SaveResult, StoreError>, GradeState)
  {
    if !activeTermSet then (Failure(ActiveTermNotSet), state)
    else if subjectId !in subjects then (Failure(SubjectNotFound), state)
    else
      var subject := subjects[subjectId];
      match RulesByCredits(subject.credits)
      case None => (Failure(UnsupportedCreditModel), state)
      case Some(rules) =>
        var stored := StoredAssessments(state.assessments, subjectId, rules, rawScores);
        var missing := Missing(rules, rawScores);
        if missing != [] then
          (Success(Partial(missing)), GradeState(stored, state.grades - {subjectId}))
        else
          EvaluateComplete(subject.credits, rawScores);
          var doc := GradeOf(subjectId, subject, Evaluate(subject.credits, rawScores).value);
          (Success(Final(doc)), GradeState(stored, state.grades[subjectId := doc]))
  }

  /** No active term, an unknown subject or an unsupported credit count is refused before
      anything is written. */
  lemma {:induction false} SaveRefusals(
    activeTermSet: bool, subjects: map<string, SubjectDoc>, state: GradeState,
    subjectId: string, rawScores: map<string, real>)
    ensures var (r, after) := SaveOutcome(activeTermSet, subjects, state, subjectId, rawScores);
      && (r.Failure? ==> after == state)
      && (r == Failure(ActiveTermNotSet) <==> !activeTermSet)
      && (r == Failure(SubjectNotFound) <==> activeTermSet && subjectId !in subjects)
      && (r == Failure(UnsupportedCreditModel)
          <==> activeTermSet && subjectId in subjects && !SupportedCredits(subjects[subjectId].credits))
  {
  }

  /** With a supported subject, the stored assessments are exactly the table components that
      have raw marks, each holding its payload, and nothing else changes among them. */
  lemma {:induction false} SaveStoresPresentComponents(
    subjects: map<string, SubjectDoc>, state: GradeState, subjectId: string, rawScores: map<string, real>)
    requires subjectId in subjects && SupportedCredits(subjects[subjectId].credits)
    ensures var rules := RulesByCredits(subjects[subjectId].credits).value;
      var after := SaveOutcome(true, subjects, state, subjectId, rawScores).1.assessments;
      && (forall i :: 0 <= i < |rules| ==>
            ((subjectId, rules[i].name) in after <==> rules[i].name in rawScores)
            && (rules[i].name in rawScores ==>
                  after[(subjectId, rules[i].name)] == Payload(rules[i], rawScores[rules[i].name])))
      && (forall k: (string, string) :: (k.0 != subjectId || k.1 !in Names(rules)) ==>
            (k in after <==> k in state.assessments) && (k in after ==> after[k] == state.assessments[k]))
  {
    var rules := RulesByCredits(subjects[subjectId].credits).value;
    StoredAssessmentsMeaning(state.assessments, subjectId, rules, rawScores);
  }

  /** Partial marks delete the subject's grade, whatever it was, and report the missing
      components in table order; complete marks overwrite it with the evaluation. */
  lemma {:induction false} SaveGrade(
    subjects: map<string, SubjectDoc>, state: GradeState, subjectId: string, rawScores: map<string, real>)
    requires subjectId in subjects && SupportedCredits(subjects[subjectId].credits)
    ensures var subject := subjects[subjectId];
      var rules := RulesByCredits(subject.credits).value;
      var (r, after) := SaveOutcome(true, subjects, state, subjectId, rawScores);
      && (Missing(rules, rawScores) != [] ==>
            && r == Success(Partial(Missing(rules, rawScores)))
            && after.grades == state.grades - {subjectId})
      && (Missing(rules, rawScores) == [] ==>
            && r.Success? && r.value.Final?
            && after.grades == state.grades[subjectId := r.value.grade]
            && r.value.grade.subjectName == subject.name && r.value.grade.credits == subject.credits
            && r.value.grade.finalScore100 == SubjectScore(subject.credits, rawScores).value
            && ToGradePoint(r.value.grade.letterGrade) == Some(r.value.grade.gradePoint)
            && 4 <= r.value.grade.gradePoint <= 10)
  {
    var credits := subjects[subjectId].credits;
    if Missing(RulesByCredits(credits).value, rawScores) == [] {
      EvaluateComplete(credits, rawScores);
      EvaluatePoint(credits, rawScores);
    }
  }

  /** Saving the same marks twice leaves the same assessments and grade as saving once,
      and returns the same result. */
  lemma {:induction false} SaveIdempotent(
    activeTermSet: bool, subjects: map<string, SubjectDoc>, state: GradeState,
    subjectId: string, rawScores: map<string, real>)
    ensures var (r, once) := SaveOutcome(activeTermSet, subjects, state, subjectId, rawScores);
      SaveOutcome(activeTermSet, subjects, once, subjectId, rawScores) == (r, once)
  {
    if activeTermSet && subjectId in subjects && SupportedCredits(subjects[subjectId].credits) {
      var subject := subjects[subjectId];
      var rules := RulesByCredits(subject.credits).value;
      StoredAssessmentsIdempotent(state.assessments, subjectId, rules, rawScores);
      if Missing(rules, rawScores) != [] {
        assert state.grades - {subjectId} - {subjectId} == state.grades - {subjectId};
      } else {
        EvaluateComplete(subject.credits, rawScores);
        var doc := GradeOf(subjectId, subject, Evaluate(subject.credits, rawScores).value);
        assert state.grades[subjectId := doc][subjectId := doc] == state.grades[subjectId := doc];
      }
    }
  }

  /** A listing of a map's documents: every (id, document) pair once, in some order. */
  ghost predicate Lists<D>(rows: seq<(string, D)>, m: map<string, D>) {
    multiset(rows) == multiset(m.Items)
  }

  /** Taking one document out of a map takes its pair out of the map's items. */
  lemma {:induction false} ItemsWithout<D>(m: map<string, D>, k: string)
    requires k in m
    ensures multiset(m.Items) == multiset((m - {k}).Items) + multiset{(k, m[k])}
  {
    var rest := m - {k};
    var x := (k, m[k]);
    forall p: (string, D) | p in m.Items ensures p in rest.Items + {x} {
      if p.0 != k { assert p.0 in rest; }
    }
    forall p: (string, D) | p in rest.Items + {x} ensures p in m.Items {
    }
    assert m.Items == rest.Items + {x};
    assert x !in rest.Items;
  }

  /** One listing of a map's documents, fixed once; any other differs only in order. */
  ghost function ListingOf<D>(m: map<string, D>): (rows: seq<(string, D)>)
    decreases |m|
  {
    if m == map[] then []
    else
      var k :| k in m;
      var rest := m - {k};
      assert |rest.Keys| < |m.Keys| by { assert rest.Keys == m.Keys - {k}; }
      ListingOf(rest) + [(k, m[k])]
  }

  lemma {:induction false} ListingOfLists<D>(m: map<string, D>)
    ensures Lists(ListingOf(m), m)
    decreases |m|
  {
    if m != map[] {
      var k :| k in m && ListingOf(m) == ListingOf(m - {k}) + [(k, m[k])];
      assert (m - {k}).Keys == m.Keys - {k};
      ListingOfLists(m - {k});
      ItemsWithout(m, k);
    }
  }

  /** A collection's `stream()`: its documents with their ids, in an order the store picks. */
  method StreamDocs<D(==)>(m: map<string, D>) returns (rows: seq<(string, D)>)
    ensures Lists(rows, m)
  {
    rows := [];
    var rest := m.Items;
    while rest != {}
      invariant rest <= m.Items
      invariant multiset(rows) + multiset(rest) == multiset(m.Items)
      decreases rest
    {
      var x :| x in rest;
      assert multiset(rest) == multiset(rest - {x}) + multiset{x};
      rows := rows + [x];
      rest := rest - {x};
    }
  }

  /** The stored term summary the SGPA write leaves behind (`set(..., merge=True)`). */
  function WithTermSummary(years: seq<YearDoc>, year: nat, term: nat, sgpa: real, totalCredits: int): seq<YearDoc>
    requires year < |years| && term < |years[year].terms|
  {
    var t := years[year].terms[term].(sgpa := Some(sgpa), totalCredits := Some(totalCredits));
    years[year := years[year].(terms := years[year].terms[term := t])]
  }

  /** A term given an SGPA with positive credits then counts towards the CGPA with
      exactly that pair. */
  lemma {:induction false} StoredTermCounts(years: seq<YearDoc>, year: nat, term: nat, sgpa: real, totalCredits: int)
    requires year < |years| && term < |years[year].terms| && totalCredits > 0
    ensures var after := WithTermSummary(years, year, term, sgpa, totalCredits);
      && Counted(after[year].terms[term])
      && (sgpa, totalCredits) in SemesterResults(after)
  {
    var after := WithTermSummary(years, year, term, sgpa, totalCredits);
    SemesterResultsHas(after, year, term);
  }

  function SomeGrade(row: (string, GradeDoc)): Option<GradeDoc> {
    Some(row.1)
  }

  /** The grade documents of a listing, without their ids. */
  function GradeDocs(rows: seq<(string, GradeDoc)>): seq<GradeDoc> {
    FilterMap(rows, SomeGrade)
  }

  /** The SGPA summary of the active term's grades. */
  ghost function SgpaOf(grades: map<string, GradeDoc>): Result<(real, int), StoreError> {
    SgpaSummary(GradeDocs(ListingOf(grades)))
  }

  /** The order in which the grades are listed does not matter. */
  lemma {:induction false} SgpaOfAnyListing(rows: seq<(string, GradeDoc)>, grades: map<string, GradeDoc>)
    requires Lists(rows, grades)
    ensures SgpaSummary(GradeDocs(rows)) == SgpaOf(grades)
  {
    ListingOfLists(grades);
    FilterMapPermutation(rows, ListingOf(grades), SomeGrade);
    SgpaSummaryPermutation(GradeDocs(rows), GradeDocs(ListingOf(grades)));
  }

  /** `list_grades`' order: by subject name, as strings compare. */
  predicate NameLe(a: (string, GradeDoc), b: (string, GradeDoc)) {
    LexLe(a.1.subjectName, b.1.subjectName)
  }

  /** `list_tasks`' key: `due_at`, a missing one after every date. */
  predicate DueLe(a: (string, TaskDoc), b: (string, TaskDoc)) {
    b.1.dueAt.None? || (a.1.dueAt.Some? && a.1.dueAt.value <= b.1.dueAt.value)
  }

  /** `list_events`' key: `starts_at`, a missing one after every date. */
  predicate StartsLe(a: (string, EventDoc), b: (string, EventDoc)) {
    b.1.startsAt.None? || (a.1.startsAt.Some? && a.1.startsAt.value <= b.1.startsAt.value)
  }

  lemma {:induction false} DueLeTotalPreorder()
    ensures TotalPreorder(DueLe)
  {
  }

  lemma {:induction false} StartsLeTotalPreorder()
    ensures TotalPreorder(StartsLe)
  {
  }

  /** The tasks `list_tasks` keeps: all of them, or only the open ones. */
  function KeepTask(includeCompleted: bool): ((string, TaskDoc)) -> Option<(string, TaskDoc)>
  {
    (row: (string, TaskDoc)) => if !includeCompleted && row.1.completed then None else Some(row)
  }

  /** The tasks listed: those stored under the active term, less the completed ones when
      they are not wanted. */
  ghost function ListedTasks(tasks: map<string, TaskDoc>, includeCompleted: bool): seq<(string, TaskDoc)> {
    FilterMap(ListingOf(tasks), KeepTask(includeCompleted))
  }

  /** Filtering keeps a row exactly when it is open or completed ones are wanted. */
  lemma {:induction false} KeptTasks(rows: seq<(string, TaskDoc)>, includeCompleted: bool, row: (string, TaskDoc))
    ensures row in FilterMap(rows, KeepTask(includeCompleted)) <==> row in rows && (includeCompleted || !row.1.completed)
  {
    var keep := KeepTask(includeCompleted);
    FilterMapMembers(rows, keep);
    if row in FilterMap(rows, keep) {
      var i :| 0 <= i < |rows| && keep(rows[i]) == Some(row);
    }
    if row in rows && (includeCompleted || !row.1.completed) {
      var i :| 0 <= i < |rows| && rows[i] == row;
      assert keep(rows[i]) == Some(row);
    }
  }

  /** A task is listed exactly when it is stored and is open or completed ones are wanted. */
  lemma {:induction false} ListedTasksMembers(tasks: map<string, TaskDoc>, includeCompleted: bool)
    ensures forall row: (string, TaskDoc) :: row in ListedTasks(tasks, includeCompleted) <==>
      row in tasks.Items && (includeCompleted || !row.1.completed)
  {
    var listing := ListingOf(tasks);
    ListingOfLists(tasks);
    forall row: (string, TaskDoc)
      ensures row in ListedTasks(tasks, includeCompleted) <==> row in tasks.Items && (includeCompleted || !row.1.completed)
    {
      KeptTasks(listing, includeCompleted, row);
      assert row in listing <==> row in multiset(listing);
    }
  }

  class Firestore {
    /** The user's academic years and their terms. */
    var years: seq<YearDoc>
    /** The profile's `active_year_id` and `active_term_id`, as positions in `years`. */
    var activeTerm: Option<(nat, nat)>
    /** The profile's cached `cgpa`. */
    var cachedCgpa: Option<real>
    /** The active term's collections, keyed by document id; an assessment by subject id
        and component name, a grade by subject id. */
    var subjects: map<string, SubjectDoc>
    var assessments: map<(string, string), AssessmentDoc>
    var grades: map<string, GradeDoc>
    var tasks: map<string, TaskDoc>
    var events: map<string, EventDoc>

    /** The active term, when set, is one of the stored terms. */
    ghost predicate Valid()
      reads this
    {
      activeTerm.Some? ==> activeTerm.value.0 < |years| && activeTerm.value.1 < |years[activeTerm.value.0].terms|
    }

    /** An empty store for a user who has not finished onboarding. */
    constructor ()
      ensures Valid() && activeTerm.None? && years == [] && cachedCgpa.None?
      ensures subjects == map[] && assessments == map[] && grades == map[]
      ensures tasks == map[] && events == map[]
    {
      years, activeTerm, cachedCgpa := [], None, None;
      subjects, assessments, grades, tasks, events := map[], map[], map[], map[], map[];
    }

    /** `save_assessments_and_grade`. */
    method SaveAssessmentsAndGrade(subjectId: string, rawScores: map<string, real>) returns (r: Result<SaveResult, StoreError>)
      modifies this`assessments, this`grades
      ensures (r, GradeState(assessments, grades))
        == SaveOutcome(activeTerm.Some?, subjects, old(GradeState(assessments, grades)), subjectId, rawScores)
    {
      if activeTerm.None? {
        return Failure(ActiveTermNotSet);
      }
      if subjectId !in subjects {
        return Failure(SubjectNotFound);
      }
      var subject := subjects[subjectId];
      var found := RulesByCredits(subject.credits);
      if found.None? {
        return Failure(UnsupportedCreditModel);
      }
      var rules := found.value;
      ghost var before := GradeState(assessments, grades);
      StoreComponents(subjectId, rules, rawScores);
      var stored := assessments;
      var missing := Missing(rules, rawScores);
      if missing != [] {
        grades := grades - {subjectId};
        assert SaveOutcome(true, subjects, before, subjectId, rawScores)
          == (Success(Partial(missing)), GradeState(stored, before.grades - {subjectId}));
        return Success(Partial(missing));
      }
      EvaluateComplete(subject.credits, rawScores);
      var evaluation := EvaluateSubject(subject.credits, rawScores);
      var doc := GradeOf(subjectId, subject, evaluation.value);
      grades := grades[subjectId := doc];
      assert SaveOutcome(true, subjects, before, subjectId, rawScores)
        == (Success(Final(doc)), GradeState(stored, before.grades[subjectId := doc]));
      return Success(Final(doc));
    }

    /** The per-component loop of `save_assessments_and_grade`: each rule's document is
        written when its raw mark is given and deleted when it is not. */
    method StoreComponents(subjectId: string, rules: seq<AssessmentRule>, rawScores: map<string, real>)
      requires WellFormed(rules)
      modifies this`assessments
      ensures assessments == StoredAssessments(old(assessments), subjectId, rules, rawScores)
    {
      for i := 0 to |rules|
        invariant assessments == StoredAssessments(old(assessments), subjectId, rules[..i], rawScores)
      {
        var rule := rules[i];
        StoredAssessmentsStep(old(assessments), subjectId, rules, i, rawScores);
        if rule.name in rawScores {
          assessments := assessments[(subjectId, rule.name) := Payload(rule, rawScores[rule.name])];
        } else {
          assessments := assessments - {(subjectId, rule.name)};
        }
      }
      assert rules[..|rules|] == rules;
    }

    /** `calculate_and_store_sgpa`: the summary of the active term's grades, written to
        the active term when it exists. */
    method CalculateAndStoreSgpa() returns (r: Result<(real, int), StoreError>)
      requires Valid()
      modifies this`years
      ensures activeTerm.None? ==> r == Failure(ActiveTermNotSet)
      ensures activeTerm.Some? ==> r == SgpaOf(grades)
      ensures years == if r.Success?
        then WithTermSummary(old(years), activeTerm.value.0, activeTerm.value.1, r.value.0, r.value.1)
        else old(years)
    {
      if activeTerm.None? {
        return Failure(ActiveTermNotSet);
      }
      var rows := StreamDocs(grades);
      rows := Sort(rows, NameLe);
      SgpaOfAnyListing(rows, grades);
      r := SummariseGrades(GradeDocs(rows));
      if r.Success? {
        years := WithTermSummary(years, activeTerm.value.0, activeTerm.value.1, r.value.0, r.value.1);
      }
    }

    /** `calculate_and_store_cgpa`: the summary of every counted term, cached on the
        profile when it exists. */
    method CalculateAndStoreCgpa() returns (r: Result<(real, seq<TrendPoint>), StoreError>)
      modifies this`cachedCgpa
      ensures r == CgpaSummary(years)
      ensures cachedCgpa == if r.Success? then Some(r.value.0) else old(cachedCgpa)
    {
      r := SummariseTerms(years);
      if r.Success? {
        cachedCgpa := Some(r.value.0);
      }
    }

    /** `list_tasks`: the active term's tasks, less the completed ones unless wanted, by
        due date with undated tasks last. */
    method ListTasks(includeCompleted: bool) returns (r: Result<seq<(string, TaskDoc)>, StoreError>)
      ensures activeTerm.None? <==> r == Failure(ActiveTermNotSet)
      ensures r.Success? ==> multiset(r.value) == multiset(ListedTasks(tasks, includeCompleted))
      ensures r.Success? ==> SortedBy(r.value, DueLe)
    {
      if activeTerm.None? {
        return Failure(ActiveTermNotSet);
      }
      var docs := StreamDocs(tasks);
      var results := [];
      for i := 0 to |docs|
        invariant results == FilterMap(docs[..i], KeepTask(includeCompleted))
      {
        assert docs[..i + 1][..i] == docs[..i];
        var row := docs[i];
        if !(!includeCompleted && row.1.completed) {
          results := results + [row];
        }
      }
      assert docs[..|docs|] == docs;
      ListingOfLists(tasks);
      FilterMapPermutation(docs, ListingOf(tasks), KeepTask(includeCompleted));
      var sorted := Sort(results, DueLe);
      DueLeTotalPreorder();
      SortSorted(results, DueLe);
      return Success(sorted);
    }

    /** `list_events`: the active term's events by start, undated ones last. */
    method ListEvents() returns (r: Result<seq<(string, EventDoc)>, StoreError>)
      ensures activeTerm.None? <==> r == Failure(ActiveTermNotSet)
      ensures r.Success? ==> Lists(r.value, events)
      ensures r.Success? ==> SortedBy(r.value, StartsLe)
    {
      if activeTerm.None? {
        return Failure(ActiveTermNotSet);
      }
      var docs := StreamDocs(events);
      var sorted := Sort(docs, StartsLe);
      StartsLeTotalPreorder();
      SortSorted(docs, StartsLe);
      return Success(sorted);
    }
  }
}
