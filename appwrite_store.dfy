/** The Appwrite-backed service's grading and listing operations, over in-memory document
    lists in place of the database client. A collection is the list its query returns;
    documents are found by key, updated in place, appended when created and cut out when
    deleted. */
module AppwriteStore {
  import opened Common
  import opened Text
  import opened Grades
  import opened Sorting
  import opened StoreDocs
  import opened FirestoreStore
  import opened Collections

  /** An assessment document: the subject it belongs to and its component fields. */
  datatype AssessmentRow = AssessmentRow(subjectId: string, doc: AssessmentDoc)

  /** A task document; `due_at` is the stored ISO text, possibly absent or empty. */
  datatype TaskRow = TaskRow(id: string, title: string, dueAt: Option<string>, completed: bool)

  /** An event document; `starts_at` is the stored ISO text, possibly absent or empty. */
  datatype EventRow = EventRow(id: string, title: string, startsAt: Option<string>)

  /** The assessment and grade collections of the user, which the save rewrites. */
  datatype AppwriteState = AppwriteState(assessments: seq<AssessmentRow>, grades: seq<GradeDoc>)

  /** An assessment document is identified by its subject and its `type`. */
  function RowKey(row: AssessmentRow): (string, string) {
    (row.subjectId, row.doc.kind)
  }

  function RowDoc(row: AssessmentRow): AssessmentDoc {
    row.doc
  }

  /** A grade document is identified by its subject. */
  function GradeKey(g: GradeDoc): string {
    g.subjectId
  }

  function GradeItself(g: GradeDoc): GradeDoc {
    g
  }

  /** At most one assessment document per subject and type, and one grade per subject. */
  ghost predicate Consistent(st: AppwriteState) {
    UniqueKeys(st.assessments, RowKey) && UniqueKeys(st.grades, GradeKey)
  }

  /** The collections read as the keyed documents the Firestore service stores. */
  function View(st: AppwriteState): GradeState {
    GradeState(Keyed(st.assessments, RowKey, RowDoc), Keyed(st.grades, GradeKey, GradeItself))
  }

  /** One rule of the component loop: update the existing document of that type, or create
      one, when the raw mark is given; delete the existing one when it is not. */
  function ComponentStep(rows: seq<AssessmentRow>, subjectId: string, rule: AssessmentRule, rawScores: map<string, real>): seq<AssessmentRow>
    requires rule.maxRaw > 0.0
  {
    var existing := LastWith(rows, RowKey, (subjectId, rule.name));
    if rule.name in rawScores then
      var row := AssessmentRow(subjectId, Payload(rule, rawScores[rule.name]));
      if existing.Some? then rows[existing.value := row] else rows + [row]
    else if existing.Some? then rows[..existing.value] + rows[existing.value + 1..]
    else rows
  }

  /** The assessment documents after the component loop has handled `rules`. */
  function Components(rows: seq<AssessmentRow>, subjectId: string, rules: seq<AssessmentRule>, rawScores: map<string, real>): seq<AssessmentRow>
    requires WellFormed(rules)
  {
    if rules == [] then rows
    else ComponentStep(Components(rows, subjectId, rules[..|rules| - 1], rawScores), subjectId, rules[|rules| - 1], rawScores)
  }

  lemma {:induction false} ComponentsStep(rows: seq<AssessmentRow>, subjectId: string, rules: seq<AssessmentRule>, i: nat, rawScores: map<string, real>)
    requires WellFormed(rules) && i < |rules|
    ensures Components(rows, subjectId, rules[..i + 1], rawScores)
      == ComponentStep(Components(rows, subjectId, rules[..i], rawScores), subjectId, rules[i], rawScores)
  {
    assert rules[..i + 1][..i] == rules[..i];
  }

  /** One step keeps one document per type and does to the keyed view what the Firestore
      write or delete does. */
  lemma {:induction false} ComponentStepAgrees(rows: seq<AssessmentRow>, subjectId: string, rule: AssessmentRule, rawScores: map<string, real>)
    requires rule.maxRaw > 0.0 && UniqueKeys(rows, RowKey)
    ensures var after := ComponentStep(rows, subjectId, rule, rawScores);
      var before := Keyed(rows, RowKey, RowDoc);
      && UniqueKeys(after, RowKey)
      && Keyed(after, RowKey, RowDoc) == if rule.name in rawScores
           then before[(subjectId, rule.name) := Payload(rule, rawScores[rule.name])]
           else before - {(subjectId, rule.name)}
  {
    var k := (subjectId, rule.name);
    var existing := LastWith(rows, RowKey, k);
    if rule.name in rawScores {
      var row := AssessmentRow(subjectId, Payload(rule, rawScores[rule.name]));
      assert RowKey(row) == k;
      if existing.Some? {
        KeyedReplace(rows, RowKey, RowDoc, existing.value, row);
      } else {
        KeyedAppend(rows, RowKey, RowDoc, row);
      }
    } else if existing.Some? {
      KeyedRemove(rows, RowKey, RowDoc, existing.value);
      UniqueRemove(rows, RowKey, existing.value);
    } else {
      KeyedLast(rows, RowKey, RowDoc, k);
      var before := Keyed(rows, RowKey, RowDoc);
      assert before - {k} == before;
    }
  }

  /** With one document per subject and type to begin with, the Appwrite component loop
      leaves exactly the documents the Firestore one does, and still one per type. */
  lemma {:induction false} ComponentsAgree(rows: seq<AssessmentRow>, subjectId: string, rules: seq<AssessmentRule>, rawScores: map<string, real>)
    requires WellFormed(rules) && UniqueKeys(rows, RowKey)
    ensures UniqueKeys(Components(rows, subjectId, rules, rawScores), RowKey)
    ensures Keyed(Components(rows, subjectId, rules, rawScores), RowKey, RowDoc)
      == StoredAssessments(Keyed(rows, RowKey, RowDoc), subjectId, rules, rawScores)
  {
    if rules != [] {
      var n := |rules| - 1;
      ComponentsAgree(rows, subjectId, rules[..n], rawScores);
      ComponentStepAgrees(Components(rows, subjectId, rules[..n], rawScores), subjectId, rules[n], rawScores);
    }
  }

  /** The partial path: the grade `_find_first` returns, if any, is deleted. */
  function RemoveGrade(grades: seq<GradeDoc>, subjectId: string): seq<GradeDoc>
  {
    match FirstWith(grades, GradeKey, subjectId)
    case None => grades
    case Some(j) => grades[..j] + grades[j + 1..]
  }

  /** The final path: the grade `_find_first` returns is updated in place, or one is
      created when there is none. */
  function PutGrade(grades: seq<GradeDoc>, doc: GradeDoc): seq<GradeDoc>
  {
    match FirstWith(grades, GradeKey, doc.subjectId)
    case None => grades + [doc]
    case Some(j) => grades[j := doc]
  }

  lemma {:induction false} RemoveGradeAgrees(grades: seq<GradeDoc>, subjectId: string)
    requires UniqueKeys(grades, GradeKey)
    ensures UniqueKeys(RemoveGrade(grades, subjectId), GradeKey)
    ensures Keyed(RemoveGrade(grades, subjectId), GradeKey, GradeItself) == Keyed(grades, GradeKey, GradeItself) - {subjectId}
  {
    match FirstWith(grades, GradeKey, subjectId)
    case None =>
      KeyedLast(grades, GradeKey, GradeItself, subjectId);
      UniqueFirstIsLast(grades, GradeKey, subjectId);
      var m := Keyed(grades, GradeKey, GradeItself);
      assert m - {subjectId} == m;
    case Some(j) =>
      KeyedRemove(grades, GradeKey, GradeItself, j);
      UniqueRemove(grades, GradeKey, j);
  }

  lemma {:induction false} PutGradeAgrees(grades: seq<GradeDoc>, doc: GradeDoc)
    requires UniqueKeys(grades, GradeKey)
    ensures UniqueKeys(PutGrade(grades, doc), GradeKey)
    ensures Keyed(PutGrade(grades, doc), GradeKey, GradeItself) == Keyed(grades, GradeKey, GradeItself)[doc.subjectId := doc]
  {
    UniqueFirstIsLast(grades, GradeKey, doc.subjectId);
    match FirstWith(grades, GradeKey, doc.subjectId)
    case None =>
      KeyedAppend(grades, GradeKey, GradeItself, doc);
    case Some(j) =>
      KeyedReplace(grades, GradeKey, GradeItself, j, doc);
  }

  /** `save_assessments_and_grade` as a function of the collections it reads and writes.
      Unlike the Firestore service it does not consult the active term. */
  function SaveOutcomeAppwrite(
    subjects: map<string, SubjectDoc>, state: AppwriteState,
    subjectId: string, rawScores: map<string, real>): (Result<SaveResult, StoreError>, AppwriteState)
  {
    if subjectId !in subjects then (Failure(SubjectNotFound), state)
    else
      var subject := subjects[subjectId];
      match RulesByCredits(subject.credits)
      case None => (Failure(UnsupportedCreditModel), state)
      case Some(rules) =>
        var stored := Components(state.assessments, subjectId, rules, rawScores);
        var missing := Missing(rules, rawScores);
        if missing != [] then
          (Success(Partial(missing)), AppwriteState(stored, RemoveGrade(state.grades, subjectId)))
        else
          EvaluateComplete(subject.credits, rawScores);
          var doc := GradeOf(subjectId, subject, Evaluate(subject.credits, rawScores).value);
          (Success(Final(doc)), AppwriteState(stored, PutGrade(state.grades, doc)))
  }

  /** An unknown subject or an unsupported credit count is refused before any write, and
      the save never fails for want of an active term. */
  lemma {:induction false} SaveRefusalsAppwrite(
    subjects: map<string, SubjectDoc>, state: AppwriteState, subjectId: string, rawScores: map<string, real>)
    ensures var (r, after) := SaveOutcomeAppwrite(subjects, state, subjectId, rawScores);
      && (r.Failure? ==> after == state)
      && (r == Failure(SubjectNotFound) <==> subjectId !in subjects)
      && (r == Failure(UnsupportedCreditModel)
          <==> subjectId in subjects && !SupportedCredits(subjects[subjectId].credits))
      && r != Failure(ActiveTermNotSet)
  {
  }

  /** From collections with one document per key, the Appwrite save keeps one document per
      key (it never creates a second grade for a subject) and, read as keyed documents,
      returns and stores exactly what the Firestore save does with an active term set. */
  lemma {:induction false} SaveMatchesFirestore(
    subjects: map<string, SubjectDoc>, state: AppwriteState, subjectId: string, rawScores: map<string, real>)
    requires Consistent(state)
    ensures var (r, after) := SaveOutcomeAppwrite(subjects, state, subjectId, rawScores);
      && Consistent(after)
      && (r, View(after)) == SaveOutcome(true, subjects, View(state), subjectId, rawScores)
  {
    if subjectId in subjects && SupportedCredits(subjects[subjectId].credits) {
      var subject := subjects[subjectId];
      var rules := RulesByCredits(subject.credits).value;
      ComponentsAgree(state.assessments, subjectId, rules, rawScores);
      if Missing(rules, rawScores) != [] {
        RemoveGradeAgrees(state.grades, subjectId);
      } else {
        EvaluateComplete(subject.credits, rawScores);
        var doc := GradeOf(subjectId, subject, Evaluate(subject.credits, rawScores).value);
        PutGradeAgrees(state.grades, doc);
      }
    }
  }

  /** `_active_term`: the profile names no term, or names one that is not stored, or
      names the term at these positions. */
  function ActiveTerm(activeTerm: Option<(nat, nat)>, years: seq<YearDoc>): (r: Result<(nat, nat), StoreError>)
    ensures r.Success? ==> r.value.0 < |years| && r.value.1 < |years[r.value.0].terms|
    ensures r.Failure? ==> r.error == ActiveTermNotSet || r.error == ActiveTermNotFound
  {
    match activeTerm
    case None => Failure(ActiveTermNotSet)
    case Some(at) =>
      if at.0 < |years| && at.1 < |years[at.0].terms| then Success(at) else Failure(ActiveTermNotFound)
  }

  /** `calculate_and_store_sgpa` as written: every grade of the user is summarised, and
      only then is the active term looked up. */
  function AllGradesSgpa(grades: seq<GradeDoc>, activeTerm: Option<(nat, nat)>, years: seq<YearDoc>): Result<(real, int), StoreError>
  {
    match SgpaSummary(grades)
    case Failure(e) => Failure(e)
    case Success(summary) =>
      match ActiveTerm(activeTerm, years)
      case Failure(e) => Failure(e)
      case Success(_) => Success(summary)
  }

  /** The grades errors come first: a user with no grades hears about that, not about the
      missing active term. */
  lemma {:induction false} AllGradesSgpaErrorOrder(grades: seq<GradeDoc>, activeTerm: Option<(nat, nat)>, years: seq<YearDoc>)
    ensures grades == [] ==> AllGradesSgpa(grades, activeTerm, years) == Failure(NoGrades)
    ensures AllGradesSgpa(grades, activeTerm, years).Success?
      <==> SgpaSummary(grades).Success? && ActiveTerm(activeTerm, years).Success?
  {
  }

  /** Whether a grade belongs to a subject of the given term. */
  function InTerm(subjectTerms: map<string, (nat, nat)>, at: (nat, nat)): GradeDoc -> Option<GradeDoc>
  {
    (g: GradeDoc) => if g.subjectId in subjectTerms && subjectTerms[g.subjectId] == at then Some(g) else None
  }

  /** The grades of the subjects of one term, in listing order. */
  function TermGrades(grades: seq<GradeDoc>, subjectTerms: map<string, (nat, nat)>, at: (nat, nat)): seq<GradeDoc>
  {
    FilterMap(grades, InTerm(subjectTerms, at))
  }

  /** The SGPA the active term should receive: the summary of its own subjects' grades. */
  function TermSgpa(grades: seq<GradeDoc>, subjectTerms: map<string, (nat, nat)>, activeTerm: Option<(nat, nat)>, years: seq<YearDoc>): Result<(real, int), StoreError>
  {
    match ActiveTerm(activeTerm, years)
    case Failure(e) => Failure(e)
    case Success(at) => SgpaSummary(TermGrades(grades, subjectTerms, at))
  }

  /** A grade is counted for a term exactly when it is stored and its subject is in that term. */
  lemma {:induction false} TermGradesMembers(grades: seq<GradeDoc>, subjectTerms: map<string, (nat, nat)>, at: (nat, nat), g: GradeDoc)
    ensures g in TermGrades(grades, subjectTerms, at)
      <==> g in grades && g.subjectId in subjectTerms && subjectTerms[g.subjectId] == at
  {
    var f := InTerm(subjectTerms, at);
    FilterMapMembers(grades, f);
    if g in grades && g.subjectId in subjectTerms && subjectTerms[g.subjectId] == at {
      var i :| 0 <= i < |grades| && grades[i] == g;
      assert f(grades[i]) == Some(g);
    }
    if g in FilterMap(grades, f) {
      var i :| 0 <= i < |grades| && f(grades[i]) == Some(g);
    }
  }

  /** A grade of another term's subject does not change the active term's SGPA. */
  lemma {:induction false} TermSgpaIgnoresOtherTerms(
    grades: seq<GradeDoc>, subjectTerms: map<string, (nat, nat)>, activeTerm: Option<(nat, nat)>,
    years: seq<YearDoc>, g: GradeDoc)
    requires activeTerm.Some? ==> !(g.subjectId in subjectTerms && subjectTerms[g.subjectId] == activeTerm.value)
    ensures TermSgpa(grades + [g], subjectTerms, activeTerm, years) == TermSgpa(grades, subjectTerms, activeTerm, years)
  {
    if activeTerm.Some? {
      var f := InTerm(subjectTerms, activeTerm.value);
      FilterMapConcat(grades, [g], f);
      assert FilterMap([g], f) == [];
      assert FilterMap(grades, f) + [] == FilterMap(grades, f);
    }
  }

  /** A successful summary's credit total is the sum of the positive credits. */
  lemma {:induction false} SgpaSummaryCredits(docs: seq<GradeDoc>)
    requires SgpaSummary(docs).Success?
    ensures SgpaSummary(docs).value.1 == PositiveCredits(docs)
  {
  }

  /** As written, the SGPA stored on the active term also counts the credits of a grade
      from another term's subject; over the term's own subjects that grade is not counted.
      (One year with terms Odd and Even, Even active, a 4-credit Physics grade in Even and
      a 4-credit Maths grade from Odd: eight credits as written, four as intended.) */
  lemma {:induction false} AllGradesSgpaCountsOtherTerms(
    own: GradeDoc, other: GradeDoc, subjectTerms: map<string, (nat, nat)>,
    activeTerm: Option<(nat, nat)>, years: seq<YearDoc>)
    requires ActiveTerm(activeTerm, years).Success?
    requires own.credits > 0 && other.credits > 0
    requires own.subjectId in subjectTerms && subjectTerms[own.subjectId] == activeTerm.value
    requires !(other.subjectId in subjectTerms && subjectTerms[other.subjectId] == activeTerm.value)
    ensures var written := AllGradesSgpa([own, other], activeTerm, years);
      written.Success? && written.value.1 == own.credits + other.credits
    ensures var intended := TermSgpa([own, other], subjectTerms, activeTerm, years);
      intended.Success? && intended.value.1 == own.credits
  {
    PairCredits(own, other);
    TermGradesOfPair(own, other, subjectTerms, activeTerm.value);
    SgpaSummaryCases([own]);
    assert [own][0].credits > 0;
    SgpaSummaryCredits([own]);
  }

  /** Two graded subjects with credits: the summary counts both. */
  lemma {:induction false} PairCredits(own: GradeDoc, other: GradeDoc)
    requires own.credits > 0 && other.credits > 0
    ensures SgpaSummary([own, other]).Success?
    ensures SgpaSummary([own, other]).value.1 == own.credits + other.credits
  {
    var grades := [own, other];
    SgpaSummaryCases(grades);
    assert grades[0].credits > 0;
    SgpaSummaryCredits(grades);
    assert grades[..1] == [own];
    assert PositiveCredits([own]) == own.credits by {
      assert [own][..0] == [];
    }
  }

  /** Of a grade in the term and one outside it, only the first is the term's. */
  lemma {:induction false} TermGradesOfPair(own: GradeDoc, other: GradeDoc, subjectTerms: map<string, (nat, nat)>, at: (nat, nat))
    requires own.subjectId in subjectTerms && subjectTerms[own.subjectId] == at
    requires !(other.subjectId in subjectTerms && subjectTerms[other.subjectId] == at)
    ensures TermGrades([own, other], subjectTerms, at) == [own]
  {
    var f := InTerm(subjectTerms, at);
    FilterMapConcat([own], [other], f);
    assert FilterMap([own], f) == [own] by {
      assert FilterMap([own][..0], f) == [];
    }
    assert FilterMap([other], f) == [] by {
      assert FilterMap([other][..0], f) == [];
    }
    assert [own, other] == [own] + [other];
  }

  /** `list_tasks`' sort key: the stored text, or the sentinel when it is absent or empty. */
  const Sentinel: string := "9999-12-31T00:00:00+00:00"

  function DueKey(t: TaskRow): string {
    if t.dueAt.Some? && t.dueAt.value != "" then t.dueAt.value else Sentinel
  }

  function StartKey(e: EventRow): string {
    if e.startsAt.Some? && e.startsAt.value != "" then e.startsAt.value else Sentinel
  }

  predicate DueKeyLe(a: TaskRow, b: TaskRow) {
    LexLe(DueKey(a), DueKey(b))
  }

  predicate StartKeyLe(a: EventRow, b: EventRow) {
    LexLe(StartKey(a), StartKey(b))
  }

  lemma {:induction false} DueKeyLeTotalPreorder()
    ensures TotalPreorder(DueKeyLe)
  {
    forall a: TaskRow, b: TaskRow ensures DueKeyLe(a, b) || DueKeyLe(b, a) {
      LexLeTotal(DueKey(a), DueKey(b));
    }
    forall a: TaskRow, b: TaskRow, c: TaskRow | DueKeyLe(a, b) && DueKeyLe(b, c) ensures DueKeyLe(a, c) {
      LexLeTransitive(DueKey(a), DueKey(b), DueKey(c));
    }
  }

  lemma {:induction false} StartKeyLeTotalPreorder()
    ensures TotalPreorder(StartKeyLe)
  {
    forall a: EventRow, b: EventRow ensures StartKeyLe(a, b) || StartKeyLe(b, a) {
      LexLeTotal(StartKey(a), StartKey(b));
    }
    forall a: EventRow, b: EventRow, c: EventRow | StartKeyLe(a, b) && StartKeyLe(b, c) ensures StartKeyLe(a, c) {
      LexLeTransitive(StartKey(a), StartKey(b), StartKey(c));
    }
  }

  /** In a listing sorted by due key, an undated task comes after every task whose date
      sorts before the sentinel. */
  lemma {:induction false} UndatedTasksLast(rows: seq<TaskRow>, i: nat, j: nat)
    requires SortedBy(rows, DueKeyLe) && i < |rows| && j < |rows|
    requires rows[i].dueAt.None? && !LexLe(Sentinel, DueKey(rows[j]))
    ensures j < i
  {
    LexLeTotal(Sentinel, Sentinel);
  }

  /** The tasks `list_tasks` keeps: all of them, or only the open ones. */
  function KeepRow(includeCompleted: bool): TaskRow -> Option<TaskRow>
  {
    (t: TaskRow) => if !includeCompleted && t.completed then None else Some(t)
  }

  /** A task is listed exactly when it is stored and is open or completed ones are wanted. */
  lemma {:induction false} KeptRows(tasks: seq<TaskRow>, includeCompleted: bool, t: TaskRow)
    ensures t in FilterMap(tasks, KeepRow(includeCompleted)) <==> t in tasks && (includeCompleted || !t.completed)
  {
    var keep := KeepRow(includeCompleted);
    FilterMapMembers(tasks, keep);
    if t in FilterMap(tasks, keep) {
      var i :| 0 <= i < |tasks| && keep(tasks[i]) == Some(t);
    }
    if t in tasks && (includeCompleted || !t.completed) {
      var i :| 0 <= i < |tasks| && tasks[i] == t;
      assert keep(tasks[i]) == Some(t);
    }
  }

  class Appwrite {
    /** The user's academic years and their terms. */
    var years: seq<YearDoc>
    /** The profile's `active_year_id` and `active_term_id`, as positions in `years`;
        positions that name no stored term model ids that match no document. */
    var activeTerm: Option<(nat, nat)>
    /** The profile's cached `cgpa`. */
    var cachedCgpa: Option<real>
    /** The user's subjects by id, and the term each was created in. */
    var subjects: map<string, SubjectDoc>
    var subjectTerms: map<string, (nat, nat)>
    /** The user's assessment and grade documents, in listing order. */
    var assessments: seq<AssessmentRow>
    var grades: seq<GradeDoc>
    /** The active term's tasks and events, in listing order. */
    var tasks: seq<TaskRow>
    var events: seq<EventRow>

    constructor ()
      ensures activeTerm.None? && years == [] && cachedCgpa.None?
      ensures subjects == map[] && subjectTerms == map[] && assessments == [] && grades == []
      ensures tasks == [] && events == []
    {
      years, activeTerm, cachedCgpa := [], None, None;
      subjects, subjectTerms := map[], map[];
      assessments, grades, tasks, events := [], [], [], [];
    }

    /** `save_assessments_and_grade`. */
    method SaveAssessmentsAndGrade(subjectId: string, rawScores: map<string, real>) returns (r: Result<SaveResult, StoreError>)
      modifies this`assessments, this`grades
      ensures (r, AppwriteState(assessments, grades))
        == SaveOutcomeAppwrite(subjects, old(AppwriteState(assessments, grades)), subjectId, rawScores)
    {
      if subjectId !in subjects {
        return Failure(SubjectNotFound);
      }
      var subject := subjects[subjectId];
      var found := RulesByCredits(subject.credits);
      if found.None? {
        return Failure(UnsupportedCreditModel);
      }
      var rules := found.value;
      ghost var before := AppwriteState(assessments, grades);
      StoreComponents(subjectId, rules, rawScores);
      var stored := assessments;
      var missing := Missing(rules, rawScores);
      if missing != [] {
        grades := RemoveGrade(grades, subjectId);
        assert SaveOutcomeAppwrite(subjects, before, subjectId, rawScores)
          == (Success(Partial(missing)), AppwriteState(stored, RemoveGrade(before.grades, subjectId)));
        return Success(Partial(missing));
      }
      EvaluateComplete(subject.credits, rawScores);
      var evaluation := EvaluateSubject(subject.credits, rawScores);
      var doc := GradeOf(subjectId, subject, evaluation.value);
      grades := PutGrade(grades, doc);
      assert SaveOutcomeAppwrite(subjects, before, subjectId, rawScores)
        == (Success(Final(doc)), AppwriteState(stored, PutGrade(before.grades, doc)));
      return Success(Final(doc));
    }

    /** The component loop of `save_assessments_and_grade`. */
    method StoreComponents(subjectId: string, rules: seq<AssessmentRule>, rawScores: map<string, real>)
      requires WellFormed(rules)
      modifies this`assessments
      ensures assessments == Components(old(assessments), subjectId, rules, rawScores)
    {
      for i := 0 to |rules|
        invariant assessments == Components(old(assessments), subjectId, rules[..i], rawScores)
      {
        var rule := rules[i];
        ComponentsStep(old(assessments), subjectId, rules, i, rawScores);
        var existing := LastWith(assessments, RowKey, (subjectId, rule.name));
        if rule.name in rawScores {
          var row := AssessmentRow(subjectId, Payload(rule, rawScores[rule.name]));
          if existing.Some? {
            assessments := assessments[existing.value := row];
          } else {
            assessments := assessments + [row];
          }
        } else if existing.Some? {
          assessments := assessments[..existing.value] + assessments[existing.value + 1..];
        }
      }
      assert rules[..|rules|] == rules;
    }

    /** `calculate_and_store_sgpa` as written: all of the user's grades, sorted by subject
        name and summarised, are written to the active term. */
    method CalculateAndStoreSgpa() returns (r: Result<(real, int), StoreError>)
      modifies this`years
      ensures r == AllGradesSgpa(grades, activeTerm, old(years))
      ensures r.Success? ==> ActiveTerm(activeTerm, old(years)).Success?
      ensures years == if r.Success?
        then WithTermSummary(old(years), activeTerm.value.0, activeTerm.value.1, r.value.0, r.value.1)
        else old(years)
    {
      var sorted := Sort(grades, GradeNameLe);
      SgpaSummaryPermutation(sorted, grades);
      r := SummariseGrades(sorted);
      if r.Failure? {
        return;
      }
      var at := ActiveTerm(activeTerm, years);
      if at.Failure? {
        return Failure(at.error);
      }
      years := WithTermSummary(years, at.value.0, at.value.1, r.value.0, r.value.1);
    }

    /** `calculate_and_store_sgpa` as evidently intended: the active term is looked up
        first and only its own subjects' grades are summarised. */
    method CalculateAndStoreTermSgpa() returns (r: Result<(real, int), StoreError>)
      modifies this`years
      ensures r == TermSgpa(grades, subjectTerms, activeTerm, old(years))
      ensures r.Success? ==> ActiveTerm(activeTerm, old(years)).Success?
      ensures years == if r.Success?
        then WithTermSummary(old(years), activeTerm.value.0, activeTerm.value.1, r.value.0, r.value.1)
        else old(years)
    {
      var at := ActiveTerm(activeTerm, years);
      if at.Failure? {
        return Failure(at.error);
      }
      var term := at.value;
      var own := [];
      for i := 0 to |grades|
        invariant own == FilterMap(grades[..i], InTerm(subjectTerms, term))
      {
        assert grades[..i + 1][..i] == grades[..i];
        var g := grades[i];
        if g.subjectId in subjectTerms && subjectTerms[g.subjectId] == term {
          own := own + [g];
        }
      }
      assert grades[..|grades|] == grades;
      var sorted := Sort(own, GradeNameLe);
      SgpaSummaryPermutation(sorted, own);
      r := SummariseGrades(sorted);
      if r.Success? {
        years := WithTermSummary(years, term.0, term.1, r.value.0, r.value.1);
      }
    }

    /** `calculate_and_store_cgpa`: the summary of every counted term, cached on the
        profile when it exists. */
    method CalculateAndStoreCgpa() returns (r: Result<(real, seq<TrendPoint>), StoreError>)
      modifies this`cachedCgpa
      ensures r == CgpaSummary(years)
      ensures cachedCgpa == if r.Success? then Some(r.value.0) else old(cachedCgpa)
    {
      r := SummariseTerms(years);
      if r.Success? {
        cachedCgpa := Some(r.value.0);
      }
    }

    /** `list_tasks`: the active term's tasks, less the completed ones unless wanted, by
        due text with the sentinel standing in for a missing date. */
    method ListTasks(includeCompleted: bool) returns (r: Result<seq<TaskRow>, StoreError>)
      ensures ActiveTerm(activeTerm, years).Failure? ==> r == Failure(ActiveTerm(activeTerm, years).error)
      ensures ActiveTerm(activeTerm, years).Success? ==> r.Success?
      ensures r.Success? ==> multiset(r.value) == multiset(FilterMap(tasks, KeepRow(includeCompleted)))
      ensures r.Success? ==> SortedBy(r.value, DueKeyLe)
    {
      var at := ActiveTerm(activeTerm, years);
      if at.Failure? {
        return Failure(at.error);
      }
      var results := [];
      for i := 0 to |tasks|
        invariant results == FilterMap(tasks[..i], KeepRow(includeCompleted))
      {
        assert tasks[..i + 1][..i] == tasks[..i];
        var t := tasks[i];
        if !(!includeCompleted && t.completed) {
          results := results + [t];
        }
      }
      assert tasks[..|tasks|] == tasks;
      var sorted := Sort(results, DueKeyLe);
      DueKeyLeTotalPreorder();
      SortSorted(results, DueKeyLe);
      return Success(sorted);
    }

    /** `list_events`: the active term's events by start text, the sentinel standing in
        for a missing one. */
    method ListEvents() returns (r: Result<seq<EventRow>, StoreError>)
      ensures ActiveTerm(activeTerm, years).Failure? ==> r == Failure(ActiveTerm(activeTerm, years).error)
      ensures ActiveTerm(activeTerm, years).Success? ==> r.Success?
      ensures r.Success? ==> multiset(r.value) == multiset(events)
      ensures r.Success? ==> SortedBy(r.value, StartKeyLe)
    {
      var at := ActiveTerm(activeTerm, years);
      if at.Failure? {
        return Failure(at.error);
      }
      var sorted := Sort(events, StartKeyLe);
      StartKeyLeTotalPreorder();
      SortSorted(events, StartKeyLe);
      return Success(sorted);
    }
  }

  /** `list_grades`' order: by subject name, as strings compare. */
  predicate GradeNameLe(a: GradeDoc, b: GradeDoc) {
    LexLe(a.subjectName, b.subjectName)
  }
}
