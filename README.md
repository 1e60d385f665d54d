# School Planner (skoolplannr): a verified model of the grading, GPA and timetable core

This project models, in Dafny, the logic at the heart of School Planner. It covers:

- **Grading engine** (`src/skoolplannr/core/grades.py`). A fixed table of assessment components per credit model (2, 4 or 5 credits). Each raw mark is clamped and scaled onto its component's weight, and the scaled marks are summed and rounded. The total is mapped to a letter (S … F), and the letter to a grade point (10 … 4). Modules `Grades` and `Rounding`.
- **GPA** (`src/skoolplannr/core/gpa.py`). Credit-weighted means that reject non-positive credits and an empty input. Module `Gpa`.
- **Legacy scheme** (`app/domain/logic/grading.py`, `app/domain/logic/gpa.py`). Integer grade bands, an 80/20 theory/lab blend, and GPA functions that return 0.0 instead of raising. Modules `LegacyGrading` and `LegacyGpa`.
- **Dashboard timetable** (`src/skoolplannr/ui/views/dashboard_view.py`):
  - the per-weekday slot map;
  - the choice of the day to show;
  - the "due today or tomorrow" task filter;
  - the "next three events" filter.

  Module `Dashboard`. Times are integer microseconds, and day 0 is a Monday.
- **Schedule-slot text** (`src/skoolplannr/ui/views/subjects_view.py`). The parser of `"Mon 10:00-11:00, Wed 14:00-15:00"` and the display format it round-trips with. Module `ScheduleText`.
- **Storage services.** `FirestoreService` and `AppwriteService` become classes over in-memory document stores (modules `FirestoreStore` and `AppwriteStore`). Both share `StoreDocs`, which holds the document shapes and the SGPA/CGPA summaries. `AppwriteStore` also uses `Collections`, the lookup helpers over document lists. The modelled operations are:
  - saving assessments and the grade;
  - computing and storing the SGPA and CGPA;
  - listing tasks and events.
- **Backend helpers** (`appwrite/functions/backend/main.py`):
  - header folding;
  - path normalisation;
  - boolean tokens;
  - the user-id check;
  - the route table.

  Module `Backend`.
- **Session** (`src/skoolplannr/state/session_state.py`). Module `Session`.
- **Supporting modules** for Python library behaviour the core relies on:
  - `Text`: `str.strip`, `str.split`, `lower`/`upper`, string ordering and `int()` on digit strings;
  - `Sorting`: stable `list.sort`;
  - `Common`: `Option`/`Result` and list comprehensions with a filter.

Numbers the source holds in Python floats are Dafny `real`s. `round(x, 2)` and `round(x)` are round-half-to-even on the exact value.

Each storage method is a method on a class whose fields are the collections it reads and writes. It is proved equal to a pure function of the old state (`SaveOutcome`, `SgpaSummary`, `CgpaSummary`, …). The properties of those functions are lemmas.

Two facts about the credit models are worth knowing:

- Keys of the raw-score dictionary that are not components of the credit model are ignored (`Grades.SubjectScoreIgnoresOtherKeys`).
- The 5-credit table's ceilings sum to 120 (`Grades.CeilingTotals`).

## Model

| member | source | states |
|---|---|---|
| Grades.RulesByCredits | src/skoolplannr/core/grades.py:11-36 | a table exists exactly for 2, 4 and 5 credits; every component has a positive maximum and a non-negative weight, and names are distinct |
| Grades.CeilingTotals | src/skoolplannr/core/grades.py:11-36 | the weights sum to 100 for 2 and 4 credits and to 120 for 5 credits |
| Grades.ScaleToWeighted | src/skoolplannr/core/grades.py:39-43 | fails exactly when max_raw <= 0; otherwise the result lies in [0, reduced_to], is 0 for raw <= 0 and reduced_to for raw >= max_raw |
| Grades.ScaleToWeightedMonotone | src/skoolplannr/core/grades.py:42-43 | the scaled mark never decreases as the raw mark grows |
| Grades.NamesMembers | src/skoolplannr/core/grades.py:57 | there is one name per component, and a name is listed exactly when some component of the credit model carries it |
| Grades.Missing | src/skoolplannr/core/grades.py:57 | a name is listed exactly when it is a component absent from the scores, and the list keeps table order (a subsequence of the names) |
| Grades.NoneMissing | src/skoolplannr/core/grades.py:57-58 | nothing is missing exactly when every component has a score |
| Grades.MissingIgnoresOtherKeys | src/skoolplannr/core/grades.py:57 | adding a non-component key leaves the missing list unchanged |
| Grades.AccumulateScaled | src/skoolplannr/core/grades.py:61-63 | the loop's total is the sum of the scaled components |
| Grades.CalculateSubjectScore | src/skoolplannr/core/grades.py:46-65 | the method returns the specified score: unsupported credits, then missing names, then the rounded sum |
| Grades.SubjectScoreErrors | src/skoolplannr/core/grades.py:52-59 | an unsupported credit count is an error naming it; with a supported count the score fails exactly when a component is absent, and the error lists the missing names |
| Grades.ScaledSumBounds | src/skoolplannr/core/grades.py:61-63 | the unrounded total lies between 0 and the table's weight total |
| Grades.SubjectScoreBounds | src/skoolplannr/core/grades.py:61-65 | a score lies in [0, 100] for 2 and 4 credits and in [0, 120] for 5 credits |
| Grades.ScaledSumExtremes | src/skoolplannr/core/grades.py:61-63 | all marks at or above their maximum give the weight total; all at or below 0 give 0 |
| Grades.EvaluateExtremes | src/skoolplannr/core/grades.py:101-105 | full marks evaluate to (100 or 120, "S", 10); no marks to (0, "F", 4) |
| Grades.ScaledSumMonotone | src/skoolplannr/core/grades.py:61-63 | raising component marks never lowers the total |
| Grades.SubjectScoreMonotone | src/skoolplannr/core/grades.py:46-65 | with every component present, raising marks (or adding keys) never lowers the score |
| Grades.ScaledSumIgnoresOtherKeys | src/skoolplannr/core/grades.py:61-63 | a key outside the table changes neither presence nor the total |
| Grades.SubjectScoreIgnoresOtherKeys | src/skoolplannr/core/grades.py:55-65 | adding or changing a non-component key never changes the score or the error |
| Grades.LetterBandEdges | src/skoolplannr/core/grades.py:68-82 | 90 gives S and 89.99 A, 80 gives A, 40 gives E and 39.99 F; above 100 gives S and below 40 gives F |
| Grades.LetterMonotone | src/skoolplannr/core/grades.py:68-82 | a higher score never gets a letter worth fewer points |
| Grades.ParseLetter | src/skoolplannr/core/grades.py:86-96 | a recognised text is the name of the letter returned |
| Grades.ToGradePoint | src/skoolplannr/core/grades.py:85-98 | every point returned lies in 4..10 |
| Grades.ToGradePointCases | src/skoolplannr/core/grades.py:85-98 | a point is returned exactly when the upper-cased text is a letter, and it is that letter's point; any other text is an error |
| Grades.ToGradePointOfLetter | src/skoolplannr/core/grades.py:85-96 | each letter, upper or lower case, maps to its point (S 10 … F 4) |
| Grades.EvaluateSubject | src/skoolplannr/core/grades.py:101-105 | the result is the specified evaluation; its point is to_grade_point of its letter, in 4..10, and the letter is that of its score |
| Grades.EvaluatePoint | src/skoolplannr/core/grades.py:101-105 | an evaluation's score is the subject score, its letter is that score's letter and its point is that letter's point, in 4..10 |
| Rounding.RoundHalfEven | src/skoolplannr/core/grades.py:65 | the result is within 0.5 of the input, and an exact tie goes to the even integer |
| Rounding.RoundHalfEvenUnique | src/skoolplannr/core/grades.py:65 | any integer within 0.5 that breaks ties to even is the rounded value |
| Rounding.RoundHalfEvenOfInt | app/domain/logic/grading.py:21 | an integer rounds to itself |
| Rounding.RoundHalfEvenMonotone | app/domain/logic/grading.py:21 | rounding never reverses order |
| Rounding.Round2 | src/skoolplannr/core/gpa.py:21 | round(x, 2) is within 0.005 of x |
| Rounding.Round2Monotone | src/skoolplannr/core/gpa.py:21 | rounding to cents never reverses order |
| Rounding.Round2Within | src/skoolplannr/core/grades.py:65 | rounding keeps a value inside integer bounds |
| Rounding.Round2OfHundredths | src/skoolplannr/core/gpa.py:21 | a whole number of hundredths rounds to itself |
| Rounding.Round2Nearest | src/skoolplannr/core/gpa.py:21 | a value strictly within 0.005 of k/100 rounds to k/100 |
| Gpa.WeightedMean | src/skoolplannr/core/gpa.py:4-21 | fails with the credits error exactly when some credit is non-positive, and with the zero-total error exactly when all are positive and the input is empty |
| Gpa.CalculateSgpa | src/skoolplannr/core/gpa.py:4-21 | the loop returns the specified SGPA, including both error cases |
| Gpa.CalculateCgpa | src/skoolplannr/core/gpa.py:24-41 | the loop returns the specified CGPA, including both error cases |
| Gpa.MeanWithin | src/skoolplannr/core/gpa.py:12-21 | with positive credits the unrounded mean lies between the smallest and largest value |
| Gpa.SgpaWithin | src/skoolplannr/core/gpa.py:12-21 | an SGPA lies between the bounds of its grade points |
| Gpa.SgpaOfEqualPoints | src/skoolplannr/core/gpa.py:12-21 | when every course has the same point, the SGPA is that point |
| Gpa.CgpaWithin | src/skoolplannr/core/gpa.py:24-41 | a CGPA lies within 0.005 of the bounds of its SGPAs |
| Gpa.WeightedMeanPermutation | src/skoolplannr/core/gpa.py:12-16 | reordering the entries does not change the result |
| Gpa.SgpaExample | tests/test_gpa.py:7-9 | [(4,9),(5,8),(2,10)] gives 8.73 |
| LegacyGrading.Clamp0To100 | app/domain/logic/grading.py:16-17 | the result lies in [0, 100], is the identity there, 0 below and 100 above |
| LegacyGrading.FirstBand | app/domain/logic/grading.py:22-24 | a found band contains the mark; none found means no band contains it |
| LegacyGrading.ScanBands | app/domain/logic/grading.py:22-25 | the loop finds the first band containing the rounded mark |
| LegacyGrading.GradeFromMarks | app/domain/logic/grading.py:20-25 | the method returns the specified letter and points |
| LegacyGrading.BandsPartition | app/domain/logic/grading.py:5-13 | the bands run from 100 down to 0 without gaps |
| LegacyGrading.BandsDisjoint | app/domain/logic/grading.py:5-13 | no mark lies in two bands |
| LegacyGrading.BandsCover | app/domain/logic/grading.py:5-13 | every mark 0..100 lies in some band |
| LegacyGrading.FallbackUnreachable | app/domain/logic/grading.py:20-25 | after clamping and rounding, a band is always found, so the ("F", 4) fallback is never taken |
| LegacyGrading.GradeExamples | tests/test_grading.py:7-10 | 95 gives S, 84 gives A and 20 gives F; 89.6 rounds to S although the newer scheme gives A |
| LegacyGrading.AgreesOnWholeMarks | app/domain/logic/grading.py:20-25 | on whole marks the legacy letter and points equal the newer scheme's |
| LegacyGrading.SameClampSameLetter | src/skoolplannr/core/grades.py:69 | marks with the same clamped value get the same letter |
| LegacyGrading.WholeMarksBand | app/domain/logic/grading.py:5-13 | for each whole mark the band found carries the newer scheme's letter and point |
| LegacyGrading.CalcWeightedTotal | app/domain/logic/grading.py:28-36 | the loop returns the specified total, which lies in [0, 100] |
| LegacyGrading.FullMarksTotals | app/domain/logic/grading.py:29-33 | full marks everywhere give equal obtained and maximum sums |
| LegacyGrading.WeightedTotalExtremes | app/domain/logic/grading.py:34-36 | no components gives 0; full marks with a positive maximum give 100 |
| LegacyGrading.CalcSubjectFinal | app/domain/logic/grading.py:39-53 | the method returns the specified final mark, which lies in [0, 100] |
| LegacyGrading.SubjectFinalCases | app/domain/logic/grading.py:39-53 | 2 or 4 credits give the theory percentage; 5 credits fail exactly without lab marks or a positive lab maximum, and otherwise blend to a value between theory and lab; other credits fail |
| LegacyGrading.FourCreditExample | tests/test_grading.py:12-14 | the 4-credit example is 930/11, within 0.005 of 84.55 |
| LegacyGrading.FiveCreditExample | tests/test_grading.py:16-18 | the 5-credit example exceeds 80 |
| LegacyGpa.CalcSgpa | app/domain/logic/gpa.py:13-21 | the loop returns the specified SGPA, 0.0 for a zero credit total |
| LegacyGpa.Flatten | app/domain/logic/gpa.py:27-30 | every course of every semester is in the pooled list |
| LegacyGpa.CalcCgpa | app/domain/logic/gpa.py:24-33 | the CGPA is the SGPA of all semesters' courses pooled, not a mean of semester SGPAs |
| LegacyGpa.SgpaPermutation | app/domain/logic/gpa.py:16-18 | reordering courses does not change the SGPA |
| LegacyGpa.CgpaPermutation | app/domain/logic/gpa.py:27-30 | reordering pooled courses does not change the CGPA |
| LegacyGpa.SumsAgree | app/domain/logic/gpa.py:16-18 | the legacy sums equal the validated scheme's sums over the same courses |
| LegacyGpa.AgreesWithValidatedSgpa | app/domain/logic/gpa.py:13-21 | wherever the validated SGPA succeeds, the legacy SGPA equals it |
| LegacyGpa.NoCreditValidation | app/domain/logic/gpa.py:16-21 | non-positive credits are summed, not rejected (a zero total gives 0.0, a negative one a negative SGPA), and the empty input gives 0.0 |
| LegacyGpa.Examples | tests/test_gpa.py:7-14 | the SGPA example gives 8.73 and the CGPA example 8.93 |
| Dashboard.ParseDay | src/skoolplannr/ui/views/dashboard_view.py:11 | a recognised day text is the name of the day returned |
| Dashboard.ParseDayText | src/skoolplannr/ui/views/dashboard_view.py:11 | each day's name is recognised as that day |
| Dashboard.ParseDayExact | src/skoolplannr/ui/views/dashboard_view.py:27-29 | a text is a day key exactly when it equals that day's name |
| Dashboard.ToMinutesOfClock | src/skoolplannr/ui/views/dashboard_view.py:14-16 | "H:M" written in decimal parses to 60·H + M |
| Dashboard.ToMinutesOfPair | src/skoolplannr/ui/views/dashboard_view.py:14-16 | a text with one colon gives the minutes of its two parsed parts |
| Dashboard.ToMinutesWithoutColon | src/skoolplannr/ui/views/dashboard_view.py:15 | a text without a colon raises |
| Dashboard.Weekday | src/skoolplannr/ui/views/dashboard_view.py:19-20 | the weekday index lies in 0..6 |
| Dashboard.DayFromDateShift | src/skoolplannr/ui/views/dashboard_view.py:19-20 | n days later is n names further round the week; a week later is the same name |
| Dashboard.Midnight | src/skoolplannr/ui/views/dashboard_view.py:45 | the start of the day: a multiple of a day, at most t and within a day of it |
| Dashboard.MinuteOfDay | src/skoolplannr/ui/views/dashboard_view.py:51 | the minute of the day lies in 0..1439 |
| Dashboard.AppendSubjectRows | src/skoolplannr/ui/views/dashboard_view.py:26-37 | the inner loop appends, under each day, the rows of this subject's slots on that day, and keeps all seven keys |
| Dashboard.SortDays | src/skoolplannr/ui/views/dashboard_view.py:39-40 | each day's list becomes its stable sort by start time |
| Dashboard.DayIndex | src/skoolplannr/ui/views/dashboard_view.py:11 | a day's index in DAY_NAMES names that day |
| Dashboard.ScheduleMap | src/skoolplannr/ui/views/dashboard_view.py:23-41 | all seven keys are present; each day's list is sorted by start time and is a permutation of that day's rows |
| Dashboard.SlotRowsMembers | src/skoolplannr/ui/views/dashboard_view.py:26-37 | a row is listed under a day exactly when one of the subject's slots is on that day and gives it, with "00:00" defaults |
| Dashboard.DayRowsMembers | src/skoolplannr/ui/views/dashboard_view.py:25-37 | a day's rows are exactly those given by some subject's slot on that day; slots with other day texts are dropped |
| Dashboard.StartLeTotalPreorder | src/skoolplannr/ui/views/dashboard_view.py:40 | ordering rows by start-time text is a total preorder, as sorting needs |
| Dashboard.StringOrderOfTimes | src/skoolplannr/ui/views/dashboard_view.py:40 | start times compare as strings, so "10:00" sorts before "9:00" |
| Dashboard.EndMinutes | src/skoolplannr/ui/views/dashboard_view.py:50 | one parsed end time per slot |
| Dashboard.MaxParsed | src/skoolplannr/ui/views/dashboard_view.py:50 | a maximum is an upper bound of all parsed ends and is one of them; no maximum means some end failed to parse |
| Dashboard.LatestEndMinutes | src/skoolplannr/ui/views/dashboard_view.py:50 | the loop returns the latest end, or reports the parse failure |
| Dashboard.FirstOffsetWithSlots | src/skoolplannr/ui/views/dashboard_view.py:55-59 | a found offset lies between the starting offset and 7 |
| Dashboard.FirstOffsetIsFirst | src/skoolplannr/ui/views/dashboard_view.py:55-59 | the found offset's day has slots and no earlier offset's day does; none found means no day from the starting offset to 7 has slots |
| Dashboard.FirstOffsetFound | src/skoolplannr/ui/views/dashboard_view.py:55-59 | the offset the loop returns has a non-empty list |
| Dashboard.FirstOffsetSkips | src/skoolplannr/ui/views/dashboard_view.py:55-59 | every offset the loop passes over has no slots |
| Dashboard.ProbeFollowingDays | src/skoolplannr/ui/views/dashboard_view.py:55-59 | the loop returns the first offset whose day has slots |
| Dashboard.CheckToday | src/skoolplannr/ui/views/dashboard_view.py:46-53 | the verdict on today matches its specification: stay, look ahead, or raise on an unparsable end |
| Dashboard.PickScheduleDay | src/skoolplannr/ui/views/dashboard_view.py:44-61 | the method returns the specified day |
| Dashboard.PickOffsetChoice | src/skoolplannr/ui/views/dashboard_view.py:44-61 | the chosen offset is today (0) or the first of 1..7 whose weekday has slots |
| Dashboard.PickDayMidnight | src/skoolplannr/ui/views/dashboard_view.py:44-61 | the day shown is a midnight between today and a week later |
| Dashboard.PickDayStaysToday | src/skoolplannr/ui/views/dashboard_view.py:49-53 | when now's minute is at most some slot's end today, today is shown (the comparison is inclusive) |
| Dashboard.PickDayNextWeek | src/skoolplannr/ui/views/dashboard_view.py:55-59 | when only today's weekday has classes and they are over, the same weekday a week later is shown |
| Dashboard.OtherWeekday | src/skoolplannr/ui/views/dashboard_view.py:56-57 | offsets 1..6 land on other weekdays |
| Dashboard.SameWeekdayNextWeek | src/skoolplannr/ui/views/dashboard_view.py:56-57 | offset 7 lands on today's weekday |
| Dashboard.MidnightUnique | src/skoolplannr/ui/views/dashboard_view.py:45 | a multiple of a day within a day before t is t's midnight |
| Dashboard.DueSoonTodayOrTomorrow | src/skoolplannr/ui/views/dashboard_view.py:153-159 | a dated task is due soon exactly when it falls on today's or tomorrow's date |
| Dashboard.DueTasks | src/skoolplannr/ui/views/dashboard_view.py:156-160 | a task is kept exactly when it is in the list and dated within [start of today, end of tomorrow] |
| Dashboard.DueLeTotalPreorder | src/skoolplannr/ui/views/dashboard_view.py:161 | ordering by due time is a total preorder, as sorting needs |
| Dashboard.DueSoon | src/skoolplannr/ui/views/dashboard_view.py:153-161 | the result is sorted by due time and is a permutation of the due tasks; membership is exactly "dated and in the window" |
| Dashboard.UpcomingEvents | src/skoolplannr/ui/views/dashboard_view.py:243-247 | an event is kept exactly when it is in the list and has a start at or after now |
| Dashboard.StartsLeTotalPreorder | src/skoolplannr/ui/views/dashboard_view.py:248 | ordering by start time is a total preorder, as sorting needs |
| Dashboard.Upcoming | src/skoolplannr/ui/views/dashboard_view.py:243-249 | the method returns the specified first three |
| Dashboard.ShownEventsUpcoming | src/skoolplannr/ui/views/dashboard_view.py:243-249 | at most three upcoming events are shown, sorted by start; when at most three are upcoming, all are shown |
| Dashboard.ShownEventsEarliest | src/skoolplannr/ui/views/dashboard_view.py:248-249 | no upcoming event left out starts before an event shown |
| ScheduleText.SplitOnce | src/skoolplannr/ui/views/subjects_view.py:23 | the text is the part before the first '-', the '-', and the rest |
| ScheduleText.SplitOnceUnique | src/skoolplannr/ui/views/subjects_view.py:23 | splitting a + "-" + b, with no '-' in a, gives back (a, b) |
| ScheduleText.StripAllIdempotent | src/skoolplannr/ui/views/subjects_view.py:17 | one chunk out per chunk in, none with whitespace at either end, and stripping them again changes nothing |
| ScheduleText.NonEmpty | src/skoolplannr/ui/views/subjects_view.py:17 | every kept chunk is non-empty and comes from the input |
| ScheduleText.NonEmptyKeeps | src/skoolplannr/ui/views/subjects_view.py:17 | every non-empty chunk is kept, in input order |
| ScheduleText.ParseEntryMeaning | src/skoolplannr/ui/views/subjects_view.py:19-24 | an entry parses exactly when it has two whitespace tokens and the second holds '-'; then day is the first token, and start + "-" + end is the second, with no '-' in start |
| ScheduleText.SoleError | src/skoolplannr/ui/views/subjects_view.py:21 | the only parse error is "Invalid schedule format" |
| ScheduleText.BlankInput | src/skoolplannr/ui/views/subjects_view.py:14-15 | blank or whitespace-only input gives no slots |
| ScheduleText.ParseScheduleSlots | src/skoolplannr/ui/views/subjects_view.py:8-26 | the method returns the specified slots or error |
| ScheduleText.ParseEachEntry | src/skoolplannr/ui/views/subjects_view.py:18-24 | the loop parses every entry, stopping at the first malformed one |
| ScheduleText.EntriesFailure | src/skoolplannr/ui/views/subjects_view.py:18-21 | the entries fail exactly when one of them is malformed |
| ScheduleText.ParseSlotsFailure | src/skoolplannr/ui/views/subjects_view.py:14-21 | parsing fails exactly when the input is not blank and some non-empty stripped chunk is malformed |
| ScheduleText.ParseSlotsSuccess | src/skoolplannr/ui/views/subjects_view.py:14-26 | a successful parse gives one slot per non-empty chunk, in order, each the parse of its chunk |
| ScheduleText.SlotDisplayShape | src/skoolplannr/ui/views/subjects_view.py:70 | a displayable slot's text is non-empty, has no outer whitespace and no comma |
| ScheduleText.ParseEntryOfDisplay | src/skoolplannr/ui/views/subjects_view.py:19-24 | parsing a slot's display text gives back the slot |
| ScheduleText.RenderParse | src/skoolplannr/ui/views/subjects_view.py:8-26 | rendering slots joined by ", " and parsing the result gives back the same list (fields without whitespace or commas, non-empty day, no '-' in start) |
| ScheduleText.VisibleDisplayable | src/skoolplannr/ui/views/subjects_view.py:69-71 | visible-character fields without commas, with a non-empty day and no '-' in start, are displayable |
| ScheduleText.ParseExample | src/skoolplannr/ui/views/subjects_view.py:9-12 | the documented example parses to Mon 10:00-11:00 and Wed 14:00-15:00 |
| Text.Strip | src/skoolplannr/ui/views/subjects_view.py:14 | str.strip: no whitespace at either end; empty exactly when the input is all whitespace; unchanged on text without whitespace |
| Text.StripUnchanged | src/skoolplannr/ui/views/subjects_view.py:17 | text without outer whitespace is unchanged by strip |
| Text.Split | src/skoolplannr/ui/views/subjects_view.py:17 | str.split(sep): at least one piece, none holding sep, and joining with sep gives the text back |
| Text.SplitJoin | src/skoolplannr/ui/views/subjects_view.py:17 | splitting undoes joining when no piece holds the separator |
| Text.SplitWhitespace | src/skoolplannr/ui/views/subjects_view.py:19 | str.split(): every token is non-empty and has no whitespace |
| Text.SplitWhitespaceOfPair | src/skoolplannr/ui/views/subjects_view.py:19 | "a b" splits into [a, b] |
| Text.UpperLetters | src/skoolplannr/core/grades.py:96 | an ASCII lower-case letter becomes its upper-case counterpart, which lowers back to it; characters other than a-z, U+0131 and U+017F are unchanged; no a-z is left |
| Text.UpperIdempotent | src/skoolplannr/core/grades.py:96 | upper-casing twice equals upper-casing once |
| Text.LowerLetters | appwrite/functions/backend/main.py:78 | an ASCII upper-case letter becomes its lower-case counterpart, which upper-cases back to it; characters other than A-Z and U+212A are unchanged; no A-Z is left |
| Text.LowerIdempotent | appwrite/functions/backend/main.py:78 | lower-casing twice equals lower-casing once |
| Text.LexLeTotal | src/skoolplannr/ui/views/dashboard_view.py:40 | any two strings are ordered one way or the other |
| Text.LexLeTransitive | src/skoolplannr/ui/views/dashboard_view.py:40 | string order is transitive |
| Text.ParseInt | src/skoolplannr/ui/views/dashboard_view.py:16 | int() accepts only text that is not blank |
| Text.ParseIntDigits | src/skoolplannr/ui/views/dashboard_view.py:16 | a bare run of ASCII digits reads as its decimal value |
| Text.ParseIntNegative | src/skoolplannr/ui/views/dashboard_view.py:16 | "-" followed by ASCII digits reads as the negated value of the digits |
| Text.ParseIntIgnoresPadding | src/skoolplannr/ui/views/dashboard_view.py:16 | whitespace around the text does not change what int() reads |
| Text.ParseNegatedDecimalText | src/skoolplannr/ui/views/dashboard_view.py:16 | int("-" + str(n)) is -n |
| Text.ParseDecimalText | src/skoolplannr/ui/views/dashboard_view.py:16 | int() of a decimal numeral gives its value |
| Sorting.Insert | src/skoolplannr/ui/views/dashboard_view.py:40 | inserting adds exactly one occurrence of the element |
| Sorting.Sort | src/skoolplannr/ui/views/dashboard_view.py:40 | list.sort keeps every element as often as it occurs |
| Sorting.InsertSorted | src/skoolplannr/ui/views/dashboard_view.py:40 | inserting into a sorted list keeps it sorted |
| Sorting.SortSorted | src/skoolplannr/ui/views/dashboard_view.py:40 | the sort's result is sorted by a total preorder |
| Sorting.SortMembers | src/skoolplannr/ui/views/dashboard_view.py:40 | the sort keeps length and membership |
| StoreDocs.Payload | src/skoolplannr/services/firestore_service.py:316-327 | an assessment document keeps type, max_raw, weight_to, the unclamped raw score and the rounded clamp-and-scale weighted score |
| StoreDocs.EvaluateComplete | src/skoolplannr/services/firestore_service.py:331-340 | with nothing missing and a supported credit model, evaluation succeeds |
| StoreDocs.PositiveCreditsTotal | src/skoolplannr/services/firestore_service.py:372-382 | the stored total_credits equals the credit total handed to calculate_sgpa |
| StoreDocs.CourseResultsFrom | src/skoolplannr/services/firestore_service.py:374-380 | the pairs passed on are exactly the (credits, grade_point) of grades with positive credits |
| StoreDocs.SgpaSummaryCases | src/skoolplannr/services/firestore_service.py:367-386 | no grades is its own error; all credits non-positive is the zero-total error; the credits error never occurs; success exactly when some grade has positive credits, with a positive stored total |
| StoreDocs.SgpaSummarySkips | src/skoolplannr/services/firestore_service.py:377-378 | a grade with non-positive credits changes nothing |
| StoreDocs.SgpaSummaryPermutation | src/skoolplannr/services/firestore_service.py:367-386 | the order in which grades are listed does not change the SGPA or total |
| StoreDocs.SgpaSummaryWithin | src/skoolplannr/services/firestore_service.py:367-386 | with points 4..10 the stored SGPA lies in [4, 10] |
| StoreDocs.CollectCourseResults | src/skoolplannr/services/firestore_service.py:372-380 | the loop collects the positive-credit pairs and sums their credits |
| StoreDocs.SummariseGrades | src/skoolplannr/services/firestore_service.py:368-386 | the method returns the specified SGPA summary |
| StoreDocs.TermsParallel | src/skoolplannr/services/firestore_service.py:398-411 | a year's counted terms give as many pairs as trend points, each matching |
| StoreDocs.TrendParallel | src/skoolplannr/services/firestore_service.py:392-411 | the trend has one point per pair passed to calculate_cgpa, in the same order and with the same values |
| StoreDocs.SemesterResultsEmpty | src/skoolplannr/services/firestore_service.py:402-414 | no pairs exactly when no term has an sgpa and non-zero total_credits |
| StoreDocs.SemesterResultsHas | src/skoolplannr/services/firestore_service.py:400-404 | every counted term contributes its pair |
| StoreDocs.CgpaSummaryErrors | src/skoolplannr/services/firestore_service.py:402-416 | the no-results error occurs exactly when no term counts; a counted term with negative credits makes calculate_cgpa raise |
| StoreDocs.CgpaSummaryTrend | src/skoolplannr/services/firestore_service.py:392-418 | a successful CGPA returns a non-empty trend parallel to the pairs |
| StoreDocs.CollectSemesterResults | src/skoolplannr/services/firestore_service.py:392-411 | the nested loops build the specified pairs and trend |
| StoreDocs.SummariseTerms | src/skoolplannr/services/firestore_service.py:388-418 | the method returns the specified CGPA and trend |
| FirestoreStore.StoredAssessmentsFrame | src/skoolplannr/services/firestore_service.py:313-329 | documents of other subjects, and of non-component types, are untouched |
| FirestoreStore.StoredAssessmentsComponents | src/skoolplannr/services/firestore_service.py:315-329 | each component's document exists exactly when its score is given, and holds its payload |
| FirestoreStore.StoredAssessmentsMeaning | src/skoolplannr/services/firestore_service.py:313-329 | afterwards the subject's documents are exactly the present components with their payloads, and nothing else changes |
| FirestoreStore.StoredAssessmentsIdempotent | src/skoolplannr/services/firestore_service.py:315-329 | writing the same scores twice leaves the same documents |
| FirestoreStore.SaveRefusals | src/skoolplannr/services/firestore_service.py:301-308 | a failure writes nothing; no active term, an absent subject and an unsupported credit model are each reported exactly in their case |
| FirestoreStore.SaveStoresPresentComponents | src/skoolplannr/services/firestore_service.py:315-329 | the stored components are exactly those with scores, with their payloads; keys outside the table are never written |
| FirestoreStore.SaveGrade | src/skoolplannr/services/firestore_service.py:331-354 | partial input deletes the grade and reports the missing names in table order; complete input overwrites it with the evaluation (score, letter, point in 4..10) |
| FirestoreStore.SaveIdempotent | src/skoolplannr/services/firestore_service.py:301-354 | repeating the save with the same scores gives the same result and state |
| FirestoreStore.ListingOfLists | src/skoolplannr/services/firestore_service.py:358-363 | a collection can always be streamed as a listing of its documents |
| FirestoreStore.StreamDocs | src/skoolplannr/services/firestore_service.py:358-363 | the stream yields every document exactly once, in some order |
| FirestoreStore.StoredTermCounts | src/skoolplannr/services/firestore_service.py:384-385 | after storing an SGPA with positive credits, the term counts for the CGPA with that pair |
| FirestoreStore.SgpaOfAnyListing | src/skoolplannr/services/firestore_service.py:356-386 | the SGPA does not depend on the order the grades are streamed in |
| FirestoreStore.DueLeTotalPreorder | src/skoolplannr/services/firestore_service.py:205 | the due-date key (missing dates last) is a total preorder |
| FirestoreStore.StartsLeTotalPreorder | src/skoolplannr/services/firestore_service.py:251 | the start key (missing starts last) is a total preorder |
| FirestoreStore.KeptTasks | src/skoolplannr/services/firestore_service.py:199-204 | a task row is kept exactly when it is listed and completed tasks are included or it is not completed |
| FirestoreStore.ListedTasksMembers | src/skoolplannr/services/firestore_service.py:199-204 | the listed tasks are exactly the stored tasks, without the completed ones unless asked for |
| FirestoreStore.Firestore.constructor | src/skoolplannr/services/firestore_service.py:21-24 | a fresh service over an empty database: no years, no active term, no documents |
| FirestoreStore.Firestore.SaveAssessmentsAndGrade | src/skoolplannr/services/firestore_service.py:301-354 | the result and the new assessments and grades are SaveOutcome of the old ones |
| FirestoreStore.Firestore.StoreComponents | src/skoolplannr/services/firestore_service.py:315-329 | the loop leaves the specified assessment documents |
| FirestoreStore.Firestore.CalculateAndStoreSgpa | src/skoolplannr/services/firestore_service.py:367-386 | without an active term it fails; otherwise it returns the SGPA of the stored grades and writes it, with total_credits, on the active term only |
| FirestoreStore.Firestore.CalculateAndStoreCgpa | src/skoolplannr/services/firestore_service.py:388-418 | returns the specified CGPA and trend and caches the CGPA only on success |
| FirestoreStore.Firestore.ListTasks | src/skoolplannr/services/firestore_service.py:195-206 | fails exactly without an active term; otherwise a permutation of the listed tasks, sorted by due date with missing dates last |
| FirestoreStore.Firestore.ListEvents | src/skoolplannr/services/firestore_service.py:243-252 | fails exactly without an active term; otherwise every event once, sorted by start with missing starts last |
| Collections.FirstWith | src/skoolplannr/services/appwrite_service.py:130-134 | the position of the first document with the key, or none exactly when no document has it |
| Collections.LastWith | src/skoolplannr/services/appwrite_service.py:540 | the position of the last document with the key, or none exactly when no document has it |
| Collections.UniqueFirstIsLast | src/skoolplannr/services/appwrite_service.py:555-566 | with unique keys, the first and the last match are the same document |
| Collections.KeyedLast | src/skoolplannr/services/appwrite_service.py:540 | the dictionary by key holds a key exactly when a document has it, with the last such document |
| Collections.KeyedAppend | src/skoolplannr/services/appwrite_service.py:559 | creating a document with a new key keeps keys unique and adds exactly that key |
| Collections.KeyedReplace | src/skoolplannr/services/appwrite_service.py:557 | updating a document in place keeps keys unique and changes exactly its key's entry |
| Collections.UniqueRemove | src/skoolplannr/services/appwrite_service.py:563 | deleting a document keeps keys unique |
| Collections.KeyedRemove | src/skoolplannr/services/appwrite_service.py:563 | deleting a document removes exactly its key from the keyed view, every other key keeping its value |
| AppwriteStore.ComponentStepAgrees | src/skoolplannr/services/appwrite_service.py:542-563 | one component's update, create or delete keeps types unique and has the same effect as the Firestore write |
| AppwriteStore.ComponentsAgree | src/skoolplannr/services/appwrite_service.py:540-563 | the component loop keeps types unique and leaves exactly the documents the Firestore loop leaves |
| AppwriteStore.RemoveGradeAgrees | src/skoolplannr/services/appwrite_service.py:566-575 | deleting the found grade document removes exactly that subject's grade |
| AppwriteStore.PutGradeAgrees | src/skoolplannr/services/appwrite_service.py:566-572 | updating the found grade in place, or creating one, sets exactly that subject's grade; no second grade document appears |
| AppwriteStore.SaveRefusalsAppwrite | src/skoolplannr/services/appwrite_service.py:522-529 | a failure writes nothing; an absent subject and an unsupported credit model are each reported exactly in their case; no active term is needed |
| AppwriteStore.SaveMatchesFirestore | src/skoolplannr/services/appwrite_service.py:522-600 | on a consistent store the save keeps it consistent and has the same result and effect as the Firestore save |
| AppwriteStore.ActiveTerm | src/skoolplannr/services/appwrite_service.py:218-235 | a found term exists in the store; failures are "not set" or "not found" |
| AppwriteStore.AllGradesSgpaErrorOrder | src/skoolplannr/services/appwrite_service.py:618-641 | no grades is reported before a missing active term; success needs both a summary and an active term |
| AppwriteStore.TermGradesMembers | src/skoolplannr/services/appwrite_service.py:602-616 | a grade counts for a term exactly when it is stored and its subject is in that term |
| AppwriteStore.TermSgpaIgnoresOtherTerms | src/skoolplannr/services/appwrite_service.py:618-641 | a grade from another term's subject does not change the term SGPA |
| AppwriteStore.AllGradesSgpaCountsOtherTerms | src/skoolplannr/services/appwrite_service.py:602-641 | as written, a grade from another term adds its credits to the active term's total; the term SGPA counts only the own grade's credits |
| AppwriteStore.DueKeyLeTotalPreorder | src/skoolplannr/services/appwrite_service.py:368 | ordering by due text (sentinel when absent) is a total preorder |
| AppwriteStore.StartKeyLeTotalPreorder | src/skoolplannr/services/appwrite_service.py:441 | ordering by start text (sentinel when absent) is a total preorder |
| AppwriteStore.UndatedTasksLast | src/skoolplannr/services/appwrite_service.py:368 | in the sorted list an undated task comes after every task whose date sorts before the sentinel |
| AppwriteStore.KeptRows | src/skoolplannr/services/appwrite_service.py:361-366 | a task is kept exactly when it is listed and completed tasks are included or it is not completed |
| AppwriteStore.Appwrite.constructor | src/skoolplannr/services/appwrite_service.py:21-54 | a fresh service over empty collections: no years, no active term, no documents |
| AppwriteStore.Appwrite.SaveAssessmentsAndGrade | src/skoolplannr/services/appwrite_service.py:522-600 | the result and the new assessment and grade documents are SaveOutcomeAppwrite of the old ones |
| AppwriteStore.Appwrite.StoreComponents | src/skoolplannr/services/appwrite_service.py:542-563 | the loop leaves the specified assessment documents |
| AppwriteStore.Appwrite.CalculateAndStoreSgpa | src/skoolplannr/services/appwrite_service.py:618-641 | as written: the SGPA of all of the user's grades, written on the active term, with the errors in the source's order |
| AppwriteStore.Appwrite.CalculateAndStoreTermSgpa | src/skoolplannr/services/appwrite_service.py:618-641 | corrected: the SGPA of the active term's subjects only, written on the active term |
| AppwriteStore.Appwrite.CalculateAndStoreCgpa | src/skoolplannr/services/appwrite_service.py:643-681 | returns the specified CGPA and trend and caches the CGPA only on success |
| AppwriteStore.Appwrite.ListTasks | src/skoolplannr/services/appwrite_service.py:350-369 | fails with the active-term error; otherwise a permutation of the kept tasks, sorted by due text with the sentinel for missing dates |
| AppwriteStore.Appwrite.ListEvents | src/skoolplannr/services/appwrite_service.py:425-442 | fails with the active-term error; otherwise a permutation of the events, sorted by start text with the sentinel for missing starts |
| Backend.Headers | appwrite/functions/backend/main.py:76-78 | every header key is lower case |
| Backend.HeadersKeys | appwrite/functions/backend/main.py:76-78 | a key is present exactly when some raw header lower-cases to it |
| Backend.HeadersLast | appwrite/functions/backend/main.py:78 | the last raw header with a given lower-cased name wins |
| Backend.NormalizePath | appwrite/functions/backend/main.py:81-87 | the path starts with "/", a missing or empty path gives "/", and at most one trailing "/" is removed from a longer path |
| Backend.Rooted | appwrite/functions/backend/main.py:82-84 | the path with "/" prefixed when needed starts with "/" |
| Backend.NormalizeFixed | appwrite/functions/backend/main.py:81-87 | a rooted path without a trailing "/" is unchanged |
| Backend.NormalizeTwice | appwrite/functions/backend/main.py:81-87 | normalising twice equals normalising once unless the path ends in "//" |
| Backend.NormalizeNotIdempotent | appwrite/functions/backend/main.py:85-86 | "/a//" becomes "/a/", "/a/" becomes "/a" and "tasks" becomes "/tasks" |
| Backend.ToBoolText | appwrite/functions/backend/main.py:187-197 | a true word gives true, a false word false, and any other text the default; a value other than the default comes only from a listed word |
| Backend.TrueWordsNotFalse | appwrite/functions/backend/main.py:193-196 | no word is both true and false |
| Backend.ToBoolPaddedWord | appwrite/functions/backend/main.py:192-194 | " Yes " is stripped and lower-cased to a true word |
| Backend.RequireUserId | appwrite/functions/backend/main.py:166-170 | fails only with the missing-user-id error; a returned id is non-empty with no outer whitespace |
| Backend.RequireUserIdFound | appwrite/functions/backend/main.py:166-170 | the last x-user-id header, stripped, is returned unless blank, which is an error |
| Backend.RequireUserIdAbsent | appwrite/functions/backend/main.py:166-170 | without an x-user-id header the request is refused |
| Backend.MatchSegment | appwrite/functions/backend/main.py:563 | a match is a non-empty segment without "/" that completes the path |
| Backend.MatchSegmentOf | appwrite/functions/backend/main.py:563 | a non-empty segment without "/" is matched back |
| Backend.VerbOf | appwrite/functions/backend/main.py:536 | each verb is recognised exactly from its upper-case name |
| Backend.Route | appwrite/functions/backend/main.py:535-601 | the only failure is "not found", and every matched id is a non-empty segment without "/" |
| Backend.RouteGet | appwrite/functions/backend/main.py:542-592 | a GET fails only with not found, and every id it extracts is a non-empty segment without "/" |
| Backend.RoutePost | appwrite/functions/backend/main.py:545-599 | a POST fails only with not found, and every id it extracts is a non-empty segment without "/" |
| Backend.RoutePatch | appwrite/functions/backend/main.py:573-575 | a PATCH fails only with not found, and a task id it extracts is a non-empty segment without "/" |
| Backend.RouteDelete | appwrite/functions/backend/main.py:563-589 | a DELETE fails only with not found, and the subject, task or event id it extracts is a non-empty segment without "/" |
| Backend.RoutePreflight | appwrite/functions/backend/main.py:539-540 | OPTIONS is answered for any path |
| Backend.RouteDeleteTask | appwrite/functions/backend/main.py:577-579 | DELETE routes to deleting task id exactly when the normalised path is "/tasks/" + id with a valid id |
| Backend.RouteDeleteTaskPath | appwrite/functions/backend/main.py:577-579 | the DELETE table maps "/tasks/" + id to deleting that task and nothing else to it |
| Backend.RouteLoosePath | appwrite/functions/backend/main.py:535-575 | a lower-case verb and a path without the leading "/" and with a trailing "/" still route |
| Backend.RouteNestedId | appwrite/functions/backend/main.py:577-579 | an id containing "/" is not found |
| Backend.RouteDefaultMethod | appwrite/functions/backend/main.py:536-543 | a request without a method is routed as a GET: "/health/" reaches the health check |
| Session.SessionState.constructor | src/skoolplannr/state/session_state.py:5-10 | a new session has every field unset and is not authenticated |
| Session.SessionState.WithFields | src/skoolplannr/state/session_state.py:5-14 | a session with given fields is authenticated exactly when uid and id_token are both non-empty |
| Session.SessionState.Clear | src/skoolplannr/state/session_state.py:16-20 | clearing unsets all four fields, so the session is no longer authenticated |
| Session.AuthenticationIgnoresOtherFields | src/skoolplannr/state/session_state.py:12-14 | authentication depends only on uid and id_token, both of which are then non-empty |

## Left out

- The database clients (Firestore, Appwrite), their queries, document ids and `updated_at` timestamps are not modelled. Each store is a set of in-memory collections. Other users' documents and other terms' Firestore collections are out of scope.
- Firestore timestamps are integers, and Appwrite's are the stored ISO strings compared as strings. ISO-8601 parsing (`_to_iso`, `_from_iso`, `_parse_datetime`) is not part of this model.
- Firestore sorts a missing date last using `datetime.max`. The model orders `None` after every integer instead, which is the same order.
- The Python `list.sort` is modelled by a stable insertion sort. The proofs state sortedness and permutation, not which of two equal keys comes first.
- Floating-point rounding error is not modelled: `float` arithmetic is exact `real` arithmetic, and `round` is round-half-to-even on the exact value.
- `str.lower`/`str.upper` are modelled on every character whose case form is a single ASCII letter; other case mappings leave the character unchanged.
- The active term is modelled as a position in the store's years and terms (Firestore `_active_term_ref`, Appwrite `_active_term`), not as a pair of document ids.
- AppwriteStore.Appwrite.StoreComponents: looks each component's document up in the current collection at each step, where the source looks it up in the `existing_by_type` snapshot taken before the loop. The two agree because the component names are distinct.
- AppwriteStore.SaveMatchesFirestore: proved for stores with at most one document per subject and type (`Consistent`). When the collection already holds duplicates, the source leaves stale copies, and that case is not modelled.
- UI screens, `_parse_body`, `_cors_headers`, the JSON responses, the auth and PESU services and the handlers behind each route are not modelled. The route table returns the endpoint it selects.
- `_to_bool`'s pass-through of real booleans and of `None` is modelled by the `Flag` datatype. Values of other Python types are modelled by their `str()` text.
- Backend.Route: abstracts request objects to an optional method and path.
- Dashboard.DueTasks / Dashboard.UpcomingEvents: a `due_at` or `starts_at` that is a string passes the `hasattr(..., "replace")` test, and the following date comparison then raises TypeError in the source. Such a string is reachable when the dashboard cache's `_str_to_dt` returns text it cannot parse. The model has no text dates: it treats the value as absent and skips the row, where the source raises.
- Text.ParseInt: reads an optional sign and ASCII digits only. Python's `int()` also accepts digit-group underscores ("1_0" is 10) and non-ASCII decimal digits ("١٢" is 12); the model returns `None` for both, and so does `Dashboard.ToMinutes`.

## Findings

| source | as written | input that shows it | evidently intended | confidence | as-written member | corrected member |
|---|---|---|---|---|---|---|
| src/skoolplannr/services/appwrite_service.py:602-641 | `calculate_and_store_sgpa` summarises every grade document of the user (`list_grades` filters only by `user_id`) and writes the result on the active term | one year with terms Odd and Even, Even active; a 4-credit grade for Maths (in Odd) and a 4-credit grade for Physics (in Even): Even stores total_credits 8 | the active term's SGPA over its own subjects only (4 credits here), as the Firestore service does by reading the term's own grades collection | medium, not executed | AppwriteStore.AllGradesSgpaCountsOtherTerms | AppwriteStore.Appwrite.CalculateAndStoreTermSgpa |
