/** The dashboard's data helpers: clock-time parsing, the weekday of a timestamp, the
    weekly timetable built from subjects' schedule slots, the choice of which day's
    timetable to show, and the due-soon and upcoming filters. Timestamps are integer
    microseconds since an epoch whose day 0 is a Monday; `now` is a parameter. */
module Dashboard {
  import opened Common
  import opened Text
  import opened Sorting

  const Minute: int := 60_000_000
  const Day: int := 86_400_000_000

  /** The seven keys of the timetable. */
  datatype DayName = Mon | Tue | Wed | Thu | Fri | Sat | Sun

  /** DAY_NAMES, indexed by weekday (Monday is 0). */
  const DayNames: seq<DayName> := [Mon, Tue, Wed, Thu, Fri, Sat, Sun]

  /** The text of a day name, as slots store it. */
  function DayText(d: DayName): string
  {
    match d
    case Mon => "Mon" case Tue => "Tue" case Wed => "Wed" case Thu => "Thu"
    case Fri => "Fri" case Sat => "Sat" case Sun => "Sun"
  }

  /** `day in mapping`: the day that a slot's text names, if it is one of DAY_NAMES
      (the comparison is exact: "mon" and "Monday" name no day). */
  function ParseDay(s: string): (d: Option<DayName>)
    ensures d.Some? ==> DayText(d.value) == s
  {
    if s == "Mon" then Some(Mon) else if s == "Tue" then Some(Tue)
    else if s == "Wed" then Some(Wed) else if s == "Thu" then Some(Thu)
    else if s == "Fri" then Some(Fri) else if s == "Sat" then Some(Sat)
    else if s == "Sun" then Some(Sun) else None
  }

  /** Every day's own text is recognised as that day. */
  lemma {:induction false} ParseDayText(d: DayName)
    ensures ParseDay(DayText(d)) == Some(d)
  {
  }

  /** A text names day `d` exactly when it is `d`'s text. */
  lemma {:induction false} ParseDayExact(s: string, d: DayName)
    ensures ParseDay(s) == Some(d) <==> s == DayText(d)
  {
    ParseDayText(d);
  }

  /** `_to_minutes`: split at the first ':' and read both sides with int(); `None` where
      Python raises ValueError. */
  function ToMinutes(value: string): Option<int>
  {
    var parts := Split(value, ':');
    if |parts| < 2 then None
    else ClockMinutes(ParseInt(parts[0]), ParseInt(Join(parts[1..], [':'])))
  }

  /** `int(hour) * 60 + int(minute)`, failing when either side failed. */
  function ClockMinutes(hour: Option<int>, minute: Option<int>): Option<int>
  {
    if hour.Some? && minute.Some? then Some(hour.value * 60 + minute.value) else None
  }

  lemma {:induction false} NoColonInDigits(s: string)
    requires AllDigits(s)
    ensures ':' !in s
  {
  }

  /** "H:M" written with decimal digits reads back as 60·H + M minutes. */
  lemma {:induction false} ToMinutesOfClock(hour: nat, minute: nat)
    ensures ToMinutes(DecimalText(hour) + ":" + DecimalText(minute)) == Some(60 * hour + minute)
  {
    var a, b := DecimalText(hour), DecimalText(minute);
    NoColonInDigits(a);
    NoColonInDigits(b);
    SplitAtColon(a, b);
    ParseDecimalText(hour);
    ParseDecimalText(minute);
    ToMinutesOfPair(a + ":" + b, a, b);
    ClockOfParsed(ParseInt(a), ParseInt(b), hour, minute);
  }

  lemma {:induction false} ClockOfParsed(h: Option<int>, m: Option<int>, hour: int, minute: int)
    requires h == Some(hour) && m == Some(minute)
    ensures ClockMinutes(h, m) == Some(60 * hour + minute)
  {
  }

  lemma {:induction false} SplitAtColon(a: string, b: string)
    requires ':' !in a && ':' !in b
    ensures Split(a + ":" + b, ':') == [a, b]
  {
    assert [a, b][1..] == [b];
    assert Join([a, b], [':']) == a + ":" + b;
    SplitJoin([a, b], ':');
  }

  lemma {:induction false} ToMinutesOfPair(value: string, a: string, b: string)
    requires Split(value, ':') == [a, b]
    ensures ToMinutes(value) == ClockMinutes(ParseInt(a), ParseInt(b))
  {
    var parts := Split(value, ':');
    assert parts[0] == a;
    assert parts[1..] == [b];
    assert Join(parts[1..], [':']) == b;
  }

  /** Text with no ':' cannot be unpacked into hour and minute. */
  lemma {:induction false} ToMinutesWithoutColon(value: string)
    requires ':' !in value
    ensures ToMinutes(value) == None
  {
  }

  /** `date.weekday()`. */
  function Weekday(t: int): (w: int)
    ensures 0 <= w < 7
  {
    (t / Day) % 7
  }

  /** `_day_from_date`. */
  function DayFromDate(t: int): DayName
  {
    DayNames[Weekday(t)]
  }

  /** Weekdays follow one another: `days` days later is `days` names further round the
      week, and a week later is the same name. */
  lemma {:induction false} DayFromDateShift(t: int, days: int)
    ensures DayFromDate(t + days * Day) == DayNames[(Weekday(t) + days) % 7]
    ensures DayFromDate(t + 7 * Day) == DayFromDate(t)
  {
    DaysLater(t, days);
    DaysLater(t, 7);
    WeekdayAdd(t / Day, days);
    WeekdayAdd(t / Day, 7);
  }

  lemma {:induction false} DaysLater(t: int, days: int)
    ensures (t + days * Day) / Day == t / Day + days
  {
    var q, r := t / Day, t % Day;
    assert t + days * Day == (q + days) * Day + r;
  }

  lemma {:induction false} WeekdayAdd(n: int, days: int)
    ensures (n + days) % 7 == (n % 7 + days) % 7
  {
    assert n + days == (n % 7 + days) + 7 * (n / 7);
  }

  /** `now.replace(hour=0, minute=0, second=0, microsecond=0)`. */
  function Midnight(t: int): (m: int)
    ensures m <= t < m + Day && m % Day == 0
  {
    t - t % Day
  }

  /** `now.hour * 60 + now.minute`. */
  function MinuteOfDay(t: int): (m: int)
    ensures 0 <= m < 1440
  {
    (t % Day) / Minute
  }

  datatype Slot = Slot(day: Option<string>, startTime: Option<string>, endTime: Option<string>)

  /** A subject document; `None` is a key the document lacks. */
  datatype Subject = Subject(name: Option<string>, location: Option<string>, scheduleSlots: Option<seq<Slot>>)

  /** One timetable row. */
  datatype Row = Row(subjectName: string, location: string, startTime: string, endTime: string)

  function GetOr<T>(o: Option<T>, default: T): T
  {
    if o.Some? then o.value else default
  }

  function SlotsOf(subject: Subject): seq<Slot>
  {
    GetOr(subject.scheduleSlots, [])
  }

  /** The row of one slot: the subject's name and location (or "Unnamed Subject" and
      "-") and the slot's times (or "00:00"). */
  function RowOf(subject: Subject, slot: Slot): Row
  {
    Row(GetOr(subject.name, "Unnamed Subject"), GetOr(subject.location, "-"),
        GetOr(slot.startTime, "00:00"), GetOr(slot.endTime, "00:00"))
  }

  /** The slot is listed under `day`. */
  predicate SlotOn(slot: Slot, day: DayName)
  {
    slot.day == Some(DayText(day))
  }

  /** The rows of one subject's slots on `day`, in slot order. */
  function SlotRows(subject: Subject, slots: seq<Slot>, day: DayName): seq<Row>
  {
    if slots == [] then []
    else
      var last := slots[|slots| - 1];
      SlotRows(subject, slots[..|slots| - 1], day) + (if SlotOn(last, day) then [RowOf(subject, last)] else [])
  }

  /** The rows of every subject's slots on `day`, in input order. */
  function DayRows(subjects: seq<Subject>, day: DayName): seq<Row>
  {
    if subjects == [] then []
    else
      var last := subjects[|subjects| - 1];
      DayRows(subjects[..|subjects| - 1], day) + SlotRows(last, SlotsOf(last), day)
  }

  /** The sort key of the timetable: `start_time`, compared as strings. */
  predicate StartLe(a: Row, b: Row)
  {
    LexLe(a.startTime, b.startTime)
  }

  lemma {:induction false} StartLeTotalPreorder()
    ensures TotalPreorder(StartLe)
  {
    forall a: Row, b: Row ensures StartLe(a, b) || StartLe(b, a) {
      LexLeTotal(a.startTime, b.startTime);
    }
    forall a: Row, b: Row, c: Row | StartLe(a, b) && StartLe(b, c) ensures StartLe(a, c) {
      LexLeTransitive(a.startTime, b.startTime, c.startTime);
    }
  }

  /** The map has a list for every day name. */
  predicate EveryDay(mapping: map<DayName, seq<Row>>)
  {
    forall d: DayName :: d in mapping
  }

  /** Appends the rows of one subject's slots to the lists of their days; a slot whose day
      is missing or not a day name is dropped. */
  method AppendSubjectRows(mapping: map<DayName, seq<Row>>, subject: Subject) returns (result: map<DayName, seq<Row>>)
    requires EveryDay(mapping)
    ensures EveryDay(result)
    ensures forall d :: result[d] == mapping[d] + SlotRows(subject, SlotsOf(subject), d)
  {
    var slots := SlotsOf(subject);
    result := mapping;
    for j := 0 to |slots|
      invariant EveryDay(result)
      invariant forall d :: result[d] == mapping[d] + SlotRows(subject, slots[..j], d)
    {
      var slot := slots[j];
      assert slots[..j + 1][..j] == slots[..j];
      var day := if slot.day.Some? then ParseDay(slot.day.value) else None;
      forall d ensures SlotOn(slot, d) <==> day == Some(d) {
        if slot.day.Some? {
          ParseDayExact(slot.day.value, d);
        }
      }
      if day.Some? {
        result := result[day.value := result[day.value] + [RowOf(subject, slot)]];
      }
    }
    assert slots[..|slots|] == slots;
  }

  /** Sorts each day's list by start time, leaving the keys as they are. */
  method SortDays(mapping: map<DayName, seq<Row>>) returns (result: map<DayName, seq<Row>>)
    requires EveryDay(mapping)
    ensures EveryDay(result)
    ensures forall d :: result[d] == Sort(mapping[d], StartLe)
  {
    result := mapping;
    for k := 0 to |DayNames|
      invariant EveryDay(result)
      invariant forall d :: result[d] == if DayIndex(d) < k then Sort(mapping[d], StartLe) else mapping[d]
    {
      var day := DayNames[k];
      DayIndexOf(k);
      result := result[day := Sort(result[day], StartLe)];
    }
  }

  lemma {:induction false} DayIndexOf(k: int)
    requires 0 <= k < 7
    ensures DayIndex(DayNames[k]) == k
  {
    if k == 0 {} else if k == 1 {} else if k == 2 {} else if k == 3 {}
    else if k == 4 {} else if k == 5 {} else {}
  }

  /** The position of a day in DAY_NAMES. */
  function DayIndex(d: DayName): (i: int)
    ensures 0 <= i < 7 && DayNames[i] == d
  {
    match d
    case Mon => 0 case Tue => 1 case Wed => 2 case Thu => 3
    case Fri => 4 case Sat => 5 case Sun => 6
  }

  /** `_schedule_map`: one list per day name, filled in subject and slot order, then each
      sorted by start time. */
  method ScheduleMap(subjects: seq<Subject>) returns (mapping: map<DayName, seq<Row>>)
    ensures EveryDay(mapping)
    ensures forall d :: mapping[d] == Sort(DayRows(subjects, d), StartLe)
    ensures forall d :: SortedBy(mapping[d], StartLe) && multiset(mapping[d]) == multiset(DayRows(subjects, d))
  {
    mapping := map[Mon := [], Tue := [], Wed := [], Thu := [], Fri := [], Sat := [], Sun := []];
    forall d: DayName ensures d in mapping {
      assert d == DayNames[DayIndex(d)];
    }
    for i := 0 to |subjects|
      invariant EveryDay(mapping)
      invariant forall d :: mapping[d] == DayRows(subjects[..i], d)
    {
      assert subjects[..i + 1][..i] == subjects[..i];
      mapping := AppendSubjectRows(mapping, subjects[i]);
    }
    assert subjects[..|subjects|] == subjects;
    mapping := SortDays(mapping);
    StartLeTotalPreorder();
    forall d ensures SortedBy(mapping[d], StartLe) {
      SortSorted(DayRows(subjects, d), StartLe);
    }
  }

  /** A row is listed under `day` for a subject exactly when one of its slots is on `day`
      and gives that row. */
  lemma {:induction false} SlotRowsMembers(subject: Subject, slots: seq<Slot>, day: DayName, r: Row)
    ensures r in SlotRows(subject, slots, day) <==>
      exists j :: 0 <= j < |slots| && SlotOn(slots[j], day) && r == RowOf(subject, slots[j])
  {
    if slots != [] {
      var init := slots[..|slots| - 1];
      SlotRowsMembers(subject, init, day, r);
      if exists j :: 0 <= j < |init| && SlotOn(init[j], day) && r == RowOf(subject, init[j]) {
        var j :| 0 <= j < |init| && SlotOn(init[j], day) && r == RowOf(subject, init[j]);
        assert slots[j] == init[j];
      }
      if exists j :: 0 <= j < |slots| && SlotOn(slots[j], day) && r == RowOf(subject, slots[j]) {
        var j :| 0 <= j < |slots| && SlotOn(slots[j], day) && r == RowOf(subject, slots[j]);
        if j < |init| {
          assert init[j] == slots[j];
        }
      }
    }
  }

  /** Subject `i`'s slot `j` is on `day` and gives row `r`. */
  predicate GivesRow(subjects: seq<Subject>, i: int, j: int, day: DayName, r: Row)
  {
    0 <= i < |subjects| && 0 <= j < |SlotsOf(subjects[i])| &&
    SlotOn(SlotsOf(subjects[i])[j], day) && r == RowOf(subjects[i], SlotsOf(subjects[i])[j])
  }

  /** Every row listed under `day` comes from a slot of some subject whose day is `day`,
      and every such slot gives a row there. */
  lemma {:induction false} DayRowsMembers(subjects: seq<Subject>, day: DayName, r: Row)
    ensures r in DayRows(subjects, day) <==> exists i, j :: GivesRow(subjects, i, j, day, r)
  {
    if subjects != [] {
      var n := |subjects| - 1;
      var init, last := subjects[..n], subjects[n];
      DayRowsMembers(init, day, r);
      SlotRowsMembers(last, SlotsOf(last), day, r);
      if exists i, j :: GivesRow(init, i, j, day, r) {
        var i, j :| GivesRow(init, i, j, day, r);
        assert subjects[i] == init[i];
        assert GivesRow(subjects, i, j, day, r);
      }
      if exists j :: 0 <= j < |SlotsOf(last)| && SlotOn(SlotsOf(last)[j], day) && r == RowOf(last, SlotsOf(last)[j]) {
        var j :| 0 <= j < |SlotsOf(last)| && SlotOn(SlotsOf(last)[j], day) && r == RowOf(last, SlotsOf(last)[j]);
        assert GivesRow(subjects, n, j, day, r);
      }
      if exists i, j :: GivesRow(subjects, i, j, day, r) {
        var i, j :| GivesRow(subjects, i, j, day, r);
        if i < n {
          assert init[i] == subjects[i];
          assert GivesRow(init, i, j, day, r);
        }
      }
    }
  }

  /** Start times compare as strings, so "10:00" sorts before "9:00". */
  lemma {:induction false} StringOrderOfTimes()
    ensures LexLe("10:00", "9:00") && !LexLe("9:00", "10:00")
    ensures var early, late := Row("X", "-", "9:00", "10:00"), Row("Y", "-", "10:00", "11:00");
      Sort([early, late], StartLe) == [late, early]
  {
    var early, late := Row("X", "-", "9:00", "10:00"), Row("Y", "-", "10:00", "11:00");
    assert [early, late][..1] == [early];
    assert [early, late][1] == late;
    assert Sort([early], StartLe) == [early] by {
      assert [early][..0] == [];
    }
  }

  /** `schedule_by_day.get(key, [])`. */
  function ScheduleGet(schedule: map<DayName, seq<Row>>, key: DayName): seq<Row>
  {
    if key in schedule then schedule[key] else []
  }

  /** The end times of `slots` read as minutes. */
  function EndMinutes(slots: seq<Row>): (ms: seq<Option<int>>)
    ensures |ms| == |slots|
  {
    if slots == [] then [] else EndMinutes(slots[..|slots| - 1]) + [ToMinutes(slots[|slots| - 1].endTime)]
  }

  /** `max(...)` over values that may have failed to parse: the largest value, or `None`
      when some value failed. */
  function MaxParsed(ms: seq<Option<int>>): (r: Option<int>)
    requires ms != []
    ensures r.Some? ==> forall i :: 0 <= i < |ms| ==> ms[i].Some? && ms[i].value <= r.value
    ensures r.Some? ==> r in ms
    ensures r.None? ==> None in ms
  {
    var last := ms[|ms| - 1];
    if |ms| == 1 then last
    else
      var init := ms[..|ms| - 1];
      assert ms == init + [last];
      match (MaxParsed(init), last)
      case (Some(a), Some(b)) => if b > a then Some(b) else Some(a)
      case (None, _) => None
      case (_, None) => None
  }

  /** `max(_to_minutes(slot["end_time"]) for slot in slots)`. */
  function LatestEnd(slots: seq<Row>): Option<int>
    requires slots != []
  {
    MaxParsed(EndMinutes(slots))
  }

  /** `schedule_by_day.get(_day_from_date(t))` is a non-empty list. */
  predicate DayHasSlots(schedule: map<DayName, seq<Row>>, t: int)
  {
    ScheduleGet(schedule, DayFromDate(t)) != []
  }

  /** The list of the day `offset` days after `today` is non-empty. */
  predicate OffsetHasSlots(schedule: map<DayName, seq<Row>>, today: int, offset: int)
  {
    DayHasSlots(schedule, today + offset * Day)
  }

  /** The first offset from `offset` to 7 whose day, counted from `today`, has a
      non-empty list. */
  function FirstOffsetWithSlots(today: int, schedule: map<DayName, seq<Row>>, offset: int): (r: Option<int>)
    requires 1 <= offset <= 8
    ensures r.Some? ==> offset <= r.value <= 7
    decreases 8 - offset
  {
    if offset > 7 then None
    else if OffsetHasSlots(schedule, today, offset) then Some(offset)
    else FirstOffsetWithSlots(today, schedule, offset + 1)
  }

  /** The offset found has slots and no earlier one does; when none is found, no day from
      `offset` to 7 has slots. */
  lemma {:induction false} FirstOffsetIsFirst(today: int, schedule: map<DayName, seq<Row>>, offset: int)
    requires 1 <= offset <= 8
    ensures var r := FirstOffsetWithSlots(today, schedule, offset);
      && (r.Some? ==> OffsetHasSlots(schedule, today, r.value))
      && (r.Some? ==> forall o :: offset <= o < r.value ==> !OffsetHasSlots(schedule, today, o))
      && (r.None? ==> forall o :: offset <= o <= 7 ==> !OffsetHasSlots(schedule, today, o))
  {
    var r := FirstOffsetWithSlots(today, schedule, offset);
    if r.Some? {
      FirstOffsetFound(today, schedule, offset);
    }
    forall o | offset <= o <= 7 && (r.None? || o < r.value)
      ensures !OffsetHasSlots(schedule, today, o)
    {
      FirstOffsetSkips(today, schedule, offset, o);
    }
  }

  /** The offset found has slots. */
  lemma {:induction false} FirstOffsetFound(today: int, schedule: map<DayName, seq<Row>>, offset: int)
    requires 1 <= offset <= 8 && FirstOffsetWithSlots(today, schedule, offset).Some?
    ensures OffsetHasSlots(schedule, today, FirstOffsetWithSlots(today, schedule, offset).value)
    decreases 8 - offset
  {
    if !OffsetHasSlots(schedule, today, offset) {
      FirstOffsetFound(today, schedule, offset + 1);
    }
  }

  /** An offset the search passes over, before the one found or with none found, has
      no slots. */
  lemma {:induction false} FirstOffsetSkips(today: int, schedule: map<DayName, seq<Row>>, offset: int, o: int)
    requires 1 <= offset <= o <= 7
    requires var r := FirstOffsetWithSlots(today, schedule, offset); r.None? || o < r.value
    ensures !OffsetHasSlots(schedule, today, o)
    decreases 8 - offset
  {
    if o > offset && !OffsetHasSlots(schedule, today, offset) {
      FirstOffsetSkips(today, schedule, offset + 1, o);
    }
  }

  /** How today's slots decide: an end time that does not parse raises, a current minute at
      or before the latest end keeps today, and otherwise the following days are probed. */
  datatype TodayVerdict = Raises | StaysToday | LooksAhead

  function JudgeToday(now: int, schedule: map<DayName, seq<Row>>): TodayVerdict
  {
    var todaySlots := ScheduleGet(schedule, DayFromDate(now));
    if todaySlots == [] then LooksAhead
    else
      match LatestEnd(todaySlots)
      case None => Raises
      case Some(latestEnd) => if MinuteOfDay(now) <= latestEnd then StaysToday else LooksAhead
  }

  /** The number of days after today that `_pick_schedule_day` moves to; `None` where it
      raises. */
  function PickOffset(now: int, schedule: map<DayName, seq<Row>>): Option<int>
  {
    OffsetOf(JudgeToday(now, schedule), FirstOffsetWithSlots(Midnight(now), schedule, 1))
  }

  /** The offset chosen from today's verdict and the first following day with slots; the
      search falls back to today when no day in the week has any. */
  function OffsetOf(verdict: TodayVerdict, probe: Option<int>): Option<int>
  {
    match verdict
    case Raises => None
    case StaysToday => Some(0)
    case LooksAhead => if probe.Some? then probe else Some(0)
  }

  /** What `_pick_schedule_day` returns. */
  function PickDay(now: int, schedule: map<DayName, seq<Row>>): Option<int>
  {
    DayOf(Midnight(now), PickOffset(now, schedule))
  }

  /** The midnight `offset` days after `today`, when there is an offset. */
  function DayOf(today: int, offset: Option<int>): Option<int>
  {
    match offset
    case Some(o) => Some(today + o * Day)
    case None => None
  }

  /** The generator `max(_to_minutes(slot["end_time"]) for slot in today_slots)`, which
      raises at the first end time that does not parse. */
  method LatestEndMinutes(slots: seq<Row>) returns (r: Option<int>)
    requires slots != []
    ensures r == LatestEnd(slots)
  {
    var first := ToMinutes(slots[0].endTime);
    EndMinutesSnoc(slots, 0);
    if first.None? {
      PrefixNone(slots, 1);
      return None;
    }
    var latestEnd := first.value;
    for i := 1 to |slots|
      invariant MaxParsed(EndMinutes(slots[..i])) == Some(latestEnd)
    {
      var m := ToMinutes(slots[i].endTime);
      EndMinutesSnoc(slots, i);
      MaxParsedSnoc(EndMinutes(slots[..i]), m, latestEnd);
      if m.None? {
        PrefixNone(slots, i + 1);
        return None;
      }
      latestEnd := if m.value > latestEnd then m.value else latestEnd;
    }
    assert slots[..|slots|] == slots;
    return Some(latestEnd);
  }

  lemma {:induction false} EndMinutesSnoc(slots: seq<Row>, i: int)
    requires 0 <= i < |slots|
    ensures EndMinutes(slots[..i + 1]) == EndMinutes(slots[..i]) + [ToMinutes(slots[i].endTime)]
  {
    assert slots[..i + 1][..i] == slots[..i];
  }

  lemma {:induction false} MaxParsedSnoc(ms: seq<Option<int>>, m: Option<int>, latest: int)
    requires ms != [] && MaxParsed(ms) == Some(latest)
    ensures m.None? ==> MaxParsed(ms + [m]).None?
    ensures m.Some? ==> MaxParsed(ms + [m]) == Some(if m.value > latest then m.value else latest)
  {
    assert (ms + [m])[..|ms|] == ms;
  }

  lemma {:induction false} PrefixNone(slots: seq<Row>, n: int)
    requires 1 <= n <= |slots| && MaxParsed(EndMinutes(slots[..n])).None?
    ensures MaxParsed(EndMinutes(slots)).None?
  {
    var k :| 0 <= k < n && EndMinutes(slots[..n])[k] == None;
    EndMinutesAt(slots[..n], k);
    EndMinutesAt(slots, k);
  }

  /** The `i`-th end read is that of the `i`-th slot. */
  lemma {:induction false} EndMinutesAt(slots: seq<Row>, i: int)
    requires 0 <= i < |slots|
    ensures EndMinutes(slots)[i] == ToMinutes(slots[i].endTime)
    decreases |slots|
  {
    if i < |slots| - 1 {
      EndMinutesAt(slots[..|slots| - 1], i);
    }
  }

  /** The loop `for offset in range(1, 8)` of `_pick_schedule_day`: the first offset whose
      day has a non-empty list. */
  method ProbeFollowingDays(today: int, schedule: map<DayName, seq<Row>>) returns (r: Option<int>)
    ensures r == FirstOffsetWithSlots(today, schedule, 1)
  {
    for offset := 1 to 8
      invariant FirstOffsetWithSlots(today, schedule, 1) == FirstOffsetWithSlots(today, schedule, offset)
    {
      var probeKey := DayFromDate(today + offset * Day);
      if probeKey in schedule && schedule[probeKey] != [] {
        return Some(offset);
      }
    }
    return None;
  }

  /** The first half of `_pick_schedule_day`: whether today's slots raise, keep today, or
      send the search to the following days. */
  method CheckToday(now: int, schedule: map<DayName, seq<Row>>) returns (v: TodayVerdict)
    ensures v == JudgeToday(now, schedule)
  {
    var todaySlots := ScheduleGet(schedule, DayFromDate(now));
    if |todaySlots| > 0 {
      var latestEnd := LatestEndMinutes(todaySlots);
      if latestEnd.None? {
        return Raises;
      }
      if MinuteOfDay(now) <= latestEnd.value {
        return StaysToday;
      }
    }
    return LooksAhead;
  }

  /** `_pick_schedule_day`. */
  method PickScheduleDay(now: int, schedule: map<DayName, seq<Row>>) returns (r: Option<int>)
    ensures r == PickDay(now, schedule)
  {
    var today := Midnight(now);
    var verdict := CheckToday(now, schedule);
    if verdict == Raises {
      PickDayRaises(now, schedule);
      return None;
    }
    if verdict == StaysToday {
      PickDayStays(now, schedule);
      return Some(today);
    }
    var offset := ProbeFollowingDays(today, schedule);
    if offset.Some? {
      PickDayAheadFound(now, schedule, offset.value);
      return Some(today + offset.value * Day);
    }
    PickDayAheadNone(now, schedule);
    return Some(today);
  }

  /** `PickDay` when today's slots raise. */
  lemma {:induction false} PickDayRaises(now: int, schedule: map<DayName, seq<Row>>)
    requires JudgeToday(now, schedule) == Raises
    ensures PickDay(now, schedule) == None
  {
    var probe := FirstOffsetWithSlots(Midnight(now), schedule, 1);
    assert PickOffset(now, schedule) == OffsetOf(Raises, probe) == None;
  }

  /** `PickDay` when today is kept. */
  lemma {:induction false} PickDayStays(now: int, schedule: map<DayName, seq<Row>>)
    requires JudgeToday(now, schedule) == StaysToday
    ensures PickDay(now, schedule) == Some(Midnight(now))
  {
    var probe := FirstOffsetWithSlots(Midnight(now), schedule, 1);
    assert PickOffset(now, schedule) == OffsetOf(StaysToday, probe) == Some(0);
    DayOfToday(Midnight(now));
  }

  /** `PickDay` when the following days are probed and one of them has slots. */
  lemma {:induction false} PickDayAheadFound(now: int, schedule: map<DayName, seq<Row>>, offset: int)
    requires JudgeToday(now, schedule) == LooksAhead
    requires FirstOffsetWithSlots(Midnight(now), schedule, 1) == Some(offset)
    ensures PickDay(now, schedule) == DayOf(Midnight(now), Some(offset))
  {
    var probe := FirstOffsetWithSlots(Midnight(now), schedule, 1);
    assert PickOffset(now, schedule) == OffsetOf(LooksAhead, probe) == Some(offset);
  }

  /** `PickDay` when the following days are probed and none of them has slots. */
  lemma {:induction false} PickDayAheadNone(now: int, schedule: map<DayName, seq<Row>>)
    requires JudgeToday(now, schedule) == LooksAhead
    requires FirstOffsetWithSlots(Midnight(now), schedule, 1) == None
    ensures PickDay(now, schedule) == Some(Midnight(now))
  {
    var probe := FirstOffsetWithSlots(Midnight(now), schedule, 1);
    assert PickOffset(now, schedule) == OffsetOf(LooksAhead, probe) == Some(0);
    DayOfToday(Midnight(now));
  }

  lemma {:induction false} DayOfToday(today: int)
    ensures DayOf(today, Some(0)) == Some(today)
  {
    assert today + 0 * Day == today;
  }

  /** The day chosen is today or one of the next seven; a later day is the first whose
      list is non-empty, every day in between having none. */
  lemma {:induction false} PickOffsetChoice(now: int, schedule: map<DayName, seq<Row>>)
    requires PickOffset(now, schedule).Some?
    ensures var offset := PickOffset(now, schedule).value;
      && 0 <= offset <= 7
      && (offset == 0 || (OffsetHasSlots(schedule, Midnight(now), offset) &&
            forall o :: 1 <= o < offset ==> !OffsetHasSlots(schedule, Midnight(now), o)))
  {
    FirstOffsetIsFirst(Midnight(now), schedule, 1);
  }

  /** The day chosen is a midnight in [today, today + 7 days]. */
  lemma {:induction false} PickDayMidnight(now: int, schedule: map<DayName, seq<Row>>)
    requires PickDay(now, schedule).Some?
    ensures var day := PickDay(now, schedule).value;
      && day % Day == 0
      && Midnight(now) <= day <= Midnight(now) + 7 * Day
  {
    var offset := PickOffset(now, schedule).value;
    PickOffsetRange(now, schedule);
    MultipleOfDay(Midnight(now), offset);
    assert PickDay(now, schedule).value == Midnight(now) + offset * Day;
  }

  lemma {:induction false} PickOffsetRange(now: int, schedule: map<DayName, seq<Row>>)
    requires PickOffset(now, schedule).Some?
    ensures 0 <= PickOffset(now, schedule).value <= 7
  {
  }

  /** A whole number of days, up to a week, after a midnight is a midnight in that week. */
  lemma {:induction false} MultipleOfDay(today: int, o: int)
    requires today % Day == 0 && 0 <= o <= 7
    ensures (today + o * Day) % Day == 0
    ensures today <= today + o * Day <= today + 7 * Day
  {
    assert today + o * Day == (today / Day + o) * Day;
  }

  /** Today is chosen while the current minute is at or before the latest end time of
      today's slots, the end minute itself included. */
  lemma {:induction false} PickDayStaysToday(now: int, schedule: map<DayName, seq<Row>>, i: int)
    requires DayHasSlots(schedule, now)
    requires None !in EndMinutes(ScheduleGet(schedule, DayFromDate(now)))
    requires 0 <= i < |ScheduleGet(schedule, DayFromDate(now))|
    requires MinuteOfDay(now) <= EndMinutes(ScheduleGet(schedule, DayFromDate(now)))[i].value
    ensures PickDay(now, schedule) == Some(Midnight(now))
  {
    var slots := ScheduleGet(schedule, DayFromDate(now));
    var ms := EndMinutes(slots);
    assert ms[i] in ms;
    assert LatestEnd(slots).Some? && ms[i].value <= LatestEnd(slots).value;
    assert JudgeToday(now, schedule) == StaysToday;
  }

  /** When only today's weekday has slots and today's are over, the same weekday one week
      later is chosen. */
  lemma {:induction false} PickDayNextWeek(now: int, schedule: map<DayName, seq<Row>>)
    requires forall d :: d != DayFromDate(now) ==> ScheduleGet(schedule, d) == []
    requires DayHasSlots(schedule, now)
    requires LatestEnd(ScheduleGet(schedule, DayFromDate(now))).Some?
    requires MinuteOfDay(now) > LatestEnd(ScheduleGet(schedule, DayFromDate(now))).value
    ensures PickDay(now, schedule) == Some(Midnight(now) + 7 * Day)
  {
    JudgeLooksAhead(now, schedule);
    OnlyTodayAhead(now, schedule);
    AheadToOffset(now, schedule, 7);
  }

  /** Today's classes are over when the current minute is past the latest end. */
  lemma {:induction false} JudgeLooksAhead(now: int, schedule: map<DayName, seq<Row>>)
    requires DayHasSlots(schedule, now)
    requires LatestEnd(ScheduleGet(schedule, DayFromDate(now))).Some?
    requires MinuteOfDay(now) > LatestEnd(ScheduleGet(schedule, DayFromDate(now))).value
    ensures JudgeToday(now, schedule) == LooksAhead
  {
  }

  /** When today is over and `offset` is the first following day with classes, that day
      is shown. */
  lemma {:induction false} AheadToOffset(now: int, schedule: map<DayName, seq<Row>>, offset: int)
    requires JudgeToday(now, schedule) == LooksAhead
    requires 1 <= offset <= 7 && OffsetHasSlots(schedule, Midnight(now), offset)
    requires forall o :: 1 <= o < offset ==> !OffsetHasSlots(schedule, Midnight(now), o)
    ensures PickDay(now, schedule) == DayOf(Midnight(now), Some(offset))
  {
    FirstOffsetIsFirst(Midnight(now), schedule, 1);
    var r := FirstOffsetWithSlots(Midnight(now), schedule, 1);
    assert r.Some? && r.value == offset;
    PickDayAheadFound(now, schedule, offset);
  }

  /** When only today's weekday has classes, the days one to six ahead have none and the
      day a week ahead has them. */
  lemma {:induction false} OnlyTodayAhead(now: int, schedule: map<DayName, seq<Row>>)
    requires forall d :: d != DayFromDate(now) ==> ScheduleGet(schedule, d) == []
    requires DayHasSlots(schedule, now)
    ensures OffsetHasSlots(schedule, Midnight(now), 7)
    ensures forall o :: 1 <= o < 7 ==> !OffsetHasSlots(schedule, Midnight(now), o)
  {
    SameWeekdayNextWeek(now);
    forall o | 1 <= o < 7
      ensures !OffsetHasSlots(schedule, Midnight(now), o)
    {
      OtherWeekday(now, o);
    }
  }

  /** One to six days after today is another weekday than today's. */
  lemma {:induction false} OtherWeekday(now: int, o: int)
    requires 1 <= o < 7
    ensures DayFromDate(Midnight(now) + o * Day) != DayFromDate(now)
  {
    var today := Midnight(now);
    assert today / Day == now / Day;
    DayFromDateShift(today, o);
    assert (Weekday(now) + o) % 7 != Weekday(now);
  }

  /** Seven days after today is today's day name again. */
  lemma {:induction false} SameWeekdayNextWeek(now: int)
    ensures DayFromDate(Midnight(now) + 7 * Day) == DayFromDate(now)
  {
    var today := Midnight(now);
    assert today / Day == now / Day;
    DayFromDateShift(today, 7);
  }

  /** Midnight is the one multiple of a day in the day-long window ending at `t`. */
  lemma {:induction false} MidnightUnique(t: int, m: int)
    requires m % Day == 0 && m <= t < m + Day
    ensures Midnight(t) == m
  {
    var q := m / Day;
    assert m == q * Day;
    assert t == q * Day + (t - m);
    assert t / Day == q;
  }

  /** A task document: `due_at` is a datetime, or `None` when the key is missing or holds
      a value without a `replace` method. A text date, which has one and makes the window
      comparison raise, has no value here. */
  datatype Task = Task(title: Option<string>, dueAt: Option<int>)

  /** `hasattr(due_at, "replace") and start_today <= due_at <= end_tomorrow`, where
      `end_tomorrow` is one microsecond before the midnight two days on. */
  predicate DueSoonAt(now: int, task: Task)
  {
    task.dueAt.Some? && Midnight(now) <= task.dueAt.value <= Midnight(now) + 2 * Day - 1
  }

  /** The window is exactly the calendar days of today and tomorrow. */
  lemma {:induction false} DueSoonTodayOrTomorrow(now: int, task: Task)
    requires task.dueAt.Some?
    ensures DueSoonAt(now, task) <==>
      Midnight(task.dueAt.value) == Midnight(now) || Midnight(task.dueAt.value) == Midnight(now) + Day
  {
    var t, m := task.dueAt.value, Midnight(now);
    if m <= t < m + Day {
      MidnightUnique(t, m);
    } else if m + Day <= t < m + 2 * Day {
      MultipleOfDay(m, 1);
      MidnightUnique(t, m + Day);
    }
  }

  /** The tasks due soon, in input order. */
  function DueTasks(now: int, tasks: seq<Task>): (r: seq<Task>)
    ensures forall x :: x in r <==> x in tasks && DueSoonAt(now, x)
  {
    if tasks == [] then []
    else
      var last := tasks[|tasks| - 1];
      DueTasks(now, tasks[..|tasks| - 1]) + (if DueSoonAt(now, last) then [last] else [])
  }

  /** The sort key `row.get("due_at")`; every task it compares has a due date. */
  function DueKey(task: Task): int
  {
    GetOr(task.dueAt, 0)
  }

  predicate DueLe(a: Task, b: Task)
  {
    DueKey(a) <= DueKey(b)
  }

  lemma {:induction false} DueLeTotalPreorder()
    ensures TotalPreorder(DueLe)
  {
  }

  /** `due_tasks`: the tasks due today or tomorrow, sorted by due date. */
  method DueSoon(now: int, tasks: seq<Task>) returns (due: seq<Task>)
    ensures due == Sort(DueTasks(now, tasks), DueLe)
    ensures SortedBy(due, DueLe)
    ensures forall x :: x in due <==> x in tasks && DueSoonAt(now, x)
    ensures multiset(due) == multiset(DueTasks(now, tasks))
  {
    due := [];
    for i := 0 to |tasks|
      invariant due == DueTasks(now, tasks[..i])
    {
      assert tasks[..i + 1][..i] == tasks[..i];
      if DueSoonAt(now, tasks[i]) {
        due := due + [tasks[i]];
      }
    }
    assert tasks[..|tasks|] == tasks;
    due := Sort(due, DueLe);
    DueLeTotalPreorder();
    SortSorted(DueTasks(now, tasks), DueLe);
    SortMembers(DueTasks(now, tasks), DueLe);
  }

  /** An event document: `starts_at` is a datetime, or `None` when the key is missing or
      holds a value without a `replace` method. A text date, which has one and makes the
      comparison with `now` raise, has no value here. */
  datatype Event = Event(title: Option<string>, startsAt: Option<int>)

  /** `hasattr(start, "replace") and start >= now`. */
  predicate UpcomingAt(now: int, event: Event)
  {
    event.startsAt.Some? && event.startsAt.value >= now
  }

  /** The events still to start, in input order. */
  function UpcomingEvents(now: int, events: seq<Event>): (r: seq<Event>)
    ensures forall x :: x in r <==> x in events && UpcomingAt(now, x)
  {
    if events == [] then []
    else
      var last := events[|events| - 1];
      UpcomingEvents(now, events[..|events| - 1]) + (if UpcomingAt(now, last) then [last] else [])
  }

  /** The sort key `row.get("starts_at")`; every event it compares has a start. */
  function StartKey(event: Event): int
  {
    GetOr(event.startsAt, 0)
  }

  predicate StartsLe(a: Event, b: Event)
  {
    StartKey(a) <= StartKey(b)
  }

  lemma {:induction false} StartsLeTotalPreorder()
    ensures TotalPreorder(StartsLe)
  {
  }

  /** `upcoming_events[:3]`. */
  function FirstThree(s: seq<Event>): seq<Event>
  {
    if |s| <= 3 then s else s[..3]
  }

  /** The events the dashboard lists as upcoming. */
  function ShownEvents(now: int, events: seq<Event>): seq<Event>
  {
    FirstThree(Sort(UpcomingEvents(now, events), StartsLe))
  }

  /** `upcoming_events`: the events starting now or later, sorted by start, at most three. */
  method Upcoming(now: int, events: seq<Event>) returns (up: seq<Event>)
    ensures up == ShownEvents(now, events)
  {
    var upcoming := [];
    for i := 0 to |events|
      invariant upcoming == UpcomingEvents(now, events[..i])
    {
      assert events[..i + 1][..i] == events[..i];
      if UpcomingAt(now, events[i]) {
        upcoming := upcoming + [events[i]];
      }
    }
    assert events[..|events|] == events;
    upcoming := Sort(upcoming, StartsLe);
    up := if |upcoming| <= 3 then upcoming else upcoming[..3];
  }

  /** At most three events are shown, all of them upcoming and in start order; when at
      most three are upcoming, all of them are shown. */
  lemma {:induction false} ShownEventsUpcoming(now: int, events: seq<Event>)
    ensures var all, up := UpcomingEvents(now, events), ShownEvents(now, events);
      && |up| == (if |all| <= 3 then |all| else 3)
      && SortedBy(up, StartsLe)
      && (forall x :: x in up ==> x in events && UpcomingAt(now, x))
      && (|all| <= 3 ==> multiset(up) == multiset(all))
  {
    var all := UpcomingEvents(now, events);
    var sorted := Sort(all, StartsLe);
    assert SortedBy(sorted, StartsLe) by {
      StartsLeTotalPreorder();
      SortSorted(all, StartsLe);
    }
    assert |sorted| == |all| by {
      SortMembers(all, StartsLe);
    }
    var up := ShownEvents(now, events);
    var n := if |sorted| <= 3 then |sorted| else 3;
    assert up == sorted[..n];
    PrefixSorted(sorted, n, StartsLe);
    forall x | x in up
      ensures x in events && UpcomingAt(now, x)
    {
      var k :| 0 <= k < |up| && up[k] == x;
      assert x in sorted by {
        assert sorted[k] == x;
      }
      SortMembers(all, StartsLe);
    }
    if |all| <= 3 {
      assert up == sorted;
    }
  }

  /** No upcoming event left out starts before an event shown. */
  lemma {:induction false} ShownEventsEarliest(now: int, events: seq<Event>, x: Event, y: Event)
    requires x in ShownEvents(now, events)
    requires y in UpcomingEvents(now, events) && y !in ShownEvents(now, events)
    ensures StartKey(x) <= StartKey(y)
  {
    var all := UpcomingEvents(now, events);
    var sorted := Sort(all, StartsLe);
    var up := ShownEvents(now, events);
    StartsLeTotalPreorder();
    SortSorted(all, StartsLe);
    SortMembers(all, StartsLe);
    assert up == sorted[..|up|];
    var i :| 0 <= i < |up| && up[i] == x;
    var j :| 0 <= j < |sorted| && sorted[j] == y;
    assert StartsLe(sorted[i], sorted[j]);
  }
}
