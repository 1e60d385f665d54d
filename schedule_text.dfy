/** The subjects screen's schedule field: `_parse_schedule_slots` turns text such as
    "Mon 10:00-11:00, Wed 14:00-15:00" into slot records, and the subject list shows
    the slots again as "day start-end" joined by ", ". */
module ScheduleText {
  import opened Common
  import opened Text

  /** One parsed slot: the `day`, `start_time` and `end_time` strings of the record. */
  datatype SlotText = SlotText(day: string, startTime: string, endTime: string)

  /** The parser's single error, Python's `ValueError("Invalid schedule format")`. */
  datatype ParseError = InvalidScheduleFormat

  /** `s.split(c, maxsplit=1)` when `c` occurs in `s`: the text before the first `c`
      and everything after it. */
  function SplitOnce(s: string, c: char): (r: (string, string))
    requires c in s
    ensures s == r.0 + [c] + r.1 && c !in r.0
  {
    if s[0] == c then ([], s[1..])
    else
      var r := SplitOnce(s[1..], c);
      assert s == [s[0]] + s[1..];
      ([s[0]] + r.0, r.1)
  }

  /** The cut at the first `c` is the only cut whose left part has no `c`. */
  lemma {:induction false} SplitOnceUnique(a: string, b: string, c: char)
    requires c !in a
    ensures c in a + [c] + b && SplitOnce(a + [c] + b, c) == (a, b)
  {
    var s := a + [c] + b;
    assert s[|a|] == c;
    if a != [] {
      assert s[0] == a[0] && s[1..] == a[1..] + [c] + b;
      SplitOnceUnique(a[1..], b, c);
      assert [a[0]] + a[1..] == a;
    } else {
      assert s[1..] == b;
    }
  }

  /** `[chunk.strip() for chunk in chunks]`. */
  function StripAll(chunks: seq<string>): (r: seq<string>)
  {
    seq(|chunks|, i requires 0 <= i < |chunks| => Strip(chunks[i]))
  }

  /** Each stripped chunk has no whitespace at either end, and stripping again changes
      nothing. */
  lemma {:induction false} StripAllIdempotent(chunks: seq<string>)
    ensures |StripAll(chunks)| == |chunks|
    ensures forall i :: 0 <= i < |chunks| && StripAll(chunks)[i] != [] ==>
      !IsSpace(StripAll(chunks)[i][0]) && !IsSpace(StripAll(chunks)[i][|StripAll(chunks)[i]| - 1])
    ensures StripAll(StripAll(chunks)) == StripAll(chunks)
  {
    var once := StripAll(chunks);
    forall i | 0 <= i < |chunks|
      ensures StripAll(once)[i] == once[i]
    {
      StripTwice(chunks[i]);
    }
  }

  /** The `if chunk.strip()` filter: the non-empty strings, in order. */
  function NonEmpty(xs: seq<string>): (ys: seq<string>)
    ensures forall i :: 0 <= i < |ys| ==> ys[i] != [] && ys[i] in xs
  {
    if xs == [] then []
    else
      var n := |xs| - 1;
      var init := NonEmpty(xs[..n]);
      if xs[n] == [] then init else init + [xs[n]]
  }

  /** Every non-empty string is kept, and the kept ones stay in order. */
  lemma {:induction false} NonEmptyKeeps(xs: seq<string>)
    ensures forall j :: 0 <= j < |xs| && xs[j] != [] ==> xs[j] in NonEmpty(xs)
    ensures IsSubsequence(NonEmpty(xs), xs)
  {
    if xs != [] {
      var n := |xs| - 1;
      var init := NonEmpty(xs[..n]);
      NonEmptyKeeps(xs[..n]);
      assert forall j :: 0 <= j < n ==> xs[..n][j] == xs[j];
      assert xs[..|xs| - 1] == xs[..n];
      if xs[n] == [] {
        SubsequenceExtend(init, xs);
      } else {
        assert (init + [xs[n]])[..|init|] == init;
      }
    }
  }

  lemma {:induction false} NonEmptyOfNonEmpty(xs: seq<string>)
    requires forall i :: 0 <= i < |xs| ==> xs[i] != []
    ensures NonEmpty(xs) == xs
  {
    if xs != [] {
      var n := |xs| - 1;
      NonEmptyOfNonEmpty(xs[..n]);
      assert xs == xs[..n] + [xs[n]];
    }
  }

  /** The entries the parser walks: the comma-separated chunks of `raw`, stripped,
      empty ones skipped. */
  function Entries(raw: string): seq<string>
  {
    NonEmpty(StripAll(Split(raw, ',')))
  }

  /** Cutting a word without whitespace gives two words without whitespace. */
  lemma {:induction false} SplitOnceNoSpace(s: string, c: char)
    requires c in s && NoSpace(s)
    ensures NoSpace(SplitOnce(s, c).0) && NoSpace(SplitOnce(s, c).1)
  {
    var r := SplitOnce(s, c);
    forall k | 0 <= k < |r.0|
      ensures !IsSpace(r.0[k])
    {
      assert r.0[k] == s[k];
    }
    forall k | 0 <= k < |r.1|
      ensures !IsSpace(r.1[k])
    {
      assert r.1[k] == s[|r.0| + 1 + k];
    }
  }

  /** One entry: exactly two whitespace-separated tokens, the second holding a '-'.
      The first token is the day, the second is cut at its first '-'. */
  function ParseEntry(entry: string): Result<SlotText, ParseError>
  {
    var parts := SplitWhitespace(entry);
    if |parts| != 2 || '-' !in parts[1] then Failure(InvalidScheduleFormat)
    else
      var cut := SplitOnce(parts[1], '-');
      Success(SlotText(parts[0], cut.0, cut.1))
  }

  /** An entry is accepted exactly when it has two tokens and the second holds a '-';
      then the day is the first token, the start time is the text before the first
      '-' of the second, and the end time is the rest. */
  lemma {:induction false} ParseEntryMeaning(entry: string)
    ensures var parts := SplitWhitespace(entry);
      ParseEntry(entry).Success? <==> |parts| == 2 && '-' in parts[1]
    ensures ParseEntry(entry).Success? ==>
      var slot := ParseEntry(entry).value;
      var parts := SplitWhitespace(entry);
      slot.day == parts[0] && slot.startTime + "-" + slot.endTime == parts[1] && '-' !in slot.startTime
      && slot.day != [] && NoSpace(slot.day) && NoSpace(slot.startTime) && NoSpace(slot.endTime)
  {
    var parts := SplitWhitespace(entry);
    if |parts| == 2 && '-' in parts[1] {
      SplitOnceNoSpace(parts[1], '-');
    }
  }

  /** `f` applied to each element in order, or the first failure. */
  function MapAll<A, B, E>(xs: seq<A>, f: A -> Result<B, E>): Result<seq<B>, E>
  {
    if xs == [] then Success([])
    else
      match MapAll(xs[..|xs| - 1], f)
      case Failure(e) => Failure(e)
      case Success(ys) =>
        match f(xs[|xs| - 1])
        case Failure(e) => Failure(e)
        case Success(y) => Success(ys + [y])
  }

  /** Mapping succeeds exactly when every element does, and then keeps one result per
      element, in order. */
  lemma {:induction false} MapAllPointwise<A, B, E>(xs: seq<A>, f: A -> Result<B, E>)
    ensures MapAll(xs, f).Success? <==> forall i :: 0 <= i < |xs| ==> f(xs[i]).Success?
    ensures MapAll(xs, f).Success? ==>
      var ys := MapAll(xs, f).value;
      |ys| == |xs| && forall i :: 0 <= i < |xs| ==> ys[i] == f(xs[i]).value
  {
    if xs != [] {
      var n := |xs| - 1;
      MapAllPointwise(xs[..n], f);
      assert forall i :: 0 <= i < n ==> xs[..n][i] == xs[i];
    }
  }

  /** One more element: the results so far grow by its result, or its failure makes the
      whole mapping fail. */
  lemma {:induction false} MapAllStep<A, B, E>(xs: seq<A>, i: nat, ys: seq<B>, f: A -> Result<B, E>)
    requires i < |xs| && MapAll(xs[..i], f) == Success(ys)
    ensures f(xs[i]).Success? ==> MapAll(xs[..i + 1], f) == Success(ys + [f(xs[i]).value])
    ensures f(xs[i]).Failure? ==> MapAll(xs, f).Failure?
  {
    var prefix := xs[..i + 1];
    assert prefix[..i] == xs[..i] && prefix[i] == xs[i];
    if f(xs[i]).Failure? {
      MapAllPointwise(xs, f);
    }
  }

  lemma {:induction false} MapAllSucceeds<A, B, E>(xs: seq<A>, ys: seq<B>, f: A -> Result<B, E>)
    requires |xs| == |ys| && forall i :: 0 <= i < |xs| ==> f(xs[i]) == Success(ys[i])
    ensures MapAll(xs, f) == Success(ys)
  {
    MapAllPointwise(xs, f);
    assert MapAll(xs, f).value == ys;
  }

  /** The slots of `entries` in order, or the error as soon as one entry is malformed. */
  function ParseEntries(entries: seq<string>): Result<seq<SlotText>, ParseError>
  {
    MapAll(entries, ParseEntry)
  }

  /** What `_parse_schedule_slots(raw)` returns or raises. */
  function ParseSlots(raw: string): Result<seq<SlotText>, ParseError>
  {
    if Strip(raw) == [] then Success([]) else ParseEntries(Entries(raw))
  }

  /** The parser has one error, so every failure is that error. */
  lemma {:induction false} SoleError(r: Result<seq<SlotText>, ParseError>)
    requires r.Failure?
    ensures r == Failure(InvalidScheduleFormat)
  {
    match r.error
    case InvalidScheduleFormat =>
  }

  lemma {:induction false} BlankInput(raw: string)
    requires Strip(raw) == []
    ensures ParseSlots(raw) == Success([])
  {
  }

  /** `_parse_schedule_slots`: a blank input gives no slots; otherwise the entries are
      parsed in turn. */
  method ParseScheduleSlots(raw: string) returns (r: Result<seq<SlotText>, ParseError>)
    ensures r == ParseSlots(raw)
  {
    if Strip(raw) == [] {
      BlankInput(raw);
      return Success([]);
    }
    var entries := Entries(raw);
    r := ParseEachEntry(entries);
  }

  /** The loop of `_parse_schedule_slots`: each entry's slot is appended in turn, and the
      first malformed entry raises. */
  method ParseEachEntry(entries: seq<string>) returns (r: Result<seq<SlotText>, ParseError>)
    ensures r == ParseEntries(entries)
  {
    var slots: seq<SlotText> := [];
    for i := 0 to |entries|
      invariant ParseEntries(entries[..i]) == Success(slots)
    {
      MapAllStep(entries, i, slots, ParseEntry);
      var parts := SplitWhitespace(entries[i]);
      if |parts| != 2 || '-' !in parts[1] {
        ParseEntryMeaning(entries[i]);
        SoleError(ParseEntries(entries));
        return Failure(InvalidScheduleFormat);
      }
      var cut := SplitOnce(parts[1], '-');
      slots := slots + [SlotText(parts[0], cut.0, cut.1)];
    }
    assert entries[..|entries|] == entries;
    return Success(slots);
  }

  /** An entry the parser rejects: not two tokens, or no '-' in the second. */
  predicate Malformed(entry: string) {
    var parts := SplitWhitespace(entry);
    |parts| != 2 || '-' !in parts[1]
  }

  lemma {:induction false} EntriesFailure(entries: seq<string>)
    ensures ParseEntries(entries).Failure? <==> exists e :: e in entries && Malformed(e)
  {
    MapAllPointwise(entries, ParseEntry);
    forall e | e in entries
      ensures ParseEntry(e).Failure? <==> Malformed(e)
    {
      ParseEntryMeaning(e);
    }
  }

  /** The input is rejected exactly when it is not blank and some entry lacks two tokens
      or a '-' in its second token. */
  lemma {:induction false} ParseSlotsFailure(raw: string)
    ensures ParseSlots(raw).Failure? <==> Strip(raw) != [] && exists e :: e in Entries(raw) && Malformed(e)
  {
    EntriesFailure(Entries(raw));
  }

  /** A blank input gives no slots; any other accepted input gives one slot per
      non-empty comma-separated chunk, in input order. */
  lemma {:induction false} ParseSlotsSuccess(raw: string)
    requires ParseSlots(raw).Success?
    ensures Strip(raw) == [] ==> ParseSlots(raw).value == []
    ensures Strip(raw) != [] ==>
      var entries := Entries(raw);
      var slots := ParseSlots(raw).value;
      |slots| == |entries| && forall i :: 0 <= i < |entries| ==> ParseEntry(entries[i]) == Success(slots[i])
  {
    if Strip(raw) != [] {
      MapAllPointwise(Entries(raw), ParseEntry);
    }
  }

  /** The subject list's text for one slot: `f"{day} {start_time}-{end_time}"`. */
  function SlotDisplay(s: SlotText): string
  {
    s.day + " " + s.startTime + "-" + s.endTime
  }

  function Displays(slots: seq<SlotText>): (texts: seq<string>)
  {
    seq(|slots|, i requires 0 <= i < |slots| => SlotDisplay(slots[i]))
  }

  /** The subject list's text for a slot list: the slot texts joined by ", ". */
  function Render(slots: seq<SlotText>): string
  {
    Join(Displays(slots), ", ")
  }

  /** A slot the display can show and the parser read back: a non-empty day, no
      whitespace or comma in any field and no '-' in the start time. */
  predicate Displayable(s: SlotText)
  {
    s.day != [] && NoSpace(s.day) && NoSpace(s.startTime) && NoSpace(s.endTime)
    && ',' !in s.day && ',' !in s.startTime && ',' !in s.endTime && '-' !in s.startTime
  }

  /** The chunks `raw.split(",")` finds in a ", "-joined text: the first part, then
      each later part behind the blank that followed its comma. */
  function Spaced(parts: seq<string>): (r: seq<string>)
    ensures |r| == |parts|
    ensures parts != [] ==> r[0] == parts[0]
    ensures forall i :: 1 <= i < |parts| ==> r[i] == " " + parts[i]
  {
    seq(|parts|, i requires 0 <= i < |parts| => if i == 0 then parts[0] else " " + parts[i])
  }

  function Blanked(parts: seq<string>): (r: seq<string>)
    ensures |r| == |parts| && forall i :: 0 <= i < |parts| ==> r[i] == " " + parts[i]
  {
    seq(|parts|, i requires 0 <= i < |parts| => " " + parts[i])
  }

  lemma {:induction false} JoinBlanked(parts: seq<string>)
    requires |parts| >= 1
    ensures Join(Blanked(parts), [',']) == " " + Join(parts, ", ")
  {
    var b := Blanked(parts);
    if |parts| >= 2 {
      var tail := parts[1..];
      JoinBlanked(tail);
      assert b[1..] == Blanked(tail);
      assert Join(b, [',']) == b[0] + [','] + Join(b[1..], [',']);
      assert Join(parts, ", ") == parts[0] + ", " + Join(tail, ", ");
    }
  }

  lemma {:induction false} JoinCommaBlank(parts: seq<string>)
    requires |parts| >= 1
    ensures Join(parts, ", ") == Join(Spaced(parts), [','])
  {
    if |parts| >= 2 {
      var tail := parts[1..];
      var sp := Spaced(parts);
      JoinBlanked(tail);
      assert sp[1..] == Blanked(tail);
      var j := Join(tail, ", ");
      assert Join(sp, [',']) == parts[0] + [','] + (" " + j);
      assert Join(parts, ", ") == parts[0] + ", " + j;
      assert parts[0] + [','] + (" " + j) == parts[0] + ", " + j;
    }
  }

  /** A displayed slot has no whitespace at either end and no comma. */
  lemma {:induction false} SlotDisplayShape(s: SlotText)
    requires Displayable(s)
    ensures var t := SlotDisplay(s);
      t != [] && !IsSpace(t[0]) && !IsSpace(t[|t| - 1]) && ',' !in t
  {
    var t := SlotDisplay(s);
    assert t == s.day + [' '] + s.startTime + ['-'] + s.endTime;
    assert t[0] == s.day[0];
    if s.endTime != [] {
      assert t[|t| - 1] == s.endTime[|s.endTime| - 1];
    } else {
      assert t[|t| - 1] == '-';
    }
  }

  lemma {:induction false} StripBlanked(t: string)
    requires t != [] && !IsSpace(t[0]) && !IsSpace(t[|t| - 1])
    ensures Strip(" " + t) == t
  {
    assert (" " + t)[1..] == t;
    assert TrimStart(" " + t) == TrimStart(t);
    StripUnchanged(t);
  }

  lemma {:induction false} ParseEntryOfDisplay(s: SlotText)
    requires Displayable(s)
    ensures ParseEntry(SlotDisplay(s)) == Success(s)
  {
    var time := s.startTime + ['-'] + s.endTime;
    assert SlotDisplay(s) == s.day + [' '] + time;
    assert NoSpace(time) by {
      assert forall k :: 0 <= k < |time| ==> time[k] == '-' || time[k] in s.startTime || time[k] in s.endTime;
    }
    SplitWhitespaceOfPair(s.day, time);
    SplitOnceUnique(s.startTime, s.endTime, '-');
  }

  /** Splitting the rendered text at commas gives back each slot text, every one after
      the first behind a blank. */
  lemma {:induction false} RenderedChunks(slots: seq<SlotText>)
    requires slots != [] && forall i :: 0 <= i < |slots| ==> Displayable(slots[i])
    ensures Split(Render(slots), ',') == Spaced(Displays(slots))
  {
    var texts := Displays(slots);
    var chunks := Spaced(texts);
    JoinCommaBlank(texts);
    forall i | 0 <= i < |chunks|
      ensures ',' !in chunks[i]
    {
      SlotDisplayShape(slots[i]);
    }
    SplitJoin(chunks, ',');
  }

  lemma {:induction false} StripChunk(slots: seq<SlotText>, i: nat)
    requires i < |slots| && Displayable(slots[i])
    ensures Strip(Spaced(Displays(slots))[i]) == Displays(slots)[i]
  {
    var t := SlotDisplay(slots[i]);
    SlotDisplayShape(slots[i]);
    if i == 0 {
      StripUnchanged(t);
    } else {
      StripBlanked(t);
    }
  }

  /** Stripping those chunks gives the slot texts. */
  lemma {:induction false} StripChunks(slots: seq<SlotText>)
    requires forall i :: 0 <= i < |slots| ==> Displayable(slots[i])
    ensures StripAll(Spaced(Displays(slots))) == Displays(slots)
  {
    var texts := Displays(slots);
    var stripped := StripAll(Spaced(texts));
    forall i | 0 <= i < |slots|
      ensures stripped[i] == texts[i]
    {
      StripChunk(slots, i);
    }
  }

  /** The entries of a rendered slot list are the slot texts. */
  lemma {:induction false} RenderedEntries(slots: seq<SlotText>)
    requires slots != [] && forall i :: 0 <= i < |slots| ==> Displayable(slots[i])
    ensures Entries(Render(slots)) == Displays(slots)
  {
    var texts := Displays(slots);
    assert Split(Render(slots), ',') == Spaced(texts) by { RenderedChunks(slots); }
    assert StripAll(Spaced(texts)) == texts by { StripChunks(slots); }
    forall i | 0 <= i < |texts|
      ensures texts[i] != []
    {
      SlotDisplayShape(slots[i]);
    }
    NonEmptyOfNonEmpty(texts);
    assert Entries(Render(slots)) == NonEmpty(texts);
  }

  /** A rendered non-empty slot list is not blank: it starts with a day. */
  lemma {:induction false} RenderedNotBlank(slots: seq<SlotText>)
    requires slots != [] && forall i :: 0 <= i < |slots| ==> Displayable(slots[i])
    ensures Strip(Render(slots)) != []
  {
    var texts := Displays(slots);
    SlotDisplayShape(slots[0]);
    var text := Render(slots);
    assert text[0] == texts[0][0] by {
      if |texts| >= 2 {
        assert text == texts[0] + ", " + Join(texts[1..], ", ");
      }
    }
    assert !IsSpace(text[0]);
  }

  /** Round trip: showing slots and parsing the text again gives the same slots back. */
  lemma {:induction false} RenderParse(slots: seq<SlotText>)
    requires forall i :: 0 <= i < |slots| ==> Displayable(slots[i])
    ensures ParseSlots(Render(slots)) == Success(slots)
  {
    if slots == [] {
      assert Render(slots) == [];
      BlankInput([]);
    } else {
      RenderedNotBlank(slots);
      RenderedEntries(slots);
      var texts := Displays(slots);
      forall i | 0 <= i < |slots|
        ensures ParseEntry(texts[i]) == Success(slots[i])
      {
        ParseEntryOfDisplay(slots[i]);
      }
      MapAllSucceeds(texts, slots, ParseEntry);
    }
  }

  /** Printable ASCII other than the blank. */
  predicate Visible(s: string) {
    forall i :: 0 <= i < |s| ==> '!' <= s[i] <= '~'
  }

  lemma {:induction false} VisibleDisplayable(s: SlotText)
    requires s.day != [] && Visible(s.day) && Visible(s.startTime) && Visible(s.endTime)
    requires ',' !in s.day && ',' !in s.startTime && ',' !in s.endTime && '-' !in s.startTime
    ensures Displayable(s)
  {
  }

  const ExampleSlots := [SlotText("Mon", "10:00", "11:00"), SlotText("Wed", "14:00", "15:00")]

  lemma {:induction false} ExampleDisplayable()
    ensures forall i :: 0 <= i < |ExampleSlots| ==> Displayable(ExampleSlots[i])
  {
    VisibleDisplayable(ExampleSlots[0]);
    VisibleDisplayable(ExampleSlots[1]);
  }

  lemma {:induction false} ExampleTexts()
    ensures Displays(ExampleSlots) == ["Mon 10:00-11:00", "Wed 14:00-15:00"]
  {
    assert SlotDisplay(ExampleSlots[0]) == "Mon 10:00-11:00";
    assert SlotDisplay(ExampleSlots[1]) == "Wed 14:00-15:00";
  }

  lemma {:induction false} ExampleRendered()
    ensures Render(ExampleSlots) == "Mon 10:00-11:00, Wed 14:00-15:00"
  {
    var a, b := "Mon 10:00-11:00", "Wed 14:00-15:00";
    ExampleTexts();
    assert Join([a, b], ", ") == a + ", " + b;
    assert a + ", " + b == "Mon 10:00-11:00, Wed 14:00-15:00";
  }

  /** The example in the parser's own documentation. */
  lemma {:induction false} ParseExample()
    ensures ParseSlots("Mon 10:00-11:00, Wed 14:00-15:00")
      == Success([SlotText("Mon", "10:00", "11:00"), SlotText("Wed", "14:00", "15:00")])
  {
    ExampleDisplayable();
    ExampleRendered();
    RenderParse(ExampleSlots);
  }
}
