/** Concrete runs of the merge, worked out by the verifier. */
module Scenarios {
  import opened Wrappers
  import opened Strings
  import opened Timestamp
  import opened Placeholder
  import opened Sorting
  import opened TemplateMerge

  /** A checkbox line with an `HH:mm` time yields that time. */
  lemma TimedLine(t: string, rest: string)
    requires |t| == 5 && t[2] == ':'
    requires IsDigit(t[0]) && IsDigit(t[1]) && IsDigit(t[3]) && IsDigit(t[4])
    requires |rest| == 0 || !IsDigit(rest[0])
    ensures TimeOf(Checkbox + t + rest) == Some(t)
  {
    assert DigitsBetween(t, 0, 2) && DigitsBetween(t, 3, 5);
    TimeAfterCheckbox(t, rest);
  }

  lemma LessAt(a: string, b: string, k: nat)
    requires k < |a| && k < |b| && a[..k] == b[..k] && a[k] < b[k]
    ensures Less(a, b) && !Less(b, a) && !LessEq(b, a)
  {
    LessFromDifference(a, b, k);
    LessAsymmetric(a, b);
  }

  // ---------------------------------------------------------------------------
  // A meeting between two template slots
  // ---------------------------------------------------------------------------

  const Standup: string := Checkbox + "09:00" + " Standup"
  const Lunch: string := Checkbox + "12:00" + " Lunch"
  const Meeting: string := Checkbox + "09:30" + " **(Work) Meeting**"
  const Break: string := Checkbox + "10:00" + " BREAK"

  lemma StandupTime()
    ensures TimeOf(Standup) == Some("09:00")
  {
    TimedLine("09:00", " Standup");
  }

  lemma LunchTime()
    ensures TimeOf(Lunch) == Some("12:00")
  {
    TimedLine("12:00", " Lunch");
  }

  lemma MeetingTime()
    ensures TimeOf(Meeting) == Some("09:30")
  {
    TimedLine("09:30", " **(Work) Meeting**");
  }

  lemma BreakTime()
    ensures TimeOf(Break) == Some("10:00")
  {
    TimedLine("10:00", " BREAK");
  }

  lemma MeetingDayTimes()
    ensures TimeOf(Standup) == Some("09:00") && TimeOf(Lunch) == Some("12:00")
    ensures TimeOf(Meeting) == Some("09:30") && TimeOf(Break) == Some("10:00")
  {
    StandupTime();
    LunchTime();
    MeetingTime();
    BreakTime();
  }

  lemma StandupPlain(format: string -> string)
    ensures Substitute(Standup, format) == Standup
  {
    assert forall k :: 0 <= k < |Standup| ==> Standup[k] != '{';
    PlainLineUnchanged(Standup, format);
  }

  lemma LunchPlain(format: string -> string)
    ensures Substitute(Lunch, format) == Lunch
  {
    assert forall k :: 0 <= k < |Lunch| ==> Lunch[k] != '{';
    PlainLineUnchanged(Lunch, format);
  }

  lemma MeetingDayCursors()
    ensures CursorAfter([Meeting, Break], [Standup]) == Cursor(0, None)
    ensures CursorAfter([Meeting, Break], [Standup, Lunch]) == Cursor(2, Some("10:00"))
  {
    var md := [Meeting, Break];
    MeetingDayTimes();
    LessAt("09:00", "09:30", 3);
    LessAt("09:30", "12:00", 0);
    assert [Standup][..0] == [];
    assert CursorAfter(md, [Standup]) == Advance(md, Some("09:00"), Cursor(0, None));
    assert [Standup, Lunch][..1] == [Standup];
    assert Advance(md, Some("12:00"), Cursor(0, None)) == Advance(md, Some("12:00"), Cursor(2, Some("10:00")));
  }

  /** The 09:30 meeting is inserted before the 12:00 line, not before the
      09:00 line, and nothing is blanked: the result is standup, meeting,
      BREAK, lunch. */
  lemma MeetingDay(format: string -> string)
    ensures Output([Meeting, Break], [Standup, Lunch], format) == [Standup, Meeting, Break, Lunch]
  {
    var md := [Meeting, Break];
    MeetingDayCursors();
    MeetingDayTimes();
    LessAt("10:00", "12:00", 1);
    StandupPlain(format);
    LunchPlain(format);
    assert [Standup][..0] == [];
    assert [Standup, Lunch][..1] == [Standup];
    assert Output(md, [Standup], format) == [Standup];
    assert md[0..2] == md;
  }

  /** A nine o'clock line without zero padding sorts after "10:00" as text, so
      it calls in a ten o'clock event. */
  lemma UnpaddedTimesCompareAsText()
    ensures Later("9:00", Some("10:00"))
    ensures !Later("10:00", Some("9:00"))
  {
    LessAt("10:00", "9:00", 0);
  }
  // ---------------------------------------------------------------------------
  // Sorting whole lines splits overlapping events
  // ---------------------------------------------------------------------------

  const FirstStart: string := Checkbox + "09:00" + " **(Work) A**"
  const FirstEnd: string := Checkbox + "11:00" + " BREAK"
  const SecondStart: string := Checkbox + "10:00" + " **(Work) B**"
  const SecondEnd: string := Checkbox + "10:30" + " BREAK"
  const Coffee: string := Checkbox + "09:30" + " Coffee"

  /** Lines written as checkbox, time, rest are ordered by their times when
      the times have the same width. */
  lemma LineOrder(t: string, r: string, u: string, q: string)
    requires |t| == |u| && Less(t, u)
    ensures LessEq(Checkbox + t + r, Checkbox + u + q) && !LessEq(Checkbox + u + q, Checkbox + t + r)
  {
    LessExtend(t, u, r, q);
    LessCommonPrefix(Checkbox, t + r, u + q);
    assert Checkbox + t + r == Checkbox + (t + r) && Checkbox + u + q == Checkbox + (u + q);
    LessAsymmetric(Checkbox + t + r, Checkbox + u + q);
  }

  lemma OverlapSorted()
    ensures Sorted([FirstStart, SecondStart, SecondEnd, FirstEnd])
  {
    LessAt("09:00", "10:00", 0);
    LessAt("09:00", "10:30", 0);
    LessAt("09:00", "11:00", 0);
    LessAt("10:00", "10:30", 3);
    LessAt("10:00", "11:00", 1);
    LessAt("10:30", "11:00", 1);
    LineOrder("09:00", " **(Work) A**", "10:00", " **(Work) B**");
    LineOrder("09:00", " **(Work) A**", "10:30", " BREAK");
    LineOrder("09:00", " **(Work) A**", "11:00", " BREAK");
    LineOrder("10:00", " **(Work) B**", "10:30", " BREAK");
    LineOrder("10:00", " **(Work) B**", "11:00", " BREAK");
    LineOrder("10:30", " BREAK", "11:00", " BREAK");
  }

  /** Two overlapping events, built as start, BREAK, start, BREAK, come out of
      the sort as both starts and then both BREAK lines. */
  lemma OverlapSort()
    ensures SortLines([FirstStart, FirstEnd, SecondStart, SecondEnd]) == [FirstStart, SecondStart, SecondEnd, FirstEnd]
  {
    var built := [FirstStart, FirstEnd, SecondStart, SecondEnd];
    var sorted := [FirstStart, SecondStart, SecondEnd, FirstEnd];
    OverlapSorted();
    assert multiset(built) == multiset(sorted);
    SortedPermutationUnique(SortLines(built), sorted);
  }

  lemma OverlapTimes()
    ensures TimeOf(FirstStart) == Some("09:00") && TimeOf(SecondStart) == Some("10:00")
    ensures TimeOf(SecondEnd) == Some("10:30") && TimeOf(Coffee) == Some("09:30")
  {
    TimedLine("09:00", " **(Work) A**");
    TimedLine("10:00", " **(Work) B**");
    TimedLine("10:30", " BREAK");
    TimedLine("09:30", " Coffee");
  }

  lemma OverlapCursor()
    ensures CursorAfter([FirstStart, SecondStart, SecondEnd, FirstEnd], [Coffee]) == Cursor(2, Some("10:00"))
  {
    var md := [FirstStart, SecondStart, SecondEnd, FirstEnd];
    OverlapTimes();
    LessAt("09:00", "09:30", 3);
    LessAt("09:30", "10:30", 0);
    assert [Coffee][..0] == [];
    assert Advance(md, Some("09:30"), Cursor(2, Some("10:00"))) == Cursor(2, Some("10:00"));
  }

  lemma OverlapMerge(format: string -> string)
    ensures Output([FirstStart, SecondStart, SecondEnd, FirstEnd], [Coffee], format) == [FirstStart, SecondStart, ""]
  {
    var md := [FirstStart, SecondStart, SecondEnd, FirstEnd];
    OverlapCursor();
    OverlapTimes();
    LessAt("09:30", "10:00", 0);
    assert [Coffee][..0] == [];
    assert Substitute("", format) == [];
    assert md[0..2] == [FirstStart, SecondStart];
  }

  /** The merge then takes the two start lines as one pair: a 09:30 template
      line calls in the 10:00 start with the 09:00 one, takes 10:00 as the last
      emitted time and is blanked, and no BREAK line comes before it. */
  lemma SortSplitsPairs(format: string -> string)
    ensures Output([FirstStart, SecondStart, SecondEnd, FirstEnd], [Coffee], format) == [FirstStart, SecondStart, ""]
    ensures SortLines([FirstStart, FirstEnd, SecondStart, SecondEnd]) == [FirstStart, SecondStart, SecondEnd, FirstEnd]
  {
    OverlapSort();
    OverlapMerge(format);
  }

  // ---------------------------------------------------------------------------
  // Only the last emitted pair decides the blanking
  // ---------------------------------------------------------------------------

  const LongStart: string := Checkbox + "09:00" + " **(Work) Workshop**"
  const LongEnd: string := Checkbox + "12:00" + " BREAK"
  const ShortStart: string := Checkbox + "09:30" + " **(Work) Call**"
  const ShortEnd: string := Checkbox + "10:00" + " BREAK"
  const Review: string := Checkbox + "09:45" + " Review"

  lemma NestedTimes()
    ensures TimeOf(LongStart) == Some("09:00") && TimeOf(ShortStart) == Some("09:30")
    ensures TimeOf(ShortEnd) == Some("10:00") && TimeOf(Review) == Some("09:45")
  {
    TimedLine("09:00", " **(Work) Workshop**");
    TimedLine("09:30", " **(Work) Call**");
    TimedLine("10:00", " BREAK");
    TimedLine("09:45", " Review");
  }

  lemma NestedCursor()
    ensures CursorAfter([LongStart, ShortStart, ShortEnd, LongEnd], [Review]) == Cursor(2, Some("09:30"))
  {
    var md := [LongStart, ShortStart, ShortEnd, LongEnd];
    NestedTimes();
    LessAt("09:00", "09:45", 3);
    LessAt("09:45", "10:00", 0);
    assert [Review][..0] == [];
    assert Advance(md, Some("09:45"), Cursor(2, Some("09:30"))) == Cursor(2, Some("09:30"));
  }

  lemma NestedSorted()
    ensures Sorted([LongStart, ShortStart, ShortEnd, LongEnd])
  {
    LessAt("09:00", "09:30", 3);
    LessAt("09:00", "10:00", 0);
    LessAt("09:00", "12:00", 0);
    LessAt("09:30", "10:00", 0);
    LessAt("09:30", "12:00", 0);
    LessAt("10:00", "12:00", 1);
    LineOrder("09:00", " **(Work) Workshop**", "09:30", " **(Work) Call**");
    LineOrder("09:00", " **(Work) Workshop**", "10:00", " BREAK");
    LineOrder("09:00", " **(Work) Workshop**", "12:00", " BREAK");
    LineOrder("09:30", " **(Work) Call**", "10:00", " BREAK");
    LineOrder("09:30", " **(Work) Call**", "12:00", " BREAK");
    LineOrder("10:00", " BREAK", "12:00", " BREAK");
  }

  /** Built as workshop, BREAK, call, BREAK, the lines sort into both starts
      and then both BREAK lines. */
  lemma NestedSort()
    ensures SortLines([LongStart, LongEnd, ShortStart, ShortEnd]) == [LongStart, ShortStart, ShortEnd, LongEnd]
  {
    var built := [LongStart, LongEnd, ShortStart, ShortEnd];
    var sorted := [LongStart, ShortStart, ShortEnd, LongEnd];
    NestedSorted();
    assert multiset(built) == multiset(sorted);
    SortedPermutationUnique(SortLines(built), sorted);
  }

  lemma ReviewPlain(format: string -> string)
    ensures Substitute(Review, format) == Review
  {
    assert forall k :: 0 <= k < |Review| ==> Review[k] != '{';
    PlainLineUnchanged(Review, format);
  }

  /** A 09:00-12:00 workshop and a 09:30-10:00 call, sorted as whole lines
      (`NestedSort`), before a 09:45 template line: the line lies inside the workshop, yet the
      merge calls in both start lines, takes 09:30 as the last emitted time and
      keeps the 09:45 line. */
  lemma WithinEarlierEventKept(format: string -> string)
    ensures Output([LongStart, ShortStart, ShortEnd, LongEnd], [Review], format) == [LongStart, ShortStart, Review]
  {
    var md := [LongStart, ShortStart, ShortEnd, LongEnd];
    NestedCursor();
    NestedTimes();
    LessAt("09:30", "09:45", 3);
    ReviewPlain(format);
    assert [Review][..0] == [];
    assert md[0..2] == [LongStart, ShortStart];
  }
}
