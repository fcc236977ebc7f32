/** The "import events" command as a whole (src/main.ts:55-135): the event
    lines of every feed are built with one shared uid set, sorted as whole
    lines, and merged into the day-planner template. */
module ImportEvents {
  import opened EventLines
  import opened Sorting
  import opened TemplateMerge

  /** The calendar lines the merge walks: built, then sorted. */
  function CalendarLines(feeds: seq<Feed>): (md: seq<string>)
    ensures |md| == 2 * |UidsOf(Entries(feeds))| && |md| % 2 == 0
    ensures Sorted(md)
    ensures multiset(md) == multiset(LinesOf(Kept(Entries(feeds))))
  {
    KeptCount(Entries(feeds));
    SortLines(LinesOf(Kept(Entries(feeds))))
  }

  /** The callback once the feeds are fetched and the template is read:
      the lines it inserts at the cursor. */
  method ImportEvents(feeds: seq<Feed>, template: seq<string>, format: string -> string)
      returns (result: seq<string>)
    ensures result == Output(CalendarLines(feeds), template, format)
    ensures |template| <= |result| <= |template| + 2 * |UidsOf(Entries(feeds))|
  {
    var lines := BuildLines(feeds);
    var md := SortLines(lines);
    assert md == CalendarLines(feeds);
    result := MergeTemplate(md, template, format);
  }

  /** Every calendar line in the output is one of the built event lines, and
      none is emitted more often than it was built. */
  lemma CalendarLinesAreBuilt(feeds: seq<Feed>, template: seq<string>, format: string -> string)
    ensures var md := CalendarLines(feeds);
      var inserted := Select(Output(md, template, format), Origin(md, template), false);
      multiset(inserted) <= multiset(LinesOf(Kept(Entries(feeds))))
  {
    var md := CalendarLines(feeds);
    CalendarLinesArePrefix(md, template, format);
    PrefixSubmultiset(md, CursorAfter(md, template).idx);
  }

  lemma PrefixSubmultiset(s: seq<string>, n: nat)
    requires n <= |s|
    ensures multiset(s[..n]) <= multiset(s)
  {
    assert s == s[..n] + s[n..];
  }
}
