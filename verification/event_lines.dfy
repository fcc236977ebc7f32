/** The event-line builder of the "import events" command (src/main.ts:75-96):
    every calendar's events for the note's date become pairs of checkbox lines,
    and one set of uids shared by all calendars keeps a repeated event from
    being written twice. Fetching and parsing the feeds
    (`request`, `parseIcs`, `filterMatchingEvents`) and formatting the times
    with moment's `HH:mm` happen before this point; their results are inputs. */
module EventLines {
  import opened Wrappers
  import opened Strings
  import opened Timestamp
  import opened Registry

  /** An event as the date filter returns it. `uid` is None when the feed gave
      the event no uid; `start` and `end` are the rendered `HH:mm` texts, and
      `summary` and `location` the texts the template literal interpolates. */
  datatype Event = Event(uid: Option<string>, start: string, end: string, summary: string, location: string)

  /** One registered calendar with the events it contributes for the note's date. */
  datatype Feed = Feed(calendar: Calendar, events: seq<Event>)

  /** An event tagged with the name of the calendar it came from. */
  datatype Entry = Entry(calendarName: string, event: Event)

  /** `- [ ] <start> **(<calendar>) <summary>** <location>`, trimmed. */
  function StartLine(name: string, e: Event): string
  {
    Trim(Checkbox + e.start + " **(" + name + ") " + e.summary + "** " + e.location)
  }

  /** `- [ ] <end> BREAK`, trimmed. */
  function EndLine(e: Event): string
  {
    Trim(Checkbox + e.end + " BREAK")
  }

  /** The start line carries the event's start time for the merger to read. */
  lemma StartLineTime(name: string, e: Event)
    requires IsTime(e.start)
    ensures TimeOf(StartLine(name, e)) == Some(e.start)
  {
    var p := Checkbox + e.start;
    var q := " **(" + name + ") " + e.summary + "** " + e.location;
    assert Checkbox + e.start + " **(" + name + ") " + e.summary + "** " + e.location == p + q;
    assert p[|p| - 1] == e.start[|e.start| - 1];
    var d :| 0 < d < |e.start| - 1 && e.start[d] == ':' && DigitsBetween(e.start, 0, d) && DigitsBetween(e.start, d + 1, |e.start|);
    assert IsDigit(e.start[|e.start| - 1]);
    TrimKeepsPrefix(p, q);
    var rest := q[..|StartLine(name, e)| - |p|];
    assert StartLine(name, e) == Checkbox + e.start + rest;
    TimeAfterCheckbox(e.start, rest);
  }

  /** The end line carries the event's end time. */
  lemma EndLineTime(e: Event)
    requires IsTime(e.end)
    ensures TimeOf(EndLine(e)) == Some(e.end)
  {
    var p := Checkbox + e.end;
    var q := " BREAK";
    assert p[|p| - 1] == e.end[|e.end| - 1];
    var d :| 0 < d < |e.end| - 1 && e.end[d] == ':' && DigitsBetween(e.end, 0, d) && DigitsBetween(e.end, d + 1, |e.end|);
    assert IsDigit(e.end[|e.end| - 1]);
    TrimKeepsPrefix(p, q);
    var rest := q[..|EndLine(e)| - |p|];
    assert EndLine(e) == Checkbox + e.end + rest;
    TimeAfterCheckbox(e.end, rest);
  }

  // ---------------------------------------------------------------------------
  // Entries in the order the loops visit them
  // ---------------------------------------------------------------------------

  /** A feed's events, tagged with its calendar's name. */
  function Tagged(f: Feed): (r: seq<Entry>)
    ensures |r| == |f.events|
    ensures forall i :: 0 <= i < |r| ==> r[i] == Entry(f.calendar.icsName, f.events[i])
  {
    seq(|f.events|, i requires 0 <= i < |f.events| => Entry(f.calendar.icsName, f.events[i]))
  }

  /** All entries, calendar by calendar in the registry's enumeration order. */
  function Entries(feeds: seq<Feed>): seq<Entry>
  {
    if |feeds| == 0 then [] else Entries(feeds[..|feeds| - 1]) + Tagged(feeds[|feeds| - 1])
  }

  /** The uids that occur among the entries. */
  function UidsOf(es: seq<Entry>): (r: set<Option<string>>)
    ensures forall i :: 0 <= i < |es| ==> es[i].event.uid in r
  {
    if |es| == 0 then {}
    else
      var init := es[..|es| - 1];
      assert forall i :: 0 <= i < |init| ==> init[i] == es[i];
      UidsOf(init) + {es[|es| - 1].event.uid}
  }

  /** A uid that no entry carries is not in `UidsOf`. */
  lemma {:induction false} UidsOfOnlyFromEntries(es: seq<Entry>, u: Option<string>)
    requires forall i :: 0 <= i < |es| ==> es[i].event.uid != u
    ensures u !in UidsOf(es)
    decreases |es|
  {
    if |es| > 0 {
      var init := es[..|es| - 1];
      assert forall i :: 0 <= i < |init| ==> init[i] == es[i];
      UidsOfOnlyFromEntries(init, u);
    }
  }

  /** The entries that survive the `eventUuid` check: those whose uid no
      earlier entry had, in visiting order. */
  function Kept(es: seq<Entry>): seq<Entry>
  {
    if |es| == 0 then []
    else
      var init := es[..|es| - 1];
      var e := es[|es| - 1];
      Kept(init) + (if e.event.uid in UidsOf(init) then [] else [e])
  }

  /** The lines pushed for the kept entries: a start line then an end line each. */
  function LinesOf(kept: seq<Entry>): (r: seq<string>)
    ensures |r| == 2 * |kept| && |r| % 2 == 0
  {
    if |kept| == 0 then []
    else
      var e := kept[|kept| - 1];
      LinesOf(kept[..|kept| - 1]) + [StartLine(e.calendarName, e.event), EndLine(e.event)]
  }

  /** Line `2k` is entry `k`'s start line and line `2k + 1` its end line, so the
      pairs sit at even offsets before sorting. */
  lemma {:induction false} LinesOfPairs(kept: seq<Entry>, k: nat)
    requires k < |kept|
    ensures LinesOf(kept)[2 * k] == StartLine(kept[k].calendarName, kept[k].event)
    ensures LinesOf(kept)[2 * k + 1] == EndLine(kept[k].event)
    decreases |kept|
  {
    var init := kept[..|kept| - 1];
    if k < |init| {
      LinesOfPairs(init, k);
      assert init[k] == kept[k];
    }
  }

  /** Entry `i` is the first with its uid. */
  ghost predicate IsFirst(es: seq<Entry>, i: nat)
    requires i < |es|
  {
    forall j :: 0 <= j < i ==> es[j].event.uid != es[i].event.uid
  }

  /** `x` occurs in `es` at a position where its uid occurs for the first time. */
  ghost predicate FirstOccurrence(es: seq<Entry>, x: Entry)
  {
    exists i :: 0 <= i < |es| && es[i] == x && IsFirst(es, i)
  }

  // ---------------------------------------------------------------------------
  // Properties of the de-duplication
  // ---------------------------------------------------------------------------

  /** No uid survives twice. */
  lemma {:induction false} KeptDistinct(es: seq<Entry>)
    ensures forall i, j :: 0 <= i < j < |Kept(es)| ==> Kept(es)[i].event.uid != Kept(es)[j].event.uid
    decreases |es|
  {
    if |es| > 0 {
      var init := es[..|es| - 1];
      var e := es[|es| - 1];
      var k := Kept(init);
      KeptDistinct(init);
      KeptUids(init);
      if e.event.uid in UidsOf(init) {
        assert Kept(es) == k + [];
        assert k + [] == k;
      } else {
        var r := k + [e];
        assert Kept(es) == r;
        forall i, j | 0 <= i < j < |r| ensures r[i].event.uid != r[j].event.uid {
          assert r[i] == k[i];
          if j < |k| {
            assert r[j] == k[j];
          } else {
            assert k[i].event.uid in UidsOf(k);
          }
        }
      }
    }
  }

  /** Every uid that occurs survives. */
  lemma {:induction false} KeptUids(es: seq<Entry>)
    ensures UidsOf(Kept(es)) == UidsOf(es)
    decreases |es|
  {
    if |es| > 0 {
      var init := es[..|es| - 1];
      var e := es[|es| - 1];
      KeptUids(init);
      if e.event.uid in UidsOf(init) {
        assert Kept(es) == Kept(init) + [];
        assert Kept(init) + [] == Kept(init);
      } else {
        var k := Kept(init) + [e];
        assert k[..|k| - 1] == Kept(init);
      }
    }
  }

  /** Entries with pairwise different uids have as many uids as entries. */
  lemma {:induction false} DistinctUidsCount(es: seq<Entry>)
    requires forall i, j :: 0 <= i < j < |es| ==> es[i].event.uid != es[j].event.uid
    ensures |UidsOf(es)| == |es|
    decreases |es|
  {
    if |es| > 0 {
      var init := es[..|es| - 1];
      DistinctUidsCount(init);
      UidsOfOnlyFromEntries(init, es[|es| - 1].event.uid);
    }
  }

  /** Two lines per distinct uid, however many calendars repeat an event. */
  lemma KeptCount(es: seq<Entry>)
    ensures |Kept(es)| == |UidsOf(es)|
  {
    KeptDistinct(es);
    KeptUids(es);
    DistinctUidsCount(Kept(es));
  }

  /** Every surviving entry is the first entry with its uid. */
  lemma {:induction false} KeptAreFirst(es: seq<Entry>)
    ensures forall k :: 0 <= k < |Kept(es)| ==> FirstOccurrence(es, Kept(es)[k])
    decreases |es|
  {
    if |es| > 0 {
      var init := es[..|es| - 1];
      var e := es[|es| - 1];
      KeptAreFirst(init);
      var kept := Kept(es);
      assert kept == Kept(init) + (if e.event.uid in UidsOf(init) then [] else [e]);
      forall k | 0 <= k < |Kept(es)|
        ensures FirstOccurrence(es, Kept(es)[k])
      {
        if k < |Kept(init)| {
          assert kept[k] == Kept(init)[k];
          var i :| 0 <= i < |init| && init[i] == Kept(init)[k] && IsFirst(init, i);
          assert es[i] == init[i];
          assert IsFirst(es, i) by {
            forall j | 0 <= j < i ensures es[j].event.uid != es[i].event.uid {
              assert es[j] == init[j];
            }
          }
        } else {
          assert kept[k] == e;
          assert e.event.uid !in UidsOf(init);
          assert IsFirst(es, |es| - 1);
        }
      }
    } else {
      assert Kept(es) == [];
    }
  }

  /** Every first entry of a uid survives: the first calendar to list an event
      supplies its line. */
  lemma {:induction false} FirstIsKept(es: seq<Entry>, i: nat)
    requires i < |es| && IsFirst(es, i)
    ensures es[i] in Kept(es)
    decreases |es|
  {
    var init := es[..|es| - 1];
    if i < |es| - 1 {
      assert IsFirst(init, i);
      FirstIsKept(init, i);
    } else {
      UidsOfOnlyFromEntries(init, es[i].event.uid);
    }
  }

  // ---------------------------------------------------------------------------
  // The loops of the command callback
  // ---------------------------------------------------------------------------

  /** One iteration of the inner loop: an entry with an unseen uid adds its
      uid and its two lines; any other entry changes nothing. */
  lemma VisitStep(done: seq<Entry>, x: Entry, seen: set<Option<string>>, lines: seq<string>)
    requires seen == UidsOf(done) && lines == LinesOf(Kept(done))
    ensures x.event.uid in seen ==> seen == UidsOf(done + [x]) && lines == LinesOf(Kept(done + [x]))
    ensures x.event.uid !in seen ==> seen + {x.event.uid} == UidsOf(done + [x])
    ensures x.event.uid !in seen ==>
              lines + [StartLine(x.calendarName, x.event), EndLine(x.event)] == LinesOf(Kept(done + [x]))
  {
    assert (done + [x])[..|done|] == done;
    if x.event.uid !in UidsOf(done) {
      var k := Kept(done) + [x];
      assert k[..|k| - 1] == Kept(done);
    } else {
      assert Kept(done) + [] == Kept(done);
    }
  }

  /** The two nested loops of src/main.ts:78-96, the outer one over the
      registered calendars and the inner `forEach` over each calendar's events,
      walk the tagged entries in order: an event whose uid is not yet in
      `eventUuid` records the uid and appends its start line and its end line.
      `mdArray` afterwards holds the pairs of the kept entries, two lines per
      distinct uid. */
  method BuildLines(feeds: seq<Feed>) returns (lines: seq<string>)
    ensures lines == LinesOf(Kept(Entries(feeds)))
    ensures |lines| == 2 * |UidsOf(Entries(feeds))|
    ensures |lines| % 2 == 0
  {
    var es := Entries(feeds);
    lines := [];
    var seen: set<Option<string>> := {};
    var i := 0;
    while i < |es|
      invariant 0 <= i <= |es|
      invariant seen == UidsOf(es[..i])
      invariant lines == LinesOf(Kept(es[..i]))
    {
      var x := es[i];
      VisitStep(es[..i], x, seen, lines);
      if x.event.uid !in seen {
        seen := seen + {x.event.uid};
        lines := lines + [StartLine(x.calendarName, x.event), EndLine(x.event)];
      }
      assert es[..i + 1] == es[..i] + [x];
      i := i + 1;
    }
    assert es[..|es|] == es;
    KeptCount(es);
  }
}
