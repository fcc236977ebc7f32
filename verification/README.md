# obsidian-ics: the "import events" command and the calendar registry

This project models, in Dafny, the core of the Obsidian ICS plugin
(`src/main.ts`). It covers two parts:

- **The calendar registry.** `addCalendar` and `removeCalendar` edit
  `data.calendars`, an object keyed by each calendar's `icsName`.
- **The "import events" command callback.** It works in four steps:
  - It builds two checkbox lines per calendar event of the day: a start line
    `- [ ] HH:mm **(calendar) summary** location` and an end line
    `- [ ] HH:mm BREAK`. One uid set shared by all calendars drops repeated
    events.
  - It sorts those lines as whole strings.
  - It walks the day-planner template line by line. The calendar lines go in,
    two at a time, before the first template line whose time (read by
    `getDateFromNote`) is later than the pending start line's time.
  - A template line whose time is not after the last inserted line's time is
    blanked. Every template line has its `{{date:…}}` placeholders expanded.

Modules follow the steps of the callback:

| file | module | what |
|---|---|---|
| `wrappers.dfy` | `Wrappers` | `Option`, for `null` / `undefined` |
| `strings.dfy` | `Strings` | `\s`, `\d`, the line terminators, string `<` / `<=`, `trim` |
| `timestamp.dfy` | `Timestamp` | `getDateFromNote` as `TimeOf`, with its regular expression characterised |
| `registry.dfy` | `Registry` | `addCalendar`, `removeCalendar` on a `map<string, Calendar>` |
| `event_lines.dfy` | `EventLines` | the de-duplicating line builder |
| `sorting.dfy` | `Sorting` | `mdArray.sort()` |
| `placeholder.dfy` | `Placeholder` | `replaceAll(/{{date:(.*)}}/g, …)` |
| `merge.dfy` | `TemplateMerge` | the template merge, both as a recursive definition and as the source's loops |
| `import_events.dfy` | `ImportEvents` | the whole callback once its inputs are fetched |
| `scenarios.dfy` | `Scenarios` | concrete runs of the merge |

Points of JavaScript semantics the model makes explicit:

- **String comparison.** `a < b` on strings is lexicographic by character.
  `a <= b` is "not `b < a`". A time compared with `null` (`"09:30" > null`) is
  false, because the time converts to NaN. So `Later(t, None)` is false.
- **The regular expression** `^-\s*\[\s*\s*]\s*(\d+:\d+)\s*` is read
  deterministically. `TimeOfIff` shows that the greedy reading returns exactly
  the capture the pattern defines.
- **Uids.** An event without a uid has uid `undefined`. All such events share
  one key of the `Set`, so the uid is an `Option<string>`.
- **`lastCalendarTime`** starts `undefined`. It is overwritten with `null` when
  the inserted second line carries no time. Both are falsy, so both are `None`.
- **Placeholders.** `(.*)` in the placeholder pattern is greedy and stops at a
  line terminator. The capture therefore runs to the LAST `}}` of the line, and
  two placeholders on one line form a single match (`GreedyExample`). After a
  match, the search resumes behind it.
- **Sorting whole lines** does not keep an event's start line next to its
  BREAK line. When two events overlap, the merge takes two start lines as one
  "pair" (`SortSplitsPairs`). The model keeps this behaviour of the code.

For a template `09:00 Standup`, `12:00 Lunch` and a 09:30–10:00 meeting, the
code yields `[standup, meeting, BREAK, lunch]`:

- 09:00 is not later than 09:30, so nothing is inserted before the standup
  line, and no BREAK has been emitted yet, so the line is kept.
- 12:00 calls in the pair.

`Scenarios.MeetingDay` proves that result.

## Model

| member | source | states |
|---|---|---|
| `Timestamp.CheckboxEnd` | src/main.ts:63 | when found, the returned index ends a prefix of the shape dash, optional white space, `[`, optional white space, `]`, optional white space, and no white space follows it |
| `Timestamp.TimeAt` | src/main.ts:63 | a found token is the slice of the line at the given index, has the shape digits `:` digits, and is not followed by another digit |
| `Timestamp.TimeOfSplit` | src/main.ts:63-68 | reading the line left to right finds the checkbox prefix where `CheckboxEnd` does, then reads the time token after it, and yields none when there is no prefix |
| `Timestamp.TimeOfSound` | src/main.ts:63-66 | whatever getDateFromNote returns is a capture of the regular expression at some position |
| `Timestamp.CheckboxEndComplete` | src/main.ts:63 | every checkbox prefix followed by a non-space is found, at its exact end |
| `Timestamp.TimeAtComplete` | src/main.ts:63 | every maximal `\d+:\d+` token is read whole |
| `Timestamp.TimeOfComplete` | src/main.ts:63-66 | whenever the regular expression matches with capture `t`, getDateFromNote returns `t` |
| `Timestamp.TimeOfIff` | src/main.ts:56-69 | getDateFromNote returns `t` if and only if the line is `-`, optional white space, `[`, optional white space, `]`, optional white space, then the maximal token `t = digits ':' digits`; every other line yields none |
| `Timestamp.TimeAfterCheckbox` | src/main.ts:63 | a time written right after `- [ ] ` and not followed by a digit is read back exactly |
| `Timestamp.TimeOfTimedExample` | src/main.ts:63 | `- [ ] 09:00 Standup` yields `09:00` |
| `Timestamp.TimeOfUnpaddedExample` | src/main.ts:63 | `- [ ] 7:5` yields `7:5`: no zero padding is required |
| `Timestamp.TimeOfCheckedExample` | src/main.ts:63 | a checked box `- [x]` yields no time |
| `Timestamp.TimeOfIndentedExample` | src/main.ts:63 | an indented checkbox yields no time, because the pattern is anchored |
| `Timestamp.TimeOfNoMinutesExample` | src/main.ts:63 | `09:` without minute digits yields no time |
| `Strings.SkipSpaces` | src/main.ts:63 | a greedy `\s*`: the skipped characters are all white space and the next one is not |
| `Strings.Trim` | src/main.ts:92-93 | `trim` returns a string no longer than its input, empty or with non-space characters at both ends |
| `Strings.TrimIsSlice` | src/main.ts:92-93 | `trim` removes only white space, and only at the two ends |
| `Strings.TrimKeepsPrefix` | src/main.ts:92-93 | trimming a line that starts with non-space text keeps that text and cuts only trailing characters |
| `Strings.LessIsFirstDifference` | src/main.ts:112 | string `<` holds exactly when the first is a proper prefix of the second or is smaller at the first differing position |
| `Strings.LessIrreflexive` | src/main.ts:112 | no string is `<` itself, so equal times never compare as later |
| `Strings.LessAsymmetric` | src/main.ts:98 | `a < b` and `b < a` never hold together |
| `Strings.LessTransitive` | src/main.ts:98 | string `<` is transitive |
| `Strings.LessTotal` | src/main.ts:98 | of two different strings, one is `<` the other |
| `Strings.LessEqAntisymmetric` | src/main.ts:98 | two strings each `<=` the other are equal |
| `Strings.LessEqTransitive` | src/main.ts:98 | string `<=` is transitive |
| `Strings.LessCommonPrefix` | src/main.ts:98 | lines with a common prefix compare as their remainders do |
| `Strings.LessExtend` | src/main.ts:98 | of two equally long strings, the smaller one stays smaller whatever text follows each |
| `Registry.AddCalendar` | src/main.ts:29-33 | the calendar is stored under its name, replacing any same-named entry; the key set grows by that name only; other entries are unchanged |
| `Registry.RemoveCalendar` | src/main.ts:37-40 | the name is no longer a key; every remaining entry is unchanged; an absent name leaves the registry as it was |
| `Registry.RemoveUndoesAdd` | src/main.ts:29-40 | adding a calendar under a fresh name and then removing it restores the registry |
| `Registry.RemoveIdempotent` | src/main.ts:37-40 | removing twice is removing once |
| `Registry.AddOverwrites` | src/main.ts:30-33 | of two same-named calendars added in turn, the later one wins |
| `Registry.RemoveAfterAdd` | src/main.ts:29-40 | removal after adding a same-named calendar removes the name, whatever was stored before |
| `EventLines.StartLineTime` | src/main.ts:92 | the trimmed start line yields the event's start time to getDateFromNote |
| `EventLines.EndLineTime` | src/main.ts:93 | the trimmed BREAK line yields the event's end time |
| `EventLines.LinesOfPairs` | src/main.ts:92-93 | before sorting, line `2k` is the k-th kept event's start line and line `2k + 1` its BREAK line |
| `EventLines.KeptDistinct` | src/main.ts:90-91 | no uid is kept twice, across all calendars |
| `EventLines.KeptUids` | src/main.ts:90-91 | every uid that occurs is kept once |
| `EventLines.KeptCount` | src/main.ts:88-95 | the number of kept events equals the number of distinct uids |
| `EventLines.KeptAreFirst` | src/main.ts:88-95 | every kept event is the first event with its uid, in calendar-then-event order |
| `EventLines.FirstIsKept` | src/main.ts:78-95 | the first event with each uid is kept, so the first calendar to list an event supplies its lines |
| `EventLines.VisitStep` | src/main.ts:90-94 | one inner-loop step: an unseen uid adds itself to the set and appends the start line, then the BREAK line; a seen uid changes nothing |
| `EventLines.BuildLines` | src/main.ts:75-96 | the loops produce the start and BREAK lines of the kept events in visiting order; the line count is twice the number of distinct uids, hence even |
| `Sorting.Insert` | src/main.ts:98 | inserting into a sorted list gives a sorted list holding the same lines plus the new one |
| `Sorting.SortLines` | src/main.ts:98 | the sorted array is a permutation of the built lines, in non-decreasing string order |
| `Sorting.SortedPermutationUnique` | src/main.ts:98 | two sorted permutations of the same lines are equal, so the sort's algorithm and stability cannot change the result |
| `Placeholder.LineEnd` | src/main.ts:132 | the text `.` can match ends at the first line terminator or at the end of the line |
| `Placeholder.LastClose` | src/main.ts:132 | the capture stops at the last `}}` lying inside the searched range, and no `}}` lies after it in that range |
| `Placeholder.CopiesPlainText` | src/main.ts:132-134 | text without `{` is copied into the result unchanged |
| `Placeholder.NoPlaceholderUnchanged` | src/main.ts:132-134 | text in which `{{date:` never starts is emitted unchanged |
| `Placeholder.PlainLineUnchanged` | src/main.ts:132-134 | a line without `{` is emitted unchanged |
| `Placeholder.SinglePlaceholder` | src/main.ts:132-134 | plain text followed by one placeholder on a single line becomes that text followed by the date formatted with the placeholder's pattern |
| `Placeholder.GreedyExample` | src/main.ts:132 | `Week {{date:ww}} of {{date:YYYY}}` is one match: the format passed on is `ww}} of {{date:YYYY` |
| `TemplateMerge.Advance` | src/main.ts:112-125 | the while loop leaves the cursor even, no further back than it was, and within the calendar lines |
| `TemplateMerge.AdvanceLast` | src/main.ts:117-119 | after the loop, the last emitted time is that of the line just before the cursor, or unchanged when nothing was emitted; insertion needs a timed template line |
| `TemplateMerge.AdvancePassesLaterStarts` | src/main.ts:112 | every start line the loop passed over has a time the template line is strictly later than |
| `TemplateMerge.AdvanceStops` | src/main.ts:112 | the loop stops at the end of the calendar lines or at a start line the template line is not later than |
| `TemplateMerge.CursorAfter` | src/main.ts:105-125 | `currCalendarIdx` is always even and at most the number of calendar lines, and `lastCalendarTime` is the time of the line before it, or none at index 0 |
| `TemplateMerge.Output` | src/main.ts:109-135 | the result has one line per template line plus one per calendar line passed over |
| `TemplateMerge.TemplateLinesInOrder` | src/main.ts:109-134 | the lines marked as coming from the template are, in order, one per template line, each emitted with the cursor state of its own step |
| `TemplateMerge.CalendarLinesArePrefix` | src/main.ts:106-125 | the calendar lines in the result are exactly the first `currCalendarIdx` sorted lines, in order; later lines are never emitted |
| `TemplateMerge.LastLineOutcome` | src/main.ts:127-134 | a template line is blanked if and only if it has a time, a pair was emitted before it, and its time is `<=` the last emitted line's time; otherwise it is emitted with its placeholders expanded |
| `TemplateMerge.UntimedLinePassesThrough` | src/main.ts:110-134 | a line without a time inserts nothing, is never blanked and is emitted with its placeholders expanded |
| `TemplateMerge.InsertionIff` | src/main.ts:112 | calendar lines go in before a template line if and only if it has a time strictly later than the pending start line's time |
| `TemplateMerge.TieInsertsNothing` | src/main.ts:112 | a template time equal to the pending start's time inserts nothing |
| `TemplateMerge.SuppressedWithinEvent` | src/main.ts:112-130 | a template line that calls in calendar lines, and whose time is at or before the time of the last line called in, comes out as an empty line (that the called-in pairs start before it is `AdvancePassesLaterStarts`) |
| `TemplateMerge.UntimedTemplate` | src/main.ts:109-134 | a template without timed lines takes no calendar line: the result is the template with placeholders expanded |
| `TemplateMerge.CatchUp` | src/main.ts:112-125 | the source's while loop appends exactly the calendar lines between the old and the new index and leaves the state that `Advance` defines |
| `TemplateMerge.MergeTemplate` | src/main.ts:103-135 | the source's `forEach` over the template lines produces exactly `Output`, one line per template line plus the calendar lines passed over |
| `ImportEvents.CalendarLines` | src/main.ts:75-98 | the array the merge walks is sorted, is a permutation of the built lines and has twice as many lines as there are distinct uids |
| `ImportEvents.ImportEvents` | src/main.ts:75-135 | the callback's result is the merge of the sorted calendar lines into the template; it has at least one line per template line and at most two more per distinct uid |
| `ImportEvents.CalendarLinesAreBuilt` | src/main.ts:88-125 | every calendar line in the result is a built event line, and none appears more often than it was built |
| `Scenarios.MeetingDay` | src/main.ts:109-134 | template standup 09:00 and lunch 12:00 with a 09:30–10:00 meeting gives standup, meeting, BREAK, lunch |
| `Scenarios.UnpaddedTimesCompareAsText` | src/main.ts:112 | `9:00` counts as later than `10:00`, because times compare as text |
| `Scenarios.OverlapSort` | src/main.ts:98 | two overlapping events sort to both start lines followed by both BREAK lines |
| `Scenarios.SortSplitsPairs` | src/main.ts:98-130 | with overlapping events a 09:30 template line calls in the two start lines as one pair and is blanked; no BREAK line precedes it |
| `Scenarios.NestedSort` | src/main.ts:98 | a 09:00–12:00 event and a 09:30–10:00 event sort to both start lines followed by both BREAK lines |
| `Scenarios.WithinEarlierEventKept` | src/main.ts:98-130 | a 09:45 template line inside a 09:00–12:00 event, with a 09:30–10:00 event sorted between, is kept: the merge calls in both start lines and compares only with 09:30 |

## Left out

- **Obsidian host plumbing** is UI and I/O, so it is not modelled. This
  covers `onload`, command and hotkey registration, `onunload`,
  `loadSettings`/`saveSettings`, the settings tab, `getActiveViewOfType`, and
  the final `result.join('\n')` and `editor.replaceRange` at the cursor.
- **Saving after `addCalendar`/`removeCalendar`** (`saveSettings`) is I/O and
  is not modelled.
- **`src/settings/ICSSettings.ts`** is not part of this model. `Calendar`
  carries only the two fields the code reads, `icsName` and `icsUrl`.
- **Feeds are an input.** `request`, `parseIcs` and `filterMatchingEvents` are
  network and parsing; `./icalUtils` is not part of this model. Each calendar's
  filtered events are an input sequence of `Event` records.
- **Calendar order is the input order.** `for … in` visits calendars in the
  object's key order, and the model takes that order as the order of the input
  `Feed` sequence.
- **moment** is a foreign library and reads the clock. This leaves out:
  - the date parsed from the file name;
  - the `HH:mm` formatting of event times, which are input strings;
  - `moment().format(p)`, which is the uninterpreted parameter `format`.
- **Event text fields.** `summary` and `location` are taken as the text the
  template literal interpolates. The text `undefined` that JavaScript writes
  for a missing field is not modelled separately.
- **Reading the template.** Reading `zz-Templates/Day Planner.md` and
  `split('\n')` are file I/O; the template lines are an input.
- **`console.log` and `debugger`** have no effect on the result.
- **Odd-length calendar arrays.** The merge requires an even number of
  calendar lines. With an odd number, the source would read past the end and
  call `match` on `undefined`. `BuildLines` proves the count is always even.
- **Past-end pending time.** Past the last calendar line the source sets
  `currCalendarTime` to `''`. It is never compared, because the loop first
  checks the index, so the model uses `None`.
- `Sorting.SortLines`: strings are sequences of Unicode scalar values, while
  JavaScript compares UTF-16 code units. The two orders agree on text within
  the Basic Multilingual Plane. They can differ when characters above U+FFFF
  meet characters from U+E000 to U+FFFF.
- `Registry.RemoveCalendar`: the source checks `calendars[name]` for
  truthiness. A stored calendar object is always truthy, so this is the same as
  key membership. For names of inherited properties such as `constructor`, the
  check passes, but `delete` then has no own entry to remove, so the registry
  is unchanged either way.
- **Time order of the merged lines is not stated.** The model does not prove
  that the timed lines of the result come in non-decreasing time order. That
  would need several premises: template times strictly increasing, the sorted
  lines forming intact pairs in increasing order, and placeholders not
  rewriting the times. Placeholder expansion runs after the time is read, so
  it can change the time text of an emitted line. The parts the model does
  prove are `AdvancePassesLaterStarts` (every start line called in is earlier
  than the template line) and `AdvanceStops` (the next start line is not).
- **Blanking inside earlier events is not stated.** The source compares a
  template line only with the time of the LAST calendar line it called in
  (`LastLineOutcome`, `SuppressedWithinEvent`), not with every event it
  covers. With overlapping events this keeps a line that lies inside an
  event. Example: events 09:00–12:00 and 09:30–10:00 and template line 09:45.
  The line calls in both start lines, compares with 09:30 and is kept
  (`Scenarios.WithinEarlierEventKept`). When the pairs stay intact, disjoint
  and increasing, only the last pair called in can contain the line, so the
  check on the last line suffices there. The model does not prove that
  implication either.
