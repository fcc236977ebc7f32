/** The template merge of the "import events" command (src/main.ts:103-135):
    the sorted calendar lines are walked two at a time and spliced in before
    the first template line whose time is later than the pending start line;
    a template line whose time is not after the last emitted BREAK time is
    blanked; every template line has its date placeholders expanded. */
module TemplateMerge {
  import opened Wrappers
  import opened Strings
  import opened Timestamp
  import opened Placeholder

  /** The walk over the calendar lines: `idx` is `currCalendarIdx` and `last`
      is `lastCalendarTime`. The pending start line is `md[idx]`. */
  datatype Cursor = Cursor(idx: nat, last: Option<string>)

  /** `lineTime > currCalendarTime`. A pending start line without a time
      leaves `currCalendarTime` null, and a string compared with null is
      never greater. */
  predicate Later(t: string, pending: Option<string>)
  {
    pending.Some? && Less(pending.value, t)
  }

  /** `lineTime && lastCalendarTime && lineTime <= lastCalendarTime`. */
  predicate Blanked(t: Option<string>, last: Option<string>)
  {
    t.Some? && last.Some? && LessEq(t.value, last.value)
  }

  /** The inner while loop for a template line with time `t`: while the line
      is later than the pending start, the start and the line after it are
      emitted and the cursor moves on by two. */
  function Advance(md: seq<string>, t: Option<string>, c: Cursor): (r: Cursor)
    requires |md| % 2 == 0 && c.idx % 2 == 0 && c.idx <= |md|
    ensures r.idx % 2 == 0 && c.idx <= r.idx <= |md|
    decreases |md| - c.idx
  {
    if t.Some? && c.idx < |md| && Later(t.value, TimeOf(md[c.idx])) then
      Advance(md, t, Cursor(c.idx + 2, TimeOf(md[c.idx + 1])))
    else
      c
  }

  /** After the loop, `lastCalendarTime` is the time of the last line emitted,
      or unchanged when nothing was emitted. */
  lemma {:induction false} AdvanceLast(md: seq<string>, t: Option<string>, c: Cursor)
    requires |md| % 2 == 0 && c.idx % 2 == 0 && c.idx <= |md|
    ensures var r := Advance(md, t, c);
      && (r.idx == c.idx ==> r.last == c.last)
      && (r.idx > c.idx ==> t.Some? && r.last == TimeOf(md[r.idx - 1]))
    decreases |md| - c.idx
  {
    if t.Some? && c.idx < |md| && Later(t.value, TimeOf(md[c.idx])) {
      AdvanceLast(md, t, Cursor(c.idx + 2, TimeOf(md[c.idx + 1])));
    }
  }

  /** Calendar lines are inserted only for a timed template line, and only
      while that time is strictly later than the pending start's time. */
  lemma {:induction false} AdvancePassesLaterStarts(md: seq<string>, t: Option<string>, c: Cursor, k: nat)
    requires |md| % 2 == 0 && c.idx % 2 == 0 && c.idx <= |md|
    requires c.idx <= k < Advance(md, t, c).idx && k % 2 == 0
    ensures t.Some? && Later(t.value, TimeOf(md[k]))
    decreases |md| - c.idx
  {
    if k > c.idx {
      AdvancePassesLaterStarts(md, t, Cursor(c.idx + 2, TimeOf(md[c.idx + 1])), k);
    }
  }

  /** The loop stops at the end of the calendar lines or at the first start
      line the template time is not later than. */
  lemma {:induction false} AdvanceStops(md: seq<string>, t: Option<string>, c: Cursor)
    requires |md| % 2 == 0 && c.idx % 2 == 0 && c.idx <= |md|
    ensures var r := Advance(md, t, c);
      r.idx < |md| ==> !(t.Some? && Later(t.value, TimeOf(md[r.idx])))
    decreases |md| - c.idx
  {
    if t.Some? && c.idx < |md| && Later(t.value, TimeOf(md[c.idx])) {
      AdvanceStops(md, t, Cursor(c.idx + 2, TimeOf(md[c.idx + 1])));
    }
  }

  /** The cursor once the template lines `template` have been processed. */
  function CursorAfter(md: seq<string>, template: seq<string>): (c: Cursor)
    requires |md| % 2 == 0
    ensures c.idx % 2 == 0 && c.idx <= |md|
    ensures c.last == if c.idx == 0 then None else TimeOf(md[c.idx - 1])
    decreases |template|
  {
    if |template| == 0 then Cursor(0, None)
    else
      var c := CursorAfter(md, template[..|template| - 1]);
      var t := TimeOf(template[|template| - 1]);
      AdvanceLast(md, t, c);
      Advance(md, t, c)
  }

  /** What is pushed for template line `line` once the cursor is at `c`. */
  function Emit(line: string, c: Cursor, format: string -> string): string
  {
    Substitute(if Blanked(TimeOf(line), c.last) then "" else line, format)
  }

  /** The lines the merge produces for `template`: per template line, the
      calendar lines passed over, then the template line itself. */
  function Output(md: seq<string>, template: seq<string>, format: string -> string): (out: seq<string>)
    requires |md| % 2 == 0
    ensures |out| == |template| + CursorAfter(md, template).idx
    decreases |template|
  {
    if |template| == 0 then []
    else
      var init := template[..|template| - 1];
      var c := CursorAfter(md, init);
      var c' := CursorAfter(md, template);
      Output(md, init, format) + md[c.idx..c'.idx] + [Emit(template[|template| - 1], c', format)]
  }

  /** The element of `xs` at every position where `marks` holds `b`, in order. */
  function Select<T>(xs: seq<T>, marks: seq<bool>, b: bool): (r: seq<T>)
    requires |xs| == |marks|
    ensures |r| <= |xs|
  {
    if |xs| == 0 then []
    else (if marks[0] == b then [xs[0]] else []) + Select(xs[1..], marks[1..], b)
  }

  lemma {:induction false} SelectAppend<T>(xs: seq<T>, ms: seq<bool>, ys: seq<T>, ns: seq<bool>, b: bool)
    requires |xs| == |ms| && |ys| == |ns|
    ensures Select(xs + ys, ms + ns, b) == Select(xs, ms, b) + Select(ys, ns, b)
  {
    if |xs| == 0 {
      assert xs + ys == ys && ms + ns == ns;
    } else {
      var head := if ms[0] == b then [xs[0]] else [];
      var rest, tail := Select(xs[1..], ms[1..], b), Select(ys, ns, b);
      SelectAppend(xs[1..], ms[1..], ys, ns, b);
      assert (xs + ys)[1..] == xs[1..] + ys;
      assert (ms + ns)[1..] == ms[1..] + ns;
      assert (xs + ys)[0] == xs[0] && (ms + ns)[0] == ms[0];
      assert Select(xs + ys, ms + ns, b) == head + (rest + tail);
      assert Select(xs, ms, b) == head + rest;
      assert head + (rest + tail) == (head + rest) + tail;
    }
  }

  lemma SelectSnoc<T>(xs: seq<T>, ms: seq<bool>, x: T, m: bool, b: bool)
    requires |xs| == |ms|
    ensures Select(xs + [x], ms + [m], b) == Select(xs, ms, b) + (if m == b then [x] else [])
  {
    SelectAppend(xs, ms, [x], [m], b);
  }

  lemma {:induction false} SelectUniform<T>(xs: seq<T>, ms: seq<bool>, b: bool)
    requires |xs| == |ms|
    requires forall k :: 0 <= k < |ms| ==> ms[k] == b
    ensures Select(xs, ms, b) == xs
    ensures Select(xs, ms, !b) == []
  {
    if |xs| > 0 {
      SelectUniform(xs[1..], ms[1..], b);
    }
  }

  /** A block of calendar lines marked false is invisible to the template
      lines and adds itself to the calendar lines. */
  lemma SelectFalseBlock<T>(out: seq<T>, marks: seq<bool>, block: seq<T>)
    requires |out| == |marks|
    ensures Select(out + block, marks + Repeat(false, |block|), true) == Select(out, marks, true)
    ensures Select(out + block, marks + Repeat(false, |block|), false) == Select(out, marks, false) + block
  {
    var falses := Repeat(false, |block|);
    assert forall k :: 0 <= k < |falses| ==> falses[k] == false;
    SelectUniform(block, falses, false);
    SelectAppend(out, marks, block, falses, true);
    SelectAppend(out, marks, block, falses, false);
  }

  /** `n` copies of `b`. */
  function Repeat(b: bool, n: nat): (r: seq<bool>)
    ensures |r| == n
  {
    seq(n, _ => b)
  }

  /** Which output lines come from the template (true) and which are
      calendar lines (false). */
  function Origin(md: seq<string>, template: seq<string>): (r: seq<bool>)
    requires |md| % 2 == 0
    ensures |r| == |template| + CursorAfter(md, template).idx
    decreases |template|
  {
    if |template| == 0 then []
    else
      var init := template[..|template| - 1];
      var n := CursorAfter(md, template).idx - CursorAfter(md, init).idx;
      Origin(md, init) + Repeat(false, n) + [true]
  }

  /** The line pushed for each template line, with the cursor as the while
      loop left it for that line. */
  function Emitted(md: seq<string>, template: seq<string>, format: string -> string): (r: seq<string>)
    requires |md| % 2 == 0
    ensures |r| == |template|
    decreases |template|
  {
    if |template| == 0 then []
    else
      var init := template[..|template| - 1];
      Emitted(md, init, format) + [Emit(template[|template| - 1], CursorAfter(md, template), format)]
  }

  /** Reading only the lines that come from the template gives one line per
      template line, in template order. */
  lemma {:induction false} TemplateLinesInOrder(md: seq<string>, template: seq<string>, format: string -> string)
    requires |md| % 2 == 0
    ensures Select(Output(md, template, format), Origin(md, template), true) == Emitted(md, template, format)
    decreases |template|
  {
    if |template| > 0 {
      TemplateLinesInOrder(md, template[..|template| - 1], format);
      TemplateStep(md, template, format);
    }
  }

  /** Reading only the calendar lines gives exactly `md[..idx]`, in order:
      the calendar lines from the final cursor on are never emitted. */
  lemma {:induction false} CalendarLinesArePrefix(md: seq<string>, template: seq<string>, format: string -> string)
    requires |md| % 2 == 0
    ensures Select(Output(md, template, format), Origin(md, template), false) == md[..CursorAfter(md, template).idx]
    decreases |template|
  {
    if |template| > 0 {
      CalendarLinesArePrefix(md, template[..|template| - 1], format);
      CalendarStep(md, template, format);
    } else {
      assert md[..0] == [];
    }
  }

  /** The induction step of `TemplateLinesInOrder`. */
  lemma TemplateStep(md: seq<string>, template: seq<string>, format: string -> string)
    requires |md| % 2 == 0 && |template| > 0
    requires var init := template[..|template| - 1];
      Select(Output(md, init, format), Origin(md, init), true) == Emitted(md, init, format)
    ensures Select(Output(md, template, format), Origin(md, template), true) == Emitted(md, template, format)
  {
    var n := |template| - 1;
    var init := template[..n];
    var c, c' := CursorAfter(md, init), CursorAfter(md, template);
    var block := md[c.idx..c'.idx];
    var line := Emit(template[n], c', format);
    var o, m := Output(md, init, format), Origin(md, init);
    OutputStep(md, template, format);
    OriginStep(md, template);
    SelectStepTemplate(o, m, block, line);
    assert Output(md, template, format) == o + block + [line];
    assert Origin(md, template) == m + Repeat(false, |block|) + [true];
    assert Emitted(md, template, format) == Emitted(md, init, format) + [line];
  }

  /** The induction step of `CalendarLinesArePrefix`. */
  lemma CalendarStep(md: seq<string>, template: seq<string>, format: string -> string)
    requires |md| % 2 == 0 && |template| > 0
    requires var init := template[..|template| - 1];
      Select(Output(md, init, format), Origin(md, init), false) == md[..CursorAfter(md, init).idx]
    ensures Select(Output(md, template, format), Origin(md, template), false) == md[..CursorAfter(md, template).idx]
  {
    var n := |template| - 1;
    var init := template[..n];
    var c, c' := CursorAfter(md, init), CursorAfter(md, template);
    var line := Emit(template[n], c', format);
    var o, m := Output(md, init, format), Origin(md, init);
    OutputStep(md, template, format);
    OriginStep(md, template);
    PrefixStep(o, m, md, c.idx, c'.idx, line);
    assert Output(md, template, format) == o + md[c.idx..c'.idx] + [line];
    assert Origin(md, template) == m + Repeat(false, c'.idx - c.idx) + [true];
  }

  /** How one more template line extends the output. */
  lemma OutputStep(md: seq<string>, template: seq<string>, format: string -> string)
    requires |md| % 2 == 0 && |template| > 0
    ensures var n := |template| - 1;
      Output(md, template, format) == Output(md, template[..n], format)
        + md[CursorAfter(md, template[..n]).idx..CursorAfter(md, template).idx]
        + [Emit(template[n], CursorAfter(md, template), format)]
  {
  }

  /** How one more template line extends the marks. */
  lemma OriginStep(md: seq<string>, template: seq<string>)
    requires |md| % 2 == 0 && |template| > 0
    ensures var init := template[..|template| - 1];
      var n := CursorAfter(md, template).idx - CursorAfter(md, init).idx;
      Origin(md, template) == Origin(md, init) + Repeat(false, n) + [true]
  {
  }

  lemma PrefixStep(out: seq<string>, marks: seq<bool>, md: seq<string>, a: nat, b: nat, line: string)
    requires |out| == |marks| && a <= b <= |md|
    requires Select(out, marks, false) == md[..a]
    ensures Select(out + md[a..b] + [line], marks + Repeat(false, b - a) + [true], false) == md[..b]
  {
    SelectStepCalendar(out, marks, md[a..b], line);
    assert md[..a] + md[a..b] == md[..b];
  }

  /** One template line's worth of output, a block of calendar lines marked
      false and then one line marked true, adds that line to the template
      lines ... */
  lemma SelectStepTemplate<T>(out: seq<T>, marks: seq<bool>, block: seq<T>, line: T)
    requires |out| == |marks|
    ensures Select(out + block + [line], marks + Repeat(false, |block|) + [true], true)
      == Select(out, marks, true) + [line]
  {
    SelectFalseBlock(out, marks, block);
    SelectSnoc(out + block, marks + Repeat(false, |block|), line, true, true);
  }

  /** ... and the block to the calendar lines. */
  lemma SelectStepCalendar<T>(out: seq<T>, marks: seq<bool>, block: seq<T>, line: T)
    requires |out| == |marks|
    ensures Select(out + block + [line], marks + Repeat(false, |block|) + [true], false)
      == Select(out, marks, false) + block
  {
    SelectFalseBlock(out, marks, block);
    SelectSnoc(out + block, marks + Repeat(false, |block|), line, true, false);
  }

  /** A template line is blanked exactly when it has a time, a calendar pair
      has been emitted before it, and its time is not after the time of the
      last emitted line; otherwise it is emitted with its placeholders
      expanded. */
  lemma LastLineOutcome(md: seq<string>, template: seq<string>, line: string, format: string -> string)
    requires |md| % 2 == 0
    ensures var out := Output(md, template + [line], format);
      var c := CursorAfter(md, template + [line]);
      var t := TimeOf(line);
      out[|out| - 1] ==
        if t.Some? && c.idx > 0 && TimeOf(md[c.idx - 1]).Some? && LessEq(t.value, TimeOf(md[c.idx - 1]).value)
        then "" else Substitute(line, format)
  {
    assert (template + [line])[..|template|] == template;
    assert Substitute("", format) == [];
  }

  /** A template line without a time inserts no calendar lines and is never
      blanked. */
  lemma UntimedLinePassesThrough(md: seq<string>, template: seq<string>, line: string, format: string -> string)
    requires |md| % 2 == 0 && TimeOf(line).None?
    ensures CursorAfter(md, template + [line]) == CursorAfter(md, template)
    ensures Output(md, template + [line], format) == Output(md, template, format) + [Substitute(line, format)]
  {
    assert (template + [line])[..|template|] == template;
  }

  /** Calendar lines go in before a template line exactly when the line has a
      time strictly later than the time of the pending start line. */
  lemma InsertionIff(md: seq<string>, template: seq<string>, line: string)
    requires |md| % 2 == 0
    ensures var c, c' := CursorAfter(md, template), CursorAfter(md, template + [line]);
      c'.idx > c.idx <==> TimeOf(line).Some? && c.idx < |md| && Later(TimeOf(line).value, TimeOf(md[c.idx]))
  {
    assert (template + [line])[..|template|] == template;
  }

  /** A template line at the same time as the pending start line inserts
      nothing: the comparison is strict. */
  lemma TieInsertsNothing(md: seq<string>, template: seq<string>, line: string)
    requires |md| % 2 == 0
    requires CursorAfter(md, template).idx < |md|
    requires TimeOf(line).Some? && TimeOf(line) == TimeOf(md[CursorAfter(md, template).idx])
    ensures CursorAfter(md, template + [line]) == CursorAfter(md, template)
  {
    assert (template + [line])[..|template|] == template;
    LessIrreflexive(TimeOf(line).value);
  }

  /** A template line that calls in calendar lines, and whose time is at or
      before the time of the last line called in, is replaced by an empty line
      instead of repeating the event. */
  lemma SuppressedWithinEvent(md: seq<string>, template: seq<string>, line: string, format: string -> string)
    requires |md| % 2 == 0
    requires CursorAfter(md, template + [line]).idx > CursorAfter(md, template).idx
    requires var e := TimeOf(md[CursorAfter(md, template + [line]).idx - 1]);
      e.Some? && TimeOf(line).Some? && LessEq(TimeOf(line).value, e.value)
    ensures var out := Output(md, template + [line], format); out[|out| - 1] == ""
  {
    LastLineOutcome(md, template, line, format);
  }

  /** A template without any timed line takes no calendar line at all: every
      line comes out with its placeholders expanded and nothing else. */
  lemma {:induction false} UntimedTemplate(md: seq<string>, template: seq<string>, format: string -> string)
    requires |md| % 2 == 0
    requires forall j :: 0 <= j < |template| ==> TimeOf(template[j]).None?
    ensures CursorAfter(md, template).idx == 0
    ensures Output(md, template, format) == seq(|template|, j requires 0 <= j < |template| => Substitute(template[j], format))
    decreases |template|
  {
    if |template| > 0 {
      var n := |template| - 1;
      UntimedTemplate(md, template[..n], format);
      UntimedLinePassesThrough(md, template[..n], template[n], format);
      assert template[..n] + [template[n]] == template;
    }
  }

  /** The `while` loop of the callback for one template line with time
      `lineTime`: `pending` is `currCalendarTime`, null past the end. */
  method CatchUp(md: seq<string>, lineTime: Option<string>, idx0: nat, last0: Option<string>,
                 pending0: Option<string>, result0: seq<string>)
      returns (idx: nat, last: Option<string>, pending: Option<string>, result: seq<string>)
    requires |md| % 2 == 0 && idx0 % 2 == 0 && idx0 <= |md|
    requires pending0 == if idx0 < |md| then TimeOf(md[idx0]) else None
    ensures Cursor(idx, last) == Advance(md, lineTime, Cursor(idx0, last0))
    ensures result == result0 + md[idx0..idx]
    ensures pending == if idx < |md| then TimeOf(md[idx]) else None
  {
    idx, last, pending, result := idx0, last0, pending0, result0;
    while lineTime.Some? && idx < |md| && Later(lineTime.value, pending)
      invariant idx0 <= idx <= |md| && idx % 2 == 0
      invariant Advance(md, lineTime, Cursor(idx, last)) == Advance(md, lineTime, Cursor(idx0, last0))
      invariant result == result0 + md[idx0..idx]
      invariant pending == if idx < |md| then TimeOf(md[idx]) else None
      decreases |md| - idx
    {
      assert Advance(md, lineTime, Cursor(idx, last)) == Advance(md, lineTime, Cursor(idx + 2, TimeOf(md[idx + 1])));
      SliceByPair(md, idx0, idx);
      // Push in the start line, then the line after it.
      result := result + [md[idx]];
      var endLine := md[idx + 1];
      result := result + [endLine];
      last := TimeOf(endLine);
      idx := idx + 2;
      pending := if idx < |md| then TimeOf(md[idx]) else None;
    }
  }

  /** A slice grows by one calendar pair. */
  lemma SliceByPair(md: seq<string>, i: nat, j: nat)
    requires i <= j && j + 2 <= |md|
    ensures md[i..j + 2] == md[i..j] + [md[j], md[j + 1]]
  {
  }

  /** The callback's merge, written as the source's loops over `result`,
      `currCalendarIdx`, `currCalendarTime` and `lastCalendarTime`. */
  method MergeTemplate(md: seq<string>, template: seq<string>, format: string -> string)
      returns (result: seq<string>)
    requires |md| % 2 == 0
    ensures result == Output(md, template, format)
    ensures |result| == |template| + CursorAfter(md, template).idx
  {
    result := [];
    var last: Option<string> := None;
    var idx: nat := 0;
    var pending := if idx < |md| then TimeOf(md[idx]) else None;
    for j := 0 to |template|
      invariant idx % 2 == 0 && idx <= |md|
      invariant CursorAfter(md, template[..j]) == Cursor(idx, last)
      invariant result == Output(md, template[..j], format)
      invariant pending == if idx < |md| then TimeOf(md[idx]) else None
    {
      assert template[..j + 1][..j] == template[..j];
      var lineTime := TimeOf(template[j]);
      idx, last, pending, result := CatchUp(md, lineTime, idx, last, pending, result);
      var templateLine := template[j];
      if lineTime.Some? && last.Some? && LessEq(lineTime.value, last.value) {
        templateLine := "";
      }
      result := result + [Substitute(templateLine, format)];
    }
    assert template[..|template|] == template;
  }
}
