/** `getDateFromNote` (src/main.ts:56-69): the `HH:mm`-shaped token that
    follows an unchecked Markdown checkbox at the very start of a line, as
    matched by the regular expression `^-\s*\[\s*\s*]\s*(\d+:\d+)\s*`. */
module Timestamp {
  import opened Wrappers
  import opened Strings

  /** Index of the first non-digit at or after `i` (a greedy `\d*`). */
  function SkipDigits(s: string, i: nat): (j: nat)
    requires i <= |s|
    ensures i <= j <= |s|
    ensures DigitsBetween(s, i, j)
    ensures j == |s| || !IsDigit(s[j])
    decreases |s| - i
  {
    if i < |s| && IsDigit(s[i]) then SkipDigits(s, i + 1) else i
  }

  /** `\d+:\d+`: one colon with at least one digit on either side and nothing else. */
  ghost predicate IsTime(t: string)
  {
    exists d :: 0 < d < |t| - 1 && t[d] == ':' && DigitsBetween(t, 0, d) && DigitsBetween(t, d + 1, |t|)
  }

  /** `line[..i]` is `-\s*\[\s*]\s*`: a dash, a pair of brackets with only white
      space between them, and white space around them. */
  ghost predicate CheckboxBefore(line: string, i: nat)
  {
    exists a, b :: 0 < a < b < i <= |line| && line[0] == '-' && line[a] == '[' && line[b] == ']'
      && SpacesBetween(line, 1, a) && SpacesBetween(line, a + 1, b) && SpacesBetween(line, b + 1, i)
  }

  /** The regular expression matches `line` with the capture group `t` starting
      at index `i`: the greedy `\d+` cannot extend `t` any further. */
  ghost predicate TimestampAt(line: string, i: nat, t: string)
  {
    && i + |t| <= |line|
    && CheckboxBefore(line, i)
    && line[i..i + |t|] == t
    && IsTime(t)
    && (i + |t| == |line| || !IsDigit(line[i + |t|]))
  }

  /** Where `-\s*\[\s*\s*]\s*` ends when it matches at the start of the line. */
  function CheckboxEnd(line: string): (r: Option<nat>)
    ensures r.Some? ==> CheckboxBefore(line, r.value)
    ensures r.Some? ==> r.value == |line| || !IsSpace(line[r.value])
  {
    if |line| == 0 || line[0] != '-' then None
    else
      var a := SkipSpaces(line, 1);
      if a == |line| || line[a] != '[' then None
      else
        var b := SkipSpaces(line, a + 1);
        if b == |line| || line[b] != ']' then None
        else Some(SkipSpaces(line, b + 1))
  }

  /** The `\d+:\d+` token starting at index `c`, as the greedy pattern reads it. */
  function TimeAt(line: string, c: nat): (r: Option<string>)
    requires c <= |line|
    ensures r.Some? ==> c + |r.value| <= |line| && line[c..c + |r.value|] == r.value
    ensures r.Some? ==> c + |r.value| == |line| || !IsDigit(line[c + |r.value|])
    ensures r.Some? ==> IsTime(r.value) && |r.value| >= 3
  {
    var d := SkipDigits(line, c);
    if d == c || d == |line| || line[d] != ':' then None
    else
      var e := SkipDigits(line, d + 1);
      if e == d + 1 then None
      else
        var t := line[c..e];
        assert t[d - c] == ':';
        assert DigitsBetween(t, 0, d - c) && DigitsBetween(t, d - c + 1, |t|);
        Some(t)
  }

  /** How far the scan of the line has come: before the dash, between the
      dash and `[`, between the brackets, after `]`, or at the time token. */
  datatype Phase = Dash | BeforeOpen | Inside | AfterClose | Token

  /** The regular expression read left to right from index `i` in `phase`;
      once the checkbox is behind it, the time token is read by `TimeAt`. */
  function Scan(line: string, i: nat, phase: Phase): Option<string>
    requires i <= |line|
    decreases |line| - i, phase != Token
  {
    match phase
    case Dash =>
      if i < |line| && line[i] == '-' then Scan(line, i + 1, BeforeOpen) else None
    case BeforeOpen =>
      if i == |line| then None
      else if IsSpace(line[i]) then Scan(line, i + 1, BeforeOpen)
      else if line[i] == '[' then Scan(line, i + 1, Inside)
      else None
    case Inside =>
      if i == |line| then None
      else if IsSpace(line[i]) then Scan(line, i + 1, Inside)
      else if line[i] == ']' then Scan(line, i + 1, AfterClose)
      else None
    case AfterClose =>
      if i < |line| && IsSpace(line[i]) then Scan(line, i + 1, AfterClose) else Scan(line, i, Token)
    case Token =>
      TimeAt(line, i)
  }

  /** getDateFromNote: the captured time, or None (`null`) when the line does
      not match. The match is anchored at the start of the line. */
  function TimeOf(line: string): Option<string>
  {
    Scan(line, 0, Dash)
  }

  lemma {:induction false} ScanAfterClose(line: string, i: nat)
    requires i <= |line|
    ensures Scan(line, i, AfterClose) == TimeAt(line, SkipSpaces(line, i))
    decreases |line| - i
  {
    if i < |line| && IsSpace(line[i]) {
      ScanAfterClose(line, i + 1);
    }
  }

  lemma {:induction false} ScanInside(line: string, i: nat)
    requires i <= |line|
    ensures Scan(line, i, Inside) ==
      var b := SkipSpaces(line, i);
      if b == |line| || line[b] != ']' then None else Scan(line, b + 1, AfterClose)
    decreases |line| - i
  {
    if i < |line| && IsSpace(line[i]) {
      ScanInside(line, i + 1);
    }
  }

  lemma {:induction false} ScanBeforeOpen(line: string, i: nat)
    requires i <= |line|
    ensures Scan(line, i, BeforeOpen) ==
      var a := SkipSpaces(line, i);
      if a == |line| || line[a] != '[' then None else Scan(line, a + 1, Inside)
    decreases |line| - i
  {
    if i < |line| && IsSpace(line[i]) {
      ScanBeforeOpen(line, i + 1);
    }
  }

  /** The scan finds the checkbox prefix where `CheckboxEnd` does and then
      reads the time token after it. */
  lemma TimeOfSplit(line: string)
    ensures CheckboxEnd(line).None? ==> TimeOf(line).None?
    ensures CheckboxEnd(line).Some? ==> TimeOf(line) == TimeAt(line, CheckboxEnd(line).value)
  {
    CheckboxEndSteps(line);
    if |line| > 0 && line[0] == '-' {
      var a := SkipSpaces(line, 1);
      if a < |line| && line[a] == '[' {
        var b := SkipSpaces(line, a + 1);
        if b < |line| && line[b] == ']' {
          ScanCheckbox(line, a, b);
          ScanAfterClose(line, b + 1);
        } else {
          ScanBrackets(line, a);
        }
      } else {
        ScanBeforeOpen(line, 1);
      }
    }
  }

  /** Past an opening bracket the scan goes on exactly when a closing one follows. */
  lemma ScanBrackets(line: string, a: nat)
    requires 0 < a < |line| && line[0] == '-' && a == SkipSpaces(line, 1) && line[a] == '['
    ensures TimeOf(line) ==
      var b := SkipSpaces(line, a + 1);
      if b == |line| || line[b] != ']' then None else Scan(line, b + 1, AfterClose)
  {
    ScanBeforeOpen(line, 1);
    ScanInside(line, a + 1);
  }

  /** With the whole checkbox prefix in place the scan reads the time after it. */
  lemma ScanCheckbox(line: string, a: nat, b: nat)
    requires 0 < a < |line| && line[0] == '-' && a == SkipSpaces(line, 1) && line[a] == '['
    requires b < |line| && b == SkipSpaces(line, a + 1) && line[b] == ']'
    ensures TimeOf(line) == Scan(line, b + 1, AfterClose)
  {
    ScanBrackets(line, a);
  }

  /** `CheckboxEnd` unfolded one step at a time. */
  lemma CheckboxEndSteps(line: string)
    ensures |line| == 0 || line[0] != '-' ==> CheckboxEnd(line) == None
    ensures |line| > 0 && line[0] == '-' ==>
      var a := SkipSpaces(line, 1);
      (a == |line| || line[a] != '[' ==> CheckboxEnd(line) == None)
      && (a < |line| && line[a] == '[' ==>
            var b := SkipSpaces(line, a + 1);
            (b == |line| || line[b] != ']' ==> CheckboxEnd(line) == None)
            && (b < |line| && line[b] == ']' ==> CheckboxEnd(line) == Some(SkipSpaces(line, b + 1))))
  {
  }

  lemma {:induction false} SkipDigitsExact(s: string, i: nat, j: nat)
    requires i <= j <= |s| && DigitsBetween(s, i, j) && (j == |s| || !IsDigit(s[j]))
    ensures SkipDigits(s, i) == j
    decreases j - i
  {
    if i < j {
      SkipDigitsExact(s, i + 1, j);
    }
  }

  /** Whatever getDateFromNote returns is what the regular expression captures. */
  lemma TimeOfSound(line: string)
    requires TimeOf(line).Some?
    ensures exists i :: TimestampAt(line, i, TimeOf(line).value)
  {
    TimeOfSplit(line);
    var c := CheckboxEnd(line).value;
    assert TimestampAt(line, c, TimeOf(line).value);
  }

  /** A checkbox prefix ending at `i` is found by the three `\s*` skips. */
  lemma CheckboxEndComplete(line: string, i: nat)
    requires i < |line| && CheckboxBefore(line, i) && !IsSpace(line[i])
    ensures CheckboxEnd(line) == Some(i)
  {
    var a, b :| 0 < a < b < i <= |line| && line[0] == '-' && line[a] == '[' && line[b] == ']'
      && SpacesBetween(line, 1, a) && SpacesBetween(line, a + 1, b) && SpacesBetween(line, b + 1, i);
    CheckboxEndAt(line, a, b, i);
  }

  /** The same, with the positions of the brackets given. */
  lemma CheckboxEndAt(line: string, a: nat, b: nat, i: nat)
    requires 0 < a < b < i < |line| && line[0] == '-' && line[a] == '[' && line[b] == ']'
    requires SpacesBetween(line, 1, a) && SpacesBetween(line, a + 1, b) && SpacesBetween(line, b + 1, i)
    requires !IsSpace(line[i])
    ensures CheckboxEnd(line) == Some(i)
  {
    SkipSpacesExact(line, 1, a);
    SkipSpacesExact(line, a + 1, b);
    SkipSpacesExact(line, b + 1, i);
  }

  /** A maximal time token starting at `i` is read whole by the two `\d+` skips. */
  lemma TimeAtComplete(line: string, i: nat, t: string)
    requires i + |t| <= |line| && line[i..i + |t|] == t && IsTime(t)
    requires i + |t| == |line| || !IsDigit(line[i + |t|])
    ensures TimeAt(line, i) == Some(t)
  {
    var d :| 0 < d < |t| - 1 && t[d] == ':' && DigitsBetween(t, 0, d) && DigitsBetween(t, d + 1, |t|);
    assert forall k :: 0 <= k < |t| ==> line[i + k] == t[k];
    assert DigitsBetween(line, i, i + d);
    SkipDigitsExact(line, i, i + d);
    assert DigitsBetween(line, i + d + 1, i + |t|);
    SkipDigitsExact(line, i + d + 1, i + |t|);
  }

  /** Whenever the regular expression matches, getDateFromNote returns its capture. */
  lemma TimeOfComplete(line: string, i: nat, t: string)
    requires TimestampAt(line, i, t)
    ensures TimeOf(line) == Some(t)
  {
    assert line[i] == t[0];
    assert IsDigit(t[0]);
    CheckboxEndComplete(line, i);
    TimeAtComplete(line, i, t);
    TimeOfSplit(line);
  }

  /** getDateFromNote returns `t` exactly when the line is a checkbox followed
      by the maximal `\d+:\d+` token `t`; every other line yields None. */
  lemma TimeOfIff(line: string, t: string)
    ensures TimeOf(line) == Some(t) <==> exists i :: TimestampAt(line, i, t)
  {
    if TimeOf(line) == Some(t) {
      TimeOfSound(line);
    }
    if exists i :: TimestampAt(line, i, t) {
      var i :| TimestampAt(line, i, t);
      TimeOfComplete(line, i, t);
    }
  }

  /** The prefix `- [ ] ` that every generated event line starts with. */
  const Checkbox: string := "- [ ] "

  /** A time written after the generated checkbox prefix is recovered exactly,
      provided no digit follows it. */
  lemma TimeAfterCheckbox(t: string, rest: string)
    requires IsTime(t)
    requires |rest| == 0 || !IsDigit(rest[0])
    ensures TimeOf(Checkbox + t + rest) == Some(t)
  {
    var line := Checkbox + t + rest;
    assert line[0] == '-' && line[1] == ' ' && line[2] == '[' && line[3] == ' ' && line[4] == ']' && line[5] == ' ';
    assert CheckboxBefore(line, 6);
    assert line[6..6 + |t|] == t;
    if 6 + |t| < |line| {
      assert line[6 + |t|] == rest[0];
    }
    TimeOfComplete(line, 6, t);
  }

  lemma TwoPartTime(h: string, m: string)
    requires |h| > 0 && |m| > 0
    requires forall k :: 0 <= k < |h| ==> IsDigit(h[k])
    requires forall k :: 0 <= k < |m| ==> IsDigit(m[k])
    ensures IsTime(h + ":" + m)
  {
    var t := h + ":" + m;
    assert t[|h|] == ':';
    assert forall k :: 0 <= k < |h| ==> t[k] == h[k];
    assert forall k :: |h| + 1 <= k < |t| ==> t[k] == m[k - |h| - 1];
    assert DigitsBetween(t, 0, |h|) && DigitsBetween(t, |h| + 1, |t|);
  }

  /** A plain timed template line yields its time. */
  lemma TimeOfTimedExample()
    ensures TimeOf("- [ ] 09:00 Standup") == Some("09:00")
  {
    var y := "- [ ] 09:00 Standup";
    assert y[0] == '-' && y[1] == ' ' && y[2] == '[' && y[3] == ' ' && y[4] == ']' && y[5] == ' ';
    assert y[6] == '0' && y[7] == '9' && y[8] == ':' && y[9] == '0' && y[10] == '0' && y[11] == ' ';
    SkipSpacesExact(y, 1, 2);
    SkipSpacesExact(y, 3, 4);
    SkipSpacesExact(y, 5, 6);
    SkipDigitsExact(y, 6, 8);
    SkipDigitsExact(y, 9, 11);
    assert y[6..11] == "09:00";
    TimeOfSplit(y);
  }

  /** Hours and minutes need no zero padding. */
  lemma TimeOfUnpaddedExample()
    ensures TimeOf("- [ ] 7:5") == Some("7:5")
  {
    TwoPartTime("7", "5");
    assert "7" + ":" + "5" == "7:5";
    TimeAfterCheckbox("7:5", "");
    assert Checkbox + "7:5" + "" == "- [ ] 7:5";
  }

  /** A checked box yields no time. */
  lemma TimeOfCheckedExample()
    ensures TimeOf("- [x] 09:00 Done") == None
  {
    var x := "- [x] 09:00 Done";
    assert SkipSpaces(x, 1) == 2 && SkipSpaces(x, 3) == 3;
    assert CheckboxEnd(x) == None;
    TimeOfSplit(x);
  }

  /** An indented checkbox yields no time: the pattern is anchored. */
  lemma TimeOfIndentedExample()
    ensures TimeOf("  - [ ] 09:00 Indented") == None
  {
  }

  /** A time without its minute digits yields no time. */
  lemma TimeOfNoMinutesExample()
    ensures TimeOf("- [ ] 09: Lunch") == None
  {
    var y := "- [ ] 09: Lunch";
    assert SkipSpaces(y, 1) == 2 && SkipSpaces(y, 3) == 4 && SkipSpaces(y, 5) == 6;
    assert CheckboxEnd(y) == Some(6);
    assert SkipDigits(y, 6) == 8 && SkipDigits(y, 9) == 9;
    TimeOfSplit(y);
  }
}
