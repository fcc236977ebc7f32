/** Expansion of date placeholders in an emitted template line
    (src/main.ts:132-134): `line.replaceAll(/{{date:(.*)}}/g, f)`, where `f`
    formats the current moment with the captured pattern. The clock and the
    moment library are outside the model: `format` stands for
    `p => moment().format(p)` during one run. */
module Placeholder {
  import opened Wrappers
  import opened Strings

  /** The literal text that opens a placeholder. */
  const Open: string := "{{date:"

  /** `{{date:` starts at index `i` of `s`. */
  predicate OpensAt(s: string, i: nat)
  {
    i + |Open| <= |s| && s[i] == '{' && s[i + 1] == '{' && s[i + 2] == 'd' && s[i + 3] == 'a'
    && s[i + 4] == 't' && s[i + 5] == 'e' && s[i + 6] == ':'
  }

  predicate ClosesAt(s: string, k: nat)
  {
    k + 2 <= |s| && s[k] == '}' && s[k + 1] == '}'
  }

  /** The end of the run of characters from `i` on that `.` can match. */
  function LineEnd(s: string, i: nat): (j: nat)
    requires i <= |s|
    ensures i <= j <= |s|
    ensures forall k :: i <= k < j ==> !IsLineTerminator(s[k])
    ensures j == |s| || IsLineTerminator(s[j])
    decreases |s| - i
  {
    if i < |s| && !IsLineTerminator(s[i]) then LineEnd(s, i + 1) else i
  }

  /** The last `}}` lying wholly inside `s[lo..hi]`: where the greedy `(.*)`
      stops after backtracking. */
  function LastClose(s: string, lo: nat, hi: nat): (r: Option<nat>)
    requires lo <= hi <= |s|
    ensures r.Some? ==> lo <= r.value && r.value + 2 <= hi && ClosesAt(s, r.value)
    ensures r.Some? ==> forall k :: r.value < k && k + 2 <= hi ==> !ClosesAt(s, k)
    ensures r.None? ==> forall k :: lo <= k && k + 2 <= hi ==> !ClosesAt(s, k)
    decreases hi
  {
    if hi < lo + 2 then None
    else if ClosesAt(s, hi - 2) then Some(hi - 2)
    else LastClose(s, lo, hi - 1)
  }

  /** When the pattern matches at `i`, the end of its capture group: the match
      is `s[i..k + 2]` and the captured format is `s[i + 7..k]`. */
  function MatchAt(s: string, i: nat): (r: Option<nat>)
    requires i <= |s|
    ensures r.Some? ==> i + |Open| <= r.value && r.value + 2 <= |s|
  {
    if OpensAt(s, i) then LastClose(s, i + |Open|, LineEnd(s, i + |Open|)) else None
  }

  /** The global replace from index `i` on: at each position either the
      pattern matches and the match is replaced by the formatted date, or the
      character is copied and the search moves one position on. */
  function SubstituteFrom(s: string, i: nat, format: string -> string): string
    requires i <= |s|
    decreases |s| - i
  {
    if i == |s| then []
    else
      match MatchAt(s, i)
      case Some(k) => format(s[i + |Open|..k]) + SubstituteFrom(s, k + 2, format)
      case None => [s[i]] + SubstituteFrom(s, i + 1, format)
  }

  /** `line.replaceAll(/{{date:(.*)}}/g, p => format(p))`. */
  function Substitute(line: string, format: string -> string): string
  {
    SubstituteFrom(line, 0, format)
  }

  /** A character that cannot open a placeholder is copied. */
  lemma CopiesChar(s: string, i: nat, format: string -> string)
    requires i < |s| && s[i] != '{'
    ensures SubstituteFrom(s, i, format) == [s[i]] + SubstituteFrom(s, i + 1, format)
  {
    assert MatchAt(s, i) == None;
  }

  /** Text without `{` is copied unchanged. */
  lemma {:induction false} CopiesPlainText(s: string, i: nat, j: nat, format: string -> string)
    requires i <= j <= |s|
    requires forall k :: i <= k < j ==> s[k] != '{'
    ensures SubstituteFrom(s, i, format) == s[i..j] + SubstituteFrom(s, j, format)
    decreases j - i
  {
    if i < j {
      CopiesChar(s, i, format);
      CopiesPlainText(s, i + 1, j, format);
      assert s[i..j] == [s[i]] + s[i + 1..j];
    }
  }

  /** A line in which `{{date:` never occurs is emitted as it is. */
  lemma {:induction false} NoPlaceholderUnchanged(s: string, i: nat, format: string -> string)
    requires i <= |s|
    requires forall k :: i <= k <= |s| ==> !OpensAt(s, k)
    ensures SubstituteFrom(s, i, format) == s[i..]
    decreases |s| - i
  {
    if i < |s| {
      NoPlaceholderUnchanged(s, i + 1, format);
      assert s[i..] == [s[i]] + s[i + 1..];
    }
  }

  /** A placeholder that runs to the end of `s`, on a single line, is one
      match whose capture is everything between `{{date:` and the final `}}`. */
  lemma MatchToEnd(s: string, i: nat, format: string -> string)
    requires OpensAt(s, i) && i + |Open| + 2 <= |s| && ClosesAt(s, |s| - 2)
    requires forall k :: i + |Open| <= k < |s| ==> !IsLineTerminator(s[k])
    ensures SubstituteFrom(s, i, format) == format(s[i + |Open|..|s| - 2])
  {
    assert LineEnd(s, i + |Open|) == |s|;
    assert MatchAt(s, i) == Some(|s| - 2);
  }

  /** A line without any `{` comes out unchanged. */
  lemma PlainLineUnchanged(line: string, format: string -> string)
    requires forall k :: 0 <= k < |line| ==> line[k] != '{'
    ensures Substitute(line, format) == line
  {
    CopiesPlainText(line, 0, |line|, format);
    assert line[0..|line|] == line;
  }

  /** Where the parts of `p + Open + f + "}}"` lie. */
  lemma PlaceholderLineShape(p: string, f: string)
    requires forall k :: 0 <= k < |f| ==> !IsLineTerminator(f[k])
    ensures var s := p + Open + f + "}}";
      && s[..|p|] == p && OpensAt(s, |p|) && ClosesAt(s, |s| - 2)
      && s[|p| + |Open|..|s| - 2] == f
      && forall k :: |p| + |Open| <= k < |s| ==> !IsLineTerminator(s[k])
  {
    var s := p + Open + f + "}}";
    var i := |p|;
    assert s[..i] == p;
    assert forall k :: 0 <= k < |Open| ==> s[i + k] == Open[k];
    assert s[i + |Open|..|s| - 2] == f;
    forall k | i + |Open| <= k < |s| ensures !IsLineTerminator(s[k]) {
      if k < |s| - 2 { assert s[k] == f[k - i - |Open|]; }
    }
  }

  /** A line holding one placeholder after plain text `p` becomes `p` followed
      by the formatted date. The format may itself contain `}}`: the capture
      runs to the last `}}` of the line. */
  lemma SinglePlaceholder(p: string, f: string, format: string -> string)
    requires forall k :: 0 <= k < |p| ==> p[k] != '{'
    requires forall k :: 0 <= k < |f| ==> !IsLineTerminator(f[k])
    ensures Substitute(p + Open + f + "}}", format) == p + format(f)
  {
    var s := p + Open + f + "}}";
    PlaceholderLineShape(p, f);
    CopiesPlainText(s, 0, |p|, format);
    MatchToEnd(s, |p|, format);
  }

  /** Two placeholders on one line form a single match: the greedy `.*`
      swallows everything up to the last `}}`. */
  lemma GreedyExample(format: string -> string)
    ensures Substitute("Week {{date:ww}} of {{date:YYYY}}", format) == "Week " + format("ww}} of {{date:YYYY")
  {
    assert "Week {{date:ww}} of {{date:YYYY}}" == "Week " + Open + "ww}} of {{date:YYYY" + "}}";
    SinglePlaceholder("Week ", "ww}} of {{date:YYYY", format);
  }
}
