/** Character classes and string primitives of the JavaScript runtime that the
    plugin relies on: the `\s` and `\d` regular-expression classes, the `.`
    exclusion set, relational comparison of strings, and `String.prototype.trim`. */
module Strings {

  /** JavaScript WhiteSpace or LineTerminator: the set matched by `\s` and
      removed by `trim`. */
  predicate IsSpace(c: char)
  {
    if c < '\U{00A0}' then
      c == ' ' || ('\t' <= c <= '\r')
    else
      || c == '\U{00A0}' || c == '\U{1680}' || ('\U{2000}' <= c <= '\U{200A}')
      || c == '\U{2028}' || c == '\U{2029}' || c == '\U{202F}' || c == '\U{205F}'
      || c == '\U{3000}' || c == '\U{FEFF}'
  }

  /** The `\d` class: ASCII decimal digits only. */
  predicate IsDigit(c: char)
  {
    '0' <= c <= '9'
  }

  /** Characters that `.` does not match outside dotAll mode. */
  predicate IsLineTerminator(c: char)
  {
    c == '\n' || c == '\r' || c == '\U{2028}' || c == '\U{2029}'
  }

  /** Every character of `s[i..j]` is white space. */
  predicate SpacesBetween(s: string, i: nat, j: nat)
    requires i <= j <= |s|
  {
    forall k :: i <= k < j ==> IsSpace(s[k])
  }

  /** Every character of `s[i..j]` is a digit. */
  predicate DigitsBetween(s: string, i: nat, j: nat)
    requires i <= j <= |s|
  {
    forall k :: i <= k < j ==> IsDigit(s[k])
  }

  // ---------------------------------------------------------------------------
  // Relational comparison of strings (`a < b`, `a <= b`, `a > b`)
  // ---------------------------------------------------------------------------

  /** `a < b` on two strings: `a` is a proper prefix of `b`, or at the first
      position where they differ `a` has the smaller character. */
  predicate Less(a: string, b: string)
    decreases |a|
  {
    |b| > 0 && (|a| == 0 || a[0] < b[0] || (a[0] == b[0] && Less(a[1..], b[1..])))
  }

  /** `a <= b` is defined by the language as "not (b < a)". */
  predicate LessEq(a: string, b: string)
  {
    !Less(b, a)
  }

  /** Reference characterisation of `Less` by the first difference. */
  ghost predicate FirstDifferenceBelow(a: string, b: string)
  {
    || (|a| < |b| && a == b[..|a|])
    || exists k :: 0 <= k < |a| && k < |b| && a[..k] == b[..k] && a[k] < b[k]
  }

  lemma {:induction false} LessFromPrefix(a: string, b: string)
    requires |a| < |b| && a == b[..|a|]
    ensures Less(a, b)
    decreases |a|
  {
    if |a| > 0 {
      assert a[0] == b[0];
      assert a[1..] == b[1..][..|a[1..]|];
      LessFromPrefix(a[1..], b[1..]);
    }
  }

  lemma {:induction false} LessFromDifference(a: string, b: string, k: nat)
    requires k < |a| && k < |b| && a[..k] == b[..k] && a[k] < b[k]
    ensures Less(a, b)
    decreases k
  {
    if k > 0 {
      assert a[0] == a[..k][0] == b[..k][0] == b[0];
      assert a[1..][..k - 1] == a[1..k] == b[1..k] == b[1..][..k - 1];
      LessFromDifference(a[1..], b[1..], k - 1);
    }
  }

  lemma {:induction false} LessHasFirstDifference(a: string, b: string)
    requires Less(a, b)
    ensures FirstDifferenceBelow(a, b)
    decreases |a|
  {
    if |a| == 0 {
      assert a == b[..0];
    } else if a[0] < b[0] {
      assert a[..0] == b[..0];
    } else {
      LessHasFirstDifference(a[1..], b[1..]);
      if |a[1..]| < |b[1..]| && a[1..] == b[1..][..|a[1..]|] {
        assert a == [a[0]] + a[1..] == [b[0]] + b[1..][..|a| - 1] == b[..|a|];
      } else {
        var k :| 0 <= k < |a[1..]| && k < |b[1..]| && a[1..][..k] == b[1..][..k] && a[1..][k] < b[1..][k];
        assert a[..k + 1] == [a[0]] + a[1..][..k] == [b[0]] + b[1..][..k] == b[..k + 1];
        assert a[k + 1] < b[k + 1];
      }
    }
  }

  /** `Less` agrees with the textbook definition of lexicographic order. */
  lemma LessIsFirstDifference(a: string, b: string)
    ensures Less(a, b) <==> FirstDifferenceBelow(a, b)
  {
    if Less(a, b) {
      LessHasFirstDifference(a, b);
    }
    if FirstDifferenceBelow(a, b) {
      if |a| < |b| && a == b[..|a|] {
        LessFromPrefix(a, b);
      } else {
        var k :| 0 <= k < |a| && k < |b| && a[..k] == b[..k] && a[k] < b[k];
        LessFromDifference(a, b, k);
      }
    }
  }

  lemma {:induction false} LessIrreflexive(a: string)
    ensures !Less(a, a)
    decreases |a|
  {
    if |a| > 0 {
      LessIrreflexive(a[1..]);
    }
  }

  lemma {:induction false} LessAsymmetric(a: string, b: string)
    ensures !(Less(a, b) && Less(b, a))
    decreases |a|
  {
    if |a| > 0 && |b| > 0 && a[0] == b[0] {
      LessAsymmetric(a[1..], b[1..]);
    }
  }

  lemma {:induction false} LessTransitive(a: string, b: string, c: string)
    requires Less(a, b) && Less(b, c)
    ensures Less(a, c)
    decreases |a|
  {
    if |a| > 0 && a[0] == b[0] && b[0] == c[0] {
      LessTransitive(a[1..], b[1..], c[1..]);
    }
  }

  /** Two different strings are always ordered one way or the other. */
  lemma {:induction false} LessTotal(a: string, b: string)
    requires a != b
    ensures Less(a, b) || Less(b, a)
    decreases |a|
  {
    if |a| > 0 && |b| > 0 && a[0] == b[0] {
      assert a == [a[0]] + a[1..] && b == [b[0]] + b[1..];
      LessTotal(a[1..], b[1..]);
    }
  }

  lemma LessEqAntisymmetric(a: string, b: string)
    requires LessEq(a, b) && LessEq(b, a)
    ensures a == b
  {
    if a != b {
      LessTotal(a, b);
    }
  }

  lemma LessEqTransitive(a: string, b: string, c: string)
    requires LessEq(a, b) && LessEq(b, c)
    ensures LessEq(a, c)
  {
    if Less(c, a) {
      if a == b {
      } else {
        LessTotal(a, b);
        LessTransitive(c, a, b);
      }
    }
  }

  lemma LessEqTotal(a: string, b: string)
    ensures LessEq(a, b) || LessEq(b, a)
  {
    LessAsymmetric(a, b);
  }

  lemma LessEqReflexive(a: string)
    ensures LessEq(a, a)
  {
    LessIrreflexive(a);
  }

  /** Strings that share a prefix compare as their remainders do. */
  lemma {:induction false} LessCommonPrefix(p: string, a: string, b: string)
    ensures Less(p + a, p + b) <==> Less(a, b)
    decreases |p|
  {
    if |p| > 0 {
      assert (p + a)[1..] == p[1..] + a;
      assert (p + b)[1..] == p[1..] + b;
      LessCommonPrefix(p[1..], a, b);
    } else {
      assert p + a == a && p + b == b;
    }
  }

  /** When neither string is a prefix of the other, trailing text is irrelevant. */
  lemma {:induction false} LessExtend(a: string, b: string, x: string, y: string)
    requires |a| == |b| && Less(a, b)
    ensures Less(a + x, b + y)
    decreases |a|
  {
    assert |a| > 0;
    if a[0] == b[0] {
      assert (a + x)[1..] == a[1..] + x;
      assert (b + y)[1..] == b[1..] + y;
      LessExtend(a[1..], b[1..], x, y);
    }
  }

  // ---------------------------------------------------------------------------
  // String.prototype.trim
  // ---------------------------------------------------------------------------

  /** Index of the first non-space character at or after `i` (a greedy `\s*`). */
  function SkipSpaces(s: string, i: nat): (j: nat)
    requires i <= |s|
    ensures i <= j <= |s|
    ensures SpacesBetween(s, i, j)
    ensures j == |s| || !IsSpace(s[j])
    decreases |s| - i
  {
    if i < |s| && IsSpace(s[i]) then SkipSpaces(s, i + 1) else i
  }

  lemma {:induction false} SkipSpacesExact(s: string, i: nat, j: nat)
    requires i <= j <= |s| && SpacesBetween(s, i, j) && (j == |s| || !IsSpace(s[j]))
    ensures SkipSpaces(s, i) == j
    decreases j - i
  {
    if i < j {
      SkipSpacesExact(s, i + 1, j);
    }
  }

  /** Index just past the last non-space character before `j`. */
  function SkipSpacesBack(s: string, j: nat): (i: nat)
    requires j <= |s|
    ensures i <= j
    ensures SpacesBetween(s, i, j)
    ensures i == 0 || !IsSpace(s[i - 1])
  {
    if j > 0 && IsSpace(s[j - 1]) then SkipSpacesBack(s, j - 1) else j
  }

  /** `s.trim()`: the slice of `s` between its leading and its trailing white
      space; empty when `s` is all white space. */
  function Trim(s: string): (r: string)
    ensures |r| <= |s|
    ensures |r| == 0 || (!IsSpace(r[0]) && !IsSpace(r[|r| - 1]))
  {
    var a := SkipSpaces(s, 0);
    if a == |s| then []
    else
      var b := SkipSpacesBack(s, |s|);
      assert a < b;
      s[a..b]
  }

  /** What `trim` removes is white space at either end, and nothing else. */
  lemma TrimIsSlice(s: string)
    ensures var r := Trim(s);
      exists i :: 0 <= i <= |s| - |r| && r == s[i..i + |r|]
                  && SpacesBetween(s, 0, i) && SpacesBetween(s, i + |r|, |s|)
  {
    var a := SkipSpaces(s, 0);
    if a == |s| {
      assert SpacesBetween(s, 0, a) && SpacesBetween(s, a, |s|);
    } else {
      var b := SkipSpacesBack(s, |s|);
      assert Trim(s) == s[a..a + (b - a)];
    }
  }

  /** Trimming a string that starts with non-space text `p` keeps `p` and
      cuts only trailing text. */
  lemma TrimKeepsPrefix(p: string, q: string)
    requires |p| > 0 && !IsSpace(p[0]) && !IsSpace(p[|p| - 1])
    ensures |p| <= |Trim(p + q)| <= |p| + |q|
    ensures Trim(p + q) == p + q[..|Trim(p + q)| - |p|]
  {
    var s := p + q;
    assert SkipSpaces(s, 0) == 0;
    var b := SkipSpacesBack(s, |s|);
    assert !IsSpace(s[|p| - 1]);
    assert b >= |p|;
    assert Trim(s) == s[0..b];
    assert s[0..b] == p + q[..b - |p|];
  }
}
