/** `mdArray.sort()` (src/main.ts:98): with no comparator, JavaScript sorts an
    array of strings by the relational string order, whole line against whole
    line. The model sorts by insertion; `SortedPermutationUnique` shows that
    every correct sort of the same lines gives the same result, so neither the
    engine's algorithm nor its stability can change the outcome. */
module Sorting {
  import opened Strings

  /** Non-decreasing in the string order. */
  ghost predicate Sorted(s: seq<string>)
  {
    forall i, j {:trigger LessEq(s[i], s[j])} :: 0 <= i < j < |s| ==> LessEq(s[i], s[j])
  }

  /** `x` is no greater than any line of `s`. */
  ghost predicate Below(x: string, s: seq<string>)
  {
    forall j {:trigger LessEq(x, s[j])} :: 0 <= j < |s| ==> LessEq(x, s[j])
  }

  lemma BelowMultiset(x: string, s: seq<string>, t: seq<string>)
    requires Below(x, s) && multiset(t) <= multiset(s)
    ensures Below(x, t)
  {
    forall j | 0 <= j < |t| ensures LessEq(x, t[j]) {
      assert t[j] in multiset(t);
    }
  }

  lemma SortedCons(x: string, s: seq<string>)
    requires Sorted(s) && Below(x, s)
    ensures Sorted([x] + s)
  {
    var r := [x] + s;
    forall i, j | 0 <= i < j < |r| ensures LessEq(r[i], r[j]) {
      if i > 0 {
        assert r[i] == s[i - 1] && r[j] == s[j - 1];
      } else {
        assert r[j] == s[j - 1];
      }
    }
  }

  /** Places `x` in front of the first line it does not exceed. */
  function Insert(x: string, s: seq<string>): (r: seq<string>)
    requires Sorted(s)
    ensures Sorted(r)
    ensures multiset(r) == multiset(s) + multiset{x}
    decreases |s|
  {
    if |s| == 0 then [x]
    else if LessEq(x, s[0]) then
      forall j | 0 <= j < |s| ensures LessEq(x, s[j]) {
        if j > 0 { LessEqTransitive(x, s[0], s[j]); }
      }
      SortedCons(x, s);
      [x] + s
    else
      var rest := Insert(x, s[1..]);
      assert s == [s[0]] + s[1..];
      LessEqTotal(x, s[0]);
      assert Below(s[0], s[1..] + [x]) by {
        var t := s[1..] + [x];
        forall j | 0 <= j < |t| ensures LessEq(s[0], t[j]) {
          if j < |s| - 1 { assert t[j] == s[j + 1]; }
        }
      }
      assert multiset(rest) == multiset(s[1..] + [x]);
      BelowMultiset(s[0], s[1..] + [x], rest);
      SortedCons(s[0], rest);
      [s[0]] + rest
  }

  /** The sorted lines: the same lines, in non-decreasing order. */
  function SortLines(s: seq<string>): (r: seq<string>)
    ensures Sorted(r)
    ensures multiset(r) == multiset(s)
    ensures |r| == |s|
    decreases |s|
  {
    if |s| == 0 then []
    else
      assert s == [s[0]] + s[1..];
      var r := Insert(s[0], SortLines(s[1..]));
      assert |r| == |multiset(r)| == |multiset(s)| == |s|;
      r
  }

  lemma SortedTail(s: seq<string>)
    requires Sorted(s) && |s| > 0
    ensures Sorted(s[1..])
  {
    forall p, q | 0 <= p < q < |s| - 1 ensures LessEq(s[1..][p], s[1..][q]) {
      assert s[1..][p] == s[p + 1] && s[1..][q] == s[q + 1];
    }
  }

  /** Two sorted arrangements of the same lines start with the same line. */
  lemma SortedSameHead(a: seq<string>, b: seq<string>)
    requires Sorted(a) && Sorted(b) && multiset(a) == multiset(b) && |a| > 0
    ensures |b| > 0 && a[0] == b[0]
  {
    assert a[0] in multiset(b);
    var i :| 0 <= i < |b| && b[i] == a[0];
    assert b[0] in multiset(a);
    var j :| 0 <= j < |a| && a[j] == b[0];
    if i > 0 { assert LessEq(b[0], b[i]); } else { LessEqReflexive(b[0]); }
    if j > 0 { assert LessEq(a[0], a[j]); } else { LessEqReflexive(a[0]); }
    LessEqAntisymmetric(a[0], b[0]);
  }

  /** There is only one way to sort a collection of lines. */
  lemma {:induction false} SortedPermutationUnique(a: seq<string>, b: seq<string>)
    requires Sorted(a) && Sorted(b) && multiset(a) == multiset(b)
    ensures a == b
    decreases |a|
  {
    assert |a| == |multiset(a)| == |multiset(b)| == |b|;
    if |a| > 0 {
      SortedSameHead(a, b);
      assert a == [a[0]] + a[1..] && b == [b[0]] + b[1..];
      assert multiset(a) == multiset{a[0]} + multiset(a[1..]);
      assert multiset(b) == multiset{b[0]} + multiset(b[1..]);
      assert multiset(a[1..]) == multiset(a) - multiset{a[0]};
      assert multiset(a[1..]) == multiset(b[1..]);
      SortedTail(a);
      SortedTail(b);
      SortedPermutationUnique(a[1..], b[1..]);
    }
  }
}
