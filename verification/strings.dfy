/**
  The string primitives the script relies on, with Python's meaning:
  `str.startswith`, `str.endswith`, the `in` substring test, `str.lower`
  (restricted to ASCII) and `str.replace`.
 */
module Strings {

  /** `s.startswith(p)` */
  predicate StartsWith(s: string, p: string) {
    |p| <= |s| && s[..|p|] == p
  }

  /** `s.endswith(p)`: `s` is some stem followed by `p`. */
  predicate EndsWith(s: string, p: string): (b: bool)
    ensures b <==> exists stem :: s == stem + p
  {
    assert |p| <= |s| ==> s == s[..|s| - |p|] + s[|s| - |p|..];
    |p| <= |s| && s[|s| - |p|..] == p
  }

  /** `p` occurs in `s` starting at index `i`. */
  predicate OccursAt(s: string, p: string, i: int) {
    0 <= i && i + |p| <= |s| && s[i..i + |p|] == p
  }

  lemma OccursAtShift(s: string, p: string, i: int)
    requires |s| > 0 && 0 <= i
    ensures OccursAt(s[1..], p, i) <==> OccursAt(s, p, i + 1)
  {
    if 0 <= i && i + |p| <= |s| - 1 {
      assert s[1..][i..i + |p|] == s[i + 1..i + 1 + |p|];
    }
  }

  /** Literal substring test: `p in s`. */
  function Contains(s: string, p: string): (b: bool)
    ensures b <==> exists i :: OccursAt(s, p, i)
    decreases |s|
  {
    if StartsWith(s, p) then
      assert OccursAt(s, p, 0);
      true
    else if |s| == 0 then
      false
    else
      var rest := Contains(s[1..], p);
      assert rest ==> exists i :: OccursAt(s, p, i) by {
        if rest {
          var i :| OccursAt(s[1..], p, i);
          OccursAtShift(s, p, i);
        }
      }
      assert (exists i :: OccursAt(s, p, i)) ==> rest by {
        if exists i :: OccursAt(s, p, i) {
          var i :| OccursAt(s, p, i);
          assert i != 0;
          OccursAtShift(s, p, i - 1);
        }
      }
      rest
  }

  /** ASCII lower-casing of one character; every other character is kept. */
  function LowerChar(c: char): char {
    if 'A' <= c <= 'Z' then (c as int + 32) as char else c
  }

  /** `s.lower()`, restricted to ASCII letters. */
  function Lower(s: string): (r: string)
    ensures |r| == |s|
    ensures forall i :: 0 <= i < |s| ==> r[i] == LowerChar(s[i])
  {
    seq(|s|, i requires 0 <= i < |s| => LowerChar(s[i]))
  }

  /** Lower-casing twice is the same as lower-casing once. */
  lemma LowerIdempotent(s: string)
    ensures Lower(Lower(s)) == Lower(s)
  {
    var once := Lower(s);
    forall i | 0 <= i < |s|
      ensures Lower(once)[i] == once[i]
    {
      assert LowerChar(LowerChar(s[i])) == LowerChar(s[i]);
    }
  }

  /**
    `s.replace(pat, rep)`: scanning from the left, every non-overlapping
    occurrence of `pat` is replaced by `rep`; an empty `pat` inserts `rep`
    before every character and at the end.
   */
  function ReplaceAll(s: string, pat: string, rep: string): (r: string)
    ensures |pat| > 0 && !Contains(s, pat) ==> r == s
    ensures |pat| > 0 && rep == [] ==> |r| <= |s|
    decreases |s|
  {
    if |pat| == 0 then
      if |s| == 0 then rep else rep + [s[0]] + ReplaceAll(s[1..], pat, rep)
    else if StartsWith(s, pat) then
      rep + ReplaceAll(s[|pat|..], pat, rep)
    else if |s| == 0 then
      []
    else
      assert !Contains(s, pat) ==> !Contains(s[1..], pat) by {
        if Contains(s[1..], pat) {
          var i :| OccursAt(s[1..], pat, i);
          OccursAtShift(s, pat, i);
        }
      }
      [s[0]] + ReplaceAll(s[1..], pat, rep)
  }

  /** Dropping the first character cannot create an occurrence. */
  lemma ContainsTail(t: string, p: string)
    requires |t| > 0 && !Contains(t, p)
    ensures !Contains(t[1..], p)
  {
    forall i | 0 <= i
      ensures !OccursAt(t[1..], p, i)
    {
      OccursAtShift(t, p, i);
    }
  }

  lemma ReplaceAllMatch(s: string, pat: string, rep: string)
    requires |pat| > 0 && StartsWith(s, pat)
    ensures ReplaceAll(s, pat, rep) == rep + ReplaceAll(s[|pat|..], pat, rep)
  {
  }

  lemma ReplaceAllSkip(s: string, pat: string, rep: string)
    requires |pat| > 0 && |s| > 0 && !StartsWith(s, pat)
    ensures ReplaceAll(s, pat, rep) == [s[0]] + ReplaceAll(s[1..], pat, rep)
  {
  }

  /**
    `str.replace` on a text built as prefix, pattern, suffix, where no
    occurrence of `pat` starts inside the prefix: the prefix is kept, this
    occurrence becomes `rep`, and the scan carries on with the suffix.
   */
  lemma {:induction false} ReplaceAllStep(x: string, pat: string, y: string, rep: string)
    requires |pat| > 0 && !Contains(x + pat[..|pat| - 1], pat)
    ensures ReplaceAll(x + pat + y, pat, rep) == x + rep + ReplaceAll(y, pat, rep)
    decreases |x|
  {
    if |x| == 0 {
      assert x + pat + y == pat + y && (pat + y)[|pat|..] == y;
      ReplaceAllMatch(pat + y, pat, rep);
      assert x + rep == rep;
    } else {
      StepPastHead(x, pat, y);
      ReplaceAllSkip(x + pat + y, pat, rep);
      ReplaceAllStep(x[1..], pat, y, rep);
      ConsFront(x, rep, ReplaceAll(y, pat, rep),
        ReplaceAll(x + pat + y, pat, rep), ReplaceAll(x[1..] + pat + y, pat, rep));
    }
  }

  /** The prefix's first character starts no occurrence, and the rest of the prefix stays clean. */
  lemma {:induction false} StepPastHead(x: string, pat: string, y: string)
    requires |pat| > 0 && |x| > 0 && !Contains(x + pat[..|pat| - 1], pat)
    ensures !StartsWith(x + pat + y, pat)
    ensures (x + pat + y)[0] == x[0] && (x + pat + y)[1..] == x[1..] + pat + y
    ensures !Contains(x[1..] + pat[..|pat| - 1], pat)
  {
    var t := x + pat[..|pat| - 1];
    assert (x + pat + y)[..|pat|] == t[0..|pat|];
    assert !OccursAt(t, pat, 0);
    ContainsTail(t, pat);
    assert t[1..] == x[1..] + pat[..|pat| - 1];
  }

  /** Putting the first character back in front of a rebuilt remainder. */
  lemma ConsFront(x: string, rep: string, tail: string, whole: string, rest: string)
    requires |x| > 0 && whole == [x[0]] + rest && rest == x[1..] + rep + tail
    ensures whole == x + rep + tail
  {
    assert [x[0]] + x[1..] == x;
  }

  /** Deleting every occurrence removes at least one copy of `pat` when `pat` occurs. */
  lemma {:induction false} RemoveAllDropsOne(s: string, pat: string, i: int)
    requires |pat| > 0 && OccursAt(s, pat, i)
    ensures |ReplaceAll(s, pat, [])| <= |s| - |pat|
    decreases |s|
  {
    if StartsWith(s, pat) {
      assert ReplaceAll(s, pat, []) == ReplaceAll(s[|pat|..], pat, []);
    } else {
      assert i != 0;
      OccursAtShift(s, pat, i - 1);
      RemoveAllDropsOne(s[1..], pat, i - 1);
      assert ReplaceAll(s, pat, []) == [s[0]] + ReplaceAll(s[1..], pat, []);
    }
  }

  lemma DropPrefixKeepsOccurrence(s: string, pat: string, j: int)
    requires |pat| <= j && OccursAt(s, pat, j)
    ensures OccursAt(s[|pat|..], pat, j - |pat|)
  {
    assert s[|pat|..][j - |pat|..j] == s[j..j + |pat|];
  }

  /**
    Two non-overlapping occurrences of `pat` cost at least two copies of it,
    even though the left-to-right scan may pick different occurrences.
   */
  lemma {:induction false} RemoveAllDropsTwo(s: string, pat: string, i: int, j: int)
    requires |pat| > 0 && OccursAt(s, pat, i) && OccursAt(s, pat, j) && i + |pat| <= j
    ensures |ReplaceAll(s, pat, [])| <= |s| - 2 * |pat|
    decreases |s|
  {
    if StartsWith(s, pat) {
      DropPrefixKeepsOccurrence(s, pat, j);
      RemoveAllDropsOne(s[|pat|..], pat, j - |pat|);
      assert ReplaceAll(s, pat, []) == ReplaceAll(s[|pat|..], pat, []);
    } else {
      assert i != 0;
      OccursAtShift(s, pat, i - 1);
      OccursAtShift(s, pat, j - 1);
      RemoveAllDropsTwo(s[1..], pat, i - 1, j - 1);
      assert ReplaceAll(s, pat, []) == [s[0]] + ReplaceAll(s[1..], pat, []);
    }
  }
}
