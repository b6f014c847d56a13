/** String helpers with the semantics of the Go standard library calls the
    agent uses: substring search, suffix test, `strings.ReplaceAll` and a
    last-occurrence scan. */
module Strings {
  import opened Results

  /** `pat` occurs in `s` starting at index `i`. */
  predicate OccursAt(s: string, pat: string, i: nat) {
    i + |pat| <= |s| && s[i..i + |pat|] == pat
  }

  predicate Contains(s: string, pat: string) {
    exists i: nat | i <= |s| :: OccursAt(s, pat, i)
  }

  predicate EndsWith(s: string, suffix: string) {
    |suffix| <= |s| && s[|s| - |suffix|..] == suffix
  }

  /** `strings.ReplaceAll(s, pat, rep)` for a non-empty `pat`: the leftmost
      occurrence is replaced first and matching resumes after it, so
      occurrences never overlap. */
  function ReplaceAll(s: string, pat: string, rep: string): string
    requires |pat| > 0
    decreases |s|
  {
    if |s| == 0 then s
    else if pat <= s then rep + ReplaceAll(s[|pat|..], pat, rep)
    else [s[0]] + ReplaceAll(s[1..], pat, rep)
  }

  lemma ContainsFromTail(s: string, pat: string)
    requires |s| > 0 && Contains(s[1..], pat)
    ensures Contains(s, pat)
  {
    var i: nat :| i <= |s| - 1 && OccursAt(s[1..], pat, i);
    var j := i + 1;
    assert s[j..j + |pat|] == s[1..][i..i + |pat|];
    assert OccursAt(s, pat, j);
  }

  lemma ContainsInTail(s: string, pat: string)
    requires |pat| > 0 && Contains(s, pat) && !(pat <= s)
    ensures |s| > 0 && Contains(s[1..], pat)
  {
    var i: nat :| i <= |s| && OccursAt(s, pat, i);
    assert i > 0;
    var j := i - 1;
    assert s[1..][j..j + |pat|] == s[i..i + |pat|];
    assert OccursAt(s[1..], pat, j);
  }

  /** A template without the placeholder is returned verbatim. */
  lemma {:induction false} ReplaceAllAbsent(s: string, pat: string, rep: string)
    requires |pat| > 0 && !Contains(s, pat)
    ensures ReplaceAll(s, pat, rep) == s
    decreases |s|
  {
    if |s| > 0 {
      assert !(pat <= s) by {
        if pat <= s {
          assert s[0..|pat|] == pat;
          assert OccursAt(s, pat, 0);
        }
      }
      if Contains(s[1..], pat) {
        ContainsFromTail(s, pat);
      }
      ReplaceAllAbsent(s[1..], pat, rep);
      assert [s[0]] + s[1..] == s;
    }
  }

  /** The leftmost occurrence is replaced and the rest is processed on its
      own: when `pat` does not occur in `a` or across the end of `a`,
      replacing in `a + pat + b` keeps `a`, puts `rep` in place of this
      occurrence and continues in `b`. */
  lemma {:induction false} ReplaceAllFirst(a: string, pat: string, rep: string, b: string)
    requires |pat| > 0 && !Contains(a + pat[..|pat| - 1], pat)
    ensures ReplaceAll(a + pat + b, pat, rep) == a + rep + ReplaceAll(b, pat, rep)
    decreases |a|
  {
    if |a| == 0 {
      ReplaceAllAtStart(pat, rep, b);
    } else {
      var tail := ReplaceAll(b, pat, rep);
      ReplaceAllSkips(a, pat, rep, b);
      FreeAfterFirst(a, pat);
      ReplaceAllFirst(a[1..], pat, rep, b);
      assert [a[0]] + (a[1..] + rep + tail) == a + rep + tail;
    }
  }

  lemma ReplaceAllAtStart(pat: string, rep: string, b: string)
    requires |pat| > 0
    ensures ReplaceAll(pat + b, pat, rep) == rep + ReplaceAll(b, pat, rep)
  {
    assert (pat + b)[|pat|..] == b;
  }

  /** A non-empty `a` free of `pat`, also across its end, is copied one
      character at a time. */
  lemma ReplaceAllSkips(a: string, pat: string, rep: string, b: string)
    requires |a| > 0 && |pat| > 0 && !Contains(a + pat[..|pat| - 1], pat)
    ensures ReplaceAll(a + pat + b, pat, rep) == [a[0]] + ReplaceAll(a[1..] + pat + b, pat, rep)
  {
    NotAtStart(a, pat, b);
    assert (a + pat + b)[1..] == a[1..] + pat + b;
  }

  /** With no occurrence in `a` or across its end, `pat` does not start
      `a + pat + b` for a non-empty `a`. */
  lemma NotAtStart(a: string, pat: string, b: string)
    requires |a| > 0 && |pat| > 0 && !Contains(a + pat[..|pat| - 1], pat)
    ensures !(pat <= a + pat + b)
  {
    var head := a + pat[..|pat| - 1];
    assert !OccursAt(head, pat, 0);
    assert head[0..|pat|] == (a + pat + b)[..|pat|];
  }

  /** Dropping the first character of `a` keeps it free of `pat`. */
  lemma FreeAfterFirst(a: string, pat: string)
    requires |a| > 0 && |pat| > 0 && !Contains(a + pat[..|pat| - 1], pat)
    ensures !Contains(a[1..] + pat[..|pat| - 1], pat)
  {
    var head := a + pat[..|pat| - 1];
    assert head[1..] == a[1..] + pat[..|pat| - 1];
    if Contains(head[1..], pat) {
      ContainsFromTail(head, pat);
    }
  }

  /** When the placeholder occurs, two different tokens of the same length
      yield two different results: the substituted token is recoverable
      from the output's position of the first occurrence. */
  lemma {:induction false} ReplaceAllDistinguishes(s: string, pat: string, t1: string, t2: string)
    requires |pat| > 0 && Contains(s, pat)
    requires |t1| == |t2| && t1 != t2
    ensures ReplaceAll(s, pat, t1) != ReplaceAll(s, pat, t2)
    decreases |s|
  {
    if |s| == 0 {
      assert false;
    } else if pat <= s {
      var r1 := ReplaceAll(s, pat, t1);
      var r2 := ReplaceAll(s, pat, t2);
      assert r1[..|t1|] == t1;
      assert r2[..|t2|] == t2;
    } else {
      ContainsInTail(s, pat);
      ReplaceAllDistinguishes(s[1..], pat, t1, t2);
      var r1 := ReplaceAll(s[1..], pat, t1);
      var r2 := ReplaceAll(s[1..], pat, t2);
      assert ([s[0]] + r1)[1..] == r1;
      assert ([s[0]] + r2)[1..] == r2;
    }
  }

  /** Index of the last `c` in `s`, if any. */
  function LastIndexOf(s: string, c: char): (r: Option<nat>)
    ensures r.Some? ==> r.value < |s| && s[r.value] == c
    ensures r.Some? ==> forall j :: r.value < j < |s| ==> s[j] != c
    ensures r.None? ==> forall j :: 0 <= j < |s| ==> s[j] != c
    decreases |s|
  {
    if |s| == 0 then None
    else if s[|s| - 1] == c then Some(|s| - 1)
    else LastIndexOf(s[..|s| - 1], c)
  }
}
