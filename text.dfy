/** ASCII character classes, case mapping and the splitting of a string into
    maximal runs of characters of one class. These stand for the regular
    expression `\w+` between word boundaries, for `str.lower()`, `str.upper()`
    and for `str.split()` without arguments. */
module Text {

  /** `\w`: an ASCII letter, digit or underscore. */
  predicate IsWordChar(c: char) {
    ('a' <= c <= 'z') || ('A' <= c <= 'Z') || ('0' <= c <= '9') || c == '_'
  }

  predicate IsUpper(c: char) { 'A' <= c <= 'Z' }

  predicate IsLower(c: char) { 'a' <= c <= 'z' }

  /** The ASCII characters `str.isspace()` accepts: tab, line feed, vertical tab,
      form feed, carriage return, the four separators 0x1C-0x1F and space. */
  predicate IsSpace(c: char) {
    var n := c as int;
    n == 32 || 9 <= n <= 13 || 28 <= n <= 31
  }

  predicate IsNonSpace(c: char) { !IsSpace(c) }

  /** `str.upper()` on one ASCII character: a lower-case letter becomes the
      upper-case letter at the same place in the alphabet, every other
      character is kept. */
  function UpperChar(c: char): (r: char)
    ensures !IsLower(r)
    ensures !IsLower(c) ==> r == c
    ensures IsLower(c) ==> IsUpper(r) && r as int - 'A' as int == c as int - 'a' as int
    ensures IsWordChar(r) == IsWordChar(c) && IsSpace(r) == IsSpace(c)
  {
    if IsLower(c) then (c as int - 32) as char else c
  }

  /** `str.lower()` on one ASCII character: an upper-case letter becomes the
      lower-case letter that uppercases back to it, every other character is
      kept. */
  function LowerChar(c: char): (r: char)
    ensures !IsUpper(r)
    ensures !IsUpper(c) ==> r == c
    ensures IsUpper(c) ==> IsLower(r) && r as int - 'a' as int == c as int - 'A' as int && UpperChar(r) == c
    ensures IsWordChar(r) == IsWordChar(c) && IsSpace(r) == IsSpace(c)
  {
    if IsUpper(c) then (c as int + 32) as char else c
  }

  /** Lowercasing undoes uppercasing on lower-case letters, so distinct
      letters stay distinct under either map. */
  lemma LowerUndoesUpper(c: char)
    requires IsLower(c)
    ensures LowerChar(UpperChar(c)) == c
  {
  }

  /** `s.lower()` on ASCII text: upper-case letters are lowercased one for one
      and every other character is kept. */
  function Lower(s: string): (r: string)
    ensures |r| == |s|
    ensures forall i :: 0 <= i < |s| ==> !IsUpper(s[i]) ==> r[i] == s[i]
    ensures forall i :: 0 <= i < |s| ==> IsUpper(s[i]) ==> IsLower(r[i]) && UpperChar(r[i]) == s[i]
  {
    seq(|s|, i requires 0 <= i < |s| => LowerChar(s[i]))
  }

  /** `s.upper()` on ASCII text: lower-case letters are uppercased one for one
      and every other character is kept. */
  function Upper(s: string): (r: string)
    ensures |r| == |s|
    ensures forall i :: 0 <= i < |s| ==> !IsLower(s[i]) ==> r[i] == s[i]
    ensures forall i :: 0 <= i < |s| ==> IsLower(s[i]) ==> IsUpper(r[i]) && LowerChar(r[i]) == s[i]
  {
    seq(|s|, i requires 0 <= i < |s| => UpperChar(s[i]))
  }

  /** Two strings that agree up to case are uppercased to the same string. */
  lemma UpperIgnoresCase(s: string, t: string)
    requires Lower(s) == Lower(t)
    ensures Upper(s) == Upper(t)
  {
    forall i | 0 <= i < |s|
      ensures Upper(s)[i] == Upper(t)[i]
    {
      assert LowerChar(s[i]) == LowerChar(t[i]) by { assert Lower(s)[i] == Lower(t)[i]; }
    }
  }

  /** Lowercasing an uppercased string gives the lowercased original: a query
      word is uppercased first and lowercased again when it is looked up. */
  lemma LowerOfUpper(s: string)
    ensures Lower(Upper(s)) == Lower(s)
  {
    forall i | 0 <= i < |s|
      ensures Lower(Upper(s))[i] == Lower(s)[i]
    {
    }
  }

  lemma LowerIsIdempotent(s: string)
    ensures Lower(Lower(s)) == Lower(s)
  {
    forall i | 0 <= i < |s|
      ensures Lower(Lower(s))[i] == Lower(s)[i]
    {
    }
  }

  /** s[i..j] is a non-empty run of p-characters that cannot be extended on
      either side. */
  ghost predicate IsMaximalRun(s: string, p: char -> bool, i: int, j: int) {
    && 0 <= i < j <= |s|
    && (forall k :: i <= k < j ==> p(s[k]))
    && (i == 0 || !p(s[i - 1]))
    && (j == |s| || !p(s[j]))
  }

  /** Position i is not strictly inside a run of p-characters. */
  ghost predicate AtRunBoundary(s: string, p: char -> bool, i: int)
    requires 0 <= i <= |s|
  {
    i == 0 || i == |s| || !p(s[i - 1]) || !p(s[i])
  }

  /** The end of the run of p-characters that starts at i: what a greedy `+`
      consumes. */
  function RunEnd(s: string, p: char -> bool, i: nat): (j: nat)
    requires i <= |s|
    ensures i <= j <= |s|
    ensures forall k :: i <= k < j ==> p(s[k])
    ensures j == |s| || !p(s[j])
    decreases |s| - i
  {
    if i == |s| || !p(s[i]) then i else RunEnd(s, p, i + 1)
  }

  /** The maximal runs of p-characters of s that start at or after i, left to
      right. */
  function RunsFrom(s: string, p: char -> bool, i: nat): (rs: seq<string>)
    requires i <= |s|
    ensures forall r :: r in rs ==> |r| > 0 && forall k :: 0 <= k < |r| ==> p(r[k]) && r[k] in s
    decreases |s| - i
  {
    if i == |s| then []
    else if !p(s[i]) then RunsFrom(s, p, i + 1)
    else
      var j := RunEnd(s, p, i);
      assert forall k :: 0 <= k < j - i ==> s[i..j][k] == s[i + k];
      [s[i..j]] + RunsFrom(s, p, j)
  }

  function Runs(s: string, p: char -> bool): seq<string> {
    RunsFrom(s, p, 0)
  }

  /** `s.split()`: the maximal runs of non-whitespace characters. */
  function Split(s: string): (words: seq<string>)
    ensures forall w :: w in words ==> |w| > 0 && forall k :: 0 <= k < |w| ==> !IsSpace(w[k])
  {
    Runs(s, IsNonSpace)
  }

  /** The runs found from a boundary position on are exactly the maximal runs
      that start there or later. */
  lemma {:induction false} RunsFromAreMaximalRuns(s: string, p: char -> bool, i: nat, r: string)
    requires i <= |s| && AtRunBoundary(s, p, i)
    ensures r in RunsFrom(s, p, i) <==> exists a, b :: i <= a && IsMaximalRun(s, p, a, b) && s[a..b] == r
    decreases |s| - i
  {
    if i == |s| {
    } else if !p(s[i]) {
      RunsFromAreMaximalRuns(s, p, i + 1, r);
      if exists a, b :: i <= a && IsMaximalRun(s, p, a, b) && s[a..b] == r {
        var a, b :| i <= a && IsMaximalRun(s, p, a, b) && s[a..b] == r;
        assert a != i;
      }
    } else {
      var j := RunEnd(s, p, i);
      assert IsMaximalRun(s, p, i, j);
      RunsFromAreMaximalRuns(s, p, j, r);
      if exists a, b :: i <= a && IsMaximalRun(s, p, a, b) && s[a..b] == r {
        var a, b :| i <= a && IsMaximalRun(s, p, a, b) && s[a..b] == r;
        if a == i {
          assert b == j;
        } else {
          assert j <= a;
        }
      }
    }
  }

  /** The words of a string are exactly its maximal runs of non-whitespace
      characters. */
  lemma SplitFindsWholeWords(s: string, w: string)
    ensures w in Split(s) <==> exists a, b :: IsMaximalRun(s, IsNonSpace, a, b) && s[a..b] == w
  {
    RunsFromAreMaximalRuns(s, IsNonSpace, 0, w);
  }

  /** A string with no p-character has no runs. */
  lemma {:induction false} NoRunsWithoutMatch(s: string, p: char -> bool, i: nat)
    requires i <= |s|
    requires forall k :: i <= k < |s| ==> !p(s[k])
    ensures RunsFrom(s, p, i) == []
    decreases |s| - i
  {
    if i < |s| {
      NoRunsWithoutMatch(s, p, i + 1);
    }
  }

  function UpperAll(ws: seq<string>): seq<string> {
    seq(|ws|, i requires 0 <= i < |ws| => Upper(ws[i]))
  }

  lemma {:induction false} RunEndOfUpper(s: string, i: nat)
    requires i <= |s|
    ensures RunEnd(Upper(s), IsNonSpace, i) == RunEnd(s, IsNonSpace, i)
    decreases |s| - i
  {
    if i < |s| && IsNonSpace(s[i]) {
      RunEndOfUpper(s, i + 1);
    }
  }

  lemma UpperOfSlice(s: string, i: nat, j: nat)
    requires i <= j <= |s|
    ensures Upper(s)[i..j] == Upper(s[i..j])
  {
  }

  lemma UpperAllCons(w: string, ws: seq<string>)
    ensures UpperAll([w] + ws) == [Upper(w)] + UpperAll(ws)
  {
  }

  lemma {:induction false} RunsFromOfUpper(s: string, i: nat)
    requires i <= |s|
    ensures RunsFrom(Upper(s), IsNonSpace, i) == UpperAll(RunsFrom(s, IsNonSpace, i))
    decreases |s| - i
  {
    if i < |s| {
      var u := Upper(s);
      assert u[i] == UpperChar(s[i]);
      if IsNonSpace(s[i]) {
        var j := RunEnd(s, IsNonSpace, i);
        var rest := RunsFrom(s, IsNonSpace, j);
        RunEndOfUpper(s, i);
        RunsFromOfUpper(s, j);
        UpperOfSlice(s, i, j);
        UpperAllCons(s[i..j], rest);
        assert RunsFrom(s, IsNonSpace, i) == [s[i..j]] + rest;
        assert RunsFrom(u, IsNonSpace, i) == [u[i..j]] + RunsFrom(u, IsNonSpace, j);
      } else {
        RunsFromOfUpper(s, i + 1);
        assert RunsFrom(u, IsNonSpace, i) == RunsFrom(u, IsNonSpace, i + 1);
      }
    }
  }

  /** Uppercasing a string and then splitting it gives the words of the string,
      each uppercased: case mapping keeps whitespace and non-whitespace apart. */
  lemma SplitOfUpper(s: string)
    ensures Split(Upper(s)) == UpperAll(Split(s))
  {
    RunsFromOfUpper(s, 0);
  }

  /** A word of `split()`: non-empty, with no whitespace. */
  predicate IsWord(w: string) {
    |w| > 0 && forall k :: 0 <= k < |w| ==> !IsSpace(w[k])
  }

  /** A prefix x shifts the end of every run of y by |x|. */
  lemma {:induction false} RunEndAfterPrefix(x: string, y: string, p: char -> bool, i: nat)
    requires i <= |y|
    ensures RunEnd(x + y, p, |x| + i) == |x| + RunEnd(y, p, i)
    decreases |y| - i
  {
    if i < |y| {
      assert (x + y)[|x| + i] == y[i];
      if p(y[i]) {
        RunEndAfterPrefix(x, y, p, i + 1);
      }
    }
  }

  lemma SliceAfterPrefix(x: string, y: string, i: nat, j: nat)
    requires i <= j <= |y|
    ensures (x + y)[|x| + i..|x| + j] == y[i..j]
  {
  }

  lemma RunsFromAtRun(s: string, p: char -> bool, i: nat)
    requires i < |s| && p(s[i])
    ensures RunsFrom(s, p, i) == [s[i..RunEnd(s, p, i)]] + RunsFrom(s, p, RunEnd(s, p, i))
  {
  }

  /** One run of y, seen inside x + y. */
  lemma RunAfterPrefix(x: string, y: string, p: char -> bool, i: nat)
    requires i < |y| && p(y[i])
    ensures RunsFrom(x + y, p, |x| + i) == [y[i..RunEnd(y, p, i)]] + RunsFrom(x + y, p, |x| + RunEnd(y, p, i))
  {
    var s, j := x + y, RunEnd(y, p, i);
    assert s[|x| + i] == y[i];
    RunEndAfterPrefix(x, y, p, i);
    SliceAfterPrefix(x, y, i, j);
    RunsFromAtRun(s, p, |x| + i);
  }

  /** One skipped character of y, seen inside x + y. */
  lemma SkipAfterPrefix(x: string, y: string, p: char -> bool, i: nat)
    requires i < |y| && !p(y[i])
    ensures RunsFrom(y, p, i) == RunsFrom(y, p, i + 1)
    ensures RunsFrom(x + y, p, |x| + i) == RunsFrom(x + y, p, |x| + i + 1)
  {
    assert (x + y)[|x| + i] == y[i];
  }

  /** The runs of x + y found from a boundary inside y are the runs of y. */
  lemma {:induction false} RunsFromAfterPrefix(x: string, y: string, p: char -> bool, i: nat)
    requires i <= |y|
    ensures RunsFrom(x + y, p, |x| + i) == RunsFrom(y, p, i)
    decreases |y| - i
  {
    if i < |y| {
      if p(y[i]) {
        var j := RunEnd(y, p, i);
        RunAfterPrefix(x, y, p, i);
        RunsFromAfterPrefix(x, y, p, j);
        RunsFromAtRun(y, p, i);
      } else {
        SkipAfterPrefix(x, y, p, i);
        RunsFromAfterPrefix(x, y, p, i + 1);
      }
    }
  }

  /** Leading whitespace is skipped. */
  lemma SplitSkipsSpace(c: char, t: string)
    requires IsSpace(c)
    ensures Split([c] + t) == Split(t)
  {
    RunsFromAfterPrefix([c], t, IsNonSpace, 0);
  }

  /** A word followed by whitespace is the first word, and the words of the
      rest follow it in their order: `split()` keeps order and repetitions. */
  lemma SplitLeadingWord(w: string, c: char, t: string)
    requires IsWord(w) && IsSpace(c)
    ensures Split(w + [c] + t) == [w] + Split(t)
  {
    var s := w + ([c] + t);
    assert w + [c] + t == s;
    assert s[|w|] == c;
    assert forall k :: 0 <= k < |w| ==> s[k] == w[k];
    var j := RunEnd(s, IsNonSpace, 0);
    assert j == |w|;
    assert s[0..|w|] == w;
    RunsFromAtRun(s, IsNonSpace, 0);
    RunsFromAfterPrefix(w, [c] + t, IsNonSpace, 0);
    SplitSkipsSpace(c, t);
  }

  /** A single word is split into itself. */
  lemma SplitSingleWord(w: string)
    requires IsWord(w)
    ensures Split(w) == [w]
  {
    var j := RunEnd(w, IsNonSpace, 0);
    assert j == |w|;
    assert w[0..|w|] == w;
    RunsFromAtRun(w, IsNonSpace, 0);
    assert RunsFrom(w, IsNonSpace, |w|) == [];
  }
}
