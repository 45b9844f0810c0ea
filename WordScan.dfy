/**
 * A model of Python's re.findall for the two word patterns the text processors use,
 * `\b[a-zA-Z]+\b` and `\b[一-鿿]{2,5}\b`, and their characterisation as maximal runs
 * of word characters. The class `\w` that `\b` refers to is the parameter isWord; the
 * results about the patterns hold for every class that covers the characters they match.
 */
module WordScan {
  import opened Wrappers
  import opened Text

  /** The character class inside a word pattern. */
  datatype CharClass = Cjk | AsciiLetters

  predicate InClass(c: char, cls: CharClass) {
    match cls
    case Cjk => IsCjk(c)
    case AsciiLetters => IsAsciiLetter(c)
  }

  /** `\b C{lo,hi} \b`; hi == None stands for an unbounded `+` or `{lo,}`. */
  datatype Pattern = Pattern(cls: CharClass, lo: nat, hi: Option<nat>)

  /** `\b[一-鿿]{2,5}\b` from extract_keywords. */
  const CjkKeyword := Pattern(Cjk, 2, Some(5))
  /** `\b[a-zA-Z]+\b` from estimate_word_count. */
  const AsciiWord := Pattern(AsciiLetters, 1, None)

  lemma ClassIsWord(isWord: char -> bool, c: char, cls: CharClass)
    requires CoversWord(isWord)
    ensures InClass(c, cls) ==> isWord(c)
  {
  }

  // ---------------------------------------------------------------------------
  // Maximal runs of word characters

  /** Where the run of word characters starting at p ends: p itself when s[p] is not a word character. */
  function RunEnd(isWord: char -> bool, s: string, p: nat): (e: nat)
    requires p <= |s|
    ensures p <= e <= |s|
    ensures e < |s| ==> !isWord(s[e])
    decreases |s| - p
  {
    if p < |s| && isWord(s[p]) then RunEnd(isWord, s, p + 1) else p
  }

  lemma {:induction false} RunEndAt(isWord: char -> bool, s: string, p: nat, k: nat)
    requires p <= |s| && p <= k < RunEnd(isWord, s, p)
    ensures isWord(s[k])
    decreases |s| - p
  {
    if k > p {
      RunEndAt(isWord, s, p + 1, k);
    }
  }

  /** The maximal runs of word characters of s from position p on, left to right. */
  function RunsFrom(isWord: char -> bool, s: string, p: nat): seq<string>
    requires p <= |s|
    decreases |s| - p
  {
    if p == |s| then []
    else if !isWord(s[p]) then RunsFrom(isWord, s, p + 1)
    else
      var e := RunEnd(isWord, s, p);
      [s[p..e]] + RunsFrom(isWord, s, e)
  }

  /** The maximal runs of word characters of s, left to right. */
  function WordRuns(isWord: char -> bool, s: string): seq<string> {
    RunsFrom(isWord, s, 0)
  }

  /** A word character at p starts a run that reaches at least p + 1. */
  lemma RunsFromAt(isWord: char -> bool, s: string, p: nat)
    requires p < |s| && isWord(s[p])
    ensures p < RunEnd(isWord, s, p)
    ensures RunsFrom(isWord, s, p) == [s[p..RunEnd(isWord, s, p)]] + RunsFrom(isWord, s, RunEnd(isWord, s, p))
  {
  }

  predicate AllInClass(w: string, cls: CharClass) {
    forall i :: 0 <= i < |w| ==> InClass(w[i], cls)
  }

  /** The runs a pattern keeps: made only of its class, with a length in its bounds. */
  predicate Keeps(pat: Pattern, w: string) {
    AllInClass(w, pat.cls) && pat.lo <= |w| && (pat.hi.None? || |w| <= pat.hi.value)
  }

  function KeepRuns(runs: seq<string>, pat: Pattern): (r: seq<string>)
    ensures |r| <= |runs|
  {
    if runs == [] then []
    else (if Keeps(pat, runs[0]) then [runs[0]] else []) + KeepRuns(runs[1..], pat)
  }

  /** Every kept run is one of the runs, and the pattern keeps it. */
  lemma {:induction false} KeepRunsKept(runs: seq<string>, pat: Pattern, i: nat)
    requires i < |KeepRuns(runs, pat)|
    ensures Keeps(pat, KeepRuns(runs, pat)[i]) && KeepRuns(runs, pat)[i] in runs
  {
    var head := if Keeps(pat, runs[0]) then [runs[0]] else [];
    var rest := KeepRuns(runs[1..], pat);
    if i >= |head| {
      assert KeepRuns(runs, pat)[i] == rest[i - |head|];
      var j := i - |head|;
      KeepRunsKept(runs[1..], pat, j);
      var k :| 0 <= k < |runs[1..]| && runs[1..][k] == rest[j];
      assert runs[k + 1] == rest[j];
    }
  }

  lemma KeepRunsCons(w: string, runs: seq<string>, pat: Pattern)
    ensures KeepRuns([w] + runs, pat) == (if Keeps(pat, w) then [w] else []) + KeepRuns(runs, pat)
  {
    assert ([w] + runs)[0] == w;
    assert ([w] + runs)[1..] == runs;
  }

  /** A list of runs that starts with w keeps w, if the pattern keeps it, before what it keeps of the rest. */
  lemma KeepCons(found: seq<string>, rest: seq<string>, runs: seq<string>, tail: seq<string>, w: string, pat: Pattern)
    requires runs == [w] + tail
    requires rest == KeepRuns(tail, pat)
    requires found == (if Keeps(pat, w) then [w] else []) + rest
    ensures found == KeepRuns(runs, pat)
  {
    KeepRunsCons(w, tail, pat);
  }

  lemma {:induction false} KeepRunsAppend(a: seq<string>, b: seq<string>, pat: Pattern)
    ensures KeepRuns(a + b, pat) == KeepRuns(a, pat) + KeepRuns(b, pat)
  {
    if a == [] {
      assert a + b == b;
    } else {
      assert (a + b)[0] == a[0] && (a + b)[1..] == a[1..] + b;
      KeepRunsAppend(a[1..], b, pat);
    }
  }

  // ---------------------------------------------------------------------------
  // The regex engine's view: \b, greedy repetition with backtracking, findall

  /** `\b` at position p: a word character on exactly one side of p. */
  predicate Boundary(isWord: char -> bool, s: string, p: nat)
    requires p <= |s|
  {
    (p > 0 && isWord(s[p - 1])) != (p < |s| && isWord(s[p]))
  }

  /** How many characters of the class follow position p: what a greedy `C*` first takes. */
  function ClassRun(s: string, p: nat, cls: CharClass): (n: nat)
    requires p <= |s|
    ensures p + n <= |s|
    ensures forall k :: p <= k < p + n ==> InClass(s[k], cls)
    ensures p + n < |s| ==> !InClass(s[p + n], cls)
    decreases |s| - p
  {
    if p < |s| && InClass(s[p], cls) then 1 + ClassRun(s, p + 1, cls) else 0
  }

  /** Backtracking: try match lengths q, q-1, ..., lo and keep the first followed by `\b`. */
  function TryLengths(isWord: char -> bool, s: string, p: nat, q: nat, lo: nat): (r: Option<nat>)
    requires p + q <= |s| && lo >= 1
    ensures r.Some? ==> lo <= r.value <= q && Boundary(isWord, s, p + r.value)
    decreases q
  {
    if q < lo then None
    else if Boundary(isWord, s, p + q) then Some(q)
    else TryLengths(isWord, s, p, q - 1, lo)
  }

  /** The length of the match of the pattern at position p, if it matches there. */
  function MatchAt(isWord: char -> bool, s: string, p: nat, pat: Pattern): (r: Option<nat>)
    requires p <= |s| && pat.lo >= 1
    ensures r.Some? ==> pat.lo <= r.value && p + r.value <= |s|
    ensures r.Some? ==> Boundary(isWord, s, p) && Boundary(isWord, s, p + r.value) && Keeps(pat, s[p..p + r.value])
  {
    if !Boundary(isWord, s, p) then None
    else
      var run := ClassRun(s, p, pat.cls);
      var top := if pat.hi.Some? && pat.hi.value < run then pat.hi.value else run;
      TryLengths(isWord, s, p, top, pat.lo)
  }

  /** re.findall from position p: scan, and after a match resume where it ended. */
  function FindAll(isWord: char -> bool, s: string, p: nat, pat: Pattern): (r: seq<string>)
    requires p <= |s| && pat.lo >= 1
    ensures forall i :: 0 <= i < |r| ==> Keeps(pat, r[i])
    decreases |s| - p
  {
    if p == |s| then []
    else
      match MatchAt(isWord, s, p, pat)
      case Some(q) => [s[p..p + q]] + FindAll(isWord, s, p + q, pat)
      case None => FindAll(isWord, s, p + 1, pat)
  }

  /** p does not fall strictly inside a run of word characters. */
  predicate AtRunEdge(isWord: char -> bool, s: string, p: nat)
    requires p <= |s|
  {
    p == 0 || p == |s| || !isWord(s[p - 1]) || !isWord(s[p])
  }

  /** Inside a run of word characters no backtracking length reaches a `\b`. */
  lemma {:induction false} NoBoundaryInsideRun(isWord: char -> bool, s: string, p: nat, q: nat, lo: nat, n: nat)
    requires p + n <= |s| && lo >= 1 && q < n
    requires forall k :: p <= k < p + n ==> isWord(s[k])
    ensures TryLengths(isWord, s, p, q, lo) == None
    decreases q
  {
    if q >= lo {
      assert !Boundary(isWord, s, p + q) by {
        assert isWord(s[p + q - 1]) && isWord(s[p + q]);
      }
      NoBoundaryInsideRun(isWord, s, p, q - 1, lo, n);
    }
  }

  /** Scanning from inside a word run finds the same as scanning from the run's end. */
  lemma {:induction false} SkipInsideRun(isWord: char -> bool, s: string, p: nat, e: nat, pat: Pattern)
    requires 1 <= p <= e <= |s| && pat.lo >= 1
    requires forall k :: p - 1 <= k < e ==> isWord(s[k])
    ensures FindAll(isWord, s, p, pat) == FindAll(isWord, s, e, pat)
    decreases e - p
  {
    if p < e {
      assert !Boundary(isWord, s, p);
      SkipInsideRun(isWord, s, p + 1, e, pat);
    }
  }

  /** At the start of a word run of length n the pattern matches exactly when it keeps the whole run. */
  lemma MatchAtRunStart(isWord: char -> bool, s: string, p: nat, pat: Pattern, n: nat)
    requires CoversWord(isWord)
    requires p + n <= |s| && pat.lo >= 1 && n >= 1
    requires p == 0 || !isWord(s[p - 1])
    requires forall k :: p <= k < p + n ==> isWord(s[k])
    requires p + n == |s| || !isWord(s[p + n])
    ensures MatchAt(isWord, s, p, pat) == if Keeps(pat, s[p..p + n]) then Some(n) else None
  {
    var c := ClassRun(s, p, pat.cls);
    forall k | p <= k < p + c ensures isWord(s[k]) { ClassIsWord(isWord, s[k], pat.cls); }
    if p + n < |s| {
      ClassIsWord(isWord, s[p + n], pat.cls);
    }
    assert AllInClass(s[p..p + n], pat.cls) <==> c == n by {
      if c < n { assert s[p..p + n][c] == s[p + c]; }
    }
    var top := if pat.hi.Some? && pat.hi.value < c then pat.hi.value else c;
    assert Boundary(isWord, s, p);
    if !Keeps(pat, s[p..p + n]) && top < n {
      NoBoundaryInsideRun(isWord, s, p, top, pat.lo, n);
    }
  }

  /** The matches re.findall reports are exactly the maximal word runs the pattern keeps. */
  lemma {:induction false} FindAllKeepsRuns(isWord: char -> bool, s: string, p: nat, pat: Pattern)
    requires CoversWord(isWord)
    requires p <= |s| && pat.lo >= 1 && AtRunEdge(isWord, s, p)
    ensures FindAll(isWord, s, p, pat) == KeepRuns(RunsFrom(isWord, s, p), pat)
    decreases |s| - p
  {
    if p < |s| {
      if !isWord(s[p]) {
        SkipNonWord(isWord, s, p, pat);
        FindAllKeepsRuns(isWord, s, p + 1, pat);
      } else {
        var e := RunEnd(isWord, s, p);
        RunsFromAt(isWord, s, p);
        AtRunStep(isWord, s, p, pat);
        FindAllKeepsRuns(isWord, s, e, pat);
        KeepCons(FindAll(isWord, s, p, pat), FindAll(isWord, s, e, pat), RunsFrom(isWord, s, p), RunsFrom(isWord, s, e), s[p..e], pat);
      }
    }
  }

  /** At a run start, findall advances past the whole run. */
  lemma AtRunStep(isWord: char -> bool, s: string, p: nat, pat: Pattern)
    requires CoversWord(isWord)
    requires p < |s| && pat.lo >= 1 && AtRunEdge(isWord, s, p) && isWord(s[p])
    ensures var e := RunEnd(isWord, s, p);
      && p < e && AtRunEdge(isWord, s, e)
      && FindAll(isWord, s, p, pat) == (if Keeps(pat, s[p..e]) then [s[p..e]] else []) + FindAll(isWord, s, e, pat)
  {
    var e := RunEnd(isWord, s, p);
    RunsFromAt(isWord, s, p);
    forall k | p <= k < e ensures isWord(s[k]) {
      RunEndAt(isWord, s, p, k);
    }
    FindAllAtRun(isWord, s, p, pat, e - p);
  }

  /** A character that is not a word character starts no match and no run. */
  lemma SkipNonWord(isWord: char -> bool, s: string, p: nat, pat: Pattern)
    requires CoversWord(isWord)
    requires p < |s| && pat.lo >= 1 && !isWord(s[p])
    ensures FindAll(isWord, s, p, pat) == FindAll(isWord, s, p + 1, pat)
    ensures AtRunEdge(isWord, s, p + 1)
  {
    ClassIsWord(isWord, s[p], pat.cls);
    assert MatchAt(isWord, s, p, pat) == None;
  }

  /** At a run start, findall reports the run if the pattern keeps it and resumes at its end. */
  lemma FindAllAtRun(isWord: char -> bool, s: string, p: nat, pat: Pattern, n: nat)
    requires CoversWord(isWord)
    requires p + n <= |s| && pat.lo >= 1 && n >= 1 && AtRunEdge(isWord, s, p)
    requires forall k :: p <= k < p + n ==> isWord(s[k])
    requires p + n == |s| || !isWord(s[p + n])
    ensures FindAll(isWord, s, p, pat) ==
      (if Keeps(pat, s[p..p + n]) then [s[p..p + n]] else []) + FindAll(isWord, s, p + n, pat)
  {
    MatchAtRunStart(isWord, s, p, pat, n);
    if Keeps(pat, s[p..p + n]) {
      FindAllMatch(isWord, s, p, pat, n);
    } else {
      FindAllSkipRun(isWord, s, p, pat, n);
      assert [] + FindAll(isWord, s, p + n, pat) == FindAll(isWord, s, p + n, pat);
    }
  }

  /** When the pattern does not match at the start of a run, findall resumes at the run's end. */
  lemma FindAllSkipRun(isWord: char -> bool, s: string, p: nat, pat: Pattern, n: nat)
    requires p + n <= |s| && pat.lo >= 1 && n >= 1 && MatchAt(isWord, s, p, pat) == None
    requires forall k :: p <= k < p + n ==> isWord(s[k])
    ensures FindAll(isWord, s, p, pat) == FindAll(isWord, s, p + n, pat)
  {
    FindAllNoMatch(isWord, s, p, pat);
    SkipInsideRun(isWord, s, p + 1, p + n, pat);
  }

  lemma FindAllMatch(isWord: char -> bool, s: string, p: nat, pat: Pattern, q: nat)
    requires p < |s| && pat.lo >= 1 && MatchAt(isWord, s, p, pat) == Some(q)
    ensures FindAll(isWord, s, p, pat) == [s[p..p + q]] + FindAll(isWord, s, p + q, pat)
  {
  }

  lemma FindAllNoMatch(isWord: char -> bool, s: string, p: nat, pat: Pattern)
    requires p < |s| && pat.lo >= 1 && MatchAt(isWord, s, p, pat) == None
    ensures FindAll(isWord, s, p, pat) == FindAll(isWord, s, p + 1, pat)
  {
  }

  // ---------------------------------------------------------------------------
  // How word runs behave under concatenation

  lemma {:induction false} NoRunsFrom(isWord: char -> bool, t: string, p: nat)
    requires p <= |t|
    requires forall i :: p <= i < |t| ==> !isWord(t[i])
    ensures RunsFrom(isWord, t, p) == []
    decreases |t| - p
  {
    if p < |t| {
      NoRunsFrom(isWord, t, p + 1);
    }
  }

  lemma NoRunsInNonWord(isWord: char -> bool, t: string)
    requires forall i :: 0 <= i < |t| ==> !isWord(t[i])
    ensures WordRuns(isWord, t) == []
  {
    NoRunsFrom(isWord, t, 0);
  }

  lemma SliceShift(a: string, u: string, q: nat, e: nat)
    requires q <= e <= |u|
    ensures (a + u)[|a| + q..|a| + e] == u[q..e]
  {
  }

  lemma SlicePrefix(s: string, u: string, p: nat, e: nat)
    requires p <= e <= |s|
    ensures (s + u)[p..e] == s[p..e]
  {
  }

  lemma ConsAppend<T>(x: seq<T>, w: T, y: seq<T>, z: seq<T>, t: seq<T>, v: seq<T>)
    requires x == [w] + y && y == z + t && v == [w] + z
    ensures x == v + t
  {
  }

  /** A run in u ends at the same place when u is put after a. */
  lemma {:induction false} RunEndShift(isWord: char -> bool, a: string, u: string, q: nat)
    requires q <= |u|
    ensures RunEnd(isWord, a + u, |a| + q) == |a| + RunEnd(isWord, u, q)
    decreases |u| - q
  {
    if q < |u| {
      assert (a + u)[|a| + q] == u[q];
      if isWord(u[q]) {
        RunEndShift(isWord, a, u, q + 1);
      }
    }
  }

  /** The runs of u from q are the runs of a + u from |a| + q. */
  lemma {:induction false} RunsShift(isWord: char -> bool, a: string, u: string, q: nat)
    requires q <= |u|
    ensures RunsFrom(isWord, a + u, |a| + q) == RunsFrom(isWord, u, q)
    decreases |u| - q
  {
    if q < |u| {
      assert (a + u)[|a| + q] == u[q];
      if !isWord(u[q]) {
        RunsShift(isWord, a, u, q + 1);
      } else {
        var e := RunEnd(isWord, u, q);
        RunsFromAt(isWord, u, q);
        RunEndShift(isWord, a, u, q);
        RunsFromAt(isWord, a + u, |a| + q);
        SliceShift(a, u, q, e);
        RunsShift(isWord, a, u, e);
      }
    }
  }

  /** A run of s ends at the same place in s + u unless it reaches the end of s and u goes on with a word character. */
  lemma {:induction false} RunEndPrefix(isWord: char -> bool, s: string, u: string, p: nat)
    requires p <= |s|
    requires RunEnd(isWord, s, p) < |s| || u == [] || !isWord(u[0])
    ensures RunEnd(isWord, s + u, p) == RunEnd(isWord, s, p)
    decreases |s| - p
  {
    if p < |s| {
      assert (s + u)[p] == s[p];
      if isWord(s[p]) {
        RunEndPrefix(isWord, s, u, p + 1);
      }
    } else if u != [] {
      assert (s + u)[p] == u[0];
    }
  }

  lemma {:induction false} RunsFromAppend(isWord: char -> bool, s: string, u: string, p: nat)
    requires p <= |s|
    requires s == [] || u == [] || !isWord(s[|s| - 1]) || !isWord(u[0])
    ensures RunsFrom(isWord, s + u, p) == RunsFrom(isWord, s, p) + WordRuns(isWord, u)
    decreases |s| - p
  {
    if p == |s| {
      RunsShift(isWord, s, u, 0);
    } else {
      assert (s + u)[p] == s[p];
      if !isWord(s[p]) {
        RunsFromAppend(isWord, s, u, p + 1);
      } else {
        var e := RunEnd(isWord, s, p);
        RunsFromAt(isWord, s, p);
        if e == |s| {
          RunEndAt(isWord, s, p, |s| - 1);
        }
        RunEndPrefix(isWord, s, u, p);
        RunsFromAt(isWord, s + u, p);
        SlicePrefix(s, u, p, e);
        RunsFromAppend(isWord, s, u, e);
        ConsAppend(RunsFrom(isWord, s + u, p), s[p..e], RunsFrom(isWord, s + u, e), RunsFrom(isWord, s, e), WordRuns(isWord, u), RunsFrom(isWord, s, p));
      }
    }
  }

  /** Two texts that do not meet inside a word have the runs of each, in order. */
  lemma WordRunsAppend(isWord: char -> bool, s: string, u: string)
    requires s == [] || u == [] || !isWord(s[|s| - 1]) || !isWord(u[0])
    ensures WordRuns(isWord, s + u) == WordRuns(isWord, s) + WordRuns(isWord, u)
  {
    RunsFromAppend(isWord, s, u, 0);
  }

  // ---------------------------------------------------------------------------
  // `[一-鿿]`: every CJK character is a match of its own

  function CountCjk(s: string): (n: nat)
    ensures n <= |s|
  {
    if s == [] then 0 else (if IsCjk(s[0]) then 1 else 0) + CountCjk(s[1..])
  }

  lemma {:induction false} CountCjkAppend(s: string, u: string)
    ensures CountCjk(s + u) == CountCjk(s) + CountCjk(u)
  {
    if s != [] {
      assert (s + u)[1..] == s[1..] + u;
      CountCjkAppend(s[1..], u);
    } else {
      assert s + u == u;
    }
  }
}
