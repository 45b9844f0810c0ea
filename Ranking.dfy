/**
 * Frequency ranking as extract_keywords does it: a dict filled in token order
 * (so its keys are the distinct tokens in order of first occurrence), a stable
 * sort by count in descending order, and a Python slice `[:n]`.
 */
module Ranking {

  /** Occurrences of w in s. */
  function Count(s: seq<string>, w: string): nat {
    multiset(s)[w]
  }

  predicate NoDuplicates(s: seq<string>) {
    forall i, j :: 0 <= i < j < |s| ==> s[i] != s[j]
  }

  /** Position of the first occurrence of w in s. */
  function FirstIndex(s: seq<string>, w: string): (k: nat)
    requires w in s
    ensures k < |s| && s[k] == w
    ensures forall i :: 0 <= i < k ==> s[i] != w
  {
    if s[0] == w then 0 else 1 + FirstIndex(s[1..], w)
  }

  /** The keys of a dict into which the elements of s are inserted in order. */
  function Distinct(s: seq<string>): (r: seq<string>)
    ensures forall w :: w in r <==> w in s
    ensures NoDuplicates(r)
  {
    if s == [] then []
    else
      var d := Distinct(s[..|s| - 1]);
      var x := s[|s| - 1];
      if x in d then d else d + [x]
  }

  lemma FirstIndexPrefix(s: seq<string>, t: seq<string>, w: string)
    requires w in s
    ensures FirstIndex(s + t, w) == FirstIndex(s, w)
  {
    assert forall i :: 0 <= i < |s| ==> (s + t)[i] == s[i];
  }

  /** The dict's keys are ordered by first occurrence. */
  lemma {:induction false} DistinctInFirstOccurrenceOrder(s: seq<string>)
    ensures forall i, j :: 0 <= i < j < |Distinct(s)| ==>
      FirstIndex(s, Distinct(s)[i]) < FirstIndex(s, Distinct(s)[j])
  {
    if s != [] {
      var p, x := s[..|s| - 1], s[|s| - 1];
      assert s == p + [x];
      var d := Distinct(p);
      DistinctInFirstOccurrenceOrder(p);
      forall w | w in p ensures FirstIndex(s, w) == FirstIndex(p, w) && FirstIndex(p, w) < |p| {
        FirstIndexPrefix(p, [x], w);
      }
      if x !in d {
        assert FirstIndex(s, x) == |p|;
      }
    }
  }

  /** x comes before y in the ranking: more occurrences, or as many and an earlier first occurrence. */
  predicate Ahead(s: seq<string>, x: string, y: string)
    requires x in s && y in s
  {
    Count(s, x) > Count(s, y) || (Count(s, x) == Count(s, y) && FirstIndex(s, x) < FirstIndex(s, y))
  }

  /** r lists words of s, each strictly ahead of every later one. */
  predicate RankedBy(s: seq<string>, r: seq<string>) {
    (forall i :: 0 <= i < |r| ==> r[i] in s)
    && forall i, j :: 0 <= i < j < |r| ==> Ahead(s, r[i], r[j])
  }

  /** A ranking lists no word twice, as no word is strictly ahead of itself. */
  lemma RankedNoDuplicates(s: seq<string>, r: seq<string>)
    requires RankedBy(s, r)
    ensures NoDuplicates(r)
  {
  }

  predicate CountsAgree(s: seq<string>, freq: map<string, nat>) {
    forall w :: w in freq ==> w in s && freq[w] == Count(s, w)
  }

  /** Insert x after every element counted at least as often: the step of a stable descending sort. */
  function Insert(x: string, sorted: seq<string>, freq: map<string, nat>): (r: seq<string>)
    requires x in freq && forall i :: 0 <= i < |sorted| ==> sorted[i] in freq
    ensures multiset(r) == multiset(sorted) + multiset{x}
    ensures forall i :: 0 <= i < |r| ==> r[i] in freq
  {
    if sorted == [] then [x]
    else if freq[sorted[0]] >= freq[x] then
      assert sorted == [sorted[0]] + sorted[1..];
      [sorted[0]] + Insert(x, sorted[1..], freq)
    else [x] + sorted
  }

  /**
   * Python's sorted(items, key=count, reverse=True). That sort is stable, so any stable
   * sort gives the same list; this one is insertion sort.
   */
  function SortByCount(ws: seq<string>, freq: map<string, nat>): (r: seq<string>)
    requires forall i :: 0 <= i < |ws| ==> ws[i] in freq
    ensures multiset(r) == multiset(ws)
    ensures forall i :: 0 <= i < |r| ==> r[i] in freq
  {
    if ws == [] then []
    else
      assert ws == ws[..|ws| - 1] + [ws[|ws| - 1]];
      Insert(ws[|ws| - 1], SortByCount(ws[..|ws| - 1], freq), freq)
  }

  /** A word ahead of every element of a ranked list can be put in front of it. */
  lemma RankedCons(s: seq<string>, h: string, rest: seq<string>)
    requires h in s && RankedBy(s, rest)
    requires forall j :: 0 <= j < |rest| ==> Ahead(s, h, rest[j])
    ensures RankedBy(s, [h] + rest)
  {
    var r := [h] + rest;
    assert forall j :: 0 < j < |r| ==> r[j] == rest[j - 1];
  }

  /** Inserting a word that first occurs after every ranked word keeps the list ranked. */
  lemma {:induction false} InsertRanked(s: seq<string>, freq: map<string, nat>, x: string, sorted: seq<string>)
    requires CountsAgree(s, freq) && x in freq
    requires forall i :: 0 <= i < |sorted| ==> sorted[i] in freq
    requires RankedBy(s, sorted)
    requires forall i :: 0 <= i < |sorted| ==> FirstIndex(s, sorted[i]) < FirstIndex(s, x)
    ensures RankedBy(s, Insert(x, sorted, freq))
    decreases |sorted|
  {
    if sorted == [] {
      assert Insert(x, sorted, freq) == [x];
    } else if freq[sorted[0]] >= freq[x] {
      var rest := Insert(x, sorted[1..], freq);
      assert RankedBy(s, sorted[1..]) by {
        assert forall j :: 0 <= j < |sorted[1..]| ==> sorted[1..][j] == sorted[j + 1];
      }
      InsertRanked(s, freq, x, sorted[1..]);
      HeadAheadOfInserted(s, freq, x, sorted);
      RankedCons(s, sorted[0], rest);
    } else {
      forall j | 0 <= j < |sorted| ensures Ahead(s, x, sorted[j]) {
        assert j > 0 ==> Ahead(s, sorted[0], sorted[j]);
      }
      RankedCons(s, x, sorted);
    }
  }

  /** When x goes after the first element, that element is ahead of everything after it. */
  lemma HeadAheadOfInserted(s: seq<string>, freq: map<string, nat>, x: string, sorted: seq<string>)
    requires CountsAgree(s, freq) && x in freq
    requires forall i :: 0 <= i < |sorted| ==> sorted[i] in freq
    requires RankedBy(s, sorted) && sorted != [] && freq[sorted[0]] >= freq[x]
    requires FirstIndex(s, sorted[0]) < FirstIndex(s, x)
    ensures forall j :: 0 <= j < |Insert(x, sorted[1..], freq)| ==> Ahead(s, sorted[0], Insert(x, sorted[1..], freq)[j])
  {
    var rest := Insert(x, sorted[1..], freq);
    forall j | 0 <= j < |rest| ensures Ahead(s, sorted[0], rest[j]) {
      assert rest[j] in multiset(sorted[1..]) + multiset{x};
      if rest[j] != x {
        assert rest[j] in sorted[1..];
        var k :| 0 <= k < |sorted[1..]| && sorted[1..][k] == rest[j];
        assert sorted[k + 1] == rest[j];
      }
    }
  }

  /** A key among the first n-1 of the dict first occurs before key n-1. */
  lemma EarlierKey(s: seq<string>, n: nat, y: string)
    requires 0 < n <= |Distinct(s)| && y in Distinct(s)[..n - 1]
    ensures FirstIndex(s, y) < FirstIndex(s, Distinct(s)[n - 1])
  {
    DistinctInFirstOccurrenceOrder(s);
    var k :| 0 <= k < n - 1 && Distinct(s)[..n - 1][k] == y;
    assert Distinct(s)[k] == y;
  }

  /** Sorting the dict's keys by count ranks them: by count, ties by first occurrence. */
  lemma {:induction false} SortRanks(s: seq<string>, freq: map<string, nat>, n: nat)
    requires CountsAgree(s, freq) && forall w :: w in s ==> w in freq
    requires n <= |Distinct(s)|
    ensures RankedBy(s, SortByCount(Distinct(s)[..n], freq))
  {
    var d := Distinct(s);
    KeysCounted(s, freq);
    if n > 0 {
      SortRanks(s, freq, n - 1);
      var ws := d[..n];
      assert ws[..n - 1] == d[..n - 1] && ws[n - 1] == d[n - 1];
      assert SortByCount(ws, freq) == Insert(d[n - 1], SortByCount(d[..n - 1], freq), freq);
      InsertLastKey(s, freq, n, SortByCount(d[..n - 1], freq));
    }
  }

  lemma KeysCounted(s: seq<string>, freq: map<string, nat>)
    requires forall w :: w in s ==> w in freq
    ensures forall n, i :: 0 <= i < n <= |Distinct(s)| ==> Distinct(s)[..n][i] in freq
  {
    forall n, i | 0 <= i < n <= |Distinct(s)| ensures Distinct(s)[..n][i] in freq {
      assert Distinct(s)[..n][i] in Distinct(s);
    }
  }

  /** The step of SortRanks: key n-1 goes into the ranked first n-1 keys. */
  lemma InsertLastKey(s: seq<string>, freq: map<string, nat>, n: nat, sorted: seq<string>)
    requires CountsAgree(s, freq) && forall w :: w in s ==> w in freq
    requires 0 < n <= |Distinct(s)|
    requires sorted == SortByCount(Distinct(s)[..n - 1], freq) && RankedBy(s, sorted)
    ensures RankedBy(s, Insert(Distinct(s)[n - 1], sorted, freq))
  {
    var d := Distinct(s);
    forall i | 0 <= i < |sorted| ensures FirstIndex(s, sorted[i]) < FirstIndex(s, d[n - 1]) {
      assert sorted[i] in multiset(d[..n - 1]);
      EarlierKey(s, n, sorted[i]);
    }
    InsertRanked(s, freq, d[n - 1], sorted);
  }

  /** How many items Python's s[:n] keeps of a list of length len; a negative n counts from the end. */
  function SliceLength(len: nat, n: int): (m: nat)
    ensures m <= len
  {
    if n >= 0 then (if n <= len then n else len)
    else if -n <= len then len + n else 0
  }

  /**
   * Python's s[:n]: a leading part of s; all of s when n reaches past its end, the first n
   * items for 0 <= n <= |s|, all but the last -n items for a negative n, and nothing once
   * -n reaches the length.
   */
  function SliceTo(s: seq<string>, n: int): (r: seq<string>)
    ensures r <= s
    ensures n >= |s| ==> r == s
    ensures 0 <= n <= |s| ==> |r| == n
    ensures -|s| <= n < 0 ==> |s| - |r| == -n
    ensures n <= -|s| ==> r == []
  {
    s[..SliceLength(|s|, n)]
  }

  /** A leading part of a ranked list of every distinct word: ranked, and ahead of every word it leaves out. */
  lemma TopOfRanking(s: seq<string>, ranked: seq<string>, m: nat)
    requires RankedBy(s, ranked) && multiset(ranked) == multiset(Distinct(s)) && m <= |ranked|
    ensures RankedBy(s, ranked[..m])
    ensures forall x, w :: x in ranked[..m] && w in s && w !in ranked[..m] ==> Ahead(s, x, w)
  {
    forall x, w | x in ranked[..m] && w in s && w !in ranked[..m] ensures Ahead(s, x, w) {
      var a :| 0 <= a < m && ranked[..m][a] == x;
      assert w in multiset(Distinct(s));
      assert w in multiset(ranked);
      var b :| 0 <= b < |ranked| && ranked[b] == w;
      assert forall k :: 0 <= k < m ==> ranked[..m][k] == ranked[k];
      assert ranked[a] == x;
    }
  }

  /**
   * Ranking a dict of counts and keeping the first n: the kept words are ranked and ahead of
   * every word left out, and there are as many as Python's slice [:n] keeps.
   */
  lemma TopKeywords(words: seq<string>, freq: map<string, nat>, keys: seq<string>, n: int)
    requires keys == Distinct(words)
    requires forall w :: w in freq <==> w in words
    requires forall w :: w in freq ==> freq[w] == Count(words, w)
    ensures var top := SliceTo(SortByCount(keys, freq), n);
      && |top| == SliceLength(|keys|, n)
      && RankedBy(words, top)
      && forall x, w :: x in top && w in words && w !in top ==> x in words && Ahead(words, x, w)
  {
    var ranked := SortByCount(keys, freq);
    SortRanks(words, freq, |keys|);
    assert keys[..|keys|] == keys;
    assert |ranked| == |keys| by {
      assert |multiset(ranked)| == |multiset(keys)|;
    }
    TopOfRanking(words, ranked, SliceLength(|keys|, n));
  }
}
