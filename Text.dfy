/**
 * Character classes and the string primitives the text processors rely on:
 * Python's str.strip(), str.split('\n') and '\n'.join(...).
 * Strings are sequences of Unicode scalar values.
 */
module Text {

  /** Python's str.isspace(), which is also what the regex class `\s` matches on str patterns. */
  predicate IsSpace(c: char) {
    ('\U{9}' <= c <= '\U{D}') || ('\U{1C}' <= c <= '\U{20}') || c == '\U{85}' || c == '\U{A0}'
    || c == '\U{1680}' || ('\U{2000}' <= c <= '\U{200A}') || c == '\U{2028}' || c == '\U{2029}'
    || c == '\U{202F}' || c == '\U{205F}' || c == '\U{3000}'
  }

  /** The CJK Unified Ideographs block, the class [一-鿿]. */
  predicate IsCjk(c: char) {
    '\U{4E00}' <= c <= '\U{9FFF}'
  }

  predicate IsAsciiLetter(c: char) {
    ('a' <= c <= 'z') || ('A' <= c <= 'Z')
  }

  /**
   * What the word scanners need of the regex class `\w`, which they take as a parameter
   * isWord: Python's `\w` on str patterns (letters, digits and '_' of every script)
   * includes at least the ASCII letters and digits, '_' and the CJK block.
   */
  ghost predicate CoversWord(isWord: char -> bool) {
    forall c :: (IsAsciiLetter(c) || ('0' <= c <= '9') || c == '_' || IsCjk(c)) ==> isWord(c)
  }

  predicate AllSpace(s: string) {
    forall i :: 0 <= i < |s| ==> IsSpace(s[i])
  }

  /** Number of '#' characters at the start of s. */
  function LeadingHashes(s: string): (n: nat)
    ensures n <= |s|
    ensures n < |s| ==> s[n] != '#'
  {
    if s != [] && s[0] == '#' then 1 + LeadingHashes(s[1..]) else 0
  }

  lemma {:induction false} LeadingHashesAll(s: string)
    ensures forall i :: 0 <= i < LeadingHashes(s) ==> s[i] == '#'
  {
    if s != [] && s[0] == '#' {
      LeadingHashesAll(s[1..]);
      assert forall i :: 1 <= i < LeadingHashes(s) ==> s[i] == s[1..][i - 1];
    }
  }

  /** Number of whitespace characters at the start of s. */
  function LeadingSpaces(s: string): (n: nat)
    ensures n <= |s|
    ensures n < |s| ==> !IsSpace(s[n])
  {
    if s != [] && IsSpace(s[0]) then 1 + LeadingSpaces(s[1..]) else 0
  }

  lemma {:induction false} LeadingSpacesAll(s: string)
    ensures AllSpace(s[..LeadingSpaces(s)])
  {
    if s != [] && IsSpace(s[0]) {
      LeadingSpacesAll(s[1..]);
      var n := LeadingSpaces(s);
      assert forall i :: 1 <= i < n ==> s[..n][i] == s[1..][..n - 1][i - 1];
    }
  }

  /** Number of whitespace characters at the end of s. */
  function TrailingSpaces(s: string): (n: nat)
    ensures n <= |s|
    ensures n < |s| ==> !IsSpace(s[|s| - n - 1])
  {
    if s != [] && IsSpace(s[|s| - 1]) then 1 + TrailingSpaces(s[..|s| - 1]) else 0
  }

  lemma {:induction false} TrailingSpacesAt(s: string, k: int)
    requires |s| - TrailingSpaces(s) <= k < |s|
    ensures IsSpace(s[k])
  {
    if k < |s| - 1 {
      var t := s[..|s| - 1];
      TrailingSpacesAt(t, k);
      assert t[k] == s[k];
    }
  }

  lemma TrailingSpacesAll(s: string)
    ensures AllSpace(s[|s| - TrailingSpaces(s)..])
  {
    var m := |s| - TrailingSpaces(s);
    forall i | 0 <= i < |s| - m ensures IsSpace(s[m..][i]) {
      TrailingSpacesAt(s, m + i);
    }
  }

  /** Python's s.strip(): s is whitespace, then r, then whitespace, and r neither starts nor ends with whitespace. */
  function Strip(s: string): (r: string)
    ensures |r| <= |s|
    ensures r == [] <==> LeadingSpaces(s) == |s|
    ensures r != [] ==> !IsSpace(r[0]) && !IsSpace(r[|r| - 1])
    ensures r != [] ==> LeadingSpaces(s) + |r| + TrailingSpaces(s) == |s|
  {
    var i := LeadingSpaces(s);
    if i == |s| then []
    else
      var n := TrailingSpaces(s);
      assert i < |s| - n by {
        if n == |s| {
          assert s[|s| - n..][i] == s[i];
          TrailingSpacesAll(s);
        } else {
          assert forall k :: 0 <= k < i ==> s[..i][k] == s[k];
          LeadingSpacesAll(s);
        }
      }
      s[i..|s| - n]
  }

  /** s is whitespace, then r, then whitespace, with the leading whitespace as long as it goes. */
  predicate Padded(s: string, r: string) {
    var i := LeadingSpaces(s);
    i + |r| <= |s| && s[i..i + |r|] == r && AllSpace(s[..i]) && AllSpace(s[i + |r|..])
  }

  /** Where the stripped text sits: after the leading whitespace, followed only by whitespace. */
  lemma StripParts(s: string)
    ensures var i, r := LeadingSpaces(s), Strip(s);
      i + |r| <= |s| && s[i..i + |r|] == r && AllSpace(s[..i]) && AllSpace(s[i + |r|..])
  {
    LeadingSpacesAll(s);
    StripTail(s);
  }

  /** The stripped text is the slice between the leading and the trailing whitespace, and only whitespace follows it. */
  lemma StripTail(s: string)
    ensures var i, r := LeadingSpaces(s), Strip(s);
      i + |r| <= |s| && s[i..i + |r|] == r && AllSpace(s[i + |r|..])
  {
    var i := LeadingSpaces(s);
    if i == |s| {
      assert s[i..] == [];
    } else {
      TrailingSpacesAll(s);
    }
  }

  /** Stripping leaves nothing exactly when the text is all whitespace. */
  lemma StripEmpty(s: string)
    ensures Strip(s) == [] <==> AllSpace(s)
  {
    var i := LeadingSpaces(s);
    LeadingSpacesAll(s);
    if i == |s| {
      assert s[..i] == s;
    }
  }

  lemma {:induction false} StripIdempotent(s: string)
    ensures Strip(Strip(s)) == Strip(s)
  {
    var r := Strip(s);
    if r != [] {
      StripParts(r);
      assert LeadingSpaces(r) == 0;
      var rr := Strip(r);
      assert r[..|rr|] == rr;
    }
  }

  /** Python's s.split('\n'): never empty, no piece holds a newline. */
  function SplitLines(s: string): (r: seq<string>)
    ensures |r| >= 1
    ensures forall i :: 0 <= i < |r| ==> '\n' !in r[i]
  {
    if s == [] then [""]
    else
      var rest := SplitLines(s[1..]);
      if s[0] == '\n' then [""] + rest else [[s[0]] + rest[0]] + rest[1..]
  }

  /** Python's '\n'.join(parts). */
  function JoinLines(parts: seq<string>): (r: string)
    ensures |parts| >= 1 ==> parts[0] <= r
    ensures |parts| >= 2 ==> '\n' in r
  {
    if |parts| == 0 then ""
    else if |parts| == 1 then parts[0]
    else parts[0] + "\n" + JoinLines(parts[1..])
  }

  /** Splitting at newlines and joining with newlines gives back the text. */
  lemma {:induction false} JoinSplit(s: string)
    ensures JoinLines(SplitLines(s)) == s
  {
    if s != [] {
      JoinSplit(s[1..]);
      var rest := SplitLines(s[1..]);
      if s[0] == '\n' {
        assert SplitLines(s) == [""] + rest;
        assert ([""] + rest)[1..] == rest;
      } else {
        var r := SplitLines(s);
        assert r[0] == [s[0]] + rest[0];
        if |rest| > 1 {
          assert r[1..] == rest[1..];
        }
      }
    }
  }

  /** Joining pieces that hold no newline and splitting again gives back the pieces. */
  lemma {:induction false} SplitJoin(parts: seq<string>)
    requires |parts| >= 1
    requires forall i :: 0 <= i < |parts| ==> '\n' !in parts[i]
    ensures SplitLines(JoinLines(parts)) == parts
  {
    if |parts| == 1 {
      SplitNoNewline(parts[0]);
    } else {
      SplitJoin(parts[1..]);
      SplitPrefix(parts[0], JoinLines(parts[1..]));
      assert [parts[0]] + parts[1..] == parts;
    }
  }

  lemma {:induction false} SplitNoNewline(s: string)
    requires '\n' !in s
    ensures SplitLines(s) == [s]
  {
    if s != [] {
      SplitNoNewline(s[1..]);
      assert [s[0]] + s[1..] == s;
    }
  }

  lemma {:induction false} SplitPrefix(a: string, b: string)
    requires '\n' !in a
    ensures SplitLines(a + "\n" + b) == [a] + SplitLines(b)
  {
    if a == [] {
      assert a + "\n" + b == "\n" + b;
      assert ("\n" + b)[1..] == b;
    } else {
      assert (a + "\n" + b)[1..] == a[1..] + "\n" + b;
      SplitPrefix(a[1..], b);
      assert [a[0]] + a[1..] == a;
    }
  }

  /** A join of lines is all whitespace exactly when every line is. */
  lemma {:induction false} JoinAllSpace(parts: seq<string>)
    ensures AllSpace(JoinLines(parts)) <==> forall i :: 0 <= i < |parts| ==> AllSpace(parts[i])
  {
    if |parts| > 1 {
      JoinAllSpace(parts[1..]);
      var a, b := parts[0], JoinLines(parts[1..]);
      var j := a + "\n" + b;
      assert IsSpace('\n');
      if AllSpace(j) {
        assert forall k :: 0 <= k < |a| ==> a[k] == j[k];
        assert forall k :: 0 <= k < |b| ==> b[k] == j[|a| + 1 + k];
      }
      forall i | 0 <= i < |parts| ensures (forall k :: 0 <= k < |parts[1..]| ==> AllSpace(parts[1..][k])) && i > 0 ==> AllSpace(parts[i]) {
        if i > 0 { assert parts[i] == parts[1..][i - 1]; }
      }
    }
  }
}
