/**
 * DocumentFormatter from src/utils.py: splitting Markdown-like text into titled
 * sections for a Word document, and picking the most frequent Chinese keywords.
 */
module DocumentFormatter {
  import opened Wrappers
  import opened Text
  import opened WordScan
  import opened Outline
  import opened Ranking

  // ---------------------------------------------------------------------------
  // format_text_for_docx

  /** A Markdown heading: its number of '#' and its text. */
  datatype Heading = Heading(level: nat, title: string)

  /** A section as format_text_for_docx returns it: {"level", "title", "content"}. */
  type Section = Group<Heading>

  /**
   * re.match(r'^(#{1,6})\s+(.+)$', line) on a line without a newline (every line the text
   * is split into): the level is the whole run of leading '#' (at most six of them), then
   * comes whitespace, then the title.
   */
  function HeadingMatch(line: string): (r: Option<Heading>)
    ensures r.Some? ==> 1 <= r.value.level <= 6 && r.value.level == LeadingHashes(line) && r.value.title != []
  {
    var k := LeadingHashes(line);
    if k < 1 || k > 6 || k == |line| || !IsSpace(line[k]) then None
    else
      var w := LeadingSpaces(line[k..]);
      if k + w < |line| then
        Some(Heading(k, line[k + w..]))
      else if w >= 2 then
        // `\s+` gives its last character back so that `.+` can match it
        Some(Heading(k, line[|line| - 1..]))
      else None
  }

  /** A match splits the line into the '#' run, a non-empty run of whitespace, and the title. */
  lemma HeadingMatchParts(line: string)
    ensures var r := HeadingMatch(line);
      r.Some? ==>
        (r.value.level < |line| - |r.value.title|
         && AllSpace(line[r.value.level..|line| - |r.value.title|])
         && line[|line| - |r.value.title|..] == r.value.title)
  {
    var k := LeadingHashes(line);
    if 1 <= k <= 6 && k < |line| && IsSpace(line[k]) {
      var w := LeadingSpaces(line[k..]);
      LeadingSpacesAll(line[k..]);
      assert line[k..][..w] == line[k..k + w];
      if k + w < |line| {
        assert |line| - |line[k + w..]| == k + w;
      } else if w >= 2 {
        var u, v := line[k..|line| - 1], line[k..][..w];
        forall j | 0 <= j < |u| ensures IsSpace(u[j]) {
          assert u[j] == v[j];
        }
        assert |line| - |line[|line| - 1..]| == |line| - 1;
      }
    }
  }

  /** A line that does not end in whitespace is a heading exactly when 1 to 6 '#' are followed by whitespace. */
  lemma HeadingMatchIff(line: string)
    requires line != [] && !IsSpace(line[|line| - 1])
    ensures HeadingMatch(line).Some? <==>
      1 <= LeadingHashes(line) <= 6 && LeadingHashes(line) < |line| && IsSpace(line[LeadingHashes(line)])
  {
    var k := LeadingHashes(line);
    if 1 <= k <= 6 && k < |line| && IsSpace(line[k]) {
      LeadingSpacesAll(line[k..]);
    }
  }

  /** A stripped line as a token: nothing if blank, else a heading or a content line. */
  function LineToken(line: string): (r: seq<Token<Heading>>) {
    var s := Strip(line);
    if s == [] then []
    else
      match HeadingMatch(s)
      case Some(h) => [Head(h)]
      case None => [Line(s)]
  }

  lemma StripNoNewline(line: string)
    requires '\n' !in line
    ensures '\n' !in Strip(line)
  {
    var s, i := Strip(line), LeadingSpaces(line);
    StripParts(line);
    assert forall k :: 0 <= k < |s| ==> s[k] == line[i + k];
  }

  /** The tokens of the first n lines, in order. */
  function TokensUpTo(lines: seq<string>, n: nat): seq<Token<Heading>>
    requires n <= |lines|
  {
    Scan([], LineToken, lines, n)
  }

  /** The tokens of all lines, in order. */
  function DocxTokens(lines: seq<string>): seq<Token<Heading>> {
    TokensUpTo(lines, |lines|)
  }

  /** What the sections of format_text_for_docx hold: a real heading and stripped, non-blank, non-heading lines. */
  predicate WellFormed(g: Section) {
    && 1 <= g.head.level <= 6
    && g.head.title != []
    && forall j :: 0 <= j < |g.lines| ==>
         && g.lines[j] != []
         && '\n' !in g.lines[j]
         && Strip(g.lines[j]) == g.lines[j]
         && HeadingMatch(g.lines[j]).None?
  }

  /**
   * The loop state of format_text_for_docx after the tokens ts: the finished sections and
   * the open one render to ts from its first heading on; an untitled open section means
   * no heading has been seen yet.
   */
  predicate Consistent(sections: seq<Section>, current: Section, ts: seq<Token<Heading>>) {
    && (current.head.title == [] ==> sections == [] && AfterFirstHead(ts) == [])
    && (current.head.title != [] ==> Render(sections + [current]) == AfterFirstHead(ts))
  }

  /** A heading closes the open section, if it has a title, and opens a new one. */
  lemma HeadingLine(ts: seq<Token<Heading>>, sections: seq<Section>, current: Section, h: Heading)
    requires Consistent(sections, current, ts) && h.title != []
    ensures Consistent(if current.head.title != [] then sections + [current] else sections, Group(h, []), ts + [Head(h)])
  {
    AfterFirstHeadSnoc(ts, Head(h));
    var g: Section := Group(h, []);
    assert GroupTokens(g) == [Head(h)];
    if current.head.title != [] {
      RenderSnoc(sections, current);
      RenderSnoc(sections + [current], g);
    } else {
      RenderSnoc(sections, g);
    }
  }

  /** Any other non-blank line goes into the open section. */
  lemma ContentLine(ts: seq<Token<Heading>>, sections: seq<Section>, current: Section, x: string)
    requires Consistent(sections, current, ts)
    ensures Consistent(sections, Group(current.head, current.lines + [x]), ts + [Line(x)])
  {
    AfterFirstHeadSnoc(ts, Line(x));
    if current.head.title != [] {
      RenderExtendLast(sections + [current], x);
      assert (sections + [current])[..|sections|] == sections;
    }
  }

  /** One line of the loop of format_text_for_docx: the state after ts is the state after ts and that line. */
  method AddLine(sections: seq<Section>, current: Section, raw: string, ghost ts: seq<Token<Heading>>)
    returns (sections': seq<Section>, current': Section)
    requires '\n' !in raw && Consistent(sections, current, ts)
    ensures Consistent(sections', current', ts + LineToken(raw))
  {
    sections', current' := sections, current;
    StripNoNewline(raw);
    var line := Strip(raw);
    if line == [] {
      assert ts + LineToken(raw) == ts;
      return;
    }
    var m := HeadingMatch(line);
    if m.Some? {
      HeadingLine(ts, sections, current, m.value);
      if current.head.title != [] {
        sections' := sections + [current];
      }
      current' := Group(m.value, []);
    } else {
      ContentLine(ts, sections, current, line);
      current' := Group(current.head, current.lines + [line]);
    }
  }

  /**
   * DocumentFormatter.format_text_for_docx: every heading line starts a section, and the
   * stripped non-blank lines after it, up to the next heading, are its content; lines
   * before the first heading are dropped.
   */
  method FormatTextForDocx(text: string) returns (sections: seq<Section>)
    ensures Render(sections) == AfterFirstHead(DocxTokens(SplitLines(text)))
    ensures AllWellFormed(sections)
  {
    var lines := SplitLines(text);
    var current: Section;
    sections, current := DocxLines(lines);
    FinalSection(lines, sections, current);
    if current.head.title != [] {
      sections := sections + [current];
    }
  }

  /** The loop of format_text_for_docx over the lines of the text; no section is open at first. */
  method DocxLines(lines: seq<string>) returns (sections: seq<Section>, current: Section)
    requires forall i :: 0 <= i < |lines| ==> '\n' !in lines[i]
    ensures Consistent(sections, current, TokensUpTo(lines, |lines|))
  {
    sections := [];
    current := Group(Heading(0, ""), []);
    assert TokensUpTo(lines, 0) == [];
    for i := 0 to |lines|
      invariant Consistent(sections, current, TokensUpTo(lines, i))
    {
      sections, current := DocxStep(lines, i, sections, current);
    }
  }

  /** The i-th line of the loop of format_text_for_docx, on the tokens of the lines before it. */
  method DocxStep(lines: seq<string>, i: nat, sections: seq<Section>, current: Section)
    returns (sections': seq<Section>, current': Section)
    requires i < |lines| && '\n' !in lines[i] && Consistent(sections, current, TokensUpTo(lines, i))
    ensures Consistent(sections', current', TokensUpTo(lines, i + 1))
  {
    TokensUpToStep(lines, i + 1);
    sections', current' := AddLine(sections, current, lines[i], TokensUpTo(lines, i));
  }

  /** Closing the open section, if it has a title, completes the rendering of the whole text. */
  lemma FinalSection(lines: seq<string>, sections: seq<Section>, current: Section)
    requires forall i :: 0 <= i < |lines| ==> '\n' !in lines[i]
    requires Consistent(sections, current, TokensUpTo(lines, |lines|))
    ensures var r := if current.head.title != [] then sections + [current] else sections;
      Render(r) == AfterFirstHead(DocxTokens(lines)) && AllWellFormed(r)
  {
    var r := if current.head.title != [] then sections + [current] else sections;
    assert Render(r) == AfterFirstHead(DocxTokens(lines));
    SectionsWellFormed(lines, r);
  }

  predicate AllWellFormed(sections: seq<Section>) {
    forall j :: 0 <= j < |sections| ==> WellFormed(sections[j])
  }

  /** What a single token of the stream can be: a real heading or a clean content line. */
  predicate TokenOk(t: Token<Heading>) {
    match t
    case Head(h) => 1 <= h.level <= 6 && h.title != []
    case Line(x) => x != [] && '\n' !in x && Strip(x) == x && HeadingMatch(x).None?
  }

  predicate AllTokensOk(ts: seq<Token<Heading>>) {
    forall k :: 0 <= k < |ts| ==> TokenOk(ts[k])
  }

  lemma LineTokenOk(line: string)
    requires '\n' !in line
    ensures AllTokensOk(LineToken(line))
  {
    StripNoNewline(line);
    StripIdempotent(line);
  }

  lemma AllTokensOkSuffix(ts: seq<Token<Heading>>, k: nat)
    requires AllTokensOk(ts) && k <= |ts|
    ensures AllTokensOk(ts[k..])
  {
    forall j | 0 <= j < |ts| - k ensures TokenOk(ts[k..][j]) {
      assert ts[k..][j] == ts[k + j];
    }
  }

  lemma TokensUpToOk(lines: seq<string>, n: nat)
    requires n <= |lines| && forall i :: 0 <= i < |lines| ==> '\n' !in lines[i]
    ensures AllTokensOk(TokensUpTo(lines, n))
  {
    forall i, k | 0 <= i < |lines| && 0 <= k < |LineToken(lines[i])|
      ensures TokenOk(LineToken(lines[i])[k])
    {
      LineTokenOk(lines[i]);
    }
    ScanOk([], LineToken, TokenOk, lines, n);
  }

  lemma TokensUpToStep(lines: seq<string>, n: nat)
    requires 0 < n <= |lines|
    ensures TokensUpTo(lines, n) == TokensUpTo(lines, n - 1) + LineToken(lines[n - 1])
  {
  }

  /** Sections rendering to clean tokens are well formed. */
  lemma {:induction false} RenderOk(gs: seq<Section>)
    requires AllTokensOk(Render(gs))
    ensures AllWellFormed(gs)
    decreases |gs|
  {
    if gs != [] {
      var init, g := gs[..|gs| - 1], gs[|gs| - 1];
      var r, k := Render(gs), |Render(init)|;
      assert r == Render(init) + ([Head(g.head)] + Lines(g.lines));
      assert forall j :: 0 <= j < k ==> r[j] == Render(init)[j];
      RenderOk(init);
      assert r[k] == Head(g.head);
      assert forall j :: 0 <= j < |g.lines| ==> r[k + 1 + j] == Line(g.lines[j]);
      assert WellFormed(g);
      assert gs == init + [g];
    }
  }

  lemma SectionsWellFormed(lines: seq<string>, sections: seq<Section>)
    requires forall i :: 0 <= i < |lines| ==> '\n' !in lines[i]
    requires Render(sections) == AfterFirstHead(DocxTokens(lines))
    ensures AllWellFormed(sections)
  {
    var ts := DocxTokens(lines);
    TokensUpToOk(lines, |lines|);
    AllTokensOkSuffix(ts, |ts| - |AfterFirstHead(ts)|);
    RenderOk(sections);
  }

  /** The result of format_text_for_docx is the only section list that renders to the text's heading stream. */
  lemma FormatTextForDocxUnique(text: string, sections: seq<Section>)
    requires Render(sections) == AfterFirstHead(DocxTokens(SplitLines(text)))
    ensures sections == Regroup(AfterFirstHead(DocxTokens(SplitLines(text))))
  {
    var ts := AfterFirstHead(DocxTokens(SplitLines(text)));
    RenderInjective(sections, Regroup(ts));
  }

  /** The section titles are the headings of the text, one per heading line, in order. */
  lemma SectionTitlesInOrder(text: string, sections: seq<Section>)
    requires Render(sections) == AfterFirstHead(DocxTokens(SplitLines(text)))
    ensures HeadsOfGroups(sections) == Heads(DocxTokens(SplitLines(text)))
  {
    RenderHeads(sections, DocxTokens(SplitLines(text)));
  }

  // ---------------------------------------------------------------------------
  // extract_keywords

  /** re.findall(r'\b[一-鿿]{2,5}\b', text): the maximal runs of `\w` (isWord) characters made of two to five CJK characters. */
  function KeywordTokens(isWord: char -> bool, text: string): (r: seq<string>)
    requires CoversWord(isWord)
    ensures r == KeepRuns(WordRuns(isWord, text), CjkKeyword)
    ensures forall i :: 0 <= i < |r| ==> 2 <= |r[i]| <= 5 && AllInClass(r[i], Cjk)
  {
    FindAllKeepsRuns(isWord, text, 0, CjkKeyword);
    var r := FindAll(isWord, text, 0, CjkKeyword);
    forall i | 0 <= i < |r| ensures 2 <= |r[i]| <= 5 && AllInClass(r[i], Cjk) {
      KeepRunsKept(WordRuns(isWord, text), CjkKeyword, i);
    }
    r
  }

  /**
   * `\b` needs a non-word character after the run: "中文" followed by a full-width digit,
   * which Python's `\w` includes, is no keyword.
   */
  lemma GluedRunIsNoKeyword(isWord: char -> bool)
    requires CoversWord(isWord) && isWord('\U{FF12}')
    ensures KeywordTokens(isWord, "\U{4E2D}\U{6587}\U{FF12}") == []
  {
    var s := "\U{4E2D}\U{6587}\U{FF12}";
    assert isWord(s[0]) && isWord(s[1]) && isWord(s[2]);
    assert RunEnd(isWord, s, 0) == 3;
    assert RunsFrom(isWord, s, 3) == [];
    assert s[0..3] == s;
    assert WordRuns(isWord, s) == [s];
    assert !AllInClass(s, Cjk) by {
      assert !InClass(s[2], Cjk);
    }
  }

  /**
   * DocumentFormatter.extract_keywords: the first num_keywords words of the ranking
   * of the keyword tokens by frequency, ties broken by first occurrence; a negative
   * num_keywords drops that many from the end of the ranking, as Python slicing does.
   */
  method ExtractKeywords(isWord: char -> bool, text: string, numKeywords: int) returns (keywords: seq<string>)
    requires CoversWord(isWord)
    ensures |keywords| == SliceLength(|Distinct(KeywordTokens(isWord, text))|, numKeywords)
    ensures RankedBy(KeywordTokens(isWord, text), keywords) && NoDuplicates(keywords)
    ensures forall x, w :: x in keywords && w in KeywordTokens(isWord, text) && w !in keywords ==>
      x in KeywordTokens(isWord, text) && Ahead(KeywordTokens(isWord, text), x, w)
  {
    var words := KeywordTokens(isWord, text);
    var freq, keys := CountWords(words);
    LongWordsAll(words);
    var ranked := SortByCount(keys, freq);
    keywords := SliceTo(ranked, numKeywords);
    TopKeywords(words, freq, keys, numKeywords);
    RankedNoDuplicates(words, keywords);
  }

  /** The words the loop of extract_keywords counts: those of two characters or more, in order. */
  function LongWords(words: seq<string>): (r: seq<string>)
    ensures |r| <= |words|
  {
    if words == [] then []
    else
      var w := words[|words| - 1];
      LongWords(words[..|words| - 1]) + (if |w| >= 2 then [w] else [])
  }

  lemma LongWordsStep(words: seq<string>, i: nat)
    requires i < |words|
    ensures LongWords(words[..i + 1]) == LongWords(words[..i]) + (if |words[i]| >= 2 then [words[i]] else [])
  {
    assert words[..i + 1][..i] == words[..i];
  }

  /** The length test drops nothing from a list of words of two characters or more. */
  lemma {:induction false} LongWordsAll(words: seq<string>)
    requires forall i :: 0 <= i < |words| ==> |words[i]| >= 2
    ensures LongWords(words) == words
  {
    if words != [] {
      var init := words[..|words| - 1];
      assert forall i :: 0 <= i < |init| ==> init[i] == words[i];
      LongWordsAll(init);
      assert init + [words[|words| - 1]] == words;
    }
  }

  /**
   * The counting loop of extract_keywords: how often each word of two characters or more
   * occurs, and those words in order of first occurrence (the insertion order of the dictionary).
   */
  method CountWords(words: seq<string>) returns (freq: map<string, nat>, keys: seq<string>)
    ensures keys == Distinct(LongWords(words))
    ensures forall w :: w in freq <==> w in LongWords(words)
    ensures forall w :: w in freq ==> freq[w] == Count(LongWords(words), w)
  {
    freq, keys := map[], [];
    for i := 0 to |words|
      invariant keys == Distinct(LongWords(words[..i]))
      invariant forall w :: w in freq <==> w in LongWords(words[..i])
      invariant forall w :: w in freq ==> freq[w] == Count(LongWords(words[..i]), w)
    {
      freq, keys := CountWord(words, i, freq, keys);
    }
    assert words[..|words|] == words;
  }

  /** One pass of the counting loop: the word at i is counted, and listed if it is new, when it has two characters or more. */
  method CountWord(words: seq<string>, i: nat, freq: map<string, nat>, keys: seq<string>)
    returns (freq': map<string, nat>, keys': seq<string>)
    requires i < |words|
    requires keys == Distinct(LongWords(words[..i]))
    requires forall w :: w in freq <==> w in LongWords(words[..i])
    requires forall w :: w in freq ==> freq[w] == Count(LongWords(words[..i]), w)
    ensures keys' == Distinct(LongWords(words[..i + 1]))
    ensures forall w :: w in freq' <==> w in LongWords(words[..i + 1])
    ensures forall w :: w in freq' ==> freq'[w] == Count(LongWords(words[..i + 1]), w)
  {
    freq', keys' := freq, keys;
    var word := words[i];
    LongWordsStep(words, i);
    if |word| >= 2 {
      CountStep(LongWords(words[..i]), word, freq);
      if word !in freq {
        keys' := keys + [word];
      }
      freq' := freq[word := (if word in freq then freq[word] else 0) + 1];
    } else {
      assert LongWords(words[..i]) + [] == LongWords(words[..i]);
    }
  }

  /** Counting one more word: it joins the keys if new, and its count goes up by one. */
  lemma CountStep(seen: seq<string>, word: string, freq: map<string, nat>)
    requires forall w :: w in freq <==> w in seen
    requires forall w :: w in freq ==> freq[w] == Count(seen, w)
    ensures Distinct(seen + [word]) ==
      if word in freq then Distinct(seen) else Distinct(seen) + [word]
    ensures var f := freq[word := (if word in freq then freq[word] else 0) + 1];
      && (forall w :: w in f <==> w in seen + [word])
      && (forall w :: w in f ==> f[w] == Count(seen + [word], w))
  {
    assert (seen + [word])[..|seen|] == seen;
  }
}
