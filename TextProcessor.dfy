/**
 * TextProcessor from src/utils.py: a word-count estimate, splitting a text into named
 * parts at its '#' headers, and inserting page markers every forty lines.
 */
module TextProcessor {
  import opened Text
  import opened WordScan
  import opened Outline

  // ---------------------------------------------------------------------------
  // estimate_word_count

  /**
   * TextProcessor.estimate_word_count: one per CJK character (re.findall(r'[一-鿿]'))
   * plus one per match of r'\b[a-zA-Z]+\b', that is per maximal run of `\w` characters
   * made only of ASCII letters; isWord is the class `\w`.
   */
  function EstimateWordCount(isWord: char -> bool, text: string): (n: nat)
    requires CoversWord(isWord)
    ensures n == CountCjk(text) + |KeepRuns(WordRuns(isWord, text), AsciiWord)|
  {
    FindAllKeepsRuns(isWord, text, 0, AsciiWord);
    CountCjk(text) + |FindAll(isWord, text, 0, AsciiWord)|
  }

  /** Two texts that do not meet inside a word count separately. */
  lemma WordCountAppend(isWord: char -> bool, s: string, u: string)
    requires CoversWord(isWord)
    requires s == [] || u == [] || !isWord(s[|s| - 1]) || !isWord(u[0])
    ensures EstimateWordCount(isWord, s + u) == EstimateWordCount(isWord, s) + EstimateWordCount(isWord, u)
  {
    WordRunsAppend(isWord, s, u);
    KeepRunsAppend(WordRuns(isWord, s), WordRuns(isWord, u), AsciiWord);
    CountCjkAppend(s, u);
  }

  lemma {:induction false} NoCjkInNonWord(isWord: char -> bool, t: string)
    requires CoversWord(isWord)
    requires forall i :: 0 <= i < |t| ==> !isWord(t[i])
    ensures CountCjk(t) == 0
  {
    if t != [] {
      NoCjkInNonWord(isWord, t[1..]);
    }
  }

  /** Appending punctuation, spaces or other non-word characters leaves the count unchanged. */
  lemma WordCountIgnoresNonWord(isWord: char -> bool, s: string, t: string)
    requires CoversWord(isWord)
    requires forall i :: 0 <= i < |t| ==> !isWord(t[i])
    ensures EstimateWordCount(isWord, s + t) == EstimateWordCount(isWord, s)
  {
    WordCountAppend(isWord, s, t);
    NoRunsInNonWord(isWord, t);
    NoCjkInNonWord(isWord, t);
  }

  // ---------------------------------------------------------------------------
  // extract_sections

  /** The name of the part before the first header: "引言" (introduction). */
  const Intro: string := "\U{5F15}\U{8A00}"

  /** A header whose title has this many characters or more is read as content. */
  const MaxTitle: nat := 50

  /**
   * The title that re.match(r'^#+\s*(.*?)\s*$', line) captures, stripped: the text after
   * the leading '#' characters without surrounding whitespace. The greedy `\s*` takes
   * the leading whitespace and the lazy group stops where only whitespace is left, so
   * the group is already stripped.
   */
  function HeaderTitle(line: string): (t: string)
    ensures Padded(line[LeadingHashes(line)..], t)
    ensures t != [] ==> !IsSpace(t[0]) && !IsSpace(t[|t| - 1])
    ensures t == [] <==> AllSpace(line[LeadingHashes(line)..])
  {
    var rest := line[LeadingHashes(line)..];
    StripParts(rest);
    StripEmpty(rest);
    Strip(rest)
  }

  /** A line is a header when it starts with '#' and its title is shorter than 50 characters. */
  predicate IsHeader(line: string) {
    line != [] && line[0] == '#' && |HeaderTitle(line)| < MaxTitle
  }

  /** A line as a token: a header, a non-blank content line (kept unstripped), or nothing. */
  function SectionToken(line: string): seq<Token<string>> {
    if IsHeader(line) then [Head(HeaderTitle(line))]
    else if Strip(line) != [] then [Line(line)]
    else []
  }

  /** The tokens of the first n lines, after the implicit "引言" header. */
  function SectionStream(lines: seq<string>, n: nat): (r: seq<Token<string>>)
    requires n <= |lines|
    ensures r != [] && r[0] == Head(Intro)
  {
    ScanFirst([Head(Intro)], SectionToken, lines, n);
    Scan([Head(Intro)], SectionToken, lines, n)
  }

  /** A finished part is filed when it has a name and at least one line. */
  predicate Filed(g: Group<string>) {
    g.head != [] && g.lines != []
  }

  /** Filing one part: its lines joined by newlines and stripped, under its name. */
  function Record(d: map<string, string>, g: Group<string>): map<string, string> {
    if Filed(g) then d[g.head := Strip(JoinLines(g.lines))] else d
  }

  /** The dict the parts fill, in order: a later part of the same name overwrites an earlier one. */
  function Emit(gs: seq<Group<string>>): map<string, string> {
    if gs == [] then map[] else Record(Emit(gs[..|gs| - 1]), gs[|gs| - 1])
  }

  /** The parts of a text: the stream of its lines, grouped under its headers. */
  function Parts(text: string): (gs: seq<Group<string>>)
    ensures gs != [] && gs[0].head == Intro
  {
    var lines := SplitLines(text);
    var ts := SectionStream(lines, |lines|);
    var gs := Regroup(ts);
    RenderFirst(gs);
    gs
  }

  /** What extract_sections returns for a text. */
  function Sections(text: string): map<string, string> {
    Emit(Parts(text))
  }

  /**
   * The loop state of extract_sections after the tokens ts: the current part is the last
   * part ts groups into, and the dict holds what the parts before it filed.
   */
  predicate Tracks(sections: map<string, string>, name: string, content: seq<string>, ts: seq<Token<string>>) {
    && ts != [] && ts[0].Head?
    && var gs := Regroup(ts);
       gs != [] && gs[|gs| - 1] == Group(name, content) && sections == Emit(gs[..|gs| - 1])
  }

  /** One line of the loop of extract_sections: a header files the current part and opens a new one; a non-blank line joins the current part. */
  method TakeLine(sections: map<string, string>, name: string, content: seq<string>, line: string,
                  ghost ts: seq<Token<string>>)
    returns (sections': map<string, string>, name': string, content': seq<string>)
    requires Tracks(sections, name, content, ts)
    ensures Tracks(sections', name', content', ts + SectionToken(line))
  {
    sections', name', content' := sections, name, content;
    ghost var gs := Regroup(ts);
    var matched := line != [] && line[0] == '#';
    if matched && |HeaderTitle(line)| < MaxTitle {
      var title := HeaderTitle(line);
      assert SectionToken(line) == [Head(title)];
      RegroupHead(ts, title);
      FileLast(gs, Group(title, []));
      if name != [] && content != [] {
        sections' := sections[name := Strip(JoinLines(content))];
      }
      name', content' := title, [];
    } else if Strip(line) != [] {
      assert SectionToken(line) == [Line(line)];
      RegroupLine(ts, line);
      KeepFront(gs, Group(name, content + [line]));
      content' := content + [line];
    } else {
      assert SectionToken(line) == [];
      assert ts + [] == ts;
    }
  }

  /** After a new part opens, the parts before it are all the earlier ones, and the last of them is filed. */
  lemma FileLast(gs: seq<Group<string>>, g: Group<string>)
    requires gs != []
    ensures var gs' := gs + [g];
      gs'[|gs'| - 1] == g && Emit(gs'[..|gs'| - 1]) == Record(Emit(gs[..|gs| - 1]), gs[|gs| - 1])
  {
    assert (gs + [g])[..|gs|] == gs;
  }

  /** Replacing the last part keeps the parts before it. */
  lemma KeepFront(gs: seq<Group<string>>, g: Group<string>)
    requires gs != []
    ensures var gs' := gs[..|gs| - 1] + [g];
      gs' != [] && gs'[|gs'| - 1] == g && gs'[..|gs'| - 1] == gs[..|gs| - 1]
  {
  }

  /**
   * TextProcessor.extract_sections: walks the lines keeping the current part's name
   * and lines, and files the part in the dict at every header and at the end.
   */
  method ExtractSections(text: string) returns (sections: map<string, string>)
    ensures sections == Sections(text)
  {
    var lines := SplitLines(text);
    var name: string, content: seq<string>;
    sections, name, content := WalkLines(lines);
    LastPart(text, sections, name, content);
    if name != [] && content != [] {
      sections := sections[name := Strip(JoinLines(content))];
    }
  }

  /** The loop of extract_sections over the lines of the text. */
  method WalkLines(lines: seq<string>) returns (sections: map<string, string>, name: string, content: seq<string>)
    ensures Tracks(sections, name, content, SectionStream(lines, |lines|))
  {
    sections, name, content := map[], Intro, [];
    TracksStart(lines);
    for i := 0 to |lines|
      invariant Tracks(sections, name, content, SectionStream(lines, i))
    {
      sections, name, content := WalkStep(lines, i, sections, name, content);
    }
  }

  /** The i-th line of the loop of extract_sections, on the stream of the lines before it. */
  method WalkStep(lines: seq<string>, i: nat, sections: map<string, string>, name: string, content: seq<string>)
    returns (sections': map<string, string>, name': string, content': seq<string>)
    requires i < |lines| && Tracks(sections, name, content, SectionStream(lines, i))
    ensures Tracks(sections', name', content', SectionStream(lines, i + 1))
  {
    SectionStreamStep(lines, i + 1);
    sections', name', content' := TakeLine(sections, name, content, lines[i], SectionStream(lines, i));
  }

  /** Before the first line: an empty "引言" part is open and the dict is empty. */
  lemma TracksStart(lines: seq<string>)
    ensures Tracks(map[], Intro, [], SectionStream(lines, 0))
  {
    RegroupHead([], Intro);
    assert [] + [Head(Intro)] == [Head(Intro)];
  }

  lemma SectionStreamStep(lines: seq<string>, n: nat)
    requires 0 < n <= |lines|
    ensures SectionStream(lines, n) == SectionStream(lines, n - 1) + SectionToken(lines[n - 1])
  {
  }

  /** Filing the last part completes the dict of the whole text. */
  lemma LastPart(text: string, sections: map<string, string>, name: string, content: seq<string>)
    requires Tracks(sections, name, content, SectionStream(SplitLines(text), |SplitLines(text)|))
    ensures Record(sections, Group(name, content)) ==
      (if name != [] && content != [] then sections[name := Strip(JoinLines(content))] else sections)
    ensures Record(sections, Group(name, content)) == Sections(text)
  {
  }

  /** A name is a key exactly when some part of that name was filed. */
  lemma {:induction false} EmitKeys(gs: seq<Group<string>>)
    ensures forall k :: k in Emit(gs) <==> exists j :: 0 <= j < |gs| && Filed(gs[j]) && gs[j].head == k
    decreases |gs|
  {
    if gs != [] {
      var init := gs[..|gs| - 1];
      EmitKeys(init);
      assert forall j :: 0 <= j < |init| ==> init[j] == gs[j];
    }
  }

  /** The value under a name is that of the last filed part with that name. */
  lemma {:induction false} EmitLastWins(gs: seq<Group<string>>, j: nat)
    requires j < |gs| && Filed(gs[j])
    requires forall l :: j < l < |gs| ==> !Filed(gs[l]) || gs[l].head != gs[j].head
    ensures gs[j].head in Emit(gs) && Emit(gs)[gs[j].head] == Strip(JoinLines(gs[j].lines))
    decreases |gs|
  {
    var init := gs[..|gs| - 1];
    if j < |gs| - 1 {
      assert init[j] == gs[j];
      EmitLastWins(init, j);
    }
  }

  /** Filed parts made of non-blank lines never give an empty value. */
  lemma {:induction false} EmitValuesNonEmpty(gs: seq<Group<string>>)
    requires forall j, k :: 0 <= j < |gs| && 0 <= k < |gs[j].lines| ==> !AllSpace(gs[j].lines[k])
    ensures forall k :: k in Emit(gs) ==> Emit(gs)[k] != []
    decreases |gs|
  {
    if gs != [] {
      var init, g := gs[..|gs| - 1], gs[|gs| - 1];
      assert forall j :: 0 <= j < |init| ==> init[j] == gs[j];
      EmitValuesNonEmpty(init);
      if Filed(g) {
        assert !AllSpace(g.lines[0]);
        JoinAllSpace(g.lines);
        StripEmpty(JoinLines(g.lines));
      }
    }
  }

  /** Every token of the stream: a title shorter than 50 characters, or a non-blank line. */
  predicate StreamTokenOk(t: Token<string>) {
    match t
    case Head(h) => |h| < MaxTitle
    case Line(x) => !AllSpace(x)
  }

  predicate AllStreamOk(ts: seq<Token<string>>) {
    forall k :: 0 <= k < |ts| ==> StreamTokenOk(ts[k])
  }

  lemma SectionTokenOk(line: string)
    ensures AllStreamOk(SectionToken(line))
  {
    StripEmpty(line);
  }

  lemma SectionStreamOk(lines: seq<string>, n: nat)
    requires n <= |lines|
    ensures AllStreamOk(SectionStream(lines, n))
  {
    forall i, k | 0 <= i < |lines| && 0 <= k < |SectionToken(lines[i])|
      ensures StreamTokenOk(SectionToken(lines[i])[k])
    {
      SectionTokenOk(lines[i]);
    }
    assert StreamTokenOk(Head(Intro));
    ScanOk([Head(Intro)], SectionToken, StreamTokenOk, lines, n);
  }

  lemma OkMember(ts: seq<Token<string>>, t: Token<string>)
    requires AllStreamOk(ts) && t in ts
    ensures StreamTokenOk(t)
  {
  }

  /**
   * The keys of extract_sections are non-empty names shorter than 50 characters, and
   * its values are never empty: a part with only blank lines, or a bare '#' header, is
   * not filed.
   */
  lemma SectionsShape(text: string)
    ensures forall k :: k in Sections(text) ==> 0 < |k| < MaxTitle && Sections(text)[k] != []
  {
    var gs := Parts(text);
    var lines := SplitLines(text);
    SectionStreamOk(lines, |lines|);
    forall j | 0 <= j < |gs|
      ensures |gs[j].head| < MaxTitle
      ensures forall k :: 0 <= k < |gs[j].lines| ==> !AllSpace(gs[j].lines[k])
    {
      InRender(gs, j);
      var ts := SectionStream(lines, |lines|);
      OkMember(ts, Head(gs[j].head));
      forall k | 0 <= k < |gs[j].lines| ensures !AllSpace(gs[j].lines[k]) {
        OkMember(ts, Line(gs[j].lines[k]));
      }
    }
    EmitKeys(gs);
    EmitValuesNonEmpty(gs);
  }

  /** A name is a key of extract_sections exactly when some filed part has that name. */
  lemma SectionKeys(text: string, k: string)
    ensures k in Sections(text) <==> exists j :: 0 <= j < |Parts(text)| && Filed(Parts(text)[j]) && Parts(text)[j].head == k
  {
    EmitKeys(Parts(text));
  }

  // ---------------------------------------------------------------------------
  // add_page_numbers

  const LinesPerPage: nat := 40

  /** The decimal digits of n, as str(n) writes a non-negative int: no leading zero, and "0" for zero. */
  function Decimal(n: nat): (r: string)
    ensures r != [] && forall i :: 0 <= i < |r| ==> '0' <= r[i] <= '9'
    ensures r[0] == '0' <==> n == 0
    ensures n == 0 ==> r == "0"
    decreases n
  {
    if n < 10 then [('0' as int + n) as char]
    else Decimal(n / 10) + [('0' as int + n % 10) as char]
  }

  /** The number a string of decimal digits stands for. */
  function DecimalValue(s: string): nat
    requires forall i :: 0 <= i < |s| ==> '0' <= s[i] <= '9'
  {
    if s == [] then 0 else DecimalValue(s[..|s| - 1]) * 10 + (s[|s| - 1] as int - '0' as int)
  }

  lemma {:induction false} DecimalRoundTrip(n: nat)
    ensures DecimalValue(Decimal(n)) == n
    decreases n
  {
    if n >= 10 {
      DecimalRoundTrip(n / 10);
      assert Decimal(n)[..|Decimal(n)| - 1] == Decimal(n / 10);
    }
  }

  predicate Digits(s: string) {
    forall i :: 0 <= i < |s| ==> '0' <= s[i] <= '9'
  }

  lemma {:induction false} LeadingDigitPositive(s: string)
    requires s != [] && Digits(s) && s[0] != '0'
    ensures DecimalValue(s) >= 1
  {
    if |s| > 1 {
      LeadingDigitPositive(s[..|s| - 1]);
    }
  }

  /** Decimal is the only way to write n in digits without a leading zero: it is str(n). */
  lemma {:induction false} DecimalCanonical(s: string, n: nat)
    requires s != [] && Digits(s) && (s[0] != '0' || s == "0")
    requires DecimalValue(s) == n
    ensures s == Decimal(n)
    decreases |s|
  {
    if |s| > 1 {
      var p := s[..|s| - 1];
      var d := s[|s| - 1] as int - '0' as int;
      assert p[0] == s[0];
      LeadingDigitPositive(p);
      assert n / 10 == DecimalValue(p) && n % 10 == d;
      DecimalCanonical(p, n / 10);
      assert s == p + [('0' as int + d) as char];
    }
  }

  /** The marker "\n--- 第{page}页 ---\n" that opens a page. */
  function Marker(page: nat): (r: string)
    ensures |r| == 12 + |Decimal(page)| && r[0] == '\n' && r[|r| - 1] == '\n'
  {
    "\n--- \U{7B2C}" + Decimal(page) + "\U{9875} ---\n"
  }

  /** The page number a marker shows can be read back from it. */
  lemma MarkerPage(page: nat)
    ensures var m := Marker(page); var d := m[6..|m| - 6];
      (forall i :: 0 <= i < |d| ==> '0' <= d[i] <= '9') && DecimalValue(d) == page
  {
    var m := Marker(page);
    assert m[6..|m| - 6] == Decimal(page);
    DecimalRoundTrip(page);
  }

  /**
   * The lines with the page markers: before the 1-based line i with i % 40 == 0 goes
   * the marker of page i / 40 + 1.
   */
  function Paginate(lines: seq<string>): seq<string> {
    if lines == [] then []
    else
      var i := |lines|;
      Paginate(lines[..i - 1]) + MarkerBefore(i) + [lines[i - 1]]
  }

  /**
   * TextProcessor.add_page_numbers: the lines of the text, a marker before every
   * fortieth, joined back with newlines; a text of fewer than 40 lines comes back unchanged.
   */
  method AddPageNumbers(text: string) returns (r: string)
    ensures r == JoinLines(Paginate(SplitLines(text)))
    ensures |SplitLines(text)| < LinesPerPage ==> r == text
  {
    var lines := SplitLines(text);
    var processed := PaginateLines(lines);
    r := JoinLines(processed);
    if |lines| < LinesPerPage {
      FewLinesUnmarked(lines);
      JoinSplit(text);
    }
  }

  /** The loop of add_page_numbers over the lines of the text. */
  method PaginateLines(lines: seq<string>) returns (processed: seq<string>)
    ensures processed == Paginate(lines)
  {
    processed := [];
    assert lines[..0] == [];
    for i := 0 to |lines|
      invariant processed == Paginate(lines[..i])
    {
      processed := PageStep(lines, i, processed);
    }
    assert lines[..|lines|] == lines;
  }

  /** The i-th line of add_page_numbers: the marker when the line number is a multiple of 40, then the line. */
  method PageStep(lines: seq<string>, i: nat, processed: seq<string>) returns (processed': seq<string>)
    requires i < |lines| && processed == Paginate(lines[..i])
    ensures processed' == Paginate(lines[..i + 1])
  {
    PaginatePrefix(lines, i + 1);
    processed' := processed;
    var number := i + 1;
    if number % LinesPerPage == 0 {
      var page := number / LinesPerPage + 1;
      processed' := processed' + [Marker(page)];
    }
    processed' := processed' + [lines[i]];
  }

  lemma PaginatePrefix(lines: seq<string>, n: nat)
    requires 0 < n <= |lines|
    ensures Paginate(lines[..n]) == Paginate(lines[..n - 1]) + MarkerBefore(n) + [lines[n - 1]]
  {
    assert lines[..n][..n - 1] == lines[..n - 1];
  }

  lemma {:induction false} FewLinesUnmarked(lines: seq<string>)
    requires |lines| < LinesPerPage
    ensures Paginate(lines) == lines
  {
    if lines != [] {
      var init := lines[..|lines| - 1];
      FewLinesUnmarked(init);
      assert MarkerBefore(|lines|) == [];
      assert init + [lines[|lines| - 1]] == lines;
    }
  }

  /** One marker per full forty lines. */
  lemma {:induction false} PaginateLength(lines: seq<string>)
    ensures |Paginate(lines)| == |lines| + |lines| / LinesPerPage
  {
    if lines != [] {
      PaginateLength(lines[..|lines| - 1]);
    }
  }

  /** Line i (0-based) sits after the i + 1 / 40 markers before it, and a marker right before it when i + 1 is a multiple of 40. */
  lemma {:induction false} PaginatePositions(lines: seq<string>, i: nat)
    requires i < |lines|
    ensures var p := Paginate(lines); var k := i + (i + 1) / LinesPerPage;
      k < |p| && p[k] == lines[i]
      && ((i + 1) % LinesPerPage == 0 ==> p[k - 1] == Marker((i + 1) / LinesPerPage + 1))
  {
    var n := |lines|;
    if i < n - 1 {
      var init := lines[..n - 1];
      PaginateLast(lines);
      PaginateLength(init);
      PaginatePositions(init, i);
      assert init[i] == lines[i];
      KeepPrefix(Paginate(lines), Paginate(init), MarkerBefore(n) + [lines[n - 1]], i + (i + 1) / LinesPerPage);
    } else {
      LastLinePosition(lines);
    }
  }

  lemma LastLinePosition(lines: seq<string>)
    requires lines != []
    ensures var p, n := Paginate(lines), |lines|; var k := n - 1 + n / LinesPerPage;
      k < |p| && p[k] == lines[n - 1]
      && (n % LinesPerPage == 0 ==> p[k - 1] == Marker(n / LinesPerPage + 1))
  {
    var n := |lines|;
    PaginateLast(lines);
    PaginateLength(lines[..n - 1]);
    PageCount(n);
    LastAfter(Paginate(lines), Paginate(lines[..n - 1]), MarkerBefore(n), lines[n - 1]);
  }

  lemma KeepPrefix<T>(p: seq<T>, q: seq<T>, t: seq<T>, k: nat)
    requires p == q + t && k < |q|
    ensures p[k] == q[k] && (k > 0 ==> p[k - 1] == q[k - 1])
  {
  }

  lemma LastAfter<T>(p: seq<T>, q: seq<T>, m: seq<T>, x: T)
    requires p == q + m + [x]
    ensures |p| == |q| + |m| + 1 && p[|q| + |m|] == x
    ensures |m| == 1 ==> p[|q|] == m[0]
  {
  }

  /** One more line adds a page exactly when its number is a multiple of 40. */
  lemma PageCount(n: nat)
    requires n > 0
    ensures (n - 1) / LinesPerPage + (if n % LinesPerPage == 0 then 1 else 0) == n / LinesPerPage
  {
  }

  /** Dropping the elements that hold a newline: the markers, as lines never hold one. */
  function DropMarkers(ps: seq<string>): (r: seq<string>)
    ensures |r| <= |ps|
  {
    if ps == [] then []
    else DropMarkers(ps[..|ps| - 1]) + (if '\n' in ps[|ps| - 1] then [] else [ps[|ps| - 1]])
  }

  /** The number of markers among the elements. */
  function MarkerCount(ps: seq<string>): nat {
    if ps == [] then 0
    else MarkerCount(ps[..|ps| - 1]) + (if '\n' in ps[|ps| - 1] then 1 else 0)
  }

  lemma DropMarkersAppend(a: seq<string>, b: seq<string>)
    ensures DropMarkers(a + b) == DropMarkers(a) + DropMarkers(b)
    ensures MarkerCount(a + b) == MarkerCount(a) + MarkerCount(b)
    decreases |b|
  {
    if b == [] {
      assert a + b == a;
    } else {
      assert (a + b)[..|a + b| - 1] == a + b[..|b| - 1];
      DropMarkersAppend(a, b[..|b| - 1]);
    }
  }

  lemma DropOne(x: string)
    ensures DropMarkers([x]) == (if '\n' in x then [] else [x])
    ensures MarkerCount([x]) == (if '\n' in x then 1 else 0)
  {
    assert [x][..0] == [];
  }

  /** Paginate(lines) as its part for the lines before the last, the last line's marker, if any, and the last line. */
  lemma PaginateLast(lines: seq<string>)
    requires lines != []
    ensures var n := |lines|;
      Paginate(lines) == Paginate(lines[..n - 1]) + MarkerBefore(n) + [lines[n - 1]]
  {
  }

  /** The marker that goes before the 1-based line i, if any. */
  function MarkerBefore(i: nat): (r: seq<string>)
    ensures |r| == (if i % LinesPerPage == 0 then 1 else 0)
    ensures forall k :: 0 <= k < |r| ==> '\n' in r[k]
  {
    if i % LinesPerPage == 0 then [Marker(i / LinesPerPage + 1)] else []
  }

  lemma DropMarkerBefore(i: nat)
    ensures DropMarkers(MarkerBefore(i)) == []
    ensures MarkerCount(MarkerBefore(i)) + (i - 1) / LinesPerPage == i / LinesPerPage
    requires i > 0
  {
    if i % LinesPerPage == 0 {
      DropOne(MarkerBefore(i)[0]);
    }
  }

  /** Removing the markers gives back the lines in order. */
  lemma {:induction false} UnmarkPaginate(lines: seq<string>)
    requires forall i :: 0 <= i < |lines| ==> '\n' !in lines[i]
    ensures DropMarkers(Paginate(lines)) == lines
  {
    if lines != [] {
      var n := |lines|;
      var init, last := lines[..n - 1], lines[n - 1];
      var marked := Paginate(init) + MarkerBefore(n);
      PaginateLast(lines);
      assert (marked + [last])[..|marked|] == marked;
      assert forall i :: 0 <= i < |init| ==> init[i] == lines[i];
      UnmarkPaginate(init);
      DropMarkersAppend(Paginate(init), MarkerBefore(n));
      DropMarkerBefore(n);
      assert DropMarkers(marked) == init;
      assert init + [last] == lines;
    }
  }

  /** There are |lines| / 40 markers. */
  lemma {:induction false} CountMarkers(lines: seq<string>)
    requires forall i :: 0 <= i < |lines| ==> '\n' !in lines[i]
    ensures MarkerCount(Paginate(lines)) == |lines| / LinesPerPage
  {
    if lines != [] {
      var n := |lines|;
      var init, last := lines[..n - 1], lines[n - 1];
      PaginateLast(lines);
      assert forall i :: 0 <= i < |init| ==> init[i] == lines[i];
      CountMarkers(init);
      DropMarkersAppend(Paginate(init) + MarkerBefore(n), [last]);
      DropMarkersAppend(Paginate(init), MarkerBefore(n));
      DropOne(last);
      DropMarkerBefore(n);
    }
  }

  /** add_page_numbers keeps every line of the text, in order, between the markers. */
  lemma PageNumbersKeepLines(text: string)
    ensures DropMarkers(Paginate(SplitLines(text))) == SplitLines(text)
    ensures MarkerCount(Paginate(SplitLines(text))) == |SplitLines(text)| / LinesPerPage
  {
    UnmarkPaginate(SplitLines(text));
    CountMarkers(SplitLines(text));
  }
}
