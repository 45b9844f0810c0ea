/**
 * Grouping a stream of heading and text lines into sections: the shape shared by
 * format_text_for_docx and extract_sections. A section is rendered back to the
 * stream as its heading followed by its lines, and that rendering is injective,
 * so "renders to the stream" determines the sections.
 */
module Outline {

  datatype Token<H> = Head(head: H) | Line(text: string)

  /** A section: a heading of type H and the lines filed under it. */
  datatype Group<H> = Group(head: H, lines: seq<string>)

  function Lines<H>(ls: seq<string>): (r: seq<Token<H>>)
    ensures |r| == |ls|
    ensures forall i :: 0 <= i < |r| ==> r[i] == Line(ls[i])
  {
    seq(|ls|, i requires 0 <= i < |ls| => Line(ls[i]))
  }

  /**
   * The stream of a text given line by line: a fixed start, then the tokens of each of
   * the first n lines in order, where f gives the tokens of one line.
   */
  function Scan<H>(start: seq<Token<H>>, f: string -> seq<Token<H>>, lines: seq<string>, n: nat): seq<Token<H>>
    requires n <= |lines|
  {
    if n == 0 then start else Scan(start, f, lines, n - 1) + f(lines[n - 1])
  }

  /** The stream begins with its start. */
  lemma {:induction false} ScanStart<H>(start: seq<Token<H>>, f: string -> seq<Token<H>>, lines: seq<string>, n: nat)
    requires n <= |lines|
    ensures |start| <= |Scan(start, f, lines, n)| && Scan(start, f, lines, n)[..|start|] == start
  {
    if n > 0 {
      ScanStart(start, f, lines, n - 1);
      var a := Scan(start, f, lines, n - 1);
      assert (a + f(lines[n - 1]))[..|start|] == a[..|start|];
    }
  }

  /** A stream with a non-empty start begins with the first token of the start. */
  lemma ScanFirst<H>(start: seq<Token<H>>, f: string -> seq<Token<H>>, lines: seq<string>, n: nat)
    requires n <= |lines| && start != []
    ensures Scan(start, f, lines, n) != [] && Scan(start, f, lines, n)[0] == start[0]
  {
    ScanStart(start, f, lines, n);
    var r := Scan(start, f, lines, n);
    assert r[..|start|][0] == r[0];
  }

  /** When the start and the tokens of every line satisfy ok, so does the whole stream. */
  lemma {:induction false} ScanOk<H>(start: seq<Token<H>>, f: string -> seq<Token<H>>, ok: Token<H> -> bool,
                                     lines: seq<string>, n: nat)
    requires n <= |lines|
    requires forall k :: 0 <= k < |start| ==> ok(start[k])
    requires forall i, k :: 0 <= i < |lines| && 0 <= k < |f(lines[i])| ==> ok(f(lines[i])[k])
    ensures forall k :: 0 <= k < |Scan(start, f, lines, n)| ==> ok(Scan(start, f, lines, n)[k])
  {
    if n > 0 {
      ScanOk(start, f, ok, lines, n - 1);
      var a, b := Scan(start, f, lines, n - 1), f(lines[n - 1]);
      assert Scan(start, f, lines, n) == a + b;
      forall k | 0 <= k < |a + b| ensures ok((a + b)[k]) {
        if k < |a| {
          assert (a + b)[k] == a[k];
        } else {
          assert (a + b)[k] == b[k - |a|];
        }
      }
    }
  }

  function GroupTokens<H>(g: Group<H>): seq<Token<H>> {
    [Head(g.head)] + Lines(g.lines)
  }

  /** The stream a list of sections stands for. */
  function Render<H>(gs: seq<Group<H>>): seq<Token<H>> {
    if gs == [] then [] else Render(gs[..|gs| - 1]) + GroupTokens(gs[|gs| - 1])
  }

  /** The headings of a stream, in order. */
  function Heads<H>(ts: seq<Token<H>>): seq<H> {
    if ts == [] then []
    else Heads(ts[..|ts| - 1]) + (if ts[|ts| - 1].Head? then [ts[|ts| - 1].head] else [])
  }

  function HeadsOfGroups<H>(gs: seq<Group<H>>): (r: seq<H>)
    ensures |r| == |gs|
    ensures forall i :: 0 <= i < |gs| ==> r[i] == gs[i].head
  {
    seq(|gs|, i requires 0 <= i < |gs| => gs[i].head)
  }

  /** The stream from its first heading on: what is left once leading lines are dropped. */
  function AfterFirstHead<H>(ts: seq<Token<H>>): (r: seq<Token<H>>)
    ensures |r| <= |ts| && r == ts[|ts| - |r|..]
    ensures r == [] || r[0].Head?
    ensures forall i :: 0 <= i < |ts| - |r| ==> ts[i].Line?
  {
    if ts == [] then []
    else if ts[0].Head? then ts
    else
      var r := AfterFirstHead(ts[1..]);
      assert forall i :: 1 <= i < |ts| - |r| ==> ts[i] == ts[1..][i - 1];
      r
  }

  /** Appending one token to a stream extends its part after the first heading in the expected way. */
  lemma {:induction false} AfterFirstHeadSnoc<H>(ts: seq<Token<H>>, t: Token<H>)
    ensures AfterFirstHead(ts + [t]) ==
      if AfterFirstHead(ts) != [] then AfterFirstHead(ts) + [t]
      else if t.Head? then [t]
      else []
  {
    if ts == [] {
      assert ts + [t] == [t];
    } else {
      assert (ts + [t])[0] == ts[0];
      if ts[0].Line? {
        assert (ts + [t])[1..] == ts[1..] + [t];
        AfterFirstHeadSnoc(ts[1..], t);
      }
    }
  }

  lemma GroupTokensSnoc<H>(h: H, ls: seq<string>, x: string)
    ensures GroupTokens(Group(h, ls + [x])) == GroupTokens(Group(h, ls)) + [Line(x)]
  {
  }

  lemma RenderSnoc<H>(gs: seq<Group<H>>, g: Group<H>)
    ensures Render(gs + [g]) == Render(gs) + GroupTokens(g)
  {
    assert (gs + [g])[..|gs|] == gs;
  }

  /** Adding a line to the last section adds that line at the end of the stream. */
  lemma RenderExtendLast<H>(gs: seq<Group<H>>, x: string)
    requires gs != []
    ensures Render(gs[..|gs| - 1] + [Group(gs[|gs| - 1].head, gs[|gs| - 1].lines + [x])]) == Render(gs) + [Line(x)]
  {
    var g := gs[|gs| - 1];
    RenderSnoc(gs[..|gs| - 1], Group(g.head, g.lines + [x]));
    GroupTokensSnoc(g.head, g.lines, x);
  }

  /** The sections a stream that starts with a heading stands for. */
  function Regroup<H>(ts: seq<Token<H>>): (gs: seq<Group<H>>)
    requires ts == [] || ts[0].Head?
    ensures Render(gs) == ts
    ensures ts != [] ==> gs != []
    decreases |ts|
  {
    if ts == [] then []
    else
      var init := Regroup(ts[..|ts| - 1]);
      assert ts[..|ts| - 1] + [ts[|ts| - 1]] == ts;
      match ts[|ts| - 1]
      case Head(h) =>
        RenderSnoc(init, Group(h, []));
        init + [Group(h, [])]
      case Line(x) =>
        var g := init[|init| - 1];
        RenderExtendLast(init, x);
        init[..|init| - 1] + [Group(g.head, g.lines + [x])]
  }

  /** A heading at the end of a stream opens a new, empty section. */
  lemma RegroupHead<H>(ts: seq<Token<H>>, h: H)
    requires ts == [] || ts[0].Head?
    ensures (ts + [Head(h)])[0].Head?
    ensures Regroup(ts + [Head(h)]) == Regroup(ts) + [Group(h, [])]
  {
    assert (ts + [Head(h)])[..|ts|] == ts;
  }

  /** A line at the end of a stream joins the last section. */
  lemma RegroupLine<H>(ts: seq<Token<H>>, x: string)
    requires ts != [] && ts[0].Head?
    ensures (ts + [Line(x)])[0].Head?
    ensures var gs := Regroup(ts);
      gs != [] && Regroup(ts + [Line(x)]) == gs[..|gs| - 1] + [Group(gs[|gs| - 1].head, gs[|gs| - 1].lines + [x])]
  {
    assert (ts + [Line(x)])[..|ts|] == ts;
  }

  lemma LinesInjective<H>(a: seq<string>, b: seq<string>)
    requires Lines<H>(a) == Lines<H>(b)
    ensures a == b
  {
    assert |a| == |b|;
    forall i | 0 <= i < |a| ensures a[i] == b[i] {
      assert Lines<H>(a)[i] == Line(a[i]);
    }
  }

  lemma RenderNonEmpty<H>(gs: seq<Group<H>>)
    requires gs != []
    ensures Render(gs) != []
  {
    assert |Render(gs)| >= |GroupTokens(gs[|gs| - 1])|;
  }

  lemma SnocSplit<T>(s: seq<T>)
    requires s != []
    ensures s == s[..|s| - 1] + [s[|s| - 1]]
  {
  }

  /** A stream has at most one heading followed only by lines. */
  lemma LastHeadUnique<H>(r: seq<Token<H>>, i: nat, j: nat)
    requires i < |r| && j < |r| && r[i].Head? && r[j].Head?
    requires forall k :: i < k < |r| ==> r[k].Line?
    requires forall k :: j < k < |r| ==> r[k].Line?
    ensures i == j
  {
  }

  /** In a heading followed by lines after a prefix, the heading is the last one, and prefix and lines can be read back. */
  lemma GroupAfter<H>(p: seq<Token<H>>, g: Group<H>)
    ensures var r := p + GroupTokens(g);
      |p| < |r| && r[|p|] == Head(g.head) && (forall k :: |p| < k < |r| ==> r[k].Line?)
      && r[..|p|] == p && r[|p| + 1..] == Lines(g.lines)
  {
    var r := p + GroupTokens(g);
    forall k | |p| < k < |r| ensures r[k].Line? {
      assert r[k] == Lines<H>(g.lines)[k - |p| - 1];
    }
  }

  /** Two section lists with the same rendering agree on their last section and on the rendering before it. */
  lemma LastGroupEqual<H>(a: seq<Group<H>>, b: seq<Group<H>>)
    requires a != [] && b != [] && Render(a) == Render(b)
    ensures a[|a| - 1] == b[|b| - 1] && Render(a[..|a| - 1]) == Render(b[..|b| - 1])
  {
    var pa, pb := Render(a[..|a| - 1]), Render(b[..|b| - 1]);
    var ga, gb := a[|a| - 1], b[|b| - 1];
    var r := Render(a);
    assert r == pa + GroupTokens(ga) == pb + GroupTokens(gb);
    GroupAfter(pa, ga);
    GroupAfter(pb, gb);
    LastHeadUnique(r, |pa|, |pb|);
    LinesInjective<H>(ga.lines, gb.lines);
  }

  /** Different section lists render to different streams. */
  lemma {:induction false} RenderInjective<H>(a: seq<Group<H>>, b: seq<Group<H>>)
    requires Render(a) == Render(b)
    ensures a == b
    decreases |a|
  {
    if a != [] && b != [] {
      LastGroupEqual(a, b);
      RenderInjective(a[..|a| - 1], b[..|b| - 1]);
      SnocSplit(a);
      SnocSplit(b);
    } else if a != [] {
      RenderNonEmpty(a);
    } else if b != [] {
      RenderNonEmpty(b);
    }
  }

  lemma {:induction false} HeadsAppend<H>(s: seq<Token<H>>, t: seq<Token<H>>)
    ensures Heads(s + t) == Heads(s) + Heads(t)
    decreases |t|
  {
    if t == [] {
      assert s + t == s;
    } else {
      assert (s + t)[..|s + t| - 1] == s + t[..|t| - 1];
      HeadsAppend(s, t[..|t| - 1]);
    }
  }

  lemma {:induction false} HeadsOfLines<H>(ls: seq<string>)
    ensures Heads(Lines<H>(ls)) == []
    decreases |ls|
  {
    if ls != [] {
      assert Lines<H>(ls)[..|ls| - 1] == Lines<H>(ls[..|ls| - 1]);
      HeadsOfLines<H>(ls[..|ls| - 1]);
    }
  }

  /** The headings of a rendered stream are the section headings, one per section, in order. */
  lemma {:induction false} HeadsOfRender<H>(gs: seq<Group<H>>)
    ensures Heads(Render(gs)) == HeadsOfGroups(gs)
    decreases |gs|
  {
    if gs != [] {
      var init, g := gs[..|gs| - 1], gs[|gs| - 1];
      HeadsOfRender(init);
      HeadsAppend(Render(init), GroupTokens(g));
      HeadsOfGroupTokens(g);
      HeadsOfGroupsSnoc(gs);
    }
  }

  lemma HeadsOfGroupsSnoc<H>(gs: seq<Group<H>>)
    requires gs != []
    ensures HeadsOfGroups(gs) == HeadsOfGroups(gs[..|gs| - 1]) + [gs[|gs| - 1].head]
  {
    assert forall i :: 0 <= i < |gs| - 1 ==> gs[..|gs| - 1][i] == gs[i];
  }

  lemma HeadsOfGroupTokens<H>(g: Group<H>)
    ensures Heads(GroupTokens(g)) == [g.head]
  {
    HeadsAppend([Head(g.head)], Lines(g.lines));
    HeadsOfLines<H>(g.lines);
    assert [Head(g.head)][..0] == [];
  }

  /** A rendered stream starts with the first section's heading. */
  lemma {:induction false} RenderFirst<H>(gs: seq<Group<H>>)
    requires gs != []
    ensures Render(gs) != [] && Render(gs)[0] == Head(gs[0].head)
    decreases |gs|
  {
    var init := gs[..|gs| - 1];
    if init == [] {
      assert Render(gs) == [] + GroupTokens(gs[0]);
    } else {
      RenderFirst(init);
      assert init[0] == gs[0];
    }
  }

  /** Every heading and every line of every section occurs in the rendered stream. */
  lemma {:induction false} InRender<H>(gs: seq<Group<H>>, j: nat)
    requires j < |gs|
    ensures Head(gs[j].head) in Render(gs)
    ensures forall k :: 0 <= k < |gs[j].lines| ==> Line(gs[j].lines[k]) in Render(gs)
    decreases |gs|
  {
    var init, g := gs[..|gs| - 1], gs[|gs| - 1];
    var r := Render(gs);
    assert r == Render(init) + GroupTokens(g);
    if j == |gs| - 1 {
      var n := |Render(init)|;
      assert r[n] == Head(g.head);
      forall k | 0 <= k < |g.lines| ensures Line(g.lines[k]) in r {
        assert r[n + 1 + k] == Lines<H>(g.lines)[k];
      }
    } else {
      InRender(init, j);
      assert init[j] == gs[j];
      assert forall t :: t in Render(init) ==> t in r;
    }
  }

  lemma {:induction false} LinesHaveNoHeads<H>(ts: seq<Token<H>>)
    requires forall i :: 0 <= i < |ts| ==> ts[i].Line?
    ensures Heads(ts) == []
    decreases |ts|
  {
    if ts != [] {
      LinesHaveNoHeads(ts[..|ts| - 1]);
    }
  }

  /** Dropping the leading lines keeps every heading of a stream. */
  lemma LeadHeads<H>(ts: seq<Token<H>>)
    ensures Heads(AfterFirstHead(ts)) == Heads(ts)
  {
    var after := AfterFirstHead(ts);
    var lead := ts[..|ts| - |after|];
    forall i | 0 <= i < |lead| ensures lead[i].Line? {
      assert lead[i] == ts[i];
    }
    LinesHaveNoHeads(lead);
    assert ts == lead + after;
    HeadsAppend(lead, after);
  }

  /** Sections rendering to a stream from its first heading on have that stream's headings, in order. */
  lemma RenderHeads<H>(gs: seq<Group<H>>, ts: seq<Token<H>>)
    requires Render(gs) == AfterFirstHead(ts)
    ensures HeadsOfGroups(gs) == Heads(ts)
  {
    HeadsOfRender(gs);
    LeadHeads(ts);
  }
}
