/** The two text views the crawler derives from a page: the plain text (scripts and styles
    removed, tags turned into spaces, whitespace collapsed, trimmed) and a simplified markdown
    (a fixed chain of substitutions). Both are shallow textual rewrites, not an HTML parse. */
module Transform {
  import opened Wrappers
  import opened Text
  import opened Patterns

  /** The patterns of the script, style and list-item elements. */
  const ScriptBlock := Element("script", WordBoundary, true)
  const StyleBlock := Element("style", WordBoundary, true)
  const ListItem := Element("li", UpToGt, false)

  /** A replacement string without group references. */
  function Constant(rep: string): Rewrite {
    (k: nat, m: Match) => rep
  }

  /** A replacement string `before$1after`. */
  function Wrap(before: string, after: string): Rewrite {
    (k: nat, m: Match) => before + m.g1 + after
  }

  /** `s.replace(/<[^>]*>/g, rep)` */
  function StripTags(s: string, rep: string): string {
    ReplaceAll(s, AnyTag, Constant(rep))
  }

  /** `s.replace(/\s{2,}/g, ' ')` */
  function CollapseSpaces(s: string): string {
    ReplaceAll(s, Run(false, 2), Constant(" "))
  }

  /** `s.replace(/\n{3,}/g, '\n\n')` */
  function CollapseNewlines(s: string): string {
    ReplaceAll(s, Run(true, 3), Constant("\n\n"))
  }

  /** The plain-text view of a page (the `bodyText` of the crawler). */
  function PlainText(html: string): string {
    var noScript := ReplaceAll(html, ScriptBlock, Constant(""));
    var noStyle := ReplaceAll(noScript, StyleBlock, Constant(""));
    Trim(CollapseSpaces(StripTags(noStyle, " ")))
  }

  /** The page title: the first group of the first `/<title>(.*?)<\/title>/i` match, or "". */
  function Title(html: string): (r: string)
    ensures NoLineTerminator(r)
  {
    match NextMatch(html, Element("title", ClosedAt, false), 0)
    case Some(m) => m.g1
    case None => ""
  }

  /** The item callback of an ordered list returns the template literal `${++counter}. $1\n`:
      `$1` is not a group reference there, so the item text is dropped and the two characters
      `$1` are kept; the counter is the number of items replaced before, plus one. */
  const NumberedItem: Rewrite := (k: nat, m: Match) => NumberedLine(k)

  /** The line that replaces the item counted `k`, starting from zero. */
  function NumberedLine(k: nat): string {
    Decimal(k + 1) + ". $1\n"
  }

  /** The callback for an unordered list: each item becomes a `- ` line. */
  function UnorderedList(whole: string): string {
    Trim(StripTags(ReplaceAll(whole, ListItem, Wrap("- ", "\n")), "")) + "\n\n"
  }

  /** The callback for an ordered list; its counter starts afresh for every list. */
  function OrderedList(whole: string): string {
    Trim(StripTags(ReplaceAll(whole, ListItem, NumberedItem), "")) + "\n\n"
  }

  /** The anchor replacement `[$2]($1)`: the link text, then the reference in parentheses. */
  const AnchorLink: Rewrite := (k: nat, m: Match) => "[" + m.g2 + "](" + m.g1 + ")"

  /** One `.replace(pattern, replacement)` of the markdown chain. */
  datatype Step = Step(pat: Pattern, rewrite: Rewrite)

  /** The substitutions of the markdown chain, in their fixed order, before the clean-up. */
  const MarkdownSteps: seq<Step> := [
    Step(Element("h1", UpToGt, false), Wrap("# ", "\n\n")),
    Step(Element("h2", UpToGt, false), Wrap("## ", "\n\n")),
    Step(Element("h3", UpToGt, false), Wrap("### ", "\n\n")),
    Step(Element("h4", UpToGt, false), Wrap("#### ", "\n\n")),
    Step(Element("h5", UpToGt, false), Wrap("##### ", "\n\n")),
    Step(Element("h6", UpToGt, false), Wrap("###### ", "\n\n")),
    Step(Element("p", UpToGt, false), Wrap("", "\n\n")),
    Step(Anchor, AnchorLink),
    Step(Element("strong", UpToGt, false), Wrap("**", "**")),
    Step(Element("b", UpToGt, false), Wrap("**", "**")),
    Step(Element("em", UpToGt, false), Wrap("*", "*")),
    Step(Element("i", UpToGt, false), Wrap("*", "*")),
    Step(Element("ul", UpToGt, true), (k: nat, m: Match) => UnorderedList(m.whole)),
    Step(Element("ol", UpToGt, true), (k: nat, m: Match) => OrderedList(m.whole))
  ]

  /** The steps from the `n`-th on, applied one after the other. */
  function Substitute(s: string, steps: seq<Step>, n: nat): string
    requires n <= |steps|
    decreases |steps| - n
  {
    if n == |steps| then s else Substitute(ReplaceAll(s, steps[n].pat, steps[n].rewrite), steps, n + 1)
  }

  /** The whole chain of markdown substitutions, before the final collapse and trim. */
  function MarkdownRewrites(html: string): string {
    Substitute(html, MarkdownSteps, 0)
  }

  /** The last three steps of the markdown chain: leftover tags removed, runs of three or
      more line feeds cut to two, the result trimmed. */
  function CleanUp(s: string): string {
    Trim(CollapseNewlines(StripTags(s, "")))
  }

  /** The markdown view of a page. */
  function Markdown(html: string): string {
    CleanUp(MarkdownRewrites(html))
  }

  // ---------------------------------------------------------------------------------------
  // Properties of the plain-text view

  /** A text without a complete tag keeps that property under any bracket-free rewrite. */
  lemma {:induction false} KeepsNoTag(s: string, pat: Pattern, f: Rewrite, i: nat, k: nat)
    requires i <= |s| && NoTag(s)
    requires forall n: nat, m: Match :: '<' !in f(n, m) && '>' !in f(n, m)
    ensures NoTag(ReplaceFrom(s, pat, f, i, k))
    decreases |s| - i
  {
    if i < |s| {
      match MatchAt(s, pat, i)
      case Some(m) =>
        KeepsNoTag(s, pat, f, m.end, k + 1);
        JoinNoTag(f(k, m), ReplaceFrom(s, pat, f, m.end, k + 1));
      case None =>
        KeepsNoTag(s, pat, f, i + 1, k);
        if s[i] == '<' {
          forall j | i + 1 <= j < |s| ensures s[j] != '>' {
            assert s[i] == '<';
          }
          KeepsAbsent(s, pat, f, i + 1, k, '>');
        }
        JoinNoTag([s[i]], ReplaceFrom(s, pat, f, i + 1, k));
    }
  }

  /** An infix of a text without a complete tag has none either. */
  lemma InfixNoTag(s: string, lo: nat, hi: nat)
    requires lo <= hi <= |s| && NoTag(s)
    ensures NoTag(s[lo..hi])
  {
    var r := s[lo..hi];
    forall a, b | 0 <= a < b < |r| && r[a] == '<' ensures r[b] != '>' {
      assert s[lo + a] == '<';
    }
  }

  /** A run of `n` class characters makes `RunLen` at least `n`. */
  lemma {:induction false} RunAtLeast(s: string, a: nat, n: nat, newlinesOnly: bool)
    requires a + n <= |s|
    requires forall c :: a <= c < a + n ==> InClass(newlinesOnly, s[c])
    ensures RunLen(s, a, newlinesOnly) >= n
    decreases n
  {
    if n > 0 {
      RunAtLeast(s, a + 1, n - 1, newlinesOnly);
    }
  }

  /** A run inside an infix is no longer than the run at the same place in the whole. */
  lemma {:induction false} RunLenInfix(c: string, lo: nat, hi: nat, a: nat, newlinesOnly: bool)
    requires lo <= hi <= |c| && a <= hi - lo
    ensures RunLen(c[lo..hi], a, newlinesOnly) <= RunLen(c, lo + a, newlinesOnly)
    decreases hi - lo - a
  {
    if a < hi - lo {
      RunLenInfix(c, lo, hi, a + 1, newlinesOnly);
    }
  }

  /** Trimming keeps a text free of complete tags. */
  lemma TrimKeepsNoTag(c: string)
    requires NoTag(c)
    ensures NoTag(Trim(c))
  {
    var lo := LeadingSpaces(c);
    InfixNoTag(c, lo, lo + |Trim(c)|);
  }

  /** Trimming keeps a text free of class runs of length `min`. */
  lemma TrimKeepsRunFree(c: string, newlinesOnly: bool, min: nat)
    requires RunFree(c, newlinesOnly, min)
    ensures RunFree(Trim(c), newlinesOnly, min)
  {
    var r := Trim(c);
    var lo := LeadingSpaces(c);
    InfixRunFree(c, lo, lo + |r|, newlinesOnly, min);
  }

  /** An infix of a text free of class runs of length `min` is free of them too. */
  lemma InfixRunFree(c: string, lo: nat, hi: nat, newlinesOnly: bool, min: nat)
    requires lo <= hi <= |c| && RunFree(c, newlinesOnly, min)
    ensures RunFree(c[lo..hi], newlinesOnly, min)
  {
    forall a | 0 <= a <= hi - lo ensures RunLen(c[lo..hi], a, newlinesOnly) < min {
      RunLenInfix(c, lo, hi, a, newlinesOnly);
    }
  }

  /** Removing every tag leaves no complete tag, whatever bracket-free text replaces it. */
  lemma StripTagsNoTag(s: string, rep: string)
    requires '<' !in rep && '>' !in rep
    ensures NoTag(StripTags(s, rep))
  {
    StripLeavesNoTag(s, Constant(rep), 0, 0);
  }

  /** Collapsing whitespace leaves no two whitespace characters in a row, and adds no tag. */
  lemma CollapseSpacesClean(s: string)
    requires NoTag(s)
    ensures NoTag(CollapseSpaces(s)) && RunFree(CollapseSpaces(s), false, 2)
  {
    KeepsNoTag(s, Run(false, 2), Constant(" "), 0, 0);
    CollapseRuns(s, false, 2, Constant(" "), 0, 0);
  }

  /** Collapsing line feeds leaves no three in a row, and adds no tag. */
  lemma CollapseNewlinesClean(s: string)
    requires NoTag(s)
    ensures NoTag(CollapseNewlines(s)) && RunFree(CollapseNewlines(s), true, 3)
  {
    KeepsNoTag(s, Run(true, 3), Constant("\n\n"), 0, 0);
    CollapseRuns(s, true, 3, Constant("\n\n"), 0, 0);
  }

  /** The plain-text view has no whitespace at either end, never two whitespace characters in
      a row, and no complete tag. */
  lemma {:induction false} PlainTextIsNormalized(html: string)
    ensures var r := PlainText(html);
      (r == [] || (!IsSpace(r[0]) && !IsSpace(r[|r| - 1])))
      && (forall a :: 0 <= a < |r| - 1 ==> !(IsSpace(r[a]) && IsSpace(r[a + 1])))
      && NoTag(r)
  {
    var noScript := ReplaceAll(html, ScriptBlock, Constant(""));
    var noStyle := ReplaceAll(noScript, StyleBlock, Constant(""));
    var stripped := StripTags(noStyle, " ");
    StripTagsNoTag(noStyle, " ");
    CollapseSpacesClean(stripped);
    TrimmedClean(CollapseSpaces(stripped));
  }

  /** Trimming a text without tags or whitespace pairs gives a normalised text. */
  lemma TrimmedClean(c: string)
    requires NoTag(c) && RunFree(c, false, 2)
    ensures var r := Trim(c);
      (r == [] || (!IsSpace(r[0]) && !IsSpace(r[|r| - 1])))
      && (forall a :: 0 <= a < |r| - 1 ==> !(IsSpace(r[a]) && IsSpace(r[a + 1])))
      && NoTag(r)
  {
    TrimKeepsNoTag(c);
    TrimKeepsRunFree(c, false, 2);
    var r := Trim(c);
    forall a | 0 <= a < |r| - 1 ensures !(IsSpace(r[a]) && IsSpace(r[a + 1])) {
      if IsSpace(r[a]) && IsSpace(r[a + 1]) {
        RunAtLeast(r, a, 2, false);
      }
    }
  }

  // ---------------------------------------------------------------------------------------
  // Properties of the markdown view

  /** The clean-up steps leave a trimmed text with no three line feeds in a row and no
      complete tag, whatever the substitutions before them produced. */
  lemma {:induction false} CleanUpIsNormalized(s: string)
    ensures var r := CleanUp(s);
      (r == [] || (!IsSpace(r[0]) && !IsSpace(r[|r| - 1])))
      && (forall a :: 0 <= a < |r| - 2 ==> !(r[a] == '\n' && r[a + 1] == '\n' && r[a + 2] == '\n'))
      && NoTag(r)
  {
    var stripped := StripTags(s, "");
    var collapsed := CollapseNewlines(stripped);
    StripTagsNoTag(s, "");
    CollapseNewlinesClean(stripped);
    TrimKeepsNoTag(collapsed);
    TrimKeepsRunFree(collapsed, true, 3);
    var r := Trim(collapsed);
    forall a | 0 <= a < |r| - 2 ensures !(r[a] == '\n' && r[a + 1] == '\n' && r[a + 2] == '\n') {
      if r[a] == '\n' && r[a + 1] == '\n' && r[a + 2] == '\n' {
        RunAtLeast(r, a, 3, true);
      }
    }
  }

  /** The markdown view is trimmed, never holds three line feeds in a row, and holds no
      complete tag. */
  lemma {:induction false} MarkdownIsNormalized(html: string)
    ensures var r := Markdown(html);
      (r == [] || (!IsSpace(r[0]) && !IsSpace(r[|r| - 1])))
      && (forall a :: 0 <= a < |r| - 2 ==> !(r[a] == '\n' && r[a + 1] == '\n' && r[a + 2] == '\n'))
      && NoTag(r)
  {
    CleanUpIsNormalized(MarkdownRewrites(html));
  }

  // ---------------------------------------------------------------------------------------
  // What the markdown view makes of a heading and of an ordered list

  /** Every step matches only at a `<`. */
  predicate TagSteps(steps: seq<Step>) {
    forall n :: 0 <= n < |steps| ==>
      steps[n].pat.Element? || steps[n].pat.Anchor? || steps[n].pat.AnyTag? || steps[n].pat.LinkHref?
  }

  /** A text without `<` goes through tag substitutions unchanged. */
  lemma {:induction false} SubstituteWithoutTags(s: string, steps: seq<Step>, n: nat)
    requires n <= |steps| && '<' !in s && TagSteps(steps)
    ensures Substitute(s, steps, n) == s
    decreases |steps| - n
  {
    if n < |steps| {
      NoOpenUnchanged(s, steps[n].pat, steps[n].rewrite);
      SubstituteWithoutTags(s, steps, n + 1);
    }
  }

  /** No run of three line feeds in a one-line text followed by a blank line. */
  lemma ParagraphRuns(u: string, j: nat)
    requires '\n' !in u && j <= |u + "\n\n"|
    ensures RunLen(u + "\n\n", j, true) < 3
  {
    var s := u + "\n\n";
    if j < |u| {
      assert s[j] == u[j];
    } else if j == |u| {
      assert RunLen(s, j + 1, true) == 1 + RunLen(s, j + 2, true);
    }
  }

  /** The clean-up turns a one-line paragraph followed by a blank line into the paragraph. */
  lemma {:induction false} CleanUpParagraph(u: string)
    requires u != [] && '<' !in u && '\n' !in u
    requires !IsSpace(u[0]) && !IsSpace(u[|u| - 1])
    ensures CleanUp(u + "\n\n") == u
  {
    var s := u + "\n\n";
    NoOpenUnchanged(s, AnyTag, Constant(""));
    forall j | 0 <= j < |s| ensures MatchAt(s, Run(true, 3), j).None? {
      ParagraphRuns(u, j);
    }
    Skip(s, Run(true, 3), Constant("\n\n"), 0, |s|, 0);
    assert CollapseNewlines(s) == s;
    TrimToPrefix(s, |u|);
    assert s[..|u|] == u;
  }

  /** The literal parts of `<h1>t</h1>`, where the heading pattern finds them. */
  lemma HeadingWritten(t: string)
    ensures var w := "<h1>" + t + "</h1>";
      Occurs(w, 0, OpenTag("h1") + ">", false) && Occurs(w, 4, t, false)
      && Occurs(w, 4 + |t|, CloseTag("h1"), false)
  {
    var w := "<h1>" + t + "</h1>";
    assert OpenTag("h1") + ">" == "<h1>" && CloseTag("h1") == "</h1>";
    OccursInConcat([], "<h1>", t + "</h1>");
    assert [] + "<h1>" + (t + "</h1>") == w;
    OccursInConcat("<h1>", t, "</h1>");
    OccursInConcat("<h1>" + t, "</h1>", []);
    assert "<h1>" + t + "</h1>" + [] == w;
  }

  /** The heading step rewrites a lone heading into `# `, its text and a blank line. */
  lemma HeadingReplaced(t: string)
    requires '<' !in t && NoLineTerminator(t)
    ensures ReplaceAll("<h1>" + t + "</h1>", Element("h1", UpToGt, false), Wrap("# ", "\n\n"))
      == "# " + t + "\n\n"
  {
    var w := "<h1>" + t + "</h1>";
    HeadingWritten(t);
    ElementExact(w, 0, "h1", t);
    ReplaceWhole(w, Element("h1", UpToGt, false), Wrap("# ", "\n\n"), Match(w[0..|w|], |w|, t, ""));
  }

  /** Every markdown step is a tag substitution. */
  lemma MarkdownStepsMatchTags()
    ensures TagSteps(MarkdownSteps)
  {
  }

  /** Of the markdown substitutions only the heading step changes a lone heading. */
  lemma HeadingRewrites(t: string)
    requires '<' !in t && NoLineTerminator(t)
    ensures MarkdownRewrites("<h1>" + t + "</h1>") == "# " + t + "\n\n"
  {
    var w := "<h1>" + t + "</h1>";
    HeadingReplaced(t);
    var h := "# " + t + "\n\n";
    assert '<' !in h;
    MarkdownStepsMatchTags();
    SubstituteWithoutTags(h, MarkdownSteps, 1);
  }

  /** The clean-up leaves the rewritten heading as its one line. */
  lemma CleanUpHeading(t: string)
    requires t != [] && '<' !in t && NoLineTerminator(t) && !IsSpace(t[|t| - 1])
    ensures CleanUp("# " + t + "\n\n") == "# " + t
  {
    var u := "# " + t;
    assert '\n' !in u by {
      forall c | 0 <= c < |t| ensures t[c] != '\n' { }
    }
    CleanUpParagraph(u);
  }

  /** A one-line `<h1>` heading without inner tags becomes `# ` and its text. */
  lemma {:induction false} MarkdownHeading(t: string)
    requires t != [] && '<' !in t && NoLineTerminator(t) && !IsSpace(t[|t| - 1])
    ensures Markdown("<h1>" + t + "</h1>") == "# " + t
  {
    HeadingRewrites(t);
    CleanUpHeading(t);
  }

  /** `<li>t</li>` for each item text, one after the other. */
  function ListItems(ts: seq<string>): string {
    if ts == [] then "" else "<li>" + ts[0] + "</li>" + ListItems(ts[1..])
  }

  /** Item texts an item pattern captures whole: one line each, without tags. */
  predicate PlainItems(ts: seq<string>) {
    forall n :: 0 <= n < |ts| ==> '<' !in ts[n] && NoLineTerminator(ts[n])
  }

  /** The lines `k+1. $1`, …, `k+n. $1`, each ended by a line feed. */
  function Numbering(k: nat, n: nat): string
    decreases n
  {
    if n == 0 then "" else NumberedLine(k) + Numbering(k + 1, n - 1)
  }

  /** The numbered lines hold no bracket, and a nonempty numbering starts with a digit and
      ends with ` $1` and a line feed. */
  lemma {:induction false} NumberingShape(k: nat, n: nat)
    ensures var r := Numbering(k, n);
      '<' !in r && '>' !in r
      && (n > 0 ==> |r| >= 6 && '0' <= r[0] <= '9' && r[|r| - 4..] == " $1\n"
                    && r[|r| - 2] == '1' && r[|r| - 1] == '\n')
    decreases n
  {
    if n > 0 {
      NumberingShape(k + 1, n - 1);
      var line := NumberedLine(k);
      var d := Decimal(k + 1);
      var r := Numbering(k, n);
      assert line == d + ". $1\n";
      assert '<' !in line && '>' !in line by {
        forall c | 0 <= c < |d| ensures d[c] != '<' && d[c] != '>' { }
      }
      if n == 1 {
        assert r == line + "";
        assert line[|line| - 4..] == " $1\n";
      } else {
        var rest := Numbering(k + 1, n - 1);
        assert r == line + rest;
        assert r[|r| - 4..] == rest[|rest| - 4..];
      }
    }
  }

  /** Two replacement steps in a row, read as one. */
  lemma Chain(r0: string, x: string, r1: string, y: string, r2: string, xy: string)
    requires r0 == x + r1 && r1 == y + r2 && xy == x + y
    ensures r0 == xy + r2
  {
  }

  /** The items `ts` are written one after the other from index `i` of `w`. */
  predicate ItemsAt(w: string, i: nat, ts: seq<string>)
    decreases |ts|
  {
    ts == []
    || (Occurs(w, i, "<li>", false) && Occurs(w, i + 4, ts[0], false)
        && Occurs(w, i + 4 + |ts[0]|, "</li>", false) && ItemsAt(w, i + 9 + |ts[0]|, ts[1..]))
  }

  /** Written out, the items are where `ItemsAt` says. */
  lemma {:induction false} ListItemsWritten(u: string, ts: seq<string>, z: string)
    ensures ItemsAt(u + (ListItems(ts) + z), |u|, ts)
    decreases |ts|
  {
    if ts != [] {
      var t, v := ts[0], ListItems(ts[1..]) + z;
      var u' := u + "<li>" + t + "</li>";
      ItemWritten(u, t, v);
      Regroup(u, "<li>", t, "</li>", ListItems(ts[1..]), z);
      ListItemsWritten(u', ts[1..], z);
      assert |u'| == |u| + 9 + |t|;
      ItemsAtStep(u' + v, |u|, ts);
    }
  }

  /** String concatenation regrouped around one list item. */
  lemma Regroup(u: string, a: string, b: string, c: string, d: string, z: string)
    ensures u + ((a + b + c + d) + z) == (u + a + b + c) + (d + z)
  {
  }

  /** `ItemsAt` unrolled by one item. */
  lemma ItemsAtStep(w: string, i: nat, ts: seq<string>)
    requires ts != [] && Occurs(w, i, "<li>", false) && Occurs(w, i + 4, ts[0], false)
    requires Occurs(w, i + 4 + |ts[0]|, "</li>", false)
    requires ItemsAt(w, i + 9 + |ts[0]|, ts[1..])
    ensures ItemsAt(w, i, ts)
  {
  }

  /** The three pieces of one item sit where `ListItems` writes them. */
  lemma ItemWritten(u: string, t: string, v: string)
    ensures var w := u + "<li>" + t + "</li>" + v;
      Occurs(w, |u|, "<li>", false) && Occurs(w, |u| + 4, t, false)
      && Occurs(w, |u| + 4 + |t|, "</li>", false)
  {
    var w := u + "<li>" + t + "</li>" + v;
    OccursInConcat(u, "<li>", t + "</li>" + v);
    assert w == u + "<li>" + (t + "</li>" + v);
    OccursInConcat(u + "<li>", t, "</li>" + v);
    assert w == (u + "<li>") + t + ("</li>" + v);
    OccursInConcat(u + "<li>" + t, "</li>", v);
  }

  /** One item written at `i` is replaced by the numbered line of counter `k`. */
  lemma ItemNumbered(w: string, i: nat, t: string, k: nat)
    requires '<' !in t && NoLineTerminator(t)
    requires Occurs(w, i, "<li>", false) && Occurs(w, i + 4, t, false)
    requires Occurs(w, i + 4 + |t|, "</li>", false)
    ensures i + 9 + |t| <= |w|
    ensures ReplaceFrom(w, ListItem, NumberedItem, i, k)
      == NumberedLine(k) + ReplaceFrom(w, ListItem, NumberedItem, i + 9 + |t|, k + 1)
  {
    assert OpenTag("li") + ">" == "<li>" && CloseTag("li") == "</li>";
    ElementExact(w, i, "li", t);
  }

  /** The items of a list written from `i` up to `j` become the numbered lines counting on
      from `k`; the replacement goes on after them with counter `c`. */
  lemma {:induction false} ItemsNumbered(w: string, i: nat, ts: seq<string>, k: nat, j: nat, c: nat)
    requires i <= |w| && PlainItems(ts) && ItemsAt(w, i, ts)
    requires j == i + |ListItems(ts)| && c == k + |ts|
    ensures j <= |w|
    ensures ReplaceFrom(w, ListItem, NumberedItem, i, k)
      == Numbering(k, |ts|) + ReplaceFrom(w, ListItem, NumberedItem, j, c)
    decreases |ts|
  {
    if ts != [] {
      ItemsRest(w, i, ts);
      ItemsNumbered(w, i + 9 + |ts[0]|, ts[1..], k + 1, j, c);
      ItemsStep(w, i, ts[0], |ts[1..]|, k, j, c);
    }
  }

  /** What the first item of a non-empty list tells about the others. */
  lemma ItemsRest(w: string, i: nat, ts: seq<string>)
    requires ts != [] && PlainItems(ts) && ItemsAt(w, i, ts)
    ensures '<' !in ts[0] && NoLineTerminator(ts[0])
    ensures Occurs(w, i, "<li>", false) && Occurs(w, i + 4, ts[0], false)
    ensures Occurs(w, i + 4 + |ts[0]|, "</li>", false)
    ensures PlainItems(ts[1..]) && ItemsAt(w, i + 9 + |ts[0]|, ts[1..])
    ensures |ListItems(ts)| == 9 + |ts[0]| + |ListItems(ts[1..])|
    ensures |ts[1..]| == |ts| - 1
  {
    assert PlainItems(ts[1..]) by {
      forall n | 0 <= n < |ts[1..]| ensures ts[1..][n] == ts[n + 1] { }
    }
  }

  /** One item numbered, followed by the numbering of the `n` items after it. */
  lemma ItemsStep(w: string, i: nat, t: string, n: nat, k: nat, j: nat, c: nat)
    requires '<' !in t && NoLineTerminator(t)
    requires Occurs(w, i, "<li>", false) && Occurs(w, i + 4, t, false)
    requires Occurs(w, i + 4 + |t|, "</li>", false)
    requires j <= |w|
    requires ReplaceFrom(w, ListItem, NumberedItem, i + 9 + |t|, k + 1)
      == Numbering(k + 1, n) + ReplaceFrom(w, ListItem, NumberedItem, j, c)
    ensures ReplaceFrom(w, ListItem, NumberedItem, i, k)
      == Numbering(k, n + 1) + ReplaceFrom(w, ListItem, NumberedItem, j, c)
  {
    ItemNumbered(w, i, t, k);
    Chain(ReplaceFrom(w, ListItem, NumberedItem, i, k), NumberedLine(k),
      ReplaceFrom(w, ListItem, NumberedItem, i + 9 + |t|, k + 1), Numbering(k + 1, n),
      ReplaceFrom(w, ListItem, NumberedItem, j, c), Numbering(k, n + 1));
  }

  /** A position whose next character is not an `l` starts no list item. */
  lemma NoItemAt(w: string, j: nat)
    requires j + 1 < |w| && w[j + 1] != 'l' && w[j + 1] != 'L'
    ensures MatchAt(w, ListItem, j).None?
  {
    assert OpenTag("li")[1] == 'l';
    assert Lower(w[j + 1]) != 'l';
  }

  /** Numbering the items of `<ol>…</ol>` keeps the two list tags around the numbered lines. */
  lemma OrderedItemsNumbered(ts: seq<string>)
    requires PlainItems(ts)
    ensures ReplaceAll("<ol>" + (ListItems(ts) + "</ol>"), ListItem, NumberedItem)
      == "<ol>" + (Numbering(0, |ts|) + "</ol>")
  {
    var items := ListItems(ts);
    var w := "<ol>" + (items + "</ol>");
    var e := 4 + |items|;
    ListItemsWritten("<ol>", ts, "</ol>");
    OpenSkipped(items + "</ol>", NumberedItem);
    ItemsNumbered(w, 4, ts, 0, e, |ts|);
    CloseSkipped("<ol>", items, e, NumberedItem, |ts|);
    Around(ReplaceFrom(w, ListItem, NumberedItem, 0, 0), "<ol>", ReplaceFrom(w, ListItem, NumberedItem, 4, 0),
      Numbering(0, |ts|), ReplaceFrom(w, ListItem, NumberedItem, e, |ts|), "</ol>");
  }

  /** No list item starts inside an opening `<ol>`. */
  lemma OpenSkipped(rest: string, f: Rewrite)
    ensures ReplaceFrom("<ol>" + rest, ListItem, f, 0, 0)
      == "<ol>" + ReplaceFrom("<ol>" + rest, ListItem, f, 4, 0)
  {
    var w := "<ol>" + rest;
    forall j | 0 <= j < 4 ensures MatchAt(w, ListItem, j).None? {
      if j == 0 { NoItemAt(w, 0); } else { NoOpenNoMatch(w, ListItem, j); }
    }
    Skip(w, ListItem, f, 0, 4, 0);
    assert w[0..4] == "<ol>";
  }

  /** No list item starts inside a closing `</ol>`, and nothing follows it. */
  lemma CloseSkipped(x: string, y: string, e: nat, f: Rewrite, c: nat)
    requires e == |x| + |y|
    ensures e <= |x + (y + "</ol>")|
    ensures ReplaceFrom(x + (y + "</ol>"), ListItem, f, e, c) == "</ol>"
  {
    var w := x + (y + "</ol>");
    forall j | e <= j < |w| ensures MatchAt(w, ListItem, j).None? {
      if j == e { NoItemAt(w, j); } else { NoOpenNoMatch(w, ListItem, j); }
    }
    Skip(w, ListItem, f, e, |w|, c);
    assert w[e..|w|] == "</ol>";
  }

  /** The three pieces of `x + (y + z)`, sliced back out. */
  lemma Pieces(x: string, y: string, z: string)
    ensures var w := x + (y + z);
      w[0..|x|] == x && w[|x|..|x| + |y|] == y && w[|x| + |y|..|w|] == z
  {
  }

  /** A text before and a text after a middle part, read as one. */
  lemma Around(r0: string, x: string, r1: string, y: string, r2: string, z: string)
    requires r0 == x + r1 && r1 == y + r2 && r2 == z
    ensures r0 == x + (y + z)
  {
  }

  /** Stripping the tags of `<ol>y</ol>` leaves `y` when it holds no tag. */
  lemma StripListTags(y: string)
    requires '<' !in y
    ensures StripTags("<ol>" + (y + "</ol>"), "") == y
  {
    var w := "<ol>" + (y + "</ol>");
    var e := 4 + |y|;
    AnyTagAt(w, 0, 3);
    forall j | 4 <= j < e ensures MatchAt(w, AnyTag, j).None? {
      NoOpenNoMatch(w, AnyTag, j);
    }
    Skip(w, AnyTag, Constant(""), 4, e, 1);
    AnyTagAt(w, e, e + 4);
    assert ReplaceFrom(w, AnyTag, Constant(""), e, 1) == "";
    Pieces("<ol>", y, "</ol>");
  }

  /** The numbered lines lose only their final line feed to the trim. */
  lemma NumberingTrimmed(n: nat)
    requires n > 0
    ensures var r := Numbering(0, n); Trim(r) == r[..|r| - 1]
  {
    var r := Numbering(0, n);
    NumberingShape(0, n);
    TrimToPrefix(r, |r| - 1);
  }

  /** Every `<ol>` is numbered by its own callback, so its count starts at one: `n` plain
      items become the lines `1. $1` to `n. $1` (the item texts are not kept), and the
      list ends with a blank line. */
  lemma OrderedListNumbers(ts: seq<string>)
    requires PlainItems(ts)
    ensures var r := Numbering(0, |ts|);
      OrderedList("<ol>" + ListItems(ts) + "</ol>") == (if ts == [] then "" else r[..|r| - 1]) + "\n\n"
  {
    var r := Numbering(0, |ts|);
    var w := "<ol>" + ListItems(ts) + "</ol>";
    assert w == "<ol>" + (ListItems(ts) + "</ol>");
    OrderedItemsNumbered(ts);
    NumberingShape(0, |ts|);
    StripListTags(r);
    assert StripTags(ReplaceAll(w, ListItem, NumberedItem), "") == r;
    if ts != [] {
      NumberingTrimmed(|ts|);
    } else {
      assert Trim(r) == "";
    }
  }


  // ---------------------------------------------------------------------------------------
  // The title

  /** The page title is the body of the first `<title>…</title>` element: where no `<title`
      (in any case) starts before it, a one-line body `t` free of `<` is the title, whatever
      follows. */
  lemma TitleFound(u: string, t: string, v: string)
    requires '<' !in t && NoLineTerminator(t)
    requires forall k :: 0 <= k < |u| ==> !Occurs(u + "<title>" + t + "</title>" + v, k, "<title", true)
    ensures Title(u + "<title>" + t + "</title>" + v) == t
  {
    var w := u + "<title>" + t + "</title>" + v;
    assert w == u + "<title>" + (t + "</title>" + v);
    OccursInConcat(u, "<title>", t + "</title>" + v);
    assert w == (u + "<title>") + t + ("</title>" + v);
    OccursInConcat(u + "<title>", t, "</title>" + v);
    assert w == (u + "<title>" + t) + "</title>" + v;
    OccursInConcat(u + "<title>" + t, "</title>", v);
    TitleAt(w, |u|, t);
  }

  /** `<title>t</title>` written at `i`, with no `<title` starting before it, is the title. */
  lemma TitleAt(w: string, i: nat, t: string)
    requires '<' !in t && NoLineTerminator(t)
    requires Occurs(w, i, "<title>", false) && Occurs(w, i + 7, t, false)
    requires Occurs(w, i + 7 + |t|, "</title>", false)
    requires forall k :: 0 <= k < i ==> !Occurs(w, k, "<title", true)
    ensures Title(w) == t
  {
    var pat := Element("title", ClosedAt, false);
    TitleMatch(w, i, t);
    assert OpenTag("title") == "<title";
    forall k | 0 <= k < i ensures MatchAt(w, pat, k).None? {
      assert !Occurs(w, k, OpenTag("title"), true);
    }
    NextMatchFinds(w, pat, 0, i);
  }

  /** `<title>t</title>` written at `i` is a title match there whose group is `t`. */
  lemma TitleMatch(w: string, i: nat, t: string)
    requires '<' !in t && NoLineTerminator(t)
    requires Occurs(w, i, "<title>", false) && Occurs(w, i + 7, t, false)
    requires Occurs(w, i + 7 + |t|, "</title>", false)
    ensures var m := MatchAt(w, Element("title", ClosedAt, false), i); m.Some? && m.value.g1 == t
  {
    assert OpenTag("title") + ">" == "<title>";
    OccursSplit(w, i, OpenTag("title"), ">");
    Folded(w, i, OpenTag("title"));
    assert w[i + 6] == ">"[0];
    assert HeadEnd(w, ClosedAt, i + 6) == Some(i + 7);
    assert CloseTag("title") == "</title>";
    CloseTagFolds("title");
    FirstAfterPlain(w, i + 7, t, CloseTag("title"));
    ElementFound(w, "title", ClosedAt, i, i + 7, i + 7 + |t|, t);
  }

  // Links

  /** The anchor step turns a plain link `<a href="u">t</a>` into `[t](u)`. */
  lemma AnchorRewritten(u: string, t: string)
    requires '"' !in u && NoLineTerminator(u)
    requires '<' !in t && NoLineTerminator(t)
    ensures ReplaceAll("<a href=\"" + u + "\">" + t + "</a>", Anchor, AnchorLink) == "[" + t + "](" + u + ")"
  {
    var w := "<a href=\"" + u + "\">" + t + "</a>";
    AnchorOfLink(w, u, t);
    ReplaceWhole(w, Anchor, AnchorLink, Match(w, |w|, u, t));
  }
}
