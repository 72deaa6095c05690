/** The regular expressions of the crawler, each as a matcher that says whether (and how far)
    the expression matches at one index, and the global `replace` / `exec` scan over them.
    Every expression involved is anchored on a fixed opening, so its backtracking can be
    written out: the first closing tag for a lazy group, the last `href=` for a greedy one. */
module Patterns {
  import opened Wrappers
  import opened Text

  /** What follows `<name` in an element pattern. */
  datatype Head =
    | UpToGt        // `[^>]*>`: up to and including the first `>`
    | WordBoundary  // `\b`: the next character is not a word character
    | ClosedAt      // `>` immediately

  /** The regular expressions the crawler applies, each as a case of its own. */
  datatype Pattern =
      /** `/<name HEAD (.*?)<\/name>/gi`; with `dotAll` the body is `[\s\S]*?`. */
    | Element(name: string, head: Head, dotAll: bool)
      /** `/<a href="(.*?)"[^>]*>(.*?)<\/a>/gi` */
    | Anchor
      /** `/<[^>]*>/g` */
    | AnyTag
      /** `/\s{min,}/g`, or `/\n{min,}/g` when `newlinesOnly` */
    | Run(newlinesOnly: bool, min: nat)
      /** `/<a[^>]+href=["']([^"']+)["'][^>]*>/g` */
    | LinkHref

  /** One match: the matched text, the index just after it, and the capture groups. */
  datatype Match = Match(whole: string, end: nat, g1: string, g2: string)

  /** The quote characters `["']` of the link pattern. */
  predicate IsQuote(c: char) { c == '"' || c == '\'' }

  /** The character class of a run: `\s`, or only `\n`. */
  predicate InClass(newlinesOnly: bool, c: char) {
    if newlinesOnly then c == '\n' else IsSpace(c)
  }

  /** Length of the run of class characters starting at `i`. */
  function RunLen(s: string, i: nat, newlinesOnly: bool): (n: nat)
    requires i <= |s|
    ensures i + n <= |s|
    ensures i + n < |s| ==> !InClass(newlinesOnly, s[i + n])
    decreases |s| - i
  {
    if i < |s| && InClass(newlinesOnly, s[i]) then 1 + RunLen(s, i + 1, newlinesOnly) else 0
  }

  /** No run of `min` or more class characters starts anywhere in `r`. */
  predicate RunFree(r: string, newlinesOnly: bool, min: nat) {
    forall a :: 0 <= a <= |r| ==> RunLen(r, a, newlinesOnly) < min
  }

  /** Where the body of an element starts, once `<name` is matched and `h` is the index after it. */
  function HeadEnd(s: string, head: Head, h: nat): (r: Option<nat>)
    requires h <= |s|
    ensures r.Some? ==> h <= r.value <= |s|
  {
    match head
    case UpToGt =>
      (match Find(s, ">", h, false)
       case Some(g) => Some(g + 1)
       case None => None)
    case WordBoundary => if h == |s| || !IsWordChar(s[h]) then Some(h) else None
    case ClosedAt => if h < |s| && s[h] == '>' then Some(h + 1) else None
  }

  /** `<name`, with which an element pattern starts. */
  function OpenTag(name: string): (r: string)
    ensures |r| == |name| + 1 && r[0] == '<'
  {
    "<" + name
  }

  /** `</name>`, which closes an element. */
  function CloseTag(name: string): (r: string)
    ensures |r| == |name| + 3 && r[0] == '<'
  {
    "</" + name + ">"
  }

  /** An element match at `i`: the opening tag, its head, then the body up to the first
      closing tag (the lazy `(.*?)`). */
  function ElementAt(s: string, name: string, head: Head, dotAll: bool, i: nat): (m: Option<Match>)
    requires i <= |s|
    ensures m.Some? ==> i < m.value.end <= |s|
    ensures m.Some? && !dotAll ==> NoLineTerminator(m.value.g1)
  {
    if !Occurs(s, i, OpenTag(name), true) then None
    else ElementBody(s, name, dotAll, i, HeadEnd(s, head, i + |name| + 1))
  }

  /** The element from `i` once the head is matched and the body starts at `hb`. */
  function ElementBody(s: string, name: string, dotAll: bool, i: nat, hb: Option<nat>): (m: Option<Match>)
    requires hb.Some? ==> i < hb.value <= |s|
    ensures m.Some? ==> i < m.value.end <= |s|
    ensures m.Some? && !dotAll ==> NoLineTerminator(m.value.g1)
  {
    match hb
    case None => None
    case Some(b) => ElementClosed(s, name, dotAll, i, b, Find(s, CloseTag(name), b, true))
  }

  /** The element from `i` with body from `b`, closed by the closing tag found at `cj`. */
  function ElementClosed(s: string, name: string, dotAll: bool, i: nat, b: nat, cj: Option<nat>): (m: Option<Match>)
    requires i < b <= |s|
    requires cj.Some? ==> b <= cj.value && cj.value + |name| + 3 <= |s|
    ensures m.Some? ==> i < m.value.end <= |s|
    ensures m.Some? && !dotAll ==> NoLineTerminator(m.value.g1)
  {
    match cj
    case None => None
    case Some(j) =>
      if dotAll || NoLineTerminator(s[b..j])
      then Some(Match(s[i..j + |name| + 3], j + |name| + 3, s[b..j], ""))
      else None
  }

  /** The anchor pattern from index `i`, whose first group starts at `b`, trying as closing
      quote of that group each `"` from `from` on (the lazy group grows one quote at a time). */
  function AnchorFrom(s: string, i: nat, b: nat, from: nat): (m: Option<Match>)
    requires i < b <= from <= |s|
    ensures m.Some? ==> from < m.value.end <= |s|
    decreases |s| - from, 1, 0
  {
    match Find(s, "\"", from, false)
    case None => None
    case Some(q) => AnchorQuote(s, i, b, q)
  }

  /** The anchor pattern with the quote at `q` closing its first group: then `[^>]*>`; when
      that fails, the next quote is tried. */
  function AnchorQuote(s: string, i: nat, b: nat, q: nat): (m: Option<Match>)
    requires i < b <= q < |s|
    ensures m.Some? ==> q < m.value.end <= |s|
    decreases |s| - q, 0, 1
  {
    if !NoLineTerminator(s[b..q]) then None
    else match Find(s, ">", q + 1, false)
      case None => None
      case Some(g) => AnchorText(s, i, b, q, g)
  }

  /** The anchor pattern with its opening tag ending at `g`: the lazy second group up to the
      first `</a>`; when that fails, the next quote is tried. */
  function AnchorText(s: string, i: nat, b: nat, q: nat, g: nat): (m: Option<Match>)
    requires i < b <= q < g < |s|
    ensures m.Some? ==> q < m.value.end <= |s|
    decreases |s| - q, 0, 0
  {
    match Find(s, "</a>", g + 1, true)
    case Some(j) =>
      if NoLineTerminator(s[g + 1..j]) then Some(Match(s[i..j + 4], j + 4, s[b..q], s[g + 1..j]))
      else AnchorFrom(s, i, b, q + 1)
    case None => AnchorFrom(s, i, b, q + 1)
  }

  /** The first quote character at or after `from`. */
  function FindQuote(s: string, from: nat): (r: Option<nat>)
    ensures r.Some? ==> from <= r.value < |s| && IsQuote(s[r.value])
    ensures r.Some? ==> forall j :: from <= j < r.value ==> !IsQuote(s[j])
    ensures r.None? ==> forall j :: from <= j < |s| ==> !IsQuote(s[j])
    decreases |s| - from
  {
    if from >= |s| then None
    else if IsQuote(s[from]) then Some(from)
    else FindQuote(s, from + 1)
  }

  /** `href=["']([^"']+)["'][^>]*>` matched at index `p`. */
  function HrefTail(s: string, i: nat, p: nat): (m: Option<Match>)
    requires i < p <= |s|
    ensures m.Some? ==> p < m.value.end <= |s|
  {
    if !(Occurs(s, p, "href=", false) && p + 5 < |s| && IsQuote(s[p + 5])) then None
    else match FindQuote(s, p + 6)
      case None => None
      case Some(q) =>
        if q == p + 6 then None
        else match Find(s, ">", q + 1, false)
          case None => None
          case Some(g) => Some(Match(s[i..g + 1], g + 1, s[p + 6..q], ""))
  }

  /** The greedy `[^>]+` gives back one character at a time, so `href=` is tried at `p`,
      then `p - 1`, down to the first index it may start at. */
  function HrefBack(s: string, i: nat, p: nat): (m: Option<Match>)
    requires p <= |s|
    ensures m.Some? ==> i < m.value.end <= |s|
    decreases p
  {
    if p < i + 3 then None
    else match HrefTail(s, i, p)
      case Some(m) => Some(m)
      case None => HrefBack(s, i, p - 1)
  }

  /** Whether (and how) `pat` matches `s` at index `i`. */
  function MatchAt(s: string, pat: Pattern, i: nat): (m: Option<Match>)
    requires i <= |s|
    ensures m.Some? ==> i < m.value.end <= |s|
    ensures m.Some? && pat.Element? && !pat.dotAll ==> NoLineTerminator(m.value.g1)
  {
    match pat
    case Element(name, head, dotAll) => ElementAt(s, name, head, dotAll, i)
    case Anchor =>
      if Occurs(s, i, "<a href=\"", true) then AnchorFrom(s, i, i + 9, i + 9) else None
    case AnyTag =>
      if i < |s| && s[i] == '<' then
        match Find(s, ">", i + 1, false)
        case Some(g) => Some(Match(s[i..g + 1], g + 1, "", ""))
        case None => None
      else None
    case Run(newlinesOnly, min) =>
      var n := RunLen(s, i, newlinesOnly);
      if n >= min && n >= 1 then Some(Match(s[i..i + n], i + n, "", "")) else None
    case LinkHref =>
      if Occurs(s, i, "<a", false) then
        var limit := match Find(s, ">", i + 2, false) case Some(g) => g case None => |s|;
        HrefBack(s, i, limit)
      else None
  }

  /** A replacement: a constant template or a callback, given the number of earlier matches. */
  type Rewrite = (nat, Match) -> string

  /** `s.replace(pat, f)` with the global flag, from index `i`, `k` matches replaced so far. */
  function ReplaceFrom(s: string, pat: Pattern, f: Rewrite, i: nat, k: nat): string
    requires i <= |s|
    decreases |s| - i
  {
    if i == |s| then ""
    else match MatchAt(s, pat, i)
      case Some(m) => f(k, m) + ReplaceFrom(s, pat, f, m.end, k + 1)
      case None => [s[i]] + ReplaceFrom(s, pat, f, i + 1, k)
  }

  /** `s.replace(pat, f)` with the global flag. */
  function ReplaceAll(s: string, pat: Pattern, f: Rewrite): string {
    ReplaceFrom(s, pat, f, 0, 0)
  }

  /** `regex.exec(s)` with `lastIndex == from`: the first match starting at or after `from`. */
  function NextMatch(s: string, pat: Pattern, from: nat): (r: Option<Match>)
    requires from <= |s|
    ensures r.Some? ==> from < r.value.end <= |s|
    ensures r.Some? && pat.Element? && !pat.dotAll ==> NoLineTerminator(r.value.g1)
    ensures r.None? ==> forall j :: from <= j <= |s| ==> MatchAt(s, pat, j).None?
    decreases |s| - from
  {
    match MatchAt(s, pat, from)
    case Some(m) => Some(m)
    case None => if from == |s| then None else NextMatch(s, pat, from + 1)
  }

  /** `exec` returns the match at the first index at or after `lastIndex` where the pattern
      matches: some such index exists, and no earlier one matches. */
  lemma {:induction false} NextMatchIsFirst(s: string, pat: Pattern, from: nat)
    requires from <= |s|
    ensures var r := NextMatch(s, pat, from);
      r.Some? ==> exists j :: from <= j <= |s| && MatchAt(s, pat, j) == r && NoMatchBetween(s, pat, from, j)
    decreases |s| - from
  {
    var r := NextMatch(s, pat, from);
    if MatchAt(s, pat, from).Some? {
      assert MatchAt(s, pat, from) == r && NoMatchBetween(s, pat, from, from);
    } else if from < |s| && r.Some? {
      NextMatchIsFirst(s, pat, from + 1);
      var j :| from + 1 <= j <= |s| && MatchAt(s, pat, j) == r && NoMatchBetween(s, pat, from + 1, j);
      assert MatchAt(s, pat, j) == r && NoMatchBetween(s, pat, from, j);
    }
  }

  /** Conversely, the first index at or after `lastIndex` where the pattern matches gives the
      match `exec` returns. */
  lemma NextMatchFinds(s: string, pat: Pattern, from: nat, j: nat)
    requires from <= j <= |s| && MatchAt(s, pat, j).Some? && NoMatchBetween(s, pat, from, j)
    ensures NextMatch(s, pat, from) == MatchAt(s, pat, j)
  {
    NextMatchSkips(s, pat, from, j);
    NextMatchHere(s, pat, j);
  }

  /** `exec` passes over indices where the pattern does not match. */
  lemma {:induction false} NextMatchSkips(s: string, pat: Pattern, from: nat, j: nat)
    requires from <= j <= |s| && NoMatchBetween(s, pat, from, j)
    ensures NextMatch(s, pat, from) == NextMatch(s, pat, j)
    decreases j - from
  {
    if from < j {
      NoMatchFirst(s, pat, from, j);
      NextMatchPast(s, pat, from);
      NextMatchSkips(s, pat, from + 1, j);
    }
  }

  /** A stretch without matches starts with an index without one. */
  lemma NoMatchFirst(s: string, pat: Pattern, from: nat, j: nat)
    requires from < j <= |s| && NoMatchBetween(s, pat, from, j)
    ensures MatchAt(s, pat, from).None? && NoMatchBetween(s, pat, from + 1, j)
  {
  }

  /** `exec` stops at a match. */
  lemma NextMatchHere(s: string, pat: Pattern, from: nat)
    requires from <= |s| && MatchAt(s, pat, from).Some?
    ensures NextMatch(s, pat, from) == MatchAt(s, pat, from)
  {
    var m := MatchAt(s, pat, from).value;
    assert NextMatch(s, pat, from) == Some(m);
  }

  /** `exec` moves past an index where the pattern does not match. */
  lemma NextMatchPast(s: string, pat: Pattern, from: nat)
    requires from < |s| && MatchAt(s, pat, from).None?
    ensures NextMatch(s, pat, from) == NextMatch(s, pat, from + 1)
  {
  }



  /** The pattern matches at no index from `from` up to (not including) `j`. */
  predicate NoMatchBetween(s: string, pat: Pattern, from: nat, j: nat)
    requires j <= |s|
  {
    forall k :: from <= k < j ==> MatchAt(s, pat, k).None?
  }

  /** Where no match starts, the replacement copies the text as it is. */
  lemma {:induction false} Skip(s: string, pat: Pattern, f: Rewrite, i: nat, e: nat, k: nat)
    requires i <= e <= |s|
    requires forall j :: i <= j < e ==> MatchAt(s, pat, j).None?
    ensures ReplaceFrom(s, pat, f, i, k) == s[i..e] + ReplaceFrom(s, pat, f, e, k)
    decreases e - i
  {
    if i < e {
      Skip(s, pat, f, i + 1, e, k);
      CopyOne(s, pat, f, i, k);
      SliceCons(s, i, e, ReplaceFrom(s, pat, f, e, k));
    }
  }

  /** Where no match starts, one character is copied. */
  lemma CopyOne(s: string, pat: Pattern, f: Rewrite, i: nat, k: nat)
    requires i < |s| && MatchAt(s, pat, i).None?
    ensures ReplaceFrom(s, pat, f, i, k) == [s[i]] + ReplaceFrom(s, pat, f, i + 1, k)
  {
  }

  /** A slice followed by more text is its first character followed by the rest. */
  lemma SliceCons(s: string, i: nat, e: nat, rest: string)
    requires i < e <= |s|
    ensures s[i..e] + rest == [s[i]] + (s[i + 1..e] + rest)
  {
    assert s[i..e] == [s[i]] + s[i + 1..e];
  }


  /** No tag pattern matches where the text has no `<`. */
  lemma NoOpenNoMatch(s: string, pat: Pattern, j: nat)
    requires pat.Element? || pat.Anchor? || pat.AnyTag? || pat.LinkHref?
    requires j < |s| && s[j] != '<'
    ensures MatchAt(s, pat, j).None?
  {
    assert Lower(s[j]) != '<';
    match pat
    case Element(name, head, dotAll) =>
      assert OpenTag(name)[0] == '<';
      assert !Occurs(s, j, OpenTag(name), true);
    case Anchor =>
      assert "<a href=\""[0] == '<';
      assert !Occurs(s, j, "<a href=\"", true);
    case AnyTag =>
    case LinkHref =>
      assert "<a"[0] == '<';
      assert !Occurs(s, j, "<a", false);
  }

  /** The tag patterns start with `<`: a text without one is left as it is. */
  lemma NoOpenUnchanged(s: string, pat: Pattern, f: Rewrite)
    requires pat.Element? || pat.Anchor? || pat.AnyTag? || pat.LinkHref?
    requires '<' !in s
    ensures ReplaceAll(s, pat, f) == s
  {
    forall j | 0 <= j < |s| ensures MatchAt(s, pat, j).None? {
      NoOpenNoMatch(s, pat, j);
    }
    Skip(s, pat, f, 0, |s|, 0);
  }

  /** A text without upper-case letters that is written at `i` also occurs there ignoring case. */
  lemma Folded(w: string, i: nat, x: string)
    requires Occurs(w, i, x, false)
    requires forall c :: 0 <= c < |x| ==> !('A' <= x[c] <= 'Z')
    ensures Occurs(w, i, x, true)
  {
    forall c | 0 <= c < |x| ensures Lower(w[i + c]) == x[c] {
      assert w[i + c] == x[c];
    }
  }

  /** Written at `i`, `x + y` has `x` at `i` and `y` right after it. */
  lemma OccursSplit(w: string, i: nat, x: string, y: string)
    requires Occurs(w, i, x + y, false)
    ensures Occurs(w, i, x, false) && Occurs(w, i + |x|, y, false)
  {
    var v := x + y;
    forall k | 0 <= k < |x| ensures w[i + k] == x[k] { assert v[k] == x[k]; }
    forall k | 0 <= k < |y| ensures w[i + |x| + k] == y[k] { assert v[|x| + k] == y[k]; }
  }

  /** What is written at `i` is the slice there. */
  lemma OccursSlice(w: string, i: nat, x: string)
    requires Occurs(w, i, x, false)
    ensures w[i..i + |x|] == x
  {
  }

  /** The middle part of a concatenation is written after the first. */
  lemma OccursInConcat(u: string, x: string, v: string)
    ensures Occurs(u + x + v, |u|, x, false)
  {
    var w := u + x + v;
    forall k | 0 <= k < |x| ensures w[|u| + k] == x[k] { }
  }

  /** `Find` returns the occurrence at `at` when none comes before it. */
  lemma FindFirst(w: string, pat: string, from: nat, at: nat, ci: bool)
    requires from <= at && Occurs(w, at, pat, ci)
    requires forall j :: from <= j < at ==> !Occurs(w, j, pat, ci)
    ensures Find(w, pat, from, ci) == Some(at)
    decreases at - from
  {
    if from < at {
      FindFirst(w, pat, from + 1, at, ci);
    }
  }

  /** The first occurrence of a `<`-led literal after a stretch free of `<` is where it is written. */
  lemma FirstAfterPlain(w: string, b: nat, t: string, close: string)
    requires |close| > 0 && close[0] == '<'
    requires forall c :: 0 <= c < |close| ==> !('A' <= close[c] <= 'Z')
    requires '<' !in t
    requires Occurs(w, b, t, false) && Occurs(w, b + |t|, close, false)
    ensures Find(w, close, b, true) == Some(b + |t|)
  {
    Folded(w, b + |t|, close);
    forall j | b <= j < b + |t| ensures !Occurs(w, j, close, true) {
      assert w[j] == t[j - b];
      assert t[j - b] in t;
      assert Lower(w[j]) != '<';
    }
    FindFirst(w, close, b, b + |t|, true);
  }

  /** `<name>` written at `i`: the element's body starts right after it. */
  lemma OpenTagAt(w: string, i: nat, name: string)
    requires forall c :: 0 <= c < |name| ==> ('a' <= name[c] <= 'z') || ('0' <= name[c] <= '9')
    requires Occurs(w, i, OpenTag(name) + ">", false)
    ensures Occurs(w, i, OpenTag(name), true)
    ensures HeadEnd(w, UpToGt, i + |name| + 1) == Some(i + |name| + 2)
  {
    var open := OpenTag(name);
    OccursSplit(w, i, open, ">");
    forall c | 0 <= c < |open| ensures !('A' <= open[c] <= 'Z') {
      if c > 0 {
        assert open[c] == name[c - 1];
      }
    }
    Folded(w, i, open);
    var h := i + |open|;
    FindFirst(w, ">", h, h, false);
  }

  /** An element written out plainly at `i`, `<name>t</name>` with a one-line `t` free of
      `<`, is one match there whose group is `t`. */
  lemma ElementExact(w: string, i: nat, name: string, t: string)
    requires forall c :: 0 <= c < |name| ==> ('a' <= name[c] <= 'z') || ('0' <= name[c] <= '9')
    requires '<' !in t && NoLineTerminator(t)
    requires Occurs(w, i, OpenTag(name) + ">", false)
    requires Occurs(w, i + |name| + 2, t, false)
    requires Occurs(w, i + |name| + 2 + |t|, CloseTag(name), false)
    ensures var e := i + |name| + 2 + |t| + |name| + 3;
      e <= |w| && MatchAt(w, Element(name, UpToGt, false), i) == Some(Match(w[i..e], e, t, ""))
  {
    OpenTagAt(w, i, name);
    CloseTagFolds(name);
    FirstAfterPlain(w, i + |name| + 2, t, CloseTag(name));
    ElementFound(w, name, UpToGt, i, i + |name| + 2, i + |name| + 2 + |t|, t);
  }

  /** `</name>` has no upper-case letter when `name` has none. */
  lemma CloseTagFolds(name: string)
    requires forall c :: 0 <= c < |name| ==> ('a' <= name[c] <= 'z') || ('0' <= name[c] <= '9')
    ensures forall c :: 0 <= c < |CloseTag(name)| ==> !('A' <= CloseTag(name)[c] <= 'Z')
  {
    var close := CloseTag(name);
    forall c | 0 <= c < |close| ensures !('A' <= close[c] <= 'Z') {
      if 2 <= c < |close| - 1 {
        assert close[c] == name[c - 2];
      }
    }
  }

  /** A tag `<…>` written at `i`, ending at the first `>` after it, is one `AnyTag` match. */
  lemma AnyTagAt(w: string, i: nat, e: nat)
    requires i < e < |w| && w[i] == '<' && w[e] == '>'
    requires forall j :: i < j < e ==> w[j] != '>'
    ensures MatchAt(w, AnyTag, i) == Some(Match(w[i..e + 1], e + 1, "", ""))
  {
    assert Occurs(w, e, ">", false);
    forall j | i + 1 <= j < e ensures !Occurs(w, j, ">", false) {
      assert w[j] != ">"[0];
    }
    FindFirst(w, ">", i + 1, e, false);
  }

  /** A replacement whose pattern matches the whole text at once gives the replacement of
      that one match. */
  lemma ReplaceWhole(w: string, pat: Pattern, f: Rewrite, m: Match)
    requires |w| > 0 && MatchAt(w, pat, 0) == Some(m) && m.end == |w|
    ensures ReplaceAll(w, pat, f) == f(0, m)
  {
    assert ReplaceFrom(w, pat, f, |w|, 1) == "";
  }

  /** An element match assembled from its parts: the opening, where the body starts and
      where the first closing tag is. */
  lemma ElementFound(w: string, name: string, head: Head, i: nat, b: nat, j: nat, g: string)
    requires i + |name| + 1 <= |w|
    requires Occurs(w, i, OpenTag(name), true)
    requires HeadEnd(w, head, i + |name| + 1) == Some(b)
    requires Find(w, CloseTag(name), b, true) == Some(j)
    requires j == b + |g| && Occurs(w, b, g, false) && NoLineTerminator(g)
    ensures MatchAt(w, Element(name, head, false), i)
      == Some(Match(w[i..j + |name| + 3], j + |name| + 3, g, ""))
  {
    OccursSlice(w, b, g);
    ElementAtFound(w, name, head, i, b, j);
  }

  /** `ElementAt` follows the opening tag and its head to the body. */
  lemma ElementAtFound(w: string, name: string, head: Head, i: nat, b: nat, j: nat)
    requires i + |name| + 1 <= |w|
    requires Occurs(w, i, OpenTag(name), true)
    requires HeadEnd(w, head, i + |name| + 1) == Some(b)
    requires Find(w, CloseTag(name), b, true) == Some(j)
    requires NoLineTerminator(w[b..j])
    ensures ElementAt(w, name, head, false, i)
      == Some(Match(w[i..j + |name| + 3], j + |name| + 3, w[b..j], ""))
  {
    ElementBodyFound(w, name, i, b, j);
  }

  /** `ElementBody` finds the first closing tag after the body start. */
  lemma ElementBodyFound(w: string, name: string, i: nat, b: nat, j: nat)
    requires i < b <= |w|
    requires Find(w, CloseTag(name), b, true) == Some(j)
    requires NoLineTerminator(w[b..j])
    ensures ElementBody(w, name, false, i, Some(b))
      == Some(Match(w[i..j + |name| + 3], j + |name| + 3, w[b..j], ""))
  {
    ElementClosedFound(w, name, i, b, j);
  }

  /** `ElementClosed` takes the body up to the closing tag as the group. */
  lemma ElementClosedFound(w: string, name: string, i: nat, b: nat, j: nat)
    requires i < b <= j && j + |name| + 3 <= |w|
    requires NoLineTerminator(w[b..j])
    ensures ElementClosed(w, name, false, i, b, Some(j))
      == Some(Match(w[i..j + |name| + 3], j + |name| + 3, w[b..j], ""))
  {
  }

  /** A character that is neither in the unmatched text nor in any replacement is not in
      the result. */
  lemma {:induction false} KeepsAbsent(s: string, pat: Pattern, f: Rewrite, i: nat, k: nat, c: char)
    requires i <= |s|
    requires forall j :: i <= j < |s| ==> s[j] != c
    requires forall n: nat, m: Match :: c !in f(n, m)
    ensures c !in ReplaceFrom(s, pat, f, i, k)
    decreases |s| - i
  {
    if i < |s| {
      match MatchAt(s, pat, i)
      case Some(m) => KeepsAbsent(s, pat, f, m.end, k + 1, c);
      case None => KeepsAbsent(s, pat, f, i + 1, k, c);
    }
  }

  /** No `<` is followed, anywhere later, by a `>`: no complete tag is left. */
  predicate NoTag(r: string) {
    forall a, b :: 0 <= a < b < |r| && r[a] == '<' ==> r[b] != '>'
  }

  /** Two texts without a complete tag join into one, unless a `<` of the first meets a `>`
      of the second. */
  lemma JoinNoTag(u: string, v: string)
    requires NoTag(u) && NoTag(v)
    requires '<' in u ==> '>' !in v
    ensures NoTag(u + v)
  {
    var r := u + v;
    forall a, b | 0 <= a < b < |r| && r[a] == '<' ensures r[b] != '>' {
      if a >= |u| {
        assert v[a - |u|] == '<';
      } else if b >= |u| {
        assert u[a] == '<';
        assert r[b] == v[b - |u|];
      }
    }
  }

  /** Replacing every `<…>` by a text without angle brackets leaves no tag. */
  lemma {:induction false} StripLeavesNoTag(s: string, f: Rewrite, i: nat, k: nat)
    requires i <= |s|
    requires forall n: nat, m: Match :: '<' !in f(n, m) && '>' !in f(n, m)
    ensures NoTag(ReplaceFrom(s, AnyTag, f, i, k))
    decreases |s| - i
  {
    if i < |s| {
      match MatchAt(s, AnyTag, i)
      case Some(m) =>
        StripLeavesNoTag(s, f, m.end, k + 1);
        JoinNoTag(f(k, m), ReplaceFrom(s, AnyTag, f, m.end, k + 1));
      case None =>
        StripLeavesNoTag(s, f, i + 1, k);
        if s[i] == '<' {
          FindIsFirst(s, ">", i + 1, false);
          assert Find(s, ">", i + 1, false).None?;
          forall j | i + 1 <= j < |s| ensures s[j] != '>' {
            assert !Occurs(s, j, ">", false);
          }
          KeepsAbsent(s, AnyTag, f, i + 1, k, '>');
        }
        JoinNoTag([s[i]], ReplaceFrom(s, AnyTag, f, i + 1, k));
    }
  }

  /** Length of the run of class characters at the front of the concatenation `u + v`. */
  lemma {:induction false} RunLenConcat(u: string, v: string, a: nat, newlinesOnly: bool)
    requires a <= |u|
    ensures (forall k :: a <= k < |u| ==> InClass(newlinesOnly, u[k]))
        ==> RunLen(u + v, a, newlinesOnly) == |u| - a + RunLen(v, 0, newlinesOnly)
    ensures !(forall k :: a <= k < |u| ==> InClass(newlinesOnly, u[k]))
        ==> RunLen(u + v, a, newlinesOnly) == RunLen(u, a, newlinesOnly)
    decreases |u| - a
  {
    if a == |u| {
      RunLenShift(u, v, 0, newlinesOnly);
    } else {
      RunLenConcat(u, v, a + 1, newlinesOnly);
    }
  }

  /** Runs inside the second part of a concatenation are those of that part. */
  lemma {:induction false} RunLenShift(u: string, v: string, a: nat, newlinesOnly: bool)
    requires a <= |v|
    ensures RunLen(u + v, |u| + a, newlinesOnly) == RunLen(v, a, newlinesOnly)
    decreases |v| - a
  {
    if a < |v| {
      RunLenShift(u, v, a + 1, newlinesOnly);
    }
  }

  /** A run bound survives putting `min - 1` class characters before a part that starts
      outside the class. */
  lemma PrependRep(rep: string, rest: string, newlinesOnly: bool, min: nat)
    requires |rep| == min - 1 && min >= 1
    requires forall c :: 0 <= c < |rep| ==> InClass(newlinesOnly, rep[c])
    requires RunLen(rest, 0, newlinesOnly) == 0
    requires RunFree(rest, newlinesOnly, min)
    ensures RunFree(rep + rest, newlinesOnly, min)
    ensures RunLen(rep + rest, 0, newlinesOnly) == min - 1
  {
    forall a | 0 <= a <= |rep + rest| ensures RunLen(rep + rest, a, newlinesOnly) < min {
      if a <= |rep| {
        RunLenConcat(rep, rest, a, newlinesOnly);
      } else {
        RunLenShift(rep, rest, a - |rep|, newlinesOnly);
      }
    }
    RunLenConcat(rep, rest, 0, newlinesOnly);
  }

  /** A run bound survives putting one character before a part whose first run is one
      shorter than the run that character starts. */
  lemma PrependChar(c: char, rest: string, newlinesOnly: bool, min: nat, n: nat)
    requires n < min
    requires InClass(newlinesOnly, c) ==> n >= 1 && RunLen(rest, 0, newlinesOnly) == n - 1
    requires !InClass(newlinesOnly, c) ==> n == 0
    requires RunFree(rest, newlinesOnly, min)
    ensures RunFree([c] + rest, newlinesOnly, min)
    ensures RunLen([c] + rest, 0, newlinesOnly) == n
  {
    forall a | 0 <= a <= |[c] + rest| ensures RunLen([c] + rest, a, newlinesOnly) < min {
      if a == 0 {
        RunLenConcat([c], rest, 0, newlinesOnly);
      } else {
        RunLenShift([c], rest, a - 1, newlinesOnly);
      }
    }
    RunLenConcat([c], rest, 0, newlinesOnly);
  }

  /** What collapsing from `i` (after `k` replacements) gives: no run of `min` or more class
      characters, and a first run that is the input's first run, capped at `min - 1`. */
  predicate Collapsed(s: string, newlinesOnly: bool, min: nat, f: Rewrite, i: nat, k: nat)
    requires i <= |s|
  {
    var r := ReplaceFrom(s, Run(newlinesOnly, min), f, i, k);
    var n := RunLen(s, i, newlinesOnly);
    RunFree(r, newlinesOnly, min) && RunLen(r, 0, newlinesOnly) == if n < min then n else min - 1
  }

  /** A replacement made only of `min - 1` class characters. */
  ghost predicate ClassRewrite(f: Rewrite, newlinesOnly: bool, min: nat) {
    (forall n: nat, m: Match :: |f(n, m)| == min - 1)
    && (forall n: nat, m: Match, c :: 0 <= c < |f(n, m)| ==> InClass(newlinesOnly, f(n, m)[c]))
  }

  /** Replacing each run of at least `min` class characters (matched greedily) by `min - 1`
      class characters leaves no run of `min` or more: the first run of the result is the
      input's first run, capped at `min - 1`. */
  lemma {:induction false} CollapseRuns(s: string, newlinesOnly: bool, min: nat, f: Rewrite, i: nat, k: nat)
    requires i <= |s| && min >= 2 && ClassRewrite(f, newlinesOnly, min)
    ensures Collapsed(s, newlinesOnly, min, f, i, k)
    decreases |s| - i
  {
    if i == |s| {
      assert ReplaceFrom(s, Run(newlinesOnly, min), f, i, k) == "";
    } else {
      match MatchAt(s, Run(newlinesOnly, min), i)
      case Some(m) =>
        CollapseRuns(s, newlinesOnly, min, f, m.end, k + 1);
        CollapseMatched(s, newlinesOnly, min, f, i, k, m);
      case None =>
        CollapseRuns(s, newlinesOnly, min, f, i + 1, k);
        CollapseCopied(s, newlinesOnly, min, f, i, k);
    }
  }

  /** A run long enough to match is replaced, and the text after it starts outside the class. */
  lemma CollapseMatched(s: string, newlinesOnly: bool, min: nat, f: Rewrite, i: nat, k: nat, m: Match)
    requires i < |s| && min >= 2 && ClassRewrite(f, newlinesOnly, min)
    requires MatchAt(s, Run(newlinesOnly, min), i) == Some(m)
    requires Collapsed(s, newlinesOnly, min, f, m.end, k + 1)
    ensures Collapsed(s, newlinesOnly, min, f, i, k)
  {
    var rest := ReplaceFrom(s, Run(newlinesOnly, min), f, m.end, k + 1);
    assert RunLen(s, m.end, newlinesOnly) == 0;
    PrependRep(f(k, m), rest, newlinesOnly, min);
  }

  /** A character where no long run starts is copied, extending or ending the run after it. */
  lemma CollapseCopied(s: string, newlinesOnly: bool, min: nat, f: Rewrite, i: nat, k: nat)
    requires i < |s| && min >= 2
    requires MatchAt(s, Run(newlinesOnly, min), i).None?
    requires Collapsed(s, newlinesOnly, min, f, i + 1, k)
    ensures Collapsed(s, newlinesOnly, min, f, i, k)
  {
    var rest := ReplaceFrom(s, Run(newlinesOnly, min), f, i + 1, k);
    PrependChar(s[i], rest, newlinesOnly, min, RunLen(s, i, newlinesOnly));
  }

  /** The characters of a plain link tag `<a href="u">`. */
  predicate LinkTagText(s: string, u: string) {
    |s| == |u| + 11 && s[..9] == "<a href=\"" && s[9..9 + |u|] == u
    && s[9 + |u|] == '"' && s[10 + |u|] == '>'
  }

  lemma LinkTagIs(u: string)
    ensures LinkTagText("<a href=\"" + u + "\">", u)
  {
    var s := "<a href=\"" + u + "\">";
    assert s == "<a href=\"" + u + "\">";
    assert s[..9] == "<a href=\"";
    assert s[9..9 + |u|] == u;
  }

  /** The link pattern captures the whole reference of a plain tag `<a href="u">` whose
      reference has no quote: the match is the tag and its group is `u`. */
  lemma HrefOfLinkTag(s: string, u: string)
    requires LinkTagText(s, u)
    requires |u| > 0 && forall k :: 0 <= k < |u| ==> !IsQuote(u[k])
    ensures MatchAt(s, LinkHref, 0) == Some(Match(s, |s|, u, ""))
  {
    var prefix := "<a href=\"";
    assert s[0] == prefix[0] && s[1] == prefix[1];
    assert Occurs(s, 0, "<a", false);
    assert s[2] == prefix[2] != ">"[0];
    assert !Occurs(s, 2, ">", false);
    var found := Find(s, ">", 2, false);
    assert found == Find(s, ">", 3, false);
    var limit := match found case Some(g) => g case None => |s|;
    assert 3 <= limit <= |s|;
    forall p | 3 < p <= limit ensures HrefTail(s, 0, p).None? {
      LaterHrefFails(s, u, p);
    }
    HrefBackTo(s, 0, limit, 3);
    HrefTailOfLinkTag(s, u);
  }

  /** `href=` tried after index 3 of a plain link tag finds no quoted reference. */
  lemma LaterHrefFails(s: string, u: string, p: nat)
    requires LinkTagText(s, u)
    requires forall k :: 0 <= k < |u| ==> !IsQuote(u[k])
    requires 3 < p <= |s|
    ensures HrefTail(s, 0, p).None?
  {
    if p + 5 < |s| && IsQuote(s[p + 5]) {
      assert p + 6 == |s| - 1;
      assert !IsQuote(s[|s| - 1]);
    }
  }

  /** `href=` tried at index 3 of a plain link tag captures the reference. */
  lemma HrefTailOfLinkTag(s: string, u: string)
    requires LinkTagText(s, u)
    requires |u| > 0 && forall k :: 0 <= k < |u| ==> !IsQuote(u[k])
    ensures HrefTail(s, 0, 3) == Some(Match(s, |s|, u, ""))
  {
    var prefix := "<a href=\"";
    assert Occurs(s, 3, "href=", false) by {
      forall k | 0 <= k < 5 ensures s[3 + k] == "href="[k] { assert s[3 + k] == prefix[3 + k]; }
    }
    assert s[8] == prefix[8];
    var q := 9 + |u|;
    forall j | 9 <= j < q ensures !IsQuote(s[j]) { assert s[j] == u[j - 9]; }
    assert FindQuote(s, 9) == Some(q);
    assert Occurs(s, q + 1, ">", false);
    assert Find(s, ">", q + 1, false) == Some(q + 1);
    assert s[0..q + 2] == s;
  }

  /** The greedy descent of `HrefBack` passes every index at which `href=` does not match. */
  lemma {:induction false} HrefBackTo(s: string, i: nat, p: nat, stop: nat)
    requires i + 3 <= stop <= p <= |s|
    requires forall p' :: stop < p' <= p ==> HrefTail(s, i, p').None?
    ensures HrefBack(s, i, p) == HrefBack(s, i, stop)
    decreases p
  {
    if stop < p {
      HrefBackTo(s, i, p - 1, stop);
    }
  }

  /** The anchor pattern takes a plain link `<a href="u">t</a>` whole, with the reference
      `u` as its first group and the one-line text `t`, free of tags, as its second. */
  lemma AnchorOfLink(w: string, u: string, t: string)
    requires w == "<a href=\"" + u + "\">" + t + "</a>"
    requires '"' !in u && NoLineTerminator(u)
    requires '<' !in t && NoLineTerminator(t)
    ensures MatchAt(w, Anchor, 0) == Some(Match(w, |w|, u, t))
  {
    var open := "<a href=\"";
    assert w == [] + open + (u + "\">" + t + "</a>");
    OccursInConcat([], open, u + "\">" + t + "</a>");
    assert w == open + u + ("\">" + t + "</a>");
    OccursInConcat(open, u, "\">" + t + "</a>");
    assert w == (open + u) + "\">" + (t + "</a>");
    OccursInConcat(open + u, "\">", t + "</a>");
    assert w == (open + u + "\">") + t + "</a>";
    OccursInConcat(open + u + "\">", t, "</a>");
    assert w == (open + u + "\">" + t) + "</a>" + [];
    OccursInConcat(open + u + "\">" + t, "</a>", []);
    AnchorAt(w, u, t);
  }

  /** The anchor match from its written parts. */
  lemma AnchorAt(w: string, u: string, t: string)
    requires '"' !in u && NoLineTerminator(u)
    requires '<' !in t && NoLineTerminator(t)
    requires |w| == |u| + |t| + 15
    requires Occurs(w, 0, "<a href=\"", false) && Occurs(w, 9, u, false)
    requires Occurs(w, 9 + |u|, "\">", false) && Occurs(w, 11 + |u|, t, false)
    requires Occurs(w, 11 + |u| + |t|, "</a>", false)
    ensures MatchAt(w, Anchor, 0) == Some(Match(w, |w|, u, t))
  {
    var q := 9 + |u|;
    Folded(w, 0, "<a href=\"");
    forall j | 9 <= j < q ensures !Occurs(w, j, "\"", false) {
      assert w[j] == u[j - 9];
      assert u[j - 9] in u;
      assert "\""[0] == '"';
    }
    assert "\"" + ">" == "\">";
    OccursSplit(w, q, "\"", ">");
    FindFirst(w, "\"", 9, q, false);
    FindFirst(w, ">", q + 1, q + 1, false);
    FirstAfterPlain(w, q + 2, t, "</a>");
    OccursSlice(w, 9, u);
    OccursSlice(w, q + 2, t);
    AnchorFromFound(w, 0, 9, q, q + 1, q + 2 + |t|);
    assert w[0..|w|] == w;
  }

  /** `AnchorFrom` with its quote, the end of the opening tag and the closing tag found. */
  lemma AnchorFromFound(w: string, i: nat, b: nat, q: nat, g: nat, j: nat)
    requires i < b <= q < g < j && j + 4 <= |w|
    requires Find(w, "\"", b, false) == Some(q) && NoLineTerminator(w[b..q])
    requires Find(w, ">", q + 1, false) == Some(g)
    requires Find(w, "</a>", g + 1, true) == Some(j) && NoLineTerminator(w[g + 1..j])
    ensures AnchorFrom(w, i, b, b) == Some(Match(w[i..j + 4], j + 4, w[b..q], w[g + 1..j]))
  {
    AnchorQuoteFound(w, i, b, q, g, j);
  }

  /** `AnchorQuote` with the end of the opening tag and the closing tag found. */
  lemma AnchorQuoteFound(w: string, i: nat, b: nat, q: nat, g: nat, j: nat)
    requires i < b <= q < g < j && j + 4 <= |w|
    requires NoLineTerminator(w[b..q])
    requires Find(w, ">", q + 1, false) == Some(g)
    requires Find(w, "</a>", g + 1, true) == Some(j) && NoLineTerminator(w[g + 1..j])
    ensures AnchorQuote(w, i, b, q) == Some(Match(w[i..j + 4], j + 4, w[b..q], w[g + 1..j]))
  {
    AnchorTextFound(w, i, b, q, g, j);
  }

  /** `AnchorText` with the closing tag found. */
  lemma AnchorTextFound(w: string, i: nat, b: nat, q: nat, g: nat, j: nat)
    requires i < b <= q < g < j && j + 4 <= |w|
    requires Find(w, "</a>", g + 1, true) == Some(j) && NoLineTerminator(w[g + 1..j])
    ensures AnchorText(w, i, b, q, g) == Some(Match(w[i..j + 4], j + 4, w[b..q], w[g + 1..j]))
  {
  }


}
