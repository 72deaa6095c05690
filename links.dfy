/** `extractLinks`: the `href` of every `<a …>` tag of a page, in document order, made
    absolute against the page's URL; script, mail, phone and fragment references are skipped.
    Resolving a reference (`new URL(href, base).toString()`) is a WHATWG URL operation outside
    the model; it is a parameter that gives the absolute URL, or nothing when it throws. */
module Links {
  import opened Wrappers
  import opened Text
  import opened Patterns

  /** `new URL(href, base).toString()`, or `None` when the constructor throws. */
  type Resolver = (string, string) -> Option<string>

  /** The references that are never followed: empty, `javascript:`, `mailto:`, `tel:` and
      in-page `#` references. */
  predicate Skipped(href: string) {
    href == [] || StartsWith(href, "javascript:") || StartsWith(href, "mailto:")
    || StartsWith(href, "tel:") || StartsWith(href, "#")
  }

  /** What one captured reference adds to the links: its absolute URL, or nothing when it is
      skipped or does not resolve. */
  function Kept(resolve: Resolver, base: string, raw: string): (r: seq<string>)
    ensures |r| <= 1
  {
    var href := Trim(raw);
    if Skipped(href) then []
    else match resolve(href, base)
      case Some(url) => [url]
      case None => []
  }

  /** The first groups of the successive `exec` matches of the link pattern from `from` on. */
  function Hrefs(html: string, from: nat): seq<string>
    requires from <= |html|
    decreases |html| - from
  {
    match NextMatch(html, LinkHref, from)
    case None => []
    case Some(m) => [m.g1] + Hrefs(html, m.end)
  }

  /** The links kept from a sequence of captured references, in their order. */
  function Collect(resolve: Resolver, base: string, hrefs: seq<string>): seq<string>
  {
    if hrefs == [] then [] else Kept(resolve, base, hrefs[0]) + Collect(resolve, base, hrefs[1..])
  }

  /** The links of a page: what `extractLinks(html, base)` returns. */
  function LinksOf(resolve: Resolver, html: string, base: string): seq<string> {
    Collect(resolve, base, Hrefs(html, 0))
  }

  /** The `while (regex.exec(html))` loop of `extractLinks`. */
  method ExtractLinks(resolve: Resolver, html: string, base: string) returns (links: seq<string>)
    ensures links == LinksOf(resolve, html, base)
  {
    links := [];
    var lastIndex := 0;
    var found := NextMatch(html, LinkHref, lastIndex);
    while found.Some?
      invariant lastIndex <= |html|
      invariant found == NextMatch(html, LinkHref, lastIndex)
      invariant links + Collect(resolve, base, Hrefs(html, lastIndex)) == LinksOf(resolve, html, base)
      decreases |html| - lastIndex
    {
      var m := found.value;
      var href := Trim(m.g1);
      ghost var before := links;
      if !Skipped(href) {
        match resolve(href, base)
        case Some(url) =>
          links := links + [url];
        case None =>
      }
      assert links == before + Kept(resolve, base, m.g1);
      HrefsStep(resolve, base, html, lastIndex, m);
      Assoc(before, Kept(resolve, base, m.g1), Collect(resolve, base, Hrefs(html, m.end)));
      lastIndex := m.end;
      found := NextMatch(html, LinkHref, lastIndex);
    }
  }

  /** One `exec` match contributes its kept link ahead of those of the later matches. */
  lemma HrefsStep(resolve: Resolver, base: string, html: string, from: nat, m: Match)
    requires from <= |html| && NextMatch(html, LinkHref, from) == Some(m)
    ensures m.end <= |html|
    ensures Collect(resolve, base, Hrefs(html, from))
      == Kept(resolve, base, m.g1) + Collect(resolve, base, Hrefs(html, m.end))
  {
    var rest := Hrefs(html, m.end);
    assert Hrefs(html, from) == [m.g1] + rest;
    assert ([m.g1] + rest)[1..] == rest;
  }

  /** Concatenation of link lists is associative. */
  lemma Assoc(x: seq<string>, y: seq<string>, z: seq<string>)
    ensures x + (y + z) == (x + y) + z
  {
  }

  /** Collecting is done reference by reference: the links of two stretches of references
      are the links of the first followed by those of the second. */
  lemma {:induction false} CollectAppend(resolve: Resolver, base: string, a: seq<string>, b: seq<string>)
    ensures Collect(resolve, base, a + b) == Collect(resolve, base, a) + Collect(resolve, base, b)
    decreases |a|
  {
    if a != [] {
      var ab := a + b;
      assert ab[0] == a[0] && ab[1..] == a[1..] + b;
      assert Collect(resolve, base, ab) == Kept(resolve, base, a[0]) + Collect(resolve, base, a[1..] + b);
      CollectAppend(resolve, base, a[1..], b);
      Assoc(Kept(resolve, base, a[0]), Collect(resolve, base, a[1..]), Collect(resolve, base, b));
    } else {
      assert a + b == b;
    }
  }

  /** A reference that fails to resolve is dropped on its own: the links around it are kept
      as they are. */
  lemma DroppedAlone(resolve: Resolver, base: string, a: seq<string>, h: string, b: seq<string>)
    requires resolve(Trim(h), base).None?
    ensures Collect(resolve, base, a + [h] + b) == Collect(resolve, base, a) + Collect(resolve, base, b)
  {
    CollectAppend(resolve, base, a + [h], b);
    CollectAppend(resolve, base, a, [h]);
    KeptMeans(resolve, base, h);
    assert [h][1..] == [];
    assert Collect(resolve, base, [h]) == [];
    assert Collect(resolve, base, a) + [] == Collect(resolve, base, a);
  }

  /** A reference gives a link exactly when it is not skipped and resolves, and then the link
      is what it resolves to. */
  lemma KeptMeans(resolve: Resolver, base: string, raw: string)
    ensures var r := Kept(resolve, base, raw);
      (r != [] <==> !Skipped(Trim(raw)) && resolve(Trim(raw), base).Some?)
      && (r != [] ==> resolve(Trim(raw), base) == Some(r[0]))
  {
  }

  /** Every link comes from a captured reference that is not skipped and that resolves to it.
      (That links keep the order of their references is `CollectAppend`.) */
  lemma {:induction false} CollectSources(resolve: Resolver, base: string, hrefs: seq<string>)
    ensures var links := Collect(resolve, base, hrefs);
      forall n :: 0 <= n < |links| ==>
        exists k :: 0 <= k < |hrefs| && !Skipped(Trim(hrefs[k]))
          && resolve(Trim(hrefs[k]), base) == Some(links[n])
    decreases |hrefs|
  {
    if hrefs != [] {
      CollectSources(resolve, base, hrefs[1..]);
      var head := Kept(resolve, base, hrefs[0]);
      var links := Collect(resolve, base, hrefs);
      forall n | 0 <= n < |links|
        ensures exists k :: (0 <= k < |hrefs| && !Skipped(Trim(hrefs[k]))
          && resolve(Trim(hrefs[k]), base) == Some(links[n]))
      {
        KeptMeans(resolve, base, hrefs[0]);
        if n < |head| {
          assert links[n] == head[0];
        } else {
          var rest := hrefs[1..];
          assert links[n] == Collect(resolve, base, rest)[n - |head|];
          var k :| 0 <= k < |rest| && !Skipped(Trim(rest[k]))
            && resolve(Trim(rest[k]), base) == Some(links[n]);
          assert rest[k] == hrefs[k + 1];
        }
      }
    }
  }

  /** Every reference that is not skipped and resolves gives a link. */
  lemma {:induction false} CollectComplete(resolve: Resolver, base: string, hrefs: seq<string>, k: nat)
    requires k < |hrefs| && !Skipped(Trim(hrefs[k])) && resolve(Trim(hrefs[k]), base).Some?
    ensures resolve(Trim(hrefs[k]), base).value in Collect(resolve, base, hrefs)
    decreases k
  {
    if k > 0 {
      CollectComplete(resolve, base, hrefs[1..], k - 1);
      assert hrefs[1..][k - 1] == hrefs[k];
    } else {
      KeptMeans(resolve, base, hrefs[0]);
    }
  }

  /** References that are all skipped give no link at all. */
  lemma {:induction false} SkippedGiveNothing(resolve: Resolver, base: string, hrefs: seq<string>)
    requires forall k :: 0 <= k < |hrefs| ==> Skipped(Trim(hrefs[k]))
    ensures Collect(resolve, base, hrefs) == []
    decreases |hrefs|
  {
    if hrefs != [] {
      KeptMeans(resolve, base, hrefs[0]);
      SkippedGiveNothing(resolve, base, hrefs[1..]);
    }
  }

  /** A page that is one plain link tag `<a href="u">` has exactly the link its reference
      gives. */
  lemma LinkOfTag(resolve: Resolver, u: string, base: string)
    requires |u| > 0 && forall k :: 0 <= k < |u| ==> !IsQuote(u[k])
    ensures LinksOf(resolve, "<a href=\"" + u + "\">", base) == Kept(resolve, base, u)
  {
    var s := "<a href=\"" + u + "\">";
    LinkTagIs(u);
    HrefOfLinkTag(s, u);
    assert "<a"[0] == '<';
    assert !Occurs(s, |s|, "<a", false);
    assert NextMatch(s, LinkHref, |s|).None?;
    assert Hrefs(s, 0) == [u];
    assert [u][1..] == [];
    assert Collect(resolve, base, [u]) == Kept(resolve, base, u) + [];
  }
}
