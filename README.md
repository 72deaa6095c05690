# Breadth-first domain crawler

A Dafny model of the crawl endpoint in `src/app/api/crawl/route.ts`.

Given a seed URL, the endpoint crawls every page of the seed's domain and subdomains, breadth first. The crawl is bounded by a maximum link depth and a maximum number of pages. For each page it records:

- the title;
- a plain-text view;
- a simplified markdown view;
- the raw HTML;
- the links on the page.

A non-recursive request scrapes the one page instead.

The model keeps the source's own form:

- **`Queue`** is a class whose `items` sequence the methods reassign.
- **The crawl loop** `scrapeFullDomain` is a method. Its `while` loop updates the visited URLs and the page list, and an inner `for` loop enqueues links.
- **`extractLinks`** is a method. Its `while (regex.exec …)` loop is proved against the function `LinksOf`.
- **Domain scoping, option defaulting and the two text views** are functions, with lemmas about them.

The environment is one value, `Web`, made of three total functions:

- **`hostOf`** stands for `new URL(url).hostname`. It returns nothing when the constructor throws.
- **`resolve`** stands for `new URL(href, base).toString()`. It returns nothing when the constructor throws.
- **`fetch`** stands for the HTTP fetch and `response.text()`. It returns nothing for a non-OK response or any thrown error.

Since every URL is fetched at most once (proved below), a deterministic `fetch` loses nothing.

The regular expressions are modelled concretely, one case of `Patterns.Pattern` each:

- the element patterns `<name…>(.*?)</name>`;
- the anchor pattern;
- `<[^>]*>`;
- the runs `\s{2,}` and `\n{3,}`;
- the link pattern of `extractLinks`.

`String.prototype.replace` with the global flag is `Patterns.ReplaceFrom`. `regex.exec` with `lastIndex` is `Patterns.NextMatch`.

### Ordered lists

The `<ol>` callback returns the template literal `${++counter}. $1\n`. A replacement function's return value is not scanned for `$1`. So each item becomes the literal line `k. $1`: `k` counts from 1 within each list, and the item's text is dropped.

The model keeps this behaviour: the replacement `Transform.NumberedItem` writes `Transform.NumberedLine`, and the lemma `Transform.OrderedListNumbers` states the outcome.

The `<ul>` callback passes a plain template string, so its `- $1` lines do carry the item text.

## Model

| member | source | states |
|---|---|---|
| Queues.Queue.constructor | src/app/api/crawl/route.ts:4-5 | a new queue holds no items |
| Queues.Queue.Enqueue | src/app/api/crawl/route.ts:7-9 | the item is appended at the back; the older items keep their order |
| Queues.Queue.Dequeue | src/app/api/crawl/route.ts:11-13 | FIFO: returns the oldest item and leaves the rest in order; an empty queue gives None and stays empty; the old items are the returned one followed by the new items |
| Queues.Queue.IsEmpty | src/app/api/crawl/route.ts:15-17 | true iff the size is 0, iff there are no items |
| Queues.Queue.Size | src/app/api/crawl/route.ts:19-21 | the number of queued items |
| Queues.Queue.Contains | src/app/api/crawl/route.ts:23-25 | true iff some queued item equals the argument |
| Domain.ExtractDomain | src/app/api/crawl/route.ts:29-36 | the parsed hostname, or "" when the URL does not parse |
| Domain.IsSameDomain | src/app/api/crawl/route.ts:39-46 | the suffix test on the parsed hostname, false when the URL does not parse; `Domain.SameDomainIsInScope` characterises it |
| Domain.SameDomainIsInScope | src/app/api/crawl/route.ts:39-46 | isSameDomain holds iff the URL parses and its host is the domain or some labels + "." + the domain |
| Domain.SeedInScope | src/app/api/crawl/route.ts:206 | the seed URL is in scope of the domain extracted from it |
| Domain.SubdomainInScope | src/app/api/crawl/route.ts:42 | a.example.com is in scope of example.com |
| Domain.LookalikeOutOfScope | src/app/api/crawl/route.ts:42 | evilexample.com is not in scope of example.com |
| Links.LinksOf | src/app/api/crawl/route.ts:49-73 | the links `extractLinks` returns: the kept references of the successive exec matches; `Links.ExtractLinks` and the lemmas below state its properties |
| Links.Hrefs | src/app/api/crawl/route.ts:50-54 | the first groups of the successive exec matches of the link pattern, in match order; `Links.HrefsStep` and `Links.LinkOfTag` state what they are |
| Links.Collect | src/app/api/crawl/route.ts:55-70 | the body of the exec loop applied to each captured reference in turn; `Links.CollectSources` and `Links.CollectComplete` characterise it |
| Links.ExtractLinks | src/app/api/crawl/route.ts:49-73 | the exec loop returns exactly the links of the page: the kept references of the successive matches, in match order |
| Links.Kept | src/app/api/crawl/route.ts:56-65 | each match adds at most one link |
| Links.KeptMeans | src/app/api/crawl/route.ts:56-69 | a reference gives a link iff, once trimmed, it is not skipped and resolves; the link is then its resolution |
| Links.HrefsStep | src/app/api/crawl/route.ts:54-70 | one exec match contributes its link ahead of the links of the later matches |
| Links.CollectAppend | src/app/api/crawl/route.ts:54-70 | links are collected match by match: two stretches of matches give their links concatenated, in order |
| Links.DroppedAlone | src/app/api/crawl/route.ts:64-69 | a reference that does not resolve is dropped, and the links before and after it are unchanged |
| Links.CollectSources | src/app/api/crawl/route.ts:54-70 | every link is the resolution of some captured reference that is not skipped |
| Links.CollectComplete | src/app/api/crawl/route.ts:54-70 | every captured reference that is not skipped and resolves yields its link |
| Links.SkippedGiveNothing | src/app/api/crawl/route.ts:58-61 | empty, javascript:, mailto:, tel: and # references give no link |
| Links.LinkOfTag | src/app/api/crawl/route.ts:50-65 | a page that is one plain tag `<a href="u">`, with u non-empty and free of quotes, has exactly the link the reference u gives |
| Options.NumberOr | src/app/api/crawl/route.ts:89-90 | `value \|\| fallback` for a number is the fallback or the value given |
| Options.StringOr | src/app/api/crawl/route.ts:91 | `value \|\| fallback` for a string is the fallback or the value given |
| Options.IsRecursive | src/app/api/crawl/route.ts:88 | `options?.recursive \|\| false`: only a recursive flag set to true asks for a crawl; `Options.Route` states the dispatch |
| Options.MaxDepth | src/app/api/crawl/route.ts:89 | `options?.maxDepth \|\| 3`; `Options.FalsyTakesDefault` and `Options.TruthyIsKept` state which value is used |
| Options.MaxPages | src/app/api/crawl/route.ts:90 | `options?.maxPages \|\| 50`; stated by the same two lemmas |
| Options.ExportFormat | src/app/api/crawl/route.ts:91 | `options?.exportFormat \|\| 'json'`; stated by the same two lemmas |
| Options.Delay | src/app/api/crawl/route.ts:327 | `options?.delay \|\| 500`, the pause after each crawled page; stated by the same two lemmas |
| Options.FalsyTakesDefault | src/app/api/crawl/route.ts:88-91 | a missing or falsy setting takes its default: maxDepth 3, maxPages 50, exportFormat "json", delay 500 (also at line 327); 0 and "" fall back too |
| Options.TruthyIsKept | src/app/api/crawl/route.ts:89-91 | a non-zero number or non-empty string is used as given |
| Options.SettingsAreTruthy | src/app/api/crawl/route.ts:89-91 | after defaulting, no numeric setting is 0 and the export format is never empty |
| Options.Route | src/app/api/crawl/route.ts:78-99 | a missing or empty url fails with "URL is required"; otherwise a recursive request crawls the domain with the defaulted limits, and any other request scrapes the one page |
| Options.NoOptionsScrapesOnePage | src/app/api/crawl/route.ts:88-95 | without options a request scrapes the single page |
| Text.Trim | src/app/api/crawl/route.ts:271 | `trim()` is an infix of its input with only whitespace removed at both ends, and it neither starts nor ends with whitespace |
| Text.Decimal | src/app/api/crawl/route.ts:296 | the decimal rendering of a counter is all digits, with no leading zero |
| Text.DecimalRoundTrip | src/app/api/crawl/route.ts:296 | reading the rendering back gives the counter |
| Text.FindIsFirst | src/app/api/crawl/route.ts:264 | the search that ends a lazy group returns the first occurrence at or after its start, or nothing when there is none |
| Patterns.MatchAt | src/app/api/crawl/route.ts:50-302 | whether and how each regular expression of the crawler matches at one index; a match ends after its start and within the text, and an element group without the s flag is one line |
| Patterns.ReplaceFrom | src/app/api/crawl/route.ts:267-302 | a global `replace` from one index on: at each index the match found there is replaced and scanning resumes at its end, otherwise the character is copied; `Patterns.Skip` and `Patterns.ReplaceWhole` state its properties |
| Patterns.ReplaceAll | src/app/api/crawl/route.ts:267-302 | `s.replace(pattern, replacement)` with the global flag, from index 0 with no match counted yet |
| Patterns.NextMatch | src/app/api/crawl/route.ts:54 | exec from lastIndex finds a match ending after lastIndex; when it finds none, no match starts at or after lastIndex |
| Patterns.NextMatchIsFirst | src/app/api/crawl/route.ts:54 | a match exec returns is the match at some index at or after lastIndex, and no index between lastIndex and that one matches |
| Patterns.NextMatchFinds | src/app/api/crawl/route.ts:54 | conversely, the first index at or after lastIndex where the pattern matches gives exactly the match exec returns |
| Patterns.Skip | src/app/api/crawl/route.ts:267-270 | where no match starts, a global replace copies the text unchanged |
| Patterns.NoOpenUnchanged | src/app/api/crawl/route.ts:275-300 | every tag pattern leaves a text without `<` unchanged |
| Patterns.StripLeavesNoTag | src/app/api/crawl/route.ts:269 | replacing every `<[^>]*>` by text without angle brackets leaves no complete tag |
| Patterns.KeepsAbsent | src/app/api/crawl/route.ts:269-300 | a character absent from both the text and the replacements is absent from the result |
| Patterns.CollapseRuns | src/app/api/crawl/route.ts:270 | replacing each run of at least min class characters by min - 1 of them leaves no such run; the first run is capped at min - 1 |
| Patterns.ElementExact | src/app/api/crawl/route.ts:275-286 | an element written `<name>t</name>`, with t free of `<` and line terminators, is one match whose group is t |
| Patterns.HrefOfLinkTag | src/app/api/crawl/route.ts:50 | the link pattern takes a plain tag `<a href="u">` whole, with u as its group, when u is non-empty and free of quotes |
| Patterns.AnchorOfLink | src/app/api/crawl/route.ts:282 | the anchor pattern takes `<a href="u">t</a>` whole, with u and t as its two groups, when u has no double quote and t no `<`, and neither spans a line |
| Patterns.ReplaceWhole | src/app/api/crawl/route.ts:275-302 | a text that is exactly one match is replaced by that match's replacement |
| Transform.Title | src/app/api/crawl/route.ts:264 | the title is one line: `(.*?)` never spans a line terminator |
| Transform.TitleFound | src/app/api/crawl/route.ts:264 | the title is the body of the first `<title>…</title>`: with no `<title` (in any case) before it, a one-line body free of `<` is the title, whatever follows |
| Transform.PlainText | src/app/api/crawl/route.ts:267-271 | the `bodyText` chain: scripts and styles removed, tags replaced by a space, whitespace runs collapsed, trimmed; `Transform.PlainTextIsNormalized` states its properties |
| Transform.KeepsNoTag | src/app/api/crawl/route.ts:269-301 | a text without complete tags keeps that property under any replacement free of angle brackets |
| Transform.CollapseSpacesClean | src/app/api/crawl/route.ts:270 | after `\s{2,}` → " ", no two whitespace characters are adjacent and no tag appears |
| Transform.CollapseNewlinesClean | src/app/api/crawl/route.ts:301 | after `\n{3,}` → "\n\n", no three line feeds are adjacent and no tag appears |
| Transform.TrimKeepsRunFree | src/app/api/crawl/route.ts:271 | trimming keeps a text free of long whitespace runs |
| Transform.TrimKeepsNoTag | src/app/api/crawl/route.ts:271 | trimming keeps a text free of complete tags |
| Transform.PlainTextIsNormalized | src/app/api/crawl/route.ts:267-271 | the plain text has no whitespace at either end, no two adjacent whitespace characters, and no complete tag |
| Transform.CleanUpIsNormalized | src/app/api/crawl/route.ts:300-302 | the last three markdown steps leave no whitespace at either end, no three adjacent line feeds and no complete tag, whatever the input |
| Transform.MarkdownRewrites | src/app/api/crawl/route.ts:274-299 | the fourteen substitutions of the markdown chain, in source order (the steps are listed in `Transform.MarkdownSteps`); `Transform.SubstituteWithoutTags` and `Transform.HeadingRewrites` state their effect |
| Transform.Markdown | src/app/api/crawl/route.ts:274-302 | the markdown view: the substitutions, then leftover tags removed, runs of line feeds cut to two, trimmed; `Transform.MarkdownIsNormalized` states its properties |
| Transform.UnorderedList | src/app/api/crawl/route.ts:287-292 | the `<ul>` callback: each item becomes a `- ` line carrying its text, tags are removed, the result is trimmed and followed by a blank line |
| Transform.OrderedList | src/app/api/crawl/route.ts:293-299 | the `<ol>` callback, with its counter starting afresh at each list; `Transform.OrderedListNumbers` states its outcome |
| Transform.MarkdownIsNormalized | src/app/api/crawl/route.ts:274-302 | the markdown has no whitespace at either end, no three adjacent line feeds and no complete tag |
| Transform.SubstituteWithoutTags | src/app/api/crawl/route.ts:275-299 | a text without `<` passes through the tag substitutions unchanged |
| Transform.HeadingRewrites | src/app/api/crawl/route.ts:275-299 | of the substitution chain, only the h1 step changes a lone `<h1>t</h1>`, giving "# t\n\n" |
| Transform.CleanUpParagraph | src/app/api/crawl/route.ts:300-302 | the clean-up turns a one-line text followed by "\n\n" back into the text |
| Transform.MarkdownHeading | src/app/api/crawl/route.ts:275 | `<h1>t</h1>` becomes the markdown "# t" |
| Transform.NumberingShape | src/app/api/crawl/route.ts:296 | the numbered lines hold no angle bracket; a non-empty numbering starts with a digit and ends with " $1" and a line feed |
| Transform.ItemsNumbered | src/app/api/crawl/route.ts:296 | consecutive list items are replaced by consecutive numbered lines, and the counter advances once per item |
| Transform.OrderedItemsNumbered | src/app/api/crawl/route.ts:293-296 | inside `<ol>…</ol>`, the items become "1. $1\n", "2. $1\n", … with the tags around them untouched |
| Transform.StripListTags | src/app/api/crawl/route.ts:297 | stripping tags removes exactly the `<ol>` and `</ol>` around the numbered lines |
| Transform.OrderedListNumbers | src/app/api/crawl/route.ts:293-299 | an ordered list of n items becomes the lines "1. $1" … "n. $1" followed by a blank line, and the item texts are lost; an empty list gives just "\n\n" |
| Transform.AnchorRewritten | src/app/api/crawl/route.ts:282 | the anchor step turns `<a href="u">t</a>` into `[t](u)` |
| Crawl.PageOf | src/app/api/crawl/route.ts:261-315 | the record pushed for a fetched page: its URL, title, plain text, markdown, HTML and links; `Crawl.CrawlPage` computes it |
| Crawl.Enqueued | src/app/api/crawl/route.ts:318-323 | the entries the inner for loop adds; `Crawl.EnqueuedEntries` and `Crawl.EnqueuedComplete` characterise them |
| Crawl.EnqueueLinks | src/app/api/crawl/route.ts:318-323 | the for loop appends to the queue exactly the same-domain, unvisited links, one level deeper, in link order |
| Crawl.EnqueuedEntries | src/app/api/crawl/route.ts:319-322 | every entry enqueued for a page is one of its links, in scope, not yet visited, at depth + 1 |
| Crawl.EnqueuedComplete | src/app/api/crawl/route.ts:319-322 | every link that is in scope and not yet visited is enqueued at depth + 1 |
| Crawl.CrawlPage | src/app/api/crawl/route.ts:261-315 | the page record holds the title, plain text, markdown, HTML and links computed from the fetched HTML |
| Crawl.CrawlNext | src/app/api/crawl/route.ts:230-334 | one loop iteration takes the front entry; its URL joins the visited list unless already there; when a fresh URL's fetch succeeds, its page record is appended and, below the depth limit, exactly its enqueued links are appended to the rest of the queue; otherwise the pages stay and the queue loses only its front. It keeps the crawl invariant and the reach invariant, and strictly lowers the queue's weight, so the loop terminates |
| Crawl.CrawlStarts | src/app/api/crawl/route.ts:216-228 | the invariant holds once the seed is enqueued at depth 0 with nothing visited |
| Crawl.SkipStep | src/app/api/crawl/route.ts:237-240 | dropping an already-visited entry keeps the invariant |
| Crawl.FailStep | src/app/api/crawl/route.ts:242-258 | a failed fetch leaves its URL visited, records no page and keeps the invariant |
| Crawl.PageStep | src/app/api/crawl/route.ts:242-327 | a successful fetch records one page, enqueues its links below the depth limit, pauses once and keeps the invariant |
| Crawl.QueueGrows | src/app/api/crawl/route.ts:318-322 | appending one page's links keeps the queue in scope, within the depth bound and in breadth-first order |
| Crawl.PagesAdded | src/app/api/crawl/route.ts:243-315 | a page fetched for a newly visited, in-scope URL keeps the pages distinct, in the domain and visited, each the result of a successful fetch, and keeps "a visited URL has a page iff its fetch succeeded" |
| Crawl.PagesFailed | src/app/api/crawl/route.ts:243-258 | a newly visited URL whose fetch fails gets no page, and "a visited URL has a page iff its fetch succeeded" still holds |
| Crawl.CrawlWeight | src/app/api/crawl/route.ts:318-322 | replacing a crawled entry below the depth limit by its enqueued links lowers the queue's weight |
| Crawl.ScrapeFullDomain | src/app/api/crawl/route.ts:205-347 | "Invalid URL", with nothing fetched, iff the domain extracted from the seed is "". Otherwise: at most maxPages pages; every fetched URL fetched once; the visited list is exactly the fetched URLs; each page is the record of its own successful fetch, in the domain; page URLs distinct; a visited URL has a page iff its fetch succeeded; when maxPages > 0 the seed is visited first, and is the first page when its fetch succeeds; page depths non-decreasing, never negative and at most maxDepth (the seed's 0 aside); one pause of the defaulted delay per page. Which URLs: every visited URL is in the domain and is the seed or an in-scope link of a page crawled below maxDepth; every page is the seed at depth 0 or such a link of an earlier page, one level below it; and when the crawl stops with fewer than maxPages pages, every in-scope link of every page crawled below maxDepth was visited |
| Crawl.ReachStarts | src/app/api/crawl/route.ts:216-228 | the reach invariant holds once only the seed is queued |
| Crawl.ReachSkip | src/app/api/crawl/route.ts:237-240 | dropping an already-visited entry keeps closure and provenance |
| Crawl.ReachVisit | src/app/api/crawl/route.ts:238-258 | marking the front entry's URL visited keeps closure and provenance, and the entry is the seed or an in-scope link of a crawled page one level up |
| Crawl.ReachPage | src/app/api/crawl/route.ts:242-323 | recording the front entry's page and enqueuing its links keeps closure (each in-scope link of the new page is visited or queued one level down) and provenance |
| Crawl.EnqueuedCovers | src/app/api/crawl/route.ts:318-323 | every in-scope, unvisited link of a page crawled below the depth limit is among the entries enqueued for it, one level down |
| Crawl.ReachedInScope | src/app/api/crawl/route.ts:318-323 | every URL reached from an in-scope seed is in the domain |
| Crawl.ScrapeSinglePage | src/app/api/crawl/route.ts:114-171 | a failed fetch gives "Failed to scrape the URL"; otherwise the raw HTML and the URL are reported as fetched |
| Crawl.SingleMatchesCrawled | src/app/api/crawl/route.ts:131-171 | a page scraped alone has the same title, plain text and markdown as the crawl records for it |

## Left out

- I/O is modelled only as the oracle `Web.fetch`: HTTP requests, the User-Agent header, status codes and `response.text()`. A thrown error and a non-OK response are both "no page".
- URL parsing and resolution (`new URL`) are WHATWG algorithms, so the model takes them as the oracles `Web.hostOf` and `Web.resolve`.
- The throttle `setTimeout` is not timed. The model only records the pause taken after each crawled page, in the ghost result `pauses`.
- The JSON request and response framing, HTTP status codes and `NextResponse` are transport. `Options.Route` gives the dispatch and its error message.
- Console logging is left out.
- Crawl.ScrapeSinglePage: does not model the description, keywords and image list (lines 132-133 and 173-179). Like the title, they are single-regex extractions with no invariant of their own.
- Options: option values that are neither numbers, strings nor booleans are out of scope. Numbers are modelled as integers, so fractional values are out of scope too. Of the numbers JavaScript treats as falsy, the model has `0`; `NaN` cannot be written in it.
- Queues.Queue.Contains: compares items by value. JavaScript's `includes` compares objects by identity. The crawler never calls `contains`.
- Crawl.CrawlNext: the `if (!current) break;` at line 233 cannot fire, because the loop guard ensures the queue is non-empty. The model dequeues from a non-empty queue.
- Text: strings are sequences of Unicode scalar values, not UTF-16 code units. Surrogate pairs are one character here.
- The script and style patterns (`<script\b[^<]*(?:(?!<\/script>)<[^<]*)*<\/script>`) are modelled as the lazy match up to the first closing tag, which is what they match.
- The React components and page UI are display and export of already computed data.
