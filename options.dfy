/** The request options of the crawl endpoint and their defaults. Every default is applied
    with JavaScript's `||`, which falls back on any falsy value: a missing field, but also a
    numeric `0`, an empty string or `false`. Option fields hold the JSON value of a number, a
    string or a boolean, or are missing. */
module Options {
  import opened Wrappers

  /** The `options` object of a request; each field as sent, or missing. */
  datatype CrawlOptions = CrawlOptions(
    recursive: Option<bool>,
    maxDepth: Option<int>,
    maxPages: Option<int>,
    exportFormat: Option<string>,
    delay: Option<int>)

  /** A request without `options`: `options?.field` is `undefined` for every field. */
  const NoOptions := CrawlOptions(None, None, None, None, None)

  /** `value || fallback` for a number: `0` and a missing value are falsy. */
  function NumberOr(value: Option<int>, fallback: int): (r: int)
    ensures r == fallback || (value.Some? && r == value.value)
  {
    if value.Some? && value.value != 0 then value.value else fallback
  }

  /** `value || fallback` for a string: "" and a missing value are falsy. */
  function StringOr(value: Option<string>, fallback: string): (r: string)
    ensures r == fallback || (value.Some? && r == value.value)
  {
    if value.Some? && value.value != "" then value.value else fallback
  }

  /** `options?.recursive || false` */
  predicate IsRecursive(o: CrawlOptions) {
    o.recursive == Some(true)
  }

  /** `options?.maxDepth || 3` */
  function MaxDepth(o: CrawlOptions): int {
    NumberOr(o.maxDepth, 3)
  }

  /** `options?.maxPages || 50` */
  function MaxPages(o: CrawlOptions): int {
    NumberOr(o.maxPages, 50)
  }

  /** `options?.exportFormat || 'json'` */
  function ExportFormat(o: CrawlOptions): string {
    StringOr(o.exportFormat, "json")
  }

  /** `options?.delay || 500`: the pause in milliseconds after each crawled page. */
  function Delay(o: CrawlOptions): int {
    NumberOr(o.delay, 500)
  }

  /** A missing or falsy setting takes its default: depth 3, 50 pages, JSON export, a pause
      of 500 ms; so does `0`, which the form would otherwise allow. */
  lemma FalsyTakesDefault(o: CrawlOptions)
    ensures o.maxDepth.None? || o.maxDepth == Some(0) ==> MaxDepth(o) == 3
    ensures o.maxPages.None? || o.maxPages == Some(0) ==> MaxPages(o) == 50
    ensures o.exportFormat.None? || o.exportFormat == Some("") ==> ExportFormat(o) == "json"
    ensures o.delay.None? || o.delay == Some(0) ==> Delay(o) == 500
    ensures o.recursive.None? || o.recursive == Some(false) ==> !IsRecursive(o)
  {
  }

  /** A truthy setting is used as given. */
  lemma TruthyIsKept(o: CrawlOptions)
    ensures o.maxDepth.Some? && o.maxDepth.value != 0 ==> MaxDepth(o) == o.maxDepth.value
    ensures o.maxPages.Some? && o.maxPages.value != 0 ==> MaxPages(o) == o.maxPages.value
    ensures o.exportFormat.Some? && o.exportFormat.value != "" ==> ExportFormat(o) == o.exportFormat.value
    ensures o.delay.Some? && o.delay.value != 0 ==> Delay(o) == o.delay.value
  {
  }

  /** After `||` no numeric setting is zero and the export format is never empty. */
  lemma SettingsAreTruthy(o: CrawlOptions)
    ensures MaxDepth(o) != 0 && MaxPages(o) != 0 && Delay(o) != 0 && ExportFormat(o) != ""
  {
  }

  /** What the endpoint does with a request. */
  datatype Action =
    | ScrapePage(url: string, options: CrawlOptions)
    | CrawlDomain(url: string, maxDepth: int, maxPages: int, options: CrawlOptions)

  /** The `POST` handler's dispatch: a missing or empty `url` is refused with
      "URL is required"; otherwise a recursive request crawls the domain with the defaulted
      limits, and any other request scrapes the one page. */
  function Route(url: Option<string>, o: CrawlOptions): (r: Result<Action, string>)
    ensures r.Failure? <==> url.None? || url.value == ""
    ensures r.Failure? ==> r.error == "URL is required"
    ensures r.Success? ==> r.value.url == url.value && r.value.options == o
    ensures r.Success? ==> (r.value.CrawlDomain? <==> IsRecursive(o))
    ensures r.Success? && r.value.CrawlDomain? ==>
      r.value.maxDepth == MaxDepth(o) && r.value.maxPages == MaxPages(o)
  {
    if url.None? || url.value == "" then Failure("URL is required")
    else if !IsRecursive(o) then Success(ScrapePage(url.value, o))
    else Success(CrawlDomain(url.value, MaxDepth(o), MaxPages(o), o))
  }

  /** Without options a recursive request is impossible, so the page is scraped alone. */
  lemma NoOptionsScrapesOnePage(url: string)
    requires url != ""
    ensures Route(Some(url), NoOptions) == Success(ScrapePage(url, NoOptions))
  {
  }
}
