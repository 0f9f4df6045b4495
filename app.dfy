/**
 * The application controller: the fetch box's URL normalisation, the checks
 * and sitemap-index aggregation of `processXML`, the primary-then-fallback
 * fetch order, the preview's pagination and the merge tab's file list.
 */
module App {
  import opened Wrappers
  import opened Text
  import opened Sitemap
  import FetchProxy
  import Merger

  // ---------------------------------------------------------------------------
  // normalizeSitemapUrl

  /** What `normalizeSitemapUrl` returns. */
  datatype Target = Target(primary: string, fallbacks: seq<string>, wasBareDomain: bool)

  const HttpPrefix := "http://"
  const HttpsPrefix := "https://"

  /** `/^https?:\/\//i`: the case-insensitive scheme test. */
  predicate HasScheme(url: string) {
    var l := ToLower(url);
    StartsWith(l, HttpPrefix) || StartsWith(l, HttpsPrefix)
  }

  /** The URL with `https://` put in front when it has no scheme. */
  function WithScheme(t: string): string {
    if HasScheme(t) then t else HttpsPrefix + t
  }

  /**
   * `normalizeSitemapUrl(input)`; `parse` stands for `new URL`. The trimmed
   * text, completed with `https://` when it has no scheme, is a bare domain
   * exactly when it parses with an empty or `/` path; anything else is kept
   * as it is, with a scheme and no fallbacks.
   */
  function Normalize(input: string, parse: UrlParser): (r: Target)
    ensures var url := WithScheme(Trim(input));
      && (r.wasBareDomain <==> parse(url).Some? && (parse(url).value.pathname == "/" || parse(url).value.pathname == []))
      && (!r.wasBareDomain ==> r.primary == url && r.fallbacks == [] && HasScheme(r.primary))
      && (r.wasBareDomain ==> SitemapPlacesOf(r, parse(url).value.origin))
  {
    WithSchemeAdds(Trim(input));
    Locate(WithScheme(Trim(input)), parse)
  }

  /**
   * The primary and two fallbacks of a bare domain: three distinct URLs, all
   * on the origin.
   */
  predicate SitemapPlacesOf(n: Target, origin: string) {
    && |n.fallbacks| == 2
    && StartsWith(n.primary, origin) && StartsWith(n.fallbacks[0], origin) && StartsWith(n.fallbacks[1], origin)
    && n.primary != n.fallbacks[0] && n.primary != n.fallbacks[1] && n.fallbacks[0] != n.fallbacks[1]
  }

  /**
   * The `try` block of `normalizeSitemapUrl` on the scheme-completed text: a
   * URL with an empty or `/` path is a bare domain and gets the usual sitemap
   * places on its origin; any other URL, an unparsable one included, is kept.
   */
  function Locate(url: string, parse: UrlParser): (r: Target)
    ensures r.wasBareDomain <==> parse(url).Some? && (parse(url).value.pathname == "/" || parse(url).value.pathname == [])
    ensures !r.wasBareDomain ==> r.primary == url && r.fallbacks == []
    ensures r.wasBareDomain ==> SitemapPlacesOf(r, parse(url).value.origin)
  {
    match parse(url)
    case None => Target(url, [], false)
    case Some(u) =>
      if u.pathname == "/" || u.pathname == [] then
        SitemapPlaces(u.origin);
        Target(u.origin + "/sitemap.xml", [u.origin + "/sitemap_index.xml", u.origin + "/sitemap/"], true)
      else Target(url, [], false)
  }

  /** Lower-casing distributes over concatenation. */
  lemma ToLowerAppend(a: string, b: string)
    ensures ToLower(a + b) == ToLower(a) + ToLower(b)
  {
  }

  /** The `https://` prefix is already lower-case. */
  lemma HttpsPrefixLower()
    ensures ToLower(HttpsPrefix) == HttpsPrefix
  {
    forall i | 0 <= i < |HttpsPrefix|
      ensures LowerChar(HttpsPrefix[i]) == HttpsPrefix[i]
    {
    }
  }

  /**
   * `https://` is put in front exactly when the text has no scheme, and the
   * result always has one, so a second pass changes nothing.
   */
  lemma WithSchemeAdds(t: string)
    ensures WithScheme(t) != t <==> !HasScheme(t)
    ensures HasScheme(WithScheme(t))
    ensures WithScheme(WithScheme(t)) == WithScheme(t)
  {
    if !HasScheme(t) {
      var u := HttpsPrefix + t;
      ToLowerAppend(HttpsPrefix, t);
      HttpsPrefixLower();
      assert ToLower(u)[..|HttpsPrefix|] == HttpsPrefix;
    }
  }

  /** A trimmed text keeps its ends when `https://` is put in front. */
  lemma PrefixKeepsTrimmed(t: string)
    requires Trimmed(t)
    ensures Trimmed(HttpsPrefix + t)
  {
    var u := HttpsPrefix + t;
    assert u[0] == 'h';
    if t != [] {
      assert u[|u| - 1] == t[|t| - 1];
    } else {
      assert u[|u| - 1] == '/';
    }
  }

  lemma SitemapPlaces(o: string)
    ensures StartsWith(o + "/sitemap.xml", o) && StartsWith(o + "/sitemap_index.xml", o) && StartsWith(o + "/sitemap/", o)
    ensures |o + "/sitemap.xml"| != |o + "/sitemap_index.xml"|
    ensures |o + "/sitemap.xml"| != |o + "/sitemap/"|
    ensures |o + "/sitemap_index.xml"| != |o + "/sitemap/"|
  {
    assert (o + "/sitemap.xml")[..|o|] == o;
    assert (o + "/sitemap_index.xml")[..|o|] == o;
    assert (o + "/sitemap/")[..|o|] == o;
  }

  /** A URL kept as it is normalises to itself again. */
  lemma NormalizeKept(input: string, parse: UrlParser)
    ensures var n := Normalize(input, parse);
      !n.wasBareDomain ==> Normalize(n.primary, parse) == n
  {
    var t := Trim(input);
    var url := WithScheme(t);
    WithSchemeAdds(t);
    SchemeTrimmed(t);
    assert WithScheme(Trim(url)) == url;
  }

  /** Completing a trimmed text with a scheme leaves it trimmed. */
  lemma SchemeTrimmed(t: string)
    requires Trimmed(t)
    ensures Trim(WithScheme(t)) == WithScheme(t)
  {
    if HasScheme(t) {
      TrimmedFixed(t);
    } else {
      PrefixKeepsTrimmed(t);
      TrimmedFixed(HttpsPrefix + t);
    }
  }

  // ---------------------------------------------------------------------------
  // The checks at the start of processXML

  const HtmlPage := "Received an HTML page instead of a sitemap XML. The URL may be incorrect, or the site may be blocking automated requests."
  const NotValidXml := "The response is not valid XML. It may be plain text, JSON, or an unsupported format."

  /**
   * The error `processXML` raises before parsing, if any: text passes iff,
   * after leading white space, it starts with `<` and not with an HTML
   * opening; blank text is reported as not XML.
   */
  function PreCheck(xml: string): (r: Option<string>)
    ensures var t := TrimStart(xml);
      r.None? <==> !LooksLikeHtml(t) && t != [] && t[0] == '<'
    ensures TrimStart(xml) == [] ==> r == Some(NotValidXml)
  {
    var trimmed := TrimStart(xml);
    StartsWithLt(trimmed);
    if LooksLikeHtml(trimmed) then Some(HtmlPage)
    else if !StartsWith(trimmed, "<") then Some(NotValidXml)
    else None
  }

  /** The browser's check passes exactly the bodies the fetch proxy lets through. */
  lemma PreCheckPasses(xml: string)
    ensures PreCheck(xml).None? <==> FetchProxy.ValidateBody(xml).Ok?
  {
    FetchProxy.ValidateBodyAccepts(xml);
  }

  // ---------------------------------------------------------------------------
  // The sitemap-index loop of processXML

  /** What `SitemapParser.parse` returns: a URL set or an index of sitemaps. */
  datatype Document = UrlSet(entries: seq<Entry>) | SitemapIndex(sitemaps: seq<IndexRef>)

  /** `SitemapParser.parse`, which is not part of this model; `Err` where it throws. */
  type XmlParser = string -> Result<Document, string>

  /** `fetchSitemapFromAPI`: the text the proxy returned, `Err` where it throws. */
  type Fetcher = string -> Result<string, string>

  /** What one child of an index contributes. */
  datatype Child = Threw | Loaded(entries: seq<Entry>) | Nested

  function ChildOf(r: IndexRef, fetch: Fetcher, xmlParse: XmlParser): Child {
    match fetch(r.loc)
    case Err(_) => Threw
    case Ok(xml) =>
      match xmlParse(xml)
      case Err(_) => Threw
      case Ok(UrlSet(es)) => Loaded(es)
      case Ok(SitemapIndex(_)) => Nested
  }

  /** The entries a child adds to `allEntries`. */
  function Added(c: Child): seq<Entry> {
    if c.Loaded? then c.entries else []
  }

  /** `allEntries` after the loop. */
  function Collected(refs: seq<IndexRef>, fetch: Fetcher, xmlParse: XmlParser): seq<Entry> {
    if refs == [] then []
    else Collected(refs[..|refs| - 1], fetch, xmlParse) + Added(ChildOf(refs[|refs| - 1], fetch, xmlParse))
  }

  /** `fetchErrors` after the loop. */
  function Failures(refs: seq<IndexRef>, fetch: Fetcher, xmlParse: XmlParser): nat {
    if refs == [] then 0
    else Failures(refs[..|refs| - 1], fetch, xmlParse) + (if ChildOf(refs[|refs| - 1], fetch, xmlParse).Threw? then 1 else 0)
  }

  /** The children that are themselves indexes: they add nothing and are not counted. */
  function NestedCount(refs: seq<IndexRef>, fetch: Fetcher, xmlParse: XmlParser): nat {
    if refs == [] then 0
    else NestedCount(refs[..|refs| - 1], fetch, xmlParse) + (if ChildOf(refs[|refs| - 1], fetch, xmlParse).Nested? then 1 else 0)
  }

  /** The children that loaded as URL sets. */
  function LoadedCount(refs: seq<IndexRef>, fetch: Fetcher, xmlParse: XmlParser): nat {
    if refs == [] then 0
    else LoadedCount(refs[..|refs| - 1], fetch, xmlParse) + (if ChildOf(refs[|refs| - 1], fetch, xmlParse).Loaded? then 1 else 0)
  }

  /** The loop over `result.sitemaps`, each child caught on its own. */
  method Aggregate(refs: seq<IndexRef>, fetch: Fetcher, xmlParse: XmlParser) returns (allEntries: seq<Entry>, fetchErrors: nat)
    ensures allEntries == Collected(refs, fetch, xmlParse)
    ensures fetchErrors == Failures(refs, fetch, xmlParse)
  {
    allEntries, fetchErrors := [], 0;
    var i := 0;
    while i < |refs|
      invariant 0 <= i <= |refs|
      invariant allEntries == Collected(refs[..i], fetch, xmlParse)
      invariant fetchErrors == Failures(refs[..i], fetch, xmlParse)
    {
      assert refs[..i + 1][..i] == refs[..i];
      match fetch(refs[i].loc) {
        case Err(_) =>
          fetchErrors := fetchErrors + 1;
        case Ok(subXml) =>
          match xmlParse(subXml) {
            case Err(_) =>
              fetchErrors := fetchErrors + 1;
            case Ok(sub) =>
              if sub.UrlSet? {
                allEntries := allEntries + sub.entries;
              }
          }
      }
      i := i + 1;
    }
    assert refs[..i] == refs;
  }

  /**
   * The loop's result over two runs of children is the result over the first
   * followed by the result over the second: the entries come in index order.
   */
  lemma {:induction false} CollectedSplit(a: seq<IndexRef>, b: seq<IndexRef>, fetch: Fetcher, xmlParse: XmlParser)
    ensures Collected(a + b, fetch, xmlParse) == Collected(a, fetch, xmlParse) + Collected(b, fetch, xmlParse)
    ensures Failures(a + b, fetch, xmlParse) == Failures(a, fetch, xmlParse) + Failures(b, fetch, xmlParse)
    decreases |b|
  {
    if b != [] {
      var n := |b| - 1;
      assert (a + b)[..|a + b| - 1] == a + b[..n];
      CollectedSplit(a, b[..n], fetch, xmlParse);
    } else {
      assert a + b == a;
    }
  }

  /** One child alone contributes exactly its own outcome. */
  lemma CollectedOne(r: IndexRef, fetch: Fetcher, xmlParse: XmlParser)
    ensures Collected([r], fetch, xmlParse) == Added(ChildOf(r, fetch, xmlParse))
    ensures Failures([r], fetch, xmlParse) == if ChildOf(r, fetch, xmlParse).Threw? then 1 else 0
  {
    assert [r][..0] == [];
  }

  /** Every child is counted once: as failed, as loaded, or as a nested index. */
  lemma {:induction false} ChildrenAccounted(refs: seq<IndexRef>, fetch: Fetcher, xmlParse: XmlParser)
    ensures Failures(refs, fetch, xmlParse) + LoadedCount(refs, fetch, xmlParse) + NestedCount(refs, fetch, xmlParse) == |refs|
    decreases |refs|
  {
    if refs != [] {
      ChildrenAccounted(refs[..|refs| - 1], fetch, xmlParse);
    }
  }

  // ---------------------------------------------------------------------------
  // Pagination arithmetic of renderPreview

  /** `Math.ceil(n / size)`. */
  function TotalPages(n: nat, size: nat): (r: nat)
    requires size > 0
  {
    (n + size - 1) / size
  }

  /** The ceiling is the least page count that covers every entry. */
  lemma TotalPagesCeil(n: nat, size: nat)
    requires size > 0
    ensures TotalPages(n, size) * size >= n
    ensures n > 0 ==> (TotalPages(n, size) - 1) * size < n
    ensures n == 0 <==> TotalPages(n, size) == 0
  {
    var t := TotalPages(n, size);
    var q := n + size - 1;
    assert q == t * size + q % size;
  }

  /** `(currentPage - 1) * pageSize`. */
  function PageStart(page: int, size: nat): int {
    (page - 1) * size
  }

  /** `Math.min(start + pageSize, entries.length)`. */
  function PageEnd(page: int, size: nat, n: nat): int {
    var e := PageStart(page, size) + size;
    if e < n then e else n
  }

  /**
   * On a page between 1 and the page count, the rows shown are a non-empty run
   * of at most a page's size inside the list, a full page except on the last.
   */
  lemma PageInside(page: int, size: nat, n: nat)
    requires size > 0 && 1 <= page <= TotalPages(n, size)
    ensures 0 <= PageStart(page, size) < PageEnd(page, size, n) <= n
    ensures PageEnd(page, size, n) - PageStart(page, size) <= size
    ensures page < TotalPages(n, size) ==> PageEnd(page, size, n) - PageStart(page, size) == size
  {
    TotalPagesCeil(n, size);
    var t := TotalPages(n, size);
    assert (page - 1) * size <= (t - 1) * size;
    if page < t {
      assert page * size <= (t - 1) * size;
    }
  }

  lemma MulLe(a: int, b: int, size: nat)
    requires a <= b
    ensures a * size <= b * size
  {
  }

  /** Every entry is shown on exactly one page, the one `k / pageSize` past the first. */
  lemma PageOfEntry(k: nat, size: nat, n: nat)
    requires size > 0 && k < n
    ensures var p := k / size + 1;
      1 <= p <= TotalPages(n, size) && PageStart(p, size) <= k < PageEnd(p, size, n)
    ensures forall p :: PageStart(p, size) <= k < PageEnd(p, size, n) ==> p == k / size + 1
  {
    TotalPagesCeil(n, size);
    var q := k / size;
    var t := TotalPages(n, size);
    assert q * size <= k < q * size + size;
    if q + 1 > t {
      MulLe(t, q, size);
    }
    forall p' | PageStart(p', size) <= k < PageEnd(p', size, n)
      ensures p' == q + 1
    {
      assert (p' - 1) * size <= k < (p' - 1) * size + size;
      if p' - 1 < q {
        MulLe(p', q, size);
      } else if p' - 1 > q {
        MulLe(q + 1, p' - 1, size);
      }
    }
  }

  /** `entries.slice(start, end)` for the preview's bounds. */
  function PageRows(entries: seq<Entry>, page: int, size: nat): (rows: seq<Entry>)
    requires 1 <= page
    ensures |rows| <= size
    ensures forall i :: 0 <= i < |rows| ==> 0 <= PageStart(page, size) + i < |entries| && rows[i] == entries[PageStart(page, size) + i]
  {
    MulLe(0, page - 1, size);
    var start := PageStart(page, size);
    var end := PageEnd(page, size, |entries|);
    if start < end then entries[start..end] else []
  }

  /** A page within the page count shows every row from its start to its end, and at least one. */
  lemma PageRowsFull(entries: seq<Entry>, page: int, size: nat)
    requires size > 0 && 1 <= page <= TotalPages(|entries|, size)
    ensures var rows := PageRows(entries, page, size);
      && |rows| == PageEnd(page, size, |entries|) - PageStart(page, size) > 0
      && rows == entries[PageStart(page, size)..PageEnd(page, size, |entries|)]
  {
    PageInside(page, size, |entries|);
  }

  // ---------------------------------------------------------------------------
  // The fetch button

  const EnterUrl := "Please enter a URL"
  const EnterValidUrl := "Please enter a valid URL"

  /** The message when every place tried has failed to fetch. */
  function NotFoundAt(raw: string): string {
    "Could not find a sitemap at " + raw + ". Tried /sitemap.xml and /sitemap_index.xml. Please provide the full sitemap URL."
  }

  /** The URLs tried, in order: the primary, then the fallbacks of a bare domain. */
  function Candidates(t: Target): seq<string> {
    [t.primary] + (if t.wasBareDomain then t.fallbacks else [])
  }

  /**
   * The attempts on a valid target `t` typed as `raw`: a success is the first
   * place that fetched, and a failure means every place failed, with the
   * not-found message for a bare domain and the primary's own error otherwise.
   */
  ghost predicate Tries(t: Target, raw: string, fetch: Fetcher, a: Result<(string, string), string>) {
    var cs := Candidates(t);
    && (a.Ok? ==>
          exists k :: 0 <= k < |cs| && cs[k] == a.value.0 && fetch(cs[k]) == Ok(a.value.1)
                      && forall j :: 0 <= j < k ==> fetch(cs[j]).Err?)
    && (a.Err? ==>
          && fetch(t.primary).Err?
          && (forall j :: 0 <= j < |cs| ==> fetch(cs[j]).Err?)
          && a.error == if t.wasBareDomain then NotFoundAt(raw) else fetch(t.primary).error)
  }

  /** The index of the first place that fetches, or `|urls|` when none does. */
  function FirstOk(urls: seq<string>, fetch: Fetcher): (k: nat)
    ensures k <= |urls|
    ensures k < |urls| ==> fetch(urls[k]).Ok?
    ensures forall j :: 0 <= j < k ==> fetch(urls[j]).Err?
  {
    if urls == [] then 0
    else if fetch(urls[0]).Ok? then 0
    else
      var k := 1 + FirstOk(urls[1..], fetch);
      assert forall j :: 1 <= j < k ==> urls[j] == urls[1..][j - 1];
      k
  }

  /** The `for … of` over the places to try, stopping at the first that fetches. */
  method FirstFetched(urls: seq<string>, fetch: Fetcher) returns (k: nat)
    ensures k == FirstOk(urls, fetch)
  {
    k := 0;
    while k < |urls|
      invariant k <= |urls|
      invariant forall j :: 0 <= j < k ==> fetch(urls[j]).Err?
    {
      if fetch(urls[k]).Ok? {
        return;
      }
      k := k + 1;
    }
  }

  /**
   * The click handler up to `processXML`: the fetched URL and text, or the
   * message shown. Only a failed fetch moves on to the next place, since
   * `processXML` reports its own errors and never throws.
   */
  function Attempted(value: string, parse: UrlParser, fetch: Fetcher): Result<(string, string), string> {
    var raw := Trim(value);
    if raw == [] then Err(EnterUrl)
    else
      var t := Normalize(raw, parse);
      if parse(t.primary).None? then Err(EnterValidUrl)
      else TryAll(t, raw, fetch)
  }

  /** The attempts on target `t`, typed as `raw`. */
  function TryAll(t: Target, raw: string, fetch: Fetcher): Result<(string, string), string> {
    var cs := Candidates(t);
    var k := FirstOk(cs, fetch);
    if k < |cs| then Ok((cs[k], fetch(cs[k]).value))
    else
      assert cs[0] == t.primary;
      Err(if t.wasBareDomain then NotFoundAt(raw) else fetch(t.primary).error)
  }

  /** The attempts meet `Tries`. */
  lemma TryAllTries(t: Target, raw: string, fetch: Fetcher)
    ensures Tries(t, raw, fetch, TryAll(t, raw, fetch))
  {
    var cs := Candidates(t);
    var k := FirstOk(cs, fetch);
    if k < |cs| {
      assert TryAll(t, raw, fetch) == Ok((cs[k], fetch(cs[k]).value));
    }
  }

  /**
   * Blank input and an unparsable target are refused before any fetch;
   * otherwise the places are tried in order and the first that fetches is
   * loaded, and when none does the message is the not-found text for a bare
   * domain and the primary's own error otherwise.
   */
  lemma AttemptedTries(value: string, parse: UrlParser, fetch: Fetcher)
    ensures Trim(value) == [] ==> Attempted(value, parse, fetch) == Err(EnterUrl)
    ensures Trim(value) != [] && parse(Normalize(Trim(value), parse).primary).None? ==>
      Attempted(value, parse, fetch) == Err(EnterValidUrl)
    ensures Trim(value) != [] && parse(Normalize(Trim(value), parse).primary).Some? ==>
      Tries(Normalize(Trim(value), parse), Trim(value), fetch, Attempted(value, parse, fetch))
  {
    var raw := Trim(value);
    if raw != [] {
      TryAllTries(Normalize(raw, parse), raw, fetch);
    }
  }

  /** The click handler up to `processXML`. */
  method Attempt(value: string, parse: UrlParser, fetch: Fetcher) returns (a: Result<(string, string), string>)
    ensures a == Attempted(value, parse, fetch)
  {
    var raw := Trim(value);
    if raw == [] {
      return Err(EnterUrl);
    }
    var t := Normalize(raw, parse);
    if parse(t.primary).None? {
      return Err(EnterValidUrl);
    }
    assert Attempted(value, parse, fetch) == TryAll(t, raw, fetch);
    var cs := Candidates(t);
    var k := FirstFetched(cs, fetch);
    if k < |cs| {
      return Ok((cs[k], fetch(cs[k]).value));
    }
    assert cs[0] == t.primary;
    a := Err(if t.wasBareDomain then NotFoundAt(raw) else fetch(t.primary).error);
  }

  // ---------------------------------------------------------------------------
  // The controller's state

  const NoUrls := "No URLs found in the sitemap. The file may be empty or in an unsupported format."
  const AtLeastTwo := "Upload at least 2 sitemaps to merge"

  /** What a successful load reports: the URL count and the children that failed. */
  datatype LoadReport = LoadReport(count: nat, fetchErrors: nat)

  /**
   * What `processXML` stores in `state.entries`, with the failed children;
   * `Err` where it throws before storing anything.
   */
  function Reading(xml: string, xmlParse: XmlParser, fetch: Fetcher): Result<(seq<Entry>, nat), string> {
    match PreCheck(xml)
    case Some(m) => Err(m)
    case None =>
      match xmlParse(xml)
      case Err(m) => Err(m)
      case Ok(UrlSet(es)) => Ok((es, 0))
      case Ok(SitemapIndex(refs)) => Ok((Collected(refs, fetch, xmlParse), Failures(refs, fetch, xmlParse)))
  }

  /**
   * `processXML`'s effect: the entries and page before (`entries0`, `page0`)
   * and after (`entries1`, `page1`), and the outcome `r`. The entries are
   * stored before the emptiness check, so an empty sitemap clears them while
   * the page stays; only a non-empty load resets the page to 1.
   */
  ghost predicate Loads(xml: string, xmlParse: XmlParser, fetch: Fetcher, r: Result<LoadReport, string>,
                        entries0: seq<Entry>, page0: int, entries1: seq<Entry>, page1: int) {
    match Reading(xml, xmlParse, fetch)
    case Err(m) => r == Err(m) && entries1 == entries0 && page1 == page0
    case Ok((es, failed)) =>
      && entries1 == es
      && (es == [] ==> r == Err(NoUrls) && page1 == page0)
      && (es != [] ==> r == Ok(LoadReport(|es|, failed)) && page1 == 1)
  }

  /** `processXML` up to the assignment of `state.entries`. */
  method Read(xmlText: string, xmlParse: XmlParser, fetch: Fetcher) returns (r: Result<(seq<Entry>, nat), string>)
    ensures r == Reading(xmlText, xmlParse, fetch)
  {
    var check := PreCheck(xmlText);
    if check.Some? {
      return Err(check.value);
    }
    var parsed := xmlParse(xmlText);
    if parsed.Err? {
      return Err(parsed.error);
    }
    match parsed.value {
      case UrlSet(es) =>
        r := Ok((es, 0));
      case SitemapIndex(refs) =>
        var loaded, failed := Aggregate(refs, fetch, xmlParse);
        r := Ok((loaded, failed));
    }
  }

  /** Whether a file name ends with `.xml`. */
  predicate EndsWithXml(name: string) {
    |name| >= 4 && name[|name| - 4..] == ".xml"
  }

  /** The `state` object of the controller, restricted to the converter and merge tabs. */
  class AppState {
    var entries: seq<Entry>
    var currentPage: int
    const pageSize: nat
    var mergeFiles: seq<Merger.Source>
    var mergedEntries: Option<seq<Merger.Tagged>>

    /** The page is at least 1, and within the page count while there are entries. */
    ghost predicate Valid()
      reads this
    {
      pageSize == 25 && 1 <= currentPage && (entries == [] || currentPage <= TotalPages(|entries|, pageSize))
    }

    constructor ()
      ensures Valid()
      ensures entries == [] && currentPage == 1 && pageSize == 25 && mergeFiles == [] && mergedEntries == None
    {
      entries := [];
      currentPage := 1;
      pageSize := 25;
      mergeFiles := [];
      mergedEntries := None;
    }

    /** `processXML`: the checks, the parse, the index loop, then the emptiness check. */
    method ProcessXml(xmlText: string, xmlParse: XmlParser, fetch: Fetcher) returns (r: Result<LoadReport, string>)
      requires Valid()
      modifies this`entries, this`currentPage
      ensures Valid()
      ensures Loads(xmlText, xmlParse, fetch, r, old(entries), old(currentPage), entries, currentPage)
    {
      var reading := Read(xmlText, xmlParse, fetch);
      match reading {
        case Err(m) =>
          r := Err(m);
        case Ok((loaded, failed)) =>
          entries := loaded;
          if |loaded| == 0 {
            r := Err(NoUrls);
          } else {
            currentPage := 1;
            TotalPagesCeil(|loaded|, pageSize);
            r := Ok(LoadReport(|loaded|, failed));
          }
      }
    }

    /** The fetch button: the attempts, then `processXML` on the first text fetched. */
    method FetchClick(value: string, parse: UrlParser, fetch: Fetcher, xmlParse: XmlParser)
      returns (r: Result<LoadReport, string>)
      requires Valid()
      modifies this`entries, this`currentPage
      ensures Valid()
      ensures match Attempted(value, parse, fetch)
        case Err(m) => r == Err(m) && entries == old(entries) && currentPage == old(currentPage)
        case Ok((_, xml)) => Loads(xml, xmlParse, fetch, r, old(entries), old(currentPage), entries, currentPage)
    {
      var a := Attempt(value, parse, fetch);
      match a {
        case Err(m) =>
          r := Err(m);
        case Ok((_, xml)) =>
          r := ProcessXml(xml, xmlParse, fetch);
      }
    }

    /** The "previous page" button. */
    method PrevPage()
      requires Valid()
      modifies this`currentPage
      ensures Valid()
      ensures currentPage == if old(currentPage) > 1 then old(currentPage) - 1 else old(currentPage)
    {
      if currentPage > 1 {
        currentPage := currentPage - 1;
      }
    }

    /** The "next page" button. */
    method NextPage()
      requires Valid()
      modifies this`currentPage
      ensures Valid()
      ensures currentPage == if old(currentPage) < TotalPages(|entries|, pageSize) then old(currentPage) + 1 else old(currentPage)
    {
      var totalPages := TotalPages(|entries|, pageSize);
      if currentPage < totalPages {
        currentPage := currentPage + 1;
      }
    }

    /** A file dropped on the merge tab: kept when it is `.xml` and parses as a URL set. */
    method AddMergeFile(name: string, parsed: Result<Document, string>)
      modifies this`mergeFiles
      ensures mergeFiles == if EndsWithXml(name) && parsed.Ok? && parsed.value.UrlSet?
        then old(mergeFiles) + [Merger.Source(name, parsed.value.entries)] else old(mergeFiles)
    {
      if EndsWithXml(name) && parsed.Ok? && parsed.value.UrlSet? {
        mergeFiles := mergeFiles + [Merger.Source(name, parsed.value.entries)];
      }
    }

    /** A file's remove button: `splice(idx, 1)`. */
    method RemoveMergeFile(idx: nat)
      modifies this`mergeFiles
      ensures idx < |old(mergeFiles)| ==>
        && |mergeFiles| == |old(mergeFiles)| - 1
        && (forall j :: 0 <= j < idx ==> mergeFiles[j] == old(mergeFiles)[j])
        && (forall j :: idx <= j < |mergeFiles| ==> mergeFiles[j] == old(mergeFiles)[j + 1])
      ensures idx >= |old(mergeFiles)| ==> mergeFiles == old(mergeFiles)
    {
      if idx < |mergeFiles| {
        mergeFiles := mergeFiles[..idx] + mergeFiles[idx + 1..];
      }
    }

    /** The merge button: at least two files, then `Merger.merge`. */
    method MergeClick(opts: Merger.Options, rank: Merger.PriorityRank) returns (r: Result<Merger.MergeResult, string>)
      modifies this`mergedEntries
      ensures |mergeFiles| < 2 ==> r == Err(AtLeastTwo) && mergedEntries == old(mergedEntries)
      ensures |mergeFiles| >= 2 ==> r == Ok(Merger.MergeSpec(mergeFiles, opts, rank)) && mergedEntries == Some(r.value.entries)
    {
      if |mergeFiles| < 2 {
        return Err(AtLeastTwo);
      }
      var result := Merger.Merge(mergeFiles, opts, rank);
      mergedEntries := Some(result.entries);
      r := Ok(result);
    }
  }
}
