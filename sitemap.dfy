/**
 * The shared vocabulary of the sitemap tools: the canonical entry record, the
 * reference to a child sitemap, and the view of a parsed URL that the code
 * reads (`protocol`, `hostname`, `pathname`, `origin`).
 */
module Sitemap {
  import opened Wrappers
  import opened Text

  /** A `<url>` entry; absent optional fields are the empty string. */
  datatype Entry = Entry(loc: string, lastmod: string, changefreq: string, priority: string)

  /** A `<sitemap>` reference inside a sitemap index. */
  datatype IndexRef = IndexRef(loc: string, lastmod: string)

  /** What the code reads from a WHATWG `URL` object. */
  datatype Url = Url(protocol: string, hostname: string, pathname: string, origin: string)

  /**
   * `new URL(s)`: `None` where the constructor throws. The WHATWG parser is not
   * part of this model; every operation that parses a URL takes it as a parameter.
   */
  type UrlParser = string -> Option<Url>

  /** The scheme test shared by the parser, the fetch proxy and its handler. */
  predicate IsHttp(u: Url) {
    u.protocol == "http:" || u.protocol == "https:"
  }

  /**
   * The "this is an HTML page" test used both on fetched bodies and before XML
   * parsing in the browser. Case-sensitive, as written: `<!doctype` is not caught.
   */
  predicate LooksLikeHtml(trimmed: string) {
    StartsWith(trimmed, "<!DOCTYPE") || StartsWith(trimmed, "<html") || StartsWith(trimmed, "<HTML")
  }
}
