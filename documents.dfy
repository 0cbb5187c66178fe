/**
 * What the sitemap engine reads, after HTTP and XML parsing are abstracted away, and the
 * exceptions it can raise.
 *
 * A fetched sitemap is either empty text, text that is not well-formed XML, or a parsed
 * document. A parsed document is given by the two element lists the engine asks for: every
 * `<sitemap>` element and every `<url>` element anywhere below the root (in the namespace
 * `http://www.sitemaps.org/schemas/sitemap/0.9`), each reduced to its first `<loc>` and first
 * `<lastmod>` child.
 */
module Documents {
  import opened Common

  /** A child element; its text is None when the element is empty, as ElementTree reports it. */
  datatype Element = Element(text: Option<string>)

  /** A `<sitemap>` or `<url>` element: its `<loc>` and `<lastmod>` children, when present. */
  datatype Entry = Entry(loc: Option<Element>, lastmod: Option<Element>)

  /** The `<sitemap>` entries and the `<url>` entries of one document, each in document order. */
  datatype Doc = Doc(sitemaps: seq<Entry>, urls: seq<Entry>)

  /** The body of a successful fetch. */
  datatype Content = EmptyText | Unparseable | Parsed(doc: Doc)

  /** What fetching a URL gives: an HTTP or network failure (with its description), or a body. */
  datatype Response = Unreachable(cause: string) | Fetched(content: Content)

  /** The remote sitemaps, as seen during one run: a fixed response per URL. */
  type Web = string -> Response

  /** The Python exception classes the service tells apart. */
  datatype ErrorKind = RuntimeError | ValueError | OtherError

  datatype Error =
    | FetchFailed(url: string, cause: string)   // RuntimeError raised by fetch_xml
    | RecursionLimit                            // RecursionError, a subclass of RuntimeError
    | EmptyIndex                                // RuntimeError raised by main for an empty index
    | InvalidXml                                // ValueError raised by extract_sitemap_links
    | UnparseableSitemap(url: string)           // ValueError raised by parse_sitemap
    | MissingText                               // AttributeError: `.split` on an empty element's text

  function Kind(e: Error): ErrorKind {
    match e
    case FetchFailed(_, _) => RuntimeError
    case RecursionLimit => RuntimeError
    case EmptyIndex => RuntimeError
    case InvalidXml => ValueError
    case UnparseableSitemap(_) => ValueError
    case MissingText => OtherError
  }

  /** `str(e)`. */
  function Message(e: Error): string {
    match e
    case FetchFailed(url, cause) => "Error fetching " + url + ": " + cause
    case RecursionLimit => "maximum recursion depth exceeded"
    case EmptyIndex => "Failed to fetch the main XML sitemap."
    case InvalidXml => "Invalid XML structure."
    case UnparseableSitemap(url) => "Failed to parse XML for " + url
    case MissingText => "'NoneType' object has no attribute 'split'"
  }

  /** `fetch_xml(url)`: the body, or a RuntimeError naming the URL and the cause. */
  function FetchXml(web: Web, url: string): (r: Result<Content, Error>)
    ensures r.Ok? <==> web(url).Fetched?
    ensures r.Ok? ==> r.value == web(url).content
    ensures r.Err? ==> r.error == FetchFailed(url, web(url).cause) && Kind(r.error) == RuntimeError
  {
    match web(url)
    case Unreachable(cause) => Err(FetchFailed(url, cause))
    case Fetched(content) => Ok(content)
  }
}
