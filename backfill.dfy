/**
 * `main`: walk the sitemap index, then run `parse_sitemap` on every sitemap the walk recorded,
 * in the order the walk recorded them. Both dictionaries are returned.
 */
module Backfill {
  import opened Common
  import opened Dates
  import opened Urls
  import opened Dicts
  import opened Documents
  import opened IndexWalk
  import opened Urlset

  /** What `main` returns: the recorded sitemaps with their dates, and the kept URLs of each. */
  datatype Found = Found(sitemaps: Dict<Date>, urls: Dict<seq<Option<string>>>)

  /** The loop of `main` over the remaining recorded sitemaps, filling `urls`. */
  function CollectUrls(web: Web, keys: seq<string>, start: Date, end: Date, urls: Dict<seq<Option<string>>>)
    : Result<Dict<seq<Option<string>>>, Error>
    decreases |keys|
  {
    if keys == [] then Ok(urls)
    else
      match ParseSitemapResult(web, keys[0], start, end)
      case Err(err) => Err(err)
      case Ok(leaves) => CollectUrls(web, keys[1..], start, end, urls.Put(keys[0], leaves.0))
  }

  /** `main(sitemap_index_url, start_date, end_date, content_filter)`, with `depth` the recursion budget. */
  function MainResult(web: Web, indexUrl: string, start: Date, end: Date, depth: nat): Result<Found, Error> {
    var domain := Netloc(indexUrl);
    match FetchXml(web, indexUrl)
    case Err(err) => Err(err)
    case Ok(EmptyText) => Err(EmptyIndex)
    case Ok(content) =>
      match ExtractLinks(web, content, depth, start, end, domain)
      case Err(err) => Err(err)
      case Ok(sitemaps) =>
        match CollectUrls(web, sitemaps.keys, start, end, Empty())
        case Err(err) => Err(err)
        case Ok(urls) => Ok(Found(sitemaps, urls))
  }

  method RunMain(web: Web, indexUrl: string, start: Date, end: Date, contentFilter: Option<string>, depth: nat)
    returns (r: Result<Found, Error>)
    ensures r == MainResult(web, indexUrl, start, end, depth)
  {
    var baseDomain := Netloc(indexUrl);
    var fetched := FetchXml(web, indexUrl);
    if fetched.Err? {
      return Err(fetched.error);
    }
    if fetched.value == EmptyText {
      return Err(EmptyIndex);
    }
    var sitemaps, _ := ExtractSitemapLinks(web, fetched.value, depth, start, end, contentFilter, baseDomain);
    if sitemaps.Err? {
      return Err(sitemaps.error);
    }
    var keys := sitemaps.value.keys;
    var allUrlsBySitemap: Dict<seq<Option<string>>> := Empty();
    var i := 0;
    while i < |keys|
      invariant 0 <= i <= |keys|
      invariant CollectUrls(web, keys[i..], start, end, allUrlsBySitemap) == CollectUrls(web, keys, start, end, Empty())
    {
      assert keys[i..][1..] == keys[i + 1..];
      var parsed := ParseSitemap(web, keys[i], start, end);
      if parsed.Err? {
        return Err(parsed.error);
      }
      allUrlsBySitemap := allUrlsBySitemap.Put(keys[i], parsed.value.0);
      i := i + 1;
    }
    return Ok(Found(sitemaps.value, allUrlsBySitemap));
  }


  /**
   * The loop completes exactly when every sitemap's `parse_sitemap` does; it then adds one entry
   * per sitemap, in order, holding that sitemap's kept URLs. Otherwise it raises the exception of
   * the first sitemap whose `parse_sitemap` raises.
   */
  lemma CollectUrlsFacts(web: Web, keys: seq<string>, start: Date, end: Date, urls: Dict<seq<Option<string>>>)
    ensures var r := CollectUrls(web, keys, start, end, urls);
      && (r.Ok? <==> forall i :: 0 <= i < |keys| ==> ParseSitemapResult(web, keys[i], start, end).Ok?)
      && (r.Ok? ==> r.value.vals.Keys == urls.vals.Keys + set k | k in keys)
      && (r.Ok? ==> forall k :: k in keys ==>
            ParseSitemapResult(web, k, start, end).Ok? && r.value.vals[k] == ParseSitemapResult(web, k, start, end).value.0)
      && (r.Ok? && urls.Valid() && Distinct(keys) && (forall k :: k in keys ==> k !in urls.vals) ==>
            r.value.Valid() && r.value.keys == urls.keys + keys)
      && (r.Err? ==> exists i :: 0 <= i < |keys| && ParseSitemapResult(web, keys[i], start, end) == Err(r.error)
                                && forall j :: 0 <= j < i ==> ParseSitemapResult(web, keys[j], start, end).Ok?)
  {
    CollectUrlsCompletes(web, keys, start, end, urls);
    CollectUrlsContents(web, keys, start, end, urls);
    if urls.Valid() && Distinct(keys) && forall k :: k in keys ==> k !in urls.vals {
      CollectUrlsOrder(web, keys, start, end, urls);
    }
    CollectUrlsFirstError(web, keys, start, end, urls);
  }

  lemma {:induction false} CollectUrlsCompletes(web: Web, keys: seq<string>, start: Date, end: Date,
                                                urls: Dict<seq<Option<string>>>)
    ensures CollectUrls(web, keys, start, end, urls).Ok?
            <==> forall i :: 0 <= i < |keys| ==> ParseSitemapResult(web, keys[i], start, end).Ok?
    decreases |keys|
  {
    if keys != [] {
      var rest := keys[1..];
      assert forall i :: 0 <= i < |rest| ==> rest[i] == keys[i + 1];
      assert forall i :: 1 <= i < |keys| ==> keys[i] == rest[i - 1];
      match ParseSitemapResult(web, keys[0], start, end)
      case Err(_) =>
      case Ok(leaves) =>
        CollectUrlsCompletes(web, rest, start, end, urls.Put(keys[0], leaves.0));
    }
  }

  lemma {:induction false} CollectUrlsContents(web: Web, keys: seq<string>, start: Date, end: Date,
                                               urls: Dict<seq<Option<string>>>)
    ensures var r := CollectUrls(web, keys, start, end, urls);
      && (r.Ok? ==> r.value.vals.Keys == urls.vals.Keys + set k | k in keys)
      && (r.Ok? ==> forall k :: k in keys ==>
            ParseSitemapResult(web, k, start, end).Ok? && r.value.vals[k] == ParseSitemapResult(web, k, start, end).value.0)
      && (r.Ok? ==> forall k :: k in urls.vals && k !in keys ==> r.value.vals[k] == urls.vals[k])
    decreases |keys|
  {
    if keys != [] {
      var k, rest := keys[0], keys[1..];
      assert forall j :: j in keys <==> j == k || j in rest;
      match ParseSitemapResult(web, k, start, end)
      case Err(_) =>
      case Ok(leaves) =>
        CollectUrlsContents(web, rest, start, end, urls.Put(k, leaves.0));
    }
  }

  lemma {:induction false} CollectUrlsOrder(web: Web, keys: seq<string>, start: Date, end: Date,
                                            urls: Dict<seq<Option<string>>>)
    requires urls.Valid() && Distinct(keys) && forall k :: k in keys ==> k !in urls.vals
    ensures var r := CollectUrls(web, keys, start, end, urls);
      r.Ok? ==> r.value.Valid() && r.value.keys == urls.keys + keys
    decreases |keys|
  {
    if keys == [] {
      assert urls.keys + keys == urls.keys;
    } else {
      var k, rest := keys[0], keys[1..];
      match ParseSitemapResult(web, k, start, end)
      case Err(_) =>
      case Ok(leaves) =>
        var urls' := urls.Put(k, leaves.0);
        assert k !in urls.keys;
        assert forall j :: j in rest ==> j != k by {
          forall j | j in rest ensures j != k {
            var i :| 0 <= i < |rest| && rest[i] == j;
            assert keys[i + 1] == j;
          }
        }
        CollectUrlsOrder(web, rest, start, end, urls');
        assert urls'.keys + rest == urls.keys + keys;
    }
  }

  lemma {:induction false} CollectUrlsFirstError(web: Web, keys: seq<string>, start: Date, end: Date,
                                                 urls: Dict<seq<Option<string>>>)
    ensures var r := CollectUrls(web, keys, start, end, urls);
      r.Err? ==> exists i :: 0 <= i < |keys| && ParseSitemapResult(web, keys[i], start, end) == Err(r.error)
                             && forall j :: 0 <= j < i ==> ParseSitemapResult(web, keys[j], start, end).Ok?
    decreases |keys|
  {
    var r := CollectUrls(web, keys, start, end, urls);
    if keys != [] {
      var k, rest := keys[0], keys[1..];
      match ParseSitemapResult(web, k, start, end)
      case Err(err) =>
        assert ParseSitemapResult(web, keys[0], start, end) == Err(r.error);
      case Ok(leaves) =>
        CollectUrlsFirstError(web, rest, start, end, urls.Put(k, leaves.0));
        if r.Err? {
          var i :| 0 <= i < |rest| && ParseSitemapResult(web, rest[i], start, end) == Err(r.error)
                   && forall j :: 0 <= j < i ==> ParseSitemapResult(web, rest[j], start, end).Ok?;
          assert keys[i + 1] == rest[i];
          forall j | 0 < j < i + 1 ensures ParseSitemapResult(web, keys[j], start, end).Ok? {
            assert keys[j] == rest[j - 1];
          }
        }
    }
  }

  /**
   * A completed run: the second dictionary has exactly the first one's keys, in the same order;
   * the recorded sitemaps are those accepted at every level of the walk, all on the index's
   * domain, each with the `<lastmod>` date of an entry that names it; and each sitemap's list is
   * what `parse_sitemap` keeps for it, never longer than its `<url>` count.
   */
  lemma MainFacts(web: Web, indexUrl: string, start: Date, end: Date, depth: nat)
    requires MainResult(web, indexUrl, start, end, depth).Ok?
    ensures var found := MainResult(web, indexUrl, start, end, depth).value;
            var domain := Netloc(indexUrl);
      && web(indexUrl).Fetched? && web(indexUrl).content != EmptyText
      && found.sitemaps.Valid() && found.urls.Valid()
      && found.urls.keys == found.sitemaps.keys
      && found.urls.vals.Keys == found.sitemaps.vals.Keys
      && found.sitemaps.vals.Keys == Reached(web, web(indexUrl).content, depth, start, end, domain)
      && InScope(found.sitemaps, start, end, domain)
      && DatedFrom(found.sitemaps, ReachedDated(web, web(indexUrl).content, depth, start, end, domain))
      && (forall k :: k in found.urls.vals ==>
            && ParseSitemapResult(web, k, start, end).Ok?
            && found.urls.vals[k] == ParseSitemapResult(web, k, start, end).value.0
            && |found.urls.vals[k]| <= ParseSitemapResult(web, k, start, end).value.1)
  {
    var found := MainResult(web, indexUrl, start, end, depth).value;
    var content := web(indexUrl).content;
    var sitemaps, keys := found.sitemaps, found.sitemaps.keys;
    ExtractLinksFacts(web, content, depth, start, end, Netloc(indexUrl));
    assert CollectUrls(web, keys, start, end, Empty()) == Ok(found.urls);
    CollectUrlsContents(web, keys, start, end, Empty());
    assert found.urls.vals.Keys == sitemaps.vals.Keys by {
      assert forall k :: k in sitemaps.vals <==> k in keys;
    }
    CollectUrlsOrder(web, keys, start, end, Empty());
    assert Empty<seq<Option<string>>>().keys + keys == keys;
    forall k | k in found.urls.vals
      ensures |found.urls.vals[k]| <= ParseSitemapResult(web, k, start, end).value.1
    {
      ParseSitemapFacts(web, k, start, end);
    }
  }

  /** The run raises only the exceptions of the index fetch, the walk and `parse_sitemap`. */
  lemma MainErrors(web: Web, indexUrl: string, start: Date, end: Date, depth: nat)
    ensures var r := MainResult(web, indexUrl, start, end, depth);
      && (web(indexUrl).Unreachable? ==> r == Err(FetchFailed(indexUrl, web(indexUrl).cause)))
      && (web(indexUrl) == Fetched(EmptyText) ==> r == Err(EmptyIndex))
      && (web(indexUrl) == Fetched(Unparseable) ==> r == Err(InvalidXml))
      && (r.Err? ==> r.error != RecursionLimit)
  {
    var r := MainResult(web, indexUrl, start, end, depth);
    if web(indexUrl).Fetched? && web(indexUrl).content != EmptyText {
      var content := web(indexUrl).content;
      var domain := Netloc(indexUrl);
      ExtractLinksFacts(web, content, depth, start, end, domain);
      match ExtractLinks(web, content, depth, start, end, domain)
      case Err(_) =>
      case Ok(sitemaps) =>
        CollectUrlsFirstError(web, sitemaps.keys, start, end, Empty());
        if r.Err? {
          var i :| 0 <= i < |sitemaps.keys|
                   && ParseSitemapResult(web, sitemaps.keys[i], start, end) == Err(r.error);
          ParseSitemapFacts(web, sitemaps.keys[i], start, end);
        }
    }
  }

  /**
   * A nested sitemap whose fetch fails is swallowed by the walk but stays recorded, so `main`
   * fetches it again, outside any handler, and the whole run raises.
   */
  lemma UnreachableRecordedSitemapFailsRun(web: Web, indexUrl: string, start: Date, end: Date, depth: nat,
                                           sitemaps: Dict<Date>, k: string)
    requires web(indexUrl).Fetched? && web(indexUrl).content != EmptyText
    requires ExtractLinks(web, web(indexUrl).content, depth, start, end, Netloc(indexUrl)) == Ok(sitemaps)
    requires k in sitemaps.vals && web(k).Unreachable?
    ensures MainResult(web, indexUrl, start, end, depth).Err?
  {
    ExtractLinksFacts(web, web(indexUrl).content, depth, start, end, Netloc(indexUrl));
    var i :| 0 <= i < |sitemaps.keys| && sitemaps.keys[i] == k;
    CollectUrlsCompletes(web, sitemaps.keys, start, end, Empty());
  }
}
