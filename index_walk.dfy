/**
 * The walk over a sitemap index: `extract_sitemap_links` and `add_nested_sitemaps`.
 *
 * Each `<sitemap>` entry with a `<loc>` on the base domain and an in-window `<lastmod>` is written
 * into the dictionary, and the document it names is then fetched and walked in turn; what that
 * nested walk finds is merged in with `dict.update`. There is no record of visited sitemaps: a
 * cycle of indexes is followed until Python's recursion limit, modelled by `depth`. The
 * RecursionError raised there is a RuntimeError, so the innermost `add_nested_sitemaps` swallows
 * it exactly as it swallows a failed fetch.
 *
 * `content_filter` is passed along by the source but never read; the methods take it and the
 * functions that specify them do not.
 */
module IndexWalk {
  import opened Common
  import opened Dates
  import opened Urls
  import opened Dicts
  import opened Documents
  import opened Lastmod

  /** `urlparse(loc.text).netloc == base_domain`; an empty `<loc/>` gives bytes, never equal. */
  predicate OnDomain(text: Option<string>, domain: string) {
    text.Some? && Netloc(text.value) == domain
  }

  /** `extract_sitemap_links` on fetched content: the sitemaps it collects, or the exception. */
  function ExtractLinks(web: Web, content: Content, depth: nat, start: Date, end: Date, domain: string)
    : Result<Dict<Date>, Error>
    decreases depth, 2
  {
    match content
    case Parsed(doc) => ScanIndex(web, doc.sitemaps, depth, start, end, domain, Empty())
    case _ => Err(InvalidXml)
  }

  /** The loop of `extract_sitemap_links` over the remaining `<sitemap>` entries. */
  function ScanIndex(web: Web, entries: seq<Entry>, depth: nat, start: Date, end: Date, domain: string,
                     links: Dict<Date>): Result<Dict<Date>, Error>
    decreases depth, 1, |entries|
  {
    if entries == [] then Ok(links)
    else
      var e := entries[0];
      if e.loc.None? || !OnDomain(e.loc.value.text, domain) then
        ScanIndex(web, entries[1..], depth, start, end, domain, links)
      else
        match ParseLastmodDate(e.lastmod, start, end)
        case Err(err) => Err(err)
        case Ok(None) => ScanIndex(web, entries[1..], depth, start, end, domain, links)
        case Ok(Some(date)) =>
          var loc := e.loc.value.text.value;
          match AddNested(web, links.Put(loc, date), loc, depth, start, end, domain)
          case Err(err) => Err(err)
          case Ok(links') => ScanIndex(web, entries[1..], depth, start, end, domain, links')
  }

  /**
   * `add_nested_sitemaps`: fetch `loc`, walk it unless the body is empty, and merge the result
   * into `links`; any RuntimeError raised on the way (a failed fetch, the recursion limit) leaves
   * `links` as it was, any other exception escapes.
   */
  function AddNested(web: Web, links: Dict<Date>, loc: string, depth: nat, start: Date, end: Date,
                     domain: string): Result<Dict<Date>, Error>
    decreases depth, 0
  {
    var attempt: Result<Option<Dict<Date>>, Error> :=
      if depth == 0 then Err(RecursionLimit)
      else
        match FetchXml(web, loc)
        case Err(err) => Err(err)
        case Ok(EmptyText) => Ok(None)
        case Ok(content) =>
          match ExtractLinks(web, content, depth - 1, start, end, domain)
          case Err(err) => Err(err)
          case Ok(nested) => Ok(Some(nested));
    match attempt
    case Err(err) => if Kind(err) == RuntimeError then Ok(links) else Err(err)
    case Ok(None) => Ok(links)
    case Ok(Some(nested)) => Ok(links.Update(nested))
  }

  /** The dictionary `sitemap_links` that one call of `extract_sitemap_links` fills in place. */
  class LinkTable {
    var keys: seq<string>
    var dates: map<string, Date>

    function Snapshot(): Dict<Date>
      reads this
    {
      Dict(keys, dates)
    }

    constructor ()
      ensures Snapshot() == Empty()
    {
      keys, dates := [], map[];
    }

    /** `sitemap_links[loc] = date`. */
    method Put(loc: string, date: Date)
      modifies this
      ensures Snapshot() == old(Snapshot()).Put(loc, date)
    {
      if loc !in keys {
        keys := keys + [loc];
      }
      dates := dates[loc := date];
    }

    /** `sitemap_links.update(other)`: assigns the other's entries in its key order. */
    method Update(other: Dict<Date>)
      modifies this
      ensures Snapshot() == old(Snapshot()).Update(other)
    {
      var i := 0;
      while i < |other.keys|
        invariant 0 <= i <= |other.keys|
        invariant UpdateFrom(Snapshot(), other.keys[i..], other.vals) == old(Snapshot()).Update(other)
      {
        assert other.keys[i..][1..] == other.keys[i + 1..];
        var k := other.keys[i];
        if k in other.vals {
          Put(k, other.vals[k]);
        }
        i := i + 1;
      }
    }
  }

  /**
   * `extract_sitemap_links(xml_content, start_date, end_date, content_filter, base_domain)`.
   * `fetchLog` lists the URLs fetched by the nested calls, in the order they are requested.
   */
  method ExtractSitemapLinks(web: Web, content: Content, depth: nat, start: Date, end: Date,
                             contentFilter: Option<string>, domain: string)
    returns (r: Result<Dict<Date>, Error>, ghost fetchLog: seq<string>)
    ensures r == ExtractLinks(web, content, depth, start, end, domain)
    ensures r.Ok? ==> fetchLog == FetchTrace(web, content, depth, start, end, domain)
    decreases depth, 2
  {
    fetchLog := [];
    if !content.Parsed? {
      return Err(InvalidXml), fetchLog;
    }
    var entries := content.doc.sitemaps;
    var links := new LinkTable();
    var i := 0;
    assert entries[i..] == entries;
    while i < |entries|
      invariant 0 <= i <= |entries|
      invariant ScanIndex(web, entries[i..], depth, start, end, domain, links.Snapshot())
                == ExtractLinks(web, content, depth, start, end, domain)
      invariant fetchLog + TraceFrom(web, entries[i..], depth, start, end, domain)
                == TraceFrom(web, entries, depth, start, end, domain)
    {
      assert entries[i..][1..] == entries[i + 1..];
      ghost var here := entries[i..];
      var e := entries[i];
      i := i + 1;
      assert here[0] == e && here[1..] == entries[i..];
      if e.loc.None? || !OnDomain(e.loc.value.text, domain) {
        TraceSkipped(web, here, depth, start, end, domain);
        continue;
      }
      var lastmodDate := ParseLastmodDate(e.lastmod, start, end);
      if lastmodDate.Err? {
        return Err(lastmodDate.error), fetchLog;
      }
      if lastmodDate.value.None? {
        assert !Accepts(e, start, end, domain);
        TraceSkipped(web, here, depth, start, end, domain);
        continue;
      }
      var loc := e.loc.value.text.value;
      assert Accepts(e, start, end, domain);
      links.Put(loc, lastmodDate.value.value);
      var nested, nestedLog := AddNestedSitemaps(links, web, loc, depth, start, end, contentFilter, domain);
      if nested.Fail? {
        return Err(nested.error), fetchLog;
      }
      TraceAccepted(web, here, depth, start, end, domain, fetchLog, nestedLog);
      fetchLog := fetchLog + nestedLog;
    }
    assert entries[i..] == [];
    assert fetchLog + [] == fetchLog;
    return Ok(links.Snapshot()), fetchLog;
  }

  /** An entry the walk does not accept adds nothing to the fetch log. */
  lemma TraceSkipped(web: Web, entries: seq<Entry>, depth: nat, start: Date, end: Date, domain: string)
    requires entries != [] && !Accepts(entries[0], start, end, domain)
    ensures TraceFrom(web, entries, depth, start, end, domain) == TraceFrom(web, entries[1..], depth, start, end, domain)
  {
    assert [] + TraceFrom(web, entries[1..], depth, start, end, domain) == TraceFrom(web, entries[1..], depth, start, end, domain);
  }

  /** An accepted entry's fetches come after those logged so far and before those of its siblings. */
  lemma TraceAccepted(web: Web, entries: seq<Entry>, depth: nat, start: Date, end: Date, domain: string,
                      done: seq<string>, step: seq<string>)
    requires entries != [] && Accepts(entries[0], start, end, domain)
    requires step == NestedTrace(web, entries[0].loc.value.text.value, depth, start, end, domain)
    ensures done + TraceFrom(web, entries, depth, start, end, domain)
            == (done + step) + TraceFrom(web, entries[1..], depth, start, end, domain)
  {
    assert TraceFrom(web, entries, depth, start, end, domain) == step + TraceFrom(web, entries[1..], depth, start, end, domain);
  }

  /** `add_nested_sitemaps(sitemap_links, loc, ...)`, which updates `sitemap_links` in place. */
  method AddNestedSitemaps(links: LinkTable, web: Web, loc: string, depth: nat, start: Date, end: Date,
                           contentFilter: Option<string>, domain: string)
    returns (outcome: Outcome<Error>, ghost fetchLog: seq<string>)
    modifies links
    ensures match AddNested(web, old(links.Snapshot()), loc, depth, start, end, domain)
            case Ok(d) => outcome == Pass && links.Snapshot() == d
            case Err(err) => outcome == Fail(err) && links.Snapshot() == old(links.Snapshot())
    ensures outcome == Pass ==> fetchLog == NestedTrace(web, loc, depth, start, end, domain)
    decreases depth, 1
  {
    ghost var before := links.Snapshot();
    fetchLog := [];
    var attempt: Result<Option<Dict<Date>>, Error>;
    if depth == 0 {
      attempt := Err(RecursionLimit);
    } else {
      fetchLog := [loc];
      var fetched := FetchXml(web, loc);
      if fetched.Err? {
        attempt := Err(fetched.error);
      } else if fetched.value == EmptyText {
        attempt := Ok(None);
        assert fetchLog == [loc] + [];
      } else {
        var nested, nestedLog := ExtractSitemapLinks(web, fetched.value, depth - 1, start, end, contentFilter, domain);
        ExtractLinksFacts(web, fetched.value, depth - 1, start, end, domain);
        attempt := if nested.Ok? then Ok(Some(nested.value)) else Err(nested.error);
        fetchLog := fetchLog + nestedLog;
      }
    }
    match attempt
    case Err(err) =>
      outcome := if Kind(err) == RuntimeError then Pass else Fail(err);
    case Ok(None) =>
      outcome := Pass;
    case Ok(Some(nested)) =>
      assert AddNested(web, before, loc, depth, start, end, domain) == Ok(before.Update(nested));
      links.Update(nested);
      outcome := Pass;
  }

  // ---------------------------------------------------------------------------------------------
  // What the walk collects, stated without the dictionary

  /** A `<sitemap>` entry the walk records: a `<loc>` on the domain and a `<lastmod>` date in the window. */
  ghost predicate Accepts(e: Entry, start: Date, end: Date, domain: string) {
    && e.loc.Some? && OnDomain(e.loc.value.text, domain)
    && e.lastmod.Some? && e.lastmod.value.text.Some?
    && LastmodDate(e.lastmod.value.text.value).Some?
    && InWindow(LastmodDate(e.lastmod.value.text.value).value, start, end)
  }

  /** The sitemap URLs accepted in `content` and, within `depth` levels, in the documents they name. */
  ghost function Reached(web: Web, content: Content, depth: nat, start: Date, end: Date, domain: string): set<string>
    decreases depth, 1
  {
    if content.Parsed? then ReachedFrom(web, content.doc.sitemaps, depth, start, end, domain) else {}
  }

  ghost function ReachedFrom(web: Web, entries: seq<Entry>, depth: nat, start: Date, end: Date, domain: string)
    : set<string>
    decreases depth, 0, |entries|
  {
    if entries == [] then {}
    else
      var e := entries[0];
      (if Accepts(e, start, end, domain) then
         var loc := e.loc.value.text.value;
         {loc} + (if depth > 0 && web(loc).Fetched? then Reached(web, web(loc).content, depth - 1, start, end, domain) else {})
       else {})
      + ReachedFrom(web, entries[1..], depth, start, end, domain)
  }

  /** Every recorded sitemap is on the domain and carries its in-window `lastmod` date. */
  ghost predicate InScope(d: Dict<Date>, start: Date, end: Date, domain: string) {
    forall k :: k in d.vals ==> Netloc(k) == domain && InWindow(d.vals[k], start, end)
  }

  /**
   * The `(loc, date)` pairs the walk writes: each accepted entry's `<loc>` with its `<lastmod>`
   * date, in `content` and, within `depth` levels, in the documents those entries name.
   */
  ghost function ReachedDated(web: Web, content: Content, depth: nat, start: Date, end: Date, domain: string)
    : set<(string, Date)>
    decreases depth, 1
  {
    if content.Parsed? then ReachedDatedFrom(web, content.doc.sitemaps, depth, start, end, domain) else {}
  }

  ghost function ReachedDatedFrom(web: Web, entries: seq<Entry>, depth: nat, start: Date, end: Date, domain: string)
    : set<(string, Date)>
    decreases depth, 0, |entries|
  {
    if entries == [] then {}
    else
      var e := entries[0];
      (if Accepts(e, start, end, domain) then
         var loc := e.loc.value.text.value;
         {(loc, LastmodDate(e.lastmod.value.text.value).value)}
         + (if depth > 0 && web(loc).Fetched? then ReachedDated(web, web(loc).content, depth - 1, start, end, domain) else {})
       else {})
      + ReachedDatedFrom(web, entries[1..], depth, start, end, domain)
  }

  /** Every recorded date is one written for that key. */
  ghost predicate DatedFrom(d: Dict<Date>, pairs: set<(string, Date)>) {
    forall k :: k in d.vals ==> (k, d.vals[k]) in pairs
  }

  /** The sitemap URLs named in a set of `(loc, date)` pairs. */
  ghost function Locs(pairs: set<(string, Date)>): set<string> {
    set p | p in pairs :: p.0
  }

  /** The two accounts of the walk agree: the URLs reached are those of the dated pairs reached. */
  lemma {:induction false} ReachedIsLocsOfDated(web: Web, content: Content, depth: nat, start: Date, end: Date,
                                                domain: string)
    ensures Reached(web, content, depth, start, end, domain) == Locs(ReachedDated(web, content, depth, start, end, domain))
    decreases depth, 1
  {
    if content.Parsed? {
      ReachedFromIsLocsOfDated(web, content.doc.sitemaps, depth, start, end, domain);
    }
  }

  lemma {:induction false} ReachedFromIsLocsOfDated(web: Web, entries: seq<Entry>, depth: nat, start: Date, end: Date,
                                                    domain: string)
    ensures ReachedFrom(web, entries, depth, start, end, domain)
            == Locs(ReachedDatedFrom(web, entries, depth, start, end, domain))
    decreases depth, 0, |entries|, 1
  {
    if entries == [] {
    } else if Accepts(entries[0], start, end, domain) {
      AcceptedIsLocsOfDated(web, entries, depth, start, end, domain);
    } else {
      SkippedEntry(web, entries, depth, start, end, domain, Empty());
      ReachedFromIsLocsOfDated(web, entries[1..], depth, start, end, domain);
    }
  }

  lemma {:induction false} AcceptedIsLocsOfDated(web: Web, entries: seq<Entry>, depth: nat, start: Date, end: Date,
                                                 domain: string)
    requires entries != [] && Accepts(entries[0], start, end, domain)
    ensures ReachedFrom(web, entries, depth, start, end, domain)
            == Locs(ReachedDatedFrom(web, entries, depth, start, end, domain))
    decreases depth, 0, |entries|, 0
  {
    var e := entries[0];
    var loc, date := e.loc.value.text.value, LastmodDate(e.lastmod.value.text.value).value;
    var deeper := depth > 0 && web(loc).Fetched?;
    var below: set<(string, Date)>, belowLocs: set<string> := {}, {};
    if deeper {
      below, belowLocs := ReachedDated(web, web(loc).content, depth - 1, start, end, domain),
                          Reached(web, web(loc).content, depth - 1, start, end, domain);
      ReachedIsLocsOfDated(web, web(loc).content, depth - 1, start, end, domain);
      assert Locs(below) == belowLocs;
    } else {
      LocsEmpty(below);
      assert Locs(below) == belowLocs;
    }
    ReachedFromIsLocsOfDated(web, entries[1..], depth, start, end, domain);
    AcceptedReach(web, entries, depth, start, end, domain);
    LocsSplit(ReachedFrom(web, entries, depth, start, end, domain), ReachedDatedFrom(web, entries, depth, start, end, domain),
              loc, date, below, belowLocs, ReachedDatedFrom(web, entries[1..], depth, start, end, domain),
              ReachedFrom(web, entries[1..], depth, start, end, domain));
  }

  /** What an accepted first entry contributes to both accounts of the walk. */
  lemma AcceptedReach(web: Web, entries: seq<Entry>, depth: nat, start: Date, end: Date, domain: string)
    requires entries != [] && Accepts(entries[0], start, end, domain)
    ensures var e := entries[0];
            var loc, date := e.loc.value.text.value, LastmodDate(e.lastmod.value.text.value).value;
            var deeper := depth > 0 && web(loc).Fetched?;
      && ReachedFrom(web, entries, depth, start, end, domain)
         == {loc} + (if deeper then Reached(web, web(loc).content, depth - 1, start, end, domain) else {})
            + ReachedFrom(web, entries[1..], depth, start, end, domain)
      && ReachedDatedFrom(web, entries, depth, start, end, domain)
         == {(loc, date)} + (if deeper then ReachedDated(web, web(loc).content, depth - 1, start, end, domain) else {})
            + ReachedDatedFrom(web, entries[1..], depth, start, end, domain)
  {
  }

  lemma LocsSplit(urls: set<string>, pairs: set<(string, Date)>, loc: string, date: Date,
                  below: set<(string, Date)>, belowLocs: set<string>, later: set<(string, Date)>, laterLocs: set<string>)
    requires urls == {loc} + belowLocs + laterLocs && pairs == {(loc, date)} + below + later
    requires Locs(below) == belowLocs && Locs(later) == laterLocs
    ensures urls == Locs(pairs)
  {
    LocsUnion({(loc, date)} + below, later);
    LocsUnion({(loc, date)}, below);
    assert Locs({(loc, date)}) == {loc};
  }

  lemma LocsEmpty(pairs: set<(string, Date)>)
    requires pairs == {}
    ensures Locs(pairs) == {}
  {
  }

  lemma LocsUnion(a: set<(string, Date)>, b: set<(string, Date)>)
    ensures Locs(a + b) == Locs(a) + Locs(b)
  {
  }

  /**
   * The walk raises only ValueError (malformed XML) or the AttributeError of an empty `<lastmod/>`,
   * never a RuntimeError; when it completes, its keys are exactly the sitemaps accepted at every
   * level, each recorded once, on the domain and with an in-window date, and each key's value is
   * the `<lastmod>` date of an accepted entry with that `<loc>`.
   */
  lemma {:induction false} ExtractLinksFacts(web: Web, content: Content, depth: nat, start: Date, end: Date,
                                             domain: string)
    ensures var r := ExtractLinks(web, content, depth, start, end, domain);
      && (r.Err? ==> r.error == InvalidXml || r.error == MissingText)
      && (r.Ok? ==> && r.value.Valid()
                    && r.value.vals.Keys == Reached(web, content, depth, start, end, domain)
                    && InScope(r.value, start, end, domain)
                    && DatedFrom(r.value, ReachedDated(web, content, depth, start, end, domain)))
    decreases depth, 3
  {
    if content.Parsed? {
      ScanIndexFacts(web, content.doc.sitemaps, depth, start, end, domain, Empty());
    }
    ExtractLinksDated(web, content, depth, start, end, domain);
  }

  lemma {:induction false} ScanIndexFacts(web: Web, entries: seq<Entry>, depth: nat, start: Date, end: Date,
                                          domain: string, links: Dict<Date>)
    requires links.Valid() && InScope(links, start, end, domain)
    ensures var r := ScanIndex(web, entries, depth, start, end, domain, links);
      && (r.Err? ==> r.error == InvalidXml || r.error == MissingText)
      && (r.Ok? ==> && r.value.Valid()
                    && r.value.vals.Keys == links.vals.Keys + ReachedFrom(web, entries, depth, start, end, domain)
                    && InScope(r.value, start, end, domain))
    decreases depth, 1, |entries|, 1
  {
    if entries != [] {
      var e, rest := entries[0], entries[1..];
      if !Accepts(e, start, end, domain) {
        SkippedEntry(web, entries, depth, start, end, domain, links);
        ScanIndexFacts(web, rest, depth, start, end, domain, links);
      } else {
        ScanAcceptedFacts(web, entries, depth, start, end, domain, links);
      }
    }
  }

  /** `ScanIndexFacts` for a loop whose first entry is accepted. */
  lemma {:induction false} ScanAcceptedFacts(web: Web, entries: seq<Entry>, depth: nat, start: Date, end: Date,
                                             domain: string, links: Dict<Date>)
    requires entries != [] && Accepts(entries[0], start, end, domain)
    requires links.Valid() && InScope(links, start, end, domain)
    ensures var r := ScanIndex(web, entries, depth, start, end, domain, links);
      && (r.Err? ==> r.error == InvalidXml || r.error == MissingText)
      && (r.Ok? ==> && r.value.Valid()
                    && r.value.vals.Keys == links.vals.Keys + ReachedFrom(web, entries, depth, start, end, domain)
                    && InScope(r.value, start, end, domain))
    decreases depth, 1, |entries|, 0
  {
    var e, rest := entries[0], entries[1..];
    var loc, date := e.loc.value.text.value, LastmodDate(e.lastmod.value.text.value).value;
    var links1 := links.Put(loc, date);
    AcceptedEntry(web, entries, depth, start, end, domain, links);
    AddNestedFacts(web, links1, loc, depth, start, end, domain);
    var nested := AddNested(web, links1, loc, depth, start, end, domain);
    if nested.Ok? {
      var links2 := nested.value;
      ScanIndexFacts(web, rest, depth, start, end, domain, links2);
      var r := ScanIndex(web, rest, depth, start, end, domain, links2);
      assert ScanIndex(web, entries, depth, start, end, domain, links) == r;
      if r.Ok? {
        var below := if depth > 0 && web(loc).Fetched? then Reached(web, web(loc).content, depth - 1, start, end, domain) else {};
        var after := ReachedFrom(web, rest, depth, start, end, domain);
        UnionChain(links.vals.Keys, links2.vals.Keys, r.value.vals.Keys, ReachedFrom(web, entries, depth, start, end, domain),
                   loc, below, after);
      }
    }
  }

  lemma UnionChain(before: set<string>, middle: set<string>, after: set<string>, reached: set<string>,
                   loc: string, nested: set<string>, later: set<string>)
    requires middle == before + {loc} + nested && after == middle + later
    requires reached == {loc} + nested + later
    ensures after == before + reached
  {
  }

  /** An entry the walk does not accept either raises or is passed over. */
  lemma SkippedEntry(web: Web, entries: seq<Entry>, depth: nat, start: Date, end: Date, domain: string,
                     links: Dict<Date>)
    requires entries != [] && !Accepts(entries[0], start, end, domain)
    ensures var r := ScanIndex(web, entries, depth, start, end, domain, links);
      r == Err(MissingText) || r == ScanIndex(web, entries[1..], depth, start, end, domain, links)
    ensures ReachedFrom(web, entries, depth, start, end, domain) == ReachedFrom(web, entries[1..], depth, start, end, domain)
    ensures ReachedDatedFrom(web, entries, depth, start, end, domain)
            == ReachedDatedFrom(web, entries[1..], depth, start, end, domain)
  {
  }

  /** An accepted entry is recorded, then walked into, then the loop goes on. */
  lemma AcceptedEntry(web: Web, entries: seq<Entry>, depth: nat, start: Date, end: Date, domain: string,
                      links: Dict<Date>)
    requires entries != [] && Accepts(entries[0], start, end, domain)
    requires links.Valid() && InScope(links, start, end, domain)
    ensures var e := entries[0];
            var loc, date := e.loc.value.text.value, LastmodDate(e.lastmod.value.text.value).value;
            var links1 := links.Put(loc, date);
      && links1.Valid() && InScope(links1, start, end, domain)
      && links1.vals.Keys == links.vals.Keys + {loc}
      && ScanIndex(web, entries, depth, start, end, domain, links)
         == (match AddNested(web, links1, loc, depth, start, end, domain)
             case Err(err) => Err(err)
             case Ok(links2) => ScanIndex(web, entries[1..], depth, start, end, domain, links2))
      && ReachedFrom(web, entries, depth, start, end, domain)
         == {loc} + (if depth > 0 && web(loc).Fetched? then Reached(web, web(loc).content, depth - 1, start, end, domain) else {})
            + ReachedFrom(web, entries[1..], depth, start, end, domain)
  {
    var e := entries[0];
    var loc, date := e.loc.value.text.value, LastmodDate(e.lastmod.value.text.value).value;
    assert ParseLastmodDate(e.lastmod, start, end) == Ok(Some(date));
  }

  lemma {:induction false} AddNestedFacts(web: Web, links: Dict<Date>, loc: string, depth: nat, start: Date,
                                          end: Date, domain: string)
    requires links.Valid() && InScope(links, start, end, domain)
    ensures var r := AddNested(web, links, loc, depth, start, end, domain);
      && (r.Err? ==> r.error == InvalidXml || r.error == MissingText)
      && (r.Ok? ==> && r.value.Valid()
                    && r.value.vals.Keys == links.vals.Keys +
                         (if depth > 0 && web(loc).Fetched? then Reached(web, web(loc).content, depth - 1, start, end, domain) else {})
                    && InScope(r.value, start, end, domain))
    decreases depth, 0
  {
    if depth > 0 && web(loc).Fetched? && web(loc).content != EmptyText {
      var content := web(loc).content;
      ExtractLinksFacts(web, content, depth - 1, start, end, domain);
      match ExtractLinks(web, content, depth - 1, start, end, domain)
      case Err(_) =>
      case Ok(nested) =>
        UpdateInScope(links, nested, start, end, domain);
    }
  }

  /** Merging two in-scope dictionaries gives an in-scope dictionary holding both key sets. */
  lemma UpdateInScope(links: Dict<Date>, nested: Dict<Date>, start: Date, end: Date, domain: string)
    requires links.Valid() && InScope(links, start, end, domain)
    requires nested.Valid() && InScope(nested, start, end, domain)
    ensures var r := links.Update(nested);
      r.Valid() && r.vals.Keys == links.vals.Keys + nested.vals.Keys && InScope(r, start, end, domain)
  {
    UpdateFacts(links, nested);
  }

  // ---------------------------------------------------------------------------------------------
  // The recorded dates

  lemma {:induction false} ExtractLinksDated(web: Web, content: Content, depth: nat, start: Date, end: Date,
                                             domain: string)
    ensures var r := ExtractLinks(web, content, depth, start, end, domain);
      r.Ok? ==> DatedFrom(r.value, ReachedDated(web, content, depth, start, end, domain))
    decreases depth, 2
  {
    if content.Parsed? {
      var entries := content.doc.sitemaps;
      ScanIndexDated(web, entries, depth, start, end, domain, Empty(), {});
      assert {} + ReachedDatedFrom(web, entries, depth, start, end, domain)
             == ReachedDated(web, content, depth, start, end, domain);
    }
  }

  /** Starting from a dictionary whose dates are among `known`, the loop writes only reached pairs. */
  lemma {:induction false} ScanIndexDated(web: Web, entries: seq<Entry>, depth: nat, start: Date, end: Date,
                                          domain: string, links: Dict<Date>, known: set<(string, Date)>)
    requires DatedFrom(links, known)
    ensures var r := ScanIndex(web, entries, depth, start, end, domain, links);
      r.Ok? ==> DatedFrom(r.value, known + ReachedDatedFrom(web, entries, depth, start, end, domain))
    decreases depth, 1, |entries|, 1
  {
    if entries == [] {
      assert known + {} == known;
    } else if !Accepts(entries[0], start, end, domain) {
      SkippedEntry(web, entries, depth, start, end, domain, links);
      ScanIndexDated(web, entries[1..], depth, start, end, domain, links, known);
    } else {
      ScanAcceptedDated(web, entries, depth, start, end, domain, links, known);
    }
  }

  lemma {:induction false} ScanAcceptedDated(web: Web, entries: seq<Entry>, depth: nat, start: Date, end: Date,
                                             domain: string, links: Dict<Date>, known: set<(string, Date)>)
    requires entries != [] && Accepts(entries[0], start, end, domain)
    requires DatedFrom(links, known)
    ensures var r := ScanIndex(web, entries, depth, start, end, domain, links);
      r.Ok? ==> DatedFrom(r.value, known + ReachedDatedFrom(web, entries, depth, start, end, domain))
    decreases depth, 1, |entries|, 0
  {
    var e, rest := entries[0], entries[1..];
    var loc, date := e.loc.value.text.value, LastmodDate(e.lastmod.value.text.value).value;
    var links1 := links.Put(loc, date);
    var known1 := known + {(loc, date)};
    assert ParseLastmodDate(e.lastmod, start, end) == Ok(Some(date));
    assert ScanIndex(web, entries, depth, start, end, domain, links)
           == (match AddNested(web, links1, loc, depth, start, end, domain)
               case Err(err) => Err(err)
               case Ok(links2) => ScanIndex(web, rest, depth, start, end, domain, links2));
    PutDated(links, known, loc, date);
    AddNestedDated(web, links1, loc, depth, start, end, domain, known1);
    var nested := AddNested(web, links1, loc, depth, start, end, domain);
    if nested.Ok? {
      var below := if depth > 0 && web(loc).Fetched? then ReachedDated(web, web(loc).content, depth - 1, start, end, domain) else {};
      var later := ReachedDatedFrom(web, rest, depth, start, end, domain);
      ScanIndexDated(web, rest, depth, start, end, domain, nested.value, known1 + below);
      assert ReachedDatedFrom(web, entries, depth, start, end, domain) == {(loc, date)} + below + later;
      Regroup(known, (loc, date), below, later);
    }
  }

  lemma Regroup<T>(known: set<T>, x: T, below: set<T>, later: set<T>)
    ensures known + {x} + below + later == known + ({x} + below + later)
  {
  }

  lemma PutDated(links: Dict<Date>, known: set<(string, Date)>, loc: string, date: Date)
    requires DatedFrom(links, known)
    ensures DatedFrom(links.Put(loc, date), known + {(loc, date)})
  {
  }

  /** A nested walk writes only pairs reached from the nested document. */
  lemma {:induction false} AddNestedDated(web: Web, links: Dict<Date>, loc: string, depth: nat, start: Date,
                                          end: Date, domain: string, known: set<(string, Date)>)
    requires DatedFrom(links, known)
    ensures var r := AddNested(web, links, loc, depth, start, end, domain);
      r.Ok? ==> DatedFrom(r.value, known +
                  (if depth > 0 && web(loc).Fetched? then ReachedDated(web, web(loc).content, depth - 1, start, end, domain) else {}))
    decreases depth, 0
  {
    var below := if depth > 0 && web(loc).Fetched? then ReachedDated(web, web(loc).content, depth - 1, start, end, domain) else {};
    WidenDated(links, known, below);
    if depth > 0 && web(loc).Fetched? && web(loc).content != EmptyText {
      var content := web(loc).content;
      ExtractLinksFacts(web, content, depth - 1, start, end, domain);
      match ExtractLinks(web, content, depth - 1, start, end, domain)
      case Err(_) =>
      case Ok(nested) =>
        UpdateDated(links, nested, known, below);
    }
  }

  lemma WidenDated(d: Dict<Date>, known: set<(string, Date)>, more: set<(string, Date)>)
    requires DatedFrom(d, known)
    ensures DatedFrom(d, known + more)
  {
  }

  lemma UpdateDated(links: Dict<Date>, nested: Dict<Date>, known: set<(string, Date)>, below: set<(string, Date)>)
    requires nested.Valid() && DatedFrom(links, known) && DatedFrom(nested, below)
    ensures DatedFrom(links.Update(nested), known + below)
  {
    UpdateFacts(links, nested);
  }

  /** An index entry without `<lastmod>` is skipped: nothing is recorded and nothing is fetched for it. */
  lemma UndatedEntrySkipped(web: Web, e: Entry, rest: seq<Entry>, depth: nat, start: Date, end: Date,
                            domain: string, links: Dict<Date>)
    requires e.lastmod.None?
    ensures ScanIndex(web, [e] + rest, depth, start, end, domain, links)
            == ScanIndex(web, rest, depth, start, end, domain, links)
    ensures TraceFrom(web, [e] + rest, depth, start, end, domain) == TraceFrom(web, rest, depth, start, end, domain)
  {
    assert ([e] + rest)[1..] == rest;
    TraceSkipped(web, [e] + rest, depth, start, end, domain);
  }

  /**
   * An accepted entry is written before its document is fetched, so when that fetch fails the
   * entry stays recorded and the walk goes on with the next sibling.
   */
  lemma RecordedDespiteFailedFetch(web: Web, e: Entry, rest: seq<Entry>, depth: nat, start: Date, end: Date,
                                   domain: string, links: Dict<Date>)
    requires Accepts(e, start, end, domain)
    requires web(e.loc.value.text.value).Unreachable?
    ensures ScanIndex(web, [e] + rest, depth, start, end, domain, links)
            == ScanIndex(web, rest, depth, start, end, domain,
                         links.Put(e.loc.value.text.value, LastmodDate(e.lastmod.value.text.value).value))
  {
    var loc, date := e.loc.value.text.value, LastmodDate(e.lastmod.value.text.value).value;
    assert ([e] + rest)[0] == e && ([e] + rest)[1..] == rest;
    assert ParseLastmodDate(e.lastmod, start, end) == Ok(Some(date));
    assert AddNested(web, links.Put(loc, date), loc, depth, start, end, domain) == Ok(links.Put(loc, date));
  }

  /** A nested document that is not well-formed XML ends the whole walk with a ValueError. */
  lemma NestedInvalidXmlEscapes(web: Web, e: Entry, rest: seq<Entry>, depth: nat, start: Date, end: Date,
                                domain: string, links: Dict<Date>)
    requires Accepts(e, start, end, domain) && depth > 0
    requires web(e.loc.value.text.value) == Fetched(Unparseable)
    ensures ScanIndex(web, [e] + rest, depth, start, end, domain, links) == Err(InvalidXml)
  {
    var loc, date := e.loc.value.text.value, LastmodDate(e.lastmod.value.text.value).value;
    assert ([e] + rest)[0] == e;
    assert ParseLastmodDate(e.lastmod, start, end) == Ok(Some(date));
    assert ExtractLinks(web, Unparseable, depth - 1, start, end, domain) == Err(InvalidXml);
    assert AddNested(web, links.Put(loc, date), loc, depth, start, end, domain) == Err(InvalidXml);
  }

  // ---------------------------------------------------------------------------------------------
  // No record of visited sitemaps

  /** The URLs `add_nested_sitemaps` requests, in order, on a walk that raises nothing. */
  ghost function FetchTrace(web: Web, content: Content, depth: nat, start: Date, end: Date, domain: string)
    : seq<string>
    decreases depth, 1
  {
    if content.Parsed? then TraceFrom(web, content.doc.sitemaps, depth, start, end, domain) else []
  }

  ghost function TraceFrom(web: Web, entries: seq<Entry>, depth: nat, start: Date, end: Date, domain: string)
    : seq<string>
    decreases depth, 0, |entries|
  {
    if entries == [] then []
    else
      var e := entries[0];
      (if Accepts(e, start, end, domain) then NestedTrace(web, e.loc.value.text.value, depth, start, end, domain) else [])
      + TraceFrom(web, entries[1..], depth, start, end, domain)
  }

  /** The URLs one call of `add_nested_sitemaps` for `loc` requests: `loc`, then those of its document. */
  ghost function NestedTrace(web: Web, loc: string, depth: nat, start: Date, end: Date, domain: string): seq<string>
    decreases depth, 0, 0
  {
    if depth == 0 then []
    else [loc] + (if web(loc).Fetched? then FetchTrace(web, web(loc).content, depth - 1, start, end, domain) else [])
  }

  /** The index at `u` that lists only itself. */
  ghost predicate ListsOnlyItself(web: Web, u: string, lastmod: string) {
    web(u) == Fetched(Parsed(Doc([Entry(Some(Element(Some(u))), Some(Element(Some(lastmod))))], [])))
  }

  /**
   * An index that lists itself is fetched again at every level until the recursion limit: nothing
   * remembers that it was already walked.
   */
  lemma {:induction false} SelfListingIndexRefetched(web: Web, u: string, lastmod: string, depth: nat,
                                                     start: Date, end: Date)
    requires ListsOnlyItself(web, u, lastmod)
    requires LastmodDate(lastmod).Some? && InWindow(LastmodDate(lastmod).value, start, end)
    ensures FetchTrace(web, web(u).content, depth, start, end, Netloc(u)) == seq(depth, _ => u)
  {
    var domain := Netloc(u);
    var content := web(u).content;
    var entries := content.doc.sitemaps;
    assert Accepts(entries[0], start, end, domain);
    assert entries[1..] == [];
    assert TraceFrom(web, [], depth, start, end, domain) == [];
    if depth > 0 {
      SelfListingIndexRefetched(web, u, lastmod, depth - 1, start, end);
      var below := FetchTrace(web, content, depth - 1, start, end, domain);
      assert NestedTrace(web, u, depth, start, end, domain) == [u] + below;
      assert TraceFrom(web, entries, depth, start, end, domain) == [u] + below + [];
      assert seq(depth, _ => u) == [u] + seq(depth - 1, _ => u);
    } else {
      assert TraceFrom(web, entries, depth, start, end, domain) == [] + [];
    }
  }

  /** The walk over an index that lists itself still ends normally, with that one sitemap recorded. */
  lemma {:induction false} SelfListingIndexWalk(web: Web, u: string, lastmod: string, depth: nat,
                                                start: Date, end: Date)
    requires ListsOnlyItself(web, u, lastmod)
    requires LastmodDate(lastmod).Some? && InWindow(LastmodDate(lastmod).value, start, end)
    ensures ExtractLinks(web, web(u).content, depth, start, end, Netloc(u))
            == Ok(Dict([u], map[u := LastmodDate(lastmod).value]))
  {
    var domain, d := Netloc(u), LastmodDate(lastmod).value;
    var content := web(u).content;
    var e := content.doc.sitemaps[0];
    assert content.doc.sitemaps[1..] == [];
    assert ParseLastmodDate(e.lastmod, start, end) == Ok(Some(d));
    var one := Dict([u], map[u := d]);
    assert Empty().Put(u, d) == one;
    assert ScanIndex(web, [], depth, start, end, domain, one) == Ok(one);
    if depth > 0 {
      SelfListingIndexWalk(web, u, lastmod, depth - 1, start, end);
      assert FetchXml(web, u) == Ok(content);
      assert ExtractLinks(web, content, depth - 1, start, end, domain) == Ok(one);
      assert one.Update(one) == one by {
        assert UpdateFrom(one, [u], one.vals) == UpdateFrom(one.Put(u, d), [], one.vals);
      }
      assert AddNested(web, one, u, depth, start, end, domain) == Ok(one);
    } else {
      assert AddNested(web, one, u, depth, start, end, domain) == Ok(one);
    }
    assert ScanIndex(web, content.doc.sitemaps, depth, start, end, domain, Empty()) == Ok(one);
  }
}
