/**
 * `parse_sitemap`: the leaf URLs of one sitemap. It fetches the sitemap, counts every `<url>`
 * element, and keeps, in document order, the `<loc>` text of each `<url>` that has a `<loc>` and
 * either no `<lastmod>` or one whose date lies in the window. An unparseable `<lastmod>` drops
 * just that entry; an empty `<lastmod/>` raises AttributeError; an empty `<loc/>` contributes
 * its text None.
 */
module Urlset {
  import opened Common
  import opened Dates
  import opened Documents
  import opened Lastmod

  /** The leaf URLs and the `<url>` count, as `parse_sitemap` returns them. */
  type Leaves = (seq<Option<string>>, nat)

  /** The loop of `parse_sitemap` over the remaining `<url>` entries, appending to `urls`. */
  function KeepUrls(entries: seq<Entry>, start: Date, end: Date, urls: seq<Option<string>>)
    : Result<seq<Option<string>>, Error>
    decreases |entries|
  {
    if entries == [] then Ok(urls)
    else
      var e, rest := entries[0], entries[1..];
      if e.loc.None? then KeepUrls(rest, start, end, urls)
      else if e.lastmod.Some? then
        match e.lastmod.value.text
        case None => Err(MissingText)
        case Some(text) =>
          match LastmodDate(text)
          case None => KeepUrls(rest, start, end, urls)
          case Some(d) =>
            if Less(d, start) || Less(end, d) then KeepUrls(rest, start, end, urls)
            else KeepUrls(rest, start, end, urls + [e.loc.value.text])
      else KeepUrls(rest, start, end, urls + [e.loc.value.text])
  }

  /** `parse_sitemap(sitemap_url, start_date, end_date)`. */
  function ParseSitemapResult(web: Web, url: string, start: Date, end: Date): Result<Leaves, Error> {
    match FetchXml(web, url)
    case Err(err) => Err(err)
    case Ok(EmptyText) => Ok(([], 0))
    case Ok(Unparseable) => Err(UnparseableSitemap(url))
    case Ok(Parsed(doc)) =>
      match KeepUrls(doc.urls, start, end, [])
      case Err(err) => Err(err)
      case Ok(urls) => Ok((urls, |doc.urls|))
  }

  method ParseSitemap(web: Web, url: string, start: Date, end: Date) returns (r: Result<Leaves, Error>)
    ensures r == ParseSitemapResult(web, url, start, end)
  {
    var fetched := FetchXml(web, url);
    if fetched.Err? {
      return Err(fetched.error);
    }
    if fetched.value == EmptyText {
      return Ok(([], 0));
    }
    if fetched.value == Unparseable {
      return Err(UnparseableSitemap(url));
    }
    var entries := fetched.value.doc.urls;
    var totalDocCount := |entries|;
    var urls: seq<Option<string>> := [];
    var i := 0;
    while i < |entries|
      invariant 0 <= i <= |entries|
      invariant KeepUrls(entries[i..], start, end, urls) == KeepUrls(entries, start, end, [])
    {
      assert entries[i..][1..] == entries[i + 1..];
      var e := entries[i];
      i := i + 1;
      if e.loc.None? {
        continue;
      }
      var loc := e.loc.value.text;
      if e.lastmod.Some? {
        if e.lastmod.value.text.None? {
          return Err(MissingText);
        }
        var lastmodDate := LastmodDate(e.lastmod.value.text.value);
        if lastmodDate.None? {
          continue;
        }
        if Less(lastmodDate.value, start) || Less(end, lastmodDate.value) {
          continue;
        }
      }
      urls := urls + [loc];
    }
    return Ok((urls, totalDocCount));
  }

  // ---------------------------------------------------------------------------------------------
  // The filter, stated entry by entry

  /** A `<url>` entry the filter keeps: it has a `<loc>`, and no `<lastmod>` or an in-window one. */
  predicate Passes(e: Entry, start: Date, end: Date) {
    && e.loc.Some?
    && (e.lastmod.None? ||
        (&& e.lastmod.value.text.Some?
         && LastmodDate(e.lastmod.value.text.value).Some?
         && InWindow(LastmodDate(e.lastmod.value.text.value).value, start, end)))
  }

  /** A `<url>` entry that makes `parse_sitemap` raise: a `<loc>` and an empty `<lastmod/>`. */
  predicate Raises(e: Entry) {
    e.loc.Some? && e.lastmod.Some? && e.lastmod.value.text.None?
  }

  /** The `<loc>` texts of the passing entries, in order. */
  function Filtered(entries: seq<Entry>, start: Date, end: Date): (r: seq<Option<string>>)
    ensures |r| <= |entries|
  {
    if entries == [] then []
    else
      (if Passes(entries[0], start, end) then [entries[0].loc.value.text] else [])
      + Filtered(entries[1..], start, end)
  }

  /** The positions of the passing entries, in increasing order. */
  function PassingIndices(entries: seq<Entry>, start: Date, end: Date): seq<nat>
  {
    if entries == [] then []
    else
      (if Passes(entries[0], start, end) then [0] else [])
      + Shift(PassingIndices(entries[1..], start, end))
  }

  function Shift(ix: seq<nat>): (r: seq<nat>)
    ensures |r| == |ix| && forall j :: 0 <= j < |ix| ==> r[j] == ix[j] + 1
  {
    if ix == [] then [] else [ix[0] + 1] + Shift(ix[1..])
  }

  /**
   * The loop completes exactly when no kept-so-far entry raises; it then appends the `<loc>`s of
   * the passing entries, in order. Python's `d < start or d > end` test skips exactly the dates
   * outside the inclusive window.
   */
  lemma {:induction false} KeepUrlsMeaning(entries: seq<Entry>, start: Date, end: Date, urls: seq<Option<string>>)
    ensures (exists i :: 0 <= i < |entries| && Raises(entries[i])) ==> KeepUrls(entries, start, end, urls) == Err(MissingText)
    ensures (forall i :: 0 <= i < |entries| ==> !Raises(entries[i])) ==>
              KeepUrls(entries, start, end, urls) == Ok(urls + Filtered(entries, start, end))
    decreases |entries|
  {
    if entries == [] {
      assert urls + [] == urls;
    } else {
      var e, rest := entries[0], entries[1..];
      assert forall i :: 1 <= i < |entries| ==> entries[i] == rest[i - 1];
      assert forall i :: 0 <= i < |rest| ==> rest[i] == entries[i + 1];
      if exists i :: 0 <= i < |entries| && Raises(entries[i]) {
        if !Raises(e) {
          var i :| 0 <= i < |entries| && Raises(entries[i]);
          assert Raises(rest[i - 1]);
        }
      }
      if e.loc.None? {
        KeepUrlsMeaning(rest, start, end, urls);
        assert Filtered(entries, start, end) == Filtered(rest, start, end);
      } else if Raises(e) {
      } else if !Passes(e, start, end) {
        var d := LastmodDate(e.lastmod.value.text.value);
        if d.Some? {
          OutsideWindow(d.value, start, end);
        }
        KeepUrlsMeaning(rest, start, end, urls);
        assert Filtered(entries, start, end) == Filtered(rest, start, end);
      } else {
        var loc := e.loc.value.text;
        if e.lastmod.Some? {
          OutsideWindow(LastmodDate(e.lastmod.value.text.value).value, start, end);
        }
        KeepUrlsMeaning(rest, start, end, urls + [loc]);
        assert (urls + [loc]) + Filtered(rest, start, end) == urls + ([loc] + Filtered(rest, start, end));
      }
    }
  }

  /**
   * The kept URLs form the in-order subsequence of the entries that pass: the j-th kept URL is
   * the `<loc>` of the j-th passing entry, and an entry's position is listed exactly when it passes.
   */
  lemma FilteredIsOrderedSubsequence(entries: seq<Entry>, start: Date, end: Date)
    ensures var ix := PassingIndices(entries, start, end);
      && |ix| == |Filtered(entries, start, end)|
      && IncreasingBelow(ix, |entries|)
      && (forall j :: 0 <= j < |ix| ==>
            Passes(entries[ix[j]], start, end) && Filtered(entries, start, end)[j] == entries[ix[j]].loc.value.text)
      && (forall i :: 0 <= i < |entries| && Passes(entries[i], start, end) ==> i in ix)
  {
    PassingIndicesIncreasing(entries, start, end);
    PassingIndicesSelect(entries, start, end);
    PassingIndicesComplete(entries, start, end);
  }

  /** Positions below `n`, in strictly increasing order. */
  ghost predicate IncreasingBelow(ix: seq<nat>, n: nat) {
    && (forall j :: 0 <= j < |ix| ==> ix[j] < n)
    && (forall j, k :: 0 <= j < k < |ix| ==> ix[j] < ix[k])
  }

  lemma {:induction false} PassingIndicesIncreasing(entries: seq<Entry>, start: Date, end: Date)
    ensures IncreasingBelow(PassingIndices(entries, start, end), |entries|)
    decreases |entries|
  {
    if entries != [] {
      var rest := entries[1..];
      var tail := PassingIndices(rest, start, end);
      PassingIndicesIncreasing(rest, start, end);
      ShiftIncreasing(tail, |rest|);
      if Passes(entries[0], start, end) {
        assert PassingIndices(entries, start, end) == [0] + Shift(tail);
      } else {
        assert PassingIndices(entries, start, end) == [] + Shift(tail);
      }
    }
  }

  lemma ShiftIncreasing(ix: seq<nat>, n: nat)
    requires IncreasingBelow(ix, n)
    ensures IncreasingBelow(Shift(ix), n + 1) && IncreasingBelow([0] + Shift(ix), n + 1)
  {
    var sh := Shift(ix);
    var withZero := [0] + sh;
    forall j | 0 < j < |withZero| ensures withZero[j] == sh[j - 1] {}
  }

  /** `f[j]` is the `<loc>` of the passing entry at position `ix[j]`, for every `j`. */
  ghost predicate Selects(entries: seq<Entry>, ix: seq<nat>, f: seq<Option<string>>, start: Date, end: Date) {
    && |ix| == |f|
    && (forall j :: 0 <= j < |ix| ==>
          (0 <= ix[j] < |entries| && Passes(entries[ix[j]], start, end) && f[j] == entries[ix[j]].loc.value.text))
  }

  lemma {:induction false} PassingIndicesSelect(entries: seq<Entry>, start: Date, end: Date)
    ensures Selects(entries, PassingIndices(entries, start, end), Filtered(entries, start, end), start, end)
    decreases |entries|
  {
    if entries != [] {
      var e, rest := entries[0], entries[1..];
      PassingIndicesSelect(rest, start, end);
      var tail := PassingIndices(rest, start, end);
      var kept := Filtered(rest, start, end);
      assert entries == [e] + rest;
      SelectsShift(e, rest, tail, kept, start, end);
      if Passes(e, start, end) {
        assert PassingIndices(entries, start, end) == [0] + Shift(tail);
        assert Filtered(entries, start, end) == [e.loc.value.text] + kept;
        SelectsPrepend(entries, Shift(tail), kept, start, end);
      } else {
        assert PassingIndices(entries, start, end) == [] + Shift(tail) == Shift(tail);
        assert Filtered(entries, start, end) == [] + kept == kept;
      }
    }
  }

  /** Prepending an entry moves every selected position up by one. */
  lemma SelectsShift(e: Entry, rest: seq<Entry>, tail: seq<nat>, kept: seq<Option<string>>, start: Date, end: Date)
    requires Selects(rest, tail, kept, start, end)
    ensures Selects([e] + rest, Shift(tail), kept, start, end)
  {
    var entries := [e] + rest;
    var shifted := Shift(tail);
    forall j | 0 <= j < |shifted|
      ensures 0 <= shifted[j] < |entries| && Passes(entries[shifted[j]], start, end)
              && kept[j] == entries[shifted[j]].loc.value.text
    {
      assert entries[shifted[j]] == rest[tail[j]];
    }
  }

  /** A passing first entry is selected at position 0, ahead of the others. */
  lemma SelectsPrepend(entries: seq<Entry>, ix: seq<nat>, f: seq<Option<string>>, start: Date, end: Date)
    requires entries != [] && Passes(entries[0], start, end) && Selects(entries, ix, f, start, end)
    ensures Selects(entries, [0] + ix, [entries[0].loc.value.text] + f, start, end)
  {
    var ix', f' := [0] + ix, [entries[0].loc.value.text] + f;
    forall j | 0 <= j < |ix'|
      ensures 0 <= ix'[j] < |entries| && Passes(entries[ix'[j]], start, end) && f'[j] == entries[ix'[j]].loc.value.text
    {
      if j > 0 {
        assert ix'[j] == ix[j - 1] && f'[j] == f[j - 1];
      }
    }
  }

  lemma {:induction false} PassingIndicesComplete(entries: seq<Entry>, start: Date, end: Date)
    ensures forall i :: 0 <= i < |entries| && Passes(entries[i], start, end) ==> i in PassingIndices(entries, start, end)
    decreases |entries|
  {
    if entries != [] {
      var rest := entries[1..];
      PassingIndicesComplete(rest, start, end);
      var tail := PassingIndices(rest, start, end);
      var shifted := Shift(tail);
      assert PassingIndices(entries, start, end) == (if Passes(entries[0], start, end) then [0] else []) + shifted;
      forall i | 1 <= i < |entries| && Passes(entries[i], start, end)
        ensures i in shifted
      {
        assert entries[i] == rest[i - 1];
        assert i - 1 in tail;
        var j :| 0 <= j < |tail| && tail[j] == i - 1;
        assert shifted[j] == i;
      }
    }
  }

  /**
   * What `parse_sitemap` returns: nothing and 0 for an empty body; otherwise the number of `<url>`
   * elements and the in-order `<loc>`s of the passing entries, never more than that number. A
   * failed fetch raises RuntimeError, malformed XML ValueError.
   */
  lemma ParseSitemapFacts(web: Web, url: string, start: Date, end: Date)
    ensures var r := ParseSitemapResult(web, url, start, end);
      && (web(url).Unreachable? ==> r == Err(FetchFailed(url, web(url).cause)) && Kind(r.error) == RuntimeError)
      && (web(url) == Fetched(EmptyText) ==> r == Ok(([], 0)))
      && (web(url) == Fetched(Unparseable) ==> r == Err(UnparseableSitemap(url)) && Kind(r.error) == ValueError)
      && (web(url).Fetched? && web(url).content.Parsed? ==>
            var es := web(url).content.doc.urls;
            if exists i :: 0 <= i < |es| && Raises(es[i]) then r == Err(MissingText)
            else r == Ok((Filtered(es, start, end), |es|)))
      && (r.Ok? ==> |r.value.0| <= r.value.1)
  {
    if web(url).Fetched? && web(url).content.Parsed? {
      var es := web(url).content.doc.urls;
      KeepUrlsMeaning(es, start, end, []);
      assert [] + Filtered(es, start, end) == Filtered(es, start, end);
    }
  }
}
