/**
 * The `/parse_sitemap` endpoint: it checks the request's fields, runs the backfill, and turns
 * the exception classes the backfill raises into HTTP status codes.
 *
 * The JSON body is given by its four fields, each absent (JSON `null` or missing) or a string.
 * A reply is a status with a body, or `Uncaught` when the handler itself raises: a date field
 * that is absent reaches `strptime` as `None`, which raises a TypeError no handler catches.
 */
module Server {
  import opened Common
  import opened Dates
  import opened Urls
  import opened Dicts
  import opened Documents
  import opened IndexWalk
  import opened Backfill

  datatype Request = Request(sitemapUrl: Option<string>, startDate: Option<string>,
                             endDate: Option<string>, contentFilter: Option<string>)

  /** `{"error": message}`, or `{"sitemaps": ..., "urls": ...}`. */
  datatype Body = ErrorBody(message: string) | Success(found: Found)

  datatype Reply = Respond(status: int, body: Body) | Uncaught

  const MissingUrl := "Missing required parameter: sitemap_url"
  const BadDateFormat := "Invalid date format. Please use YYYY-MM-DD."
  const ReversedDates := "Start date cannot be later than end date!"

  /** `if not sitemap_url`: absent and empty URLs are both refused. */
  predicate HasUrl(req: Request) {
    req.sitemapUrl.Some? && req.sitemapUrl.value != ""
  }

  /** The three handlers around `script.main`, in the order Python tries them. */
  function ErrorReply(e: Error): (r: Reply)
    ensures r.Respond? && r.body.ErrorBody?
    ensures r.status == (if Kind(e) == ValueError then 422 else 500)
    ensures Kind(e) != OtherError ==> r.body.message == Message(e)
    ensures Kind(e) == OtherError ==> r.body.message == "Unexpected error: " + Message(e)
  {
    match Kind(e)
    case RuntimeError => Respond(500, ErrorBody(Message(e)))
    case ValueError => Respond(422, ErrorBody(Message(e)))
    case OtherError => Respond(500, ErrorBody("Unexpected error: " + Message(e)))
  }

  /** What the endpoint sends back for the outcome of `script.main`. */
  function Served(outcome: Result<Found, Error>): (r: Reply)
    ensures r.Respond? && (r.status == 200 <==> outcome.Ok?)
    ensures outcome.Ok? ==> r.body == Success(outcome.value)
    ensures outcome.Err? ==> r == ErrorReply(outcome.error)
  {
    match outcome
    case Ok(found) => Respond(200, Success(found))
    case Err(e) => ErrorReply(e)
  }

  /**
   * The handler. `depth` bounds the nesting of sitemap indexes the walk follows. The content
   * filter is passed on to `script.main`, which never reads it (see `Backfill.RunMain`).
   */
  function HandleRequest(web: Web, req: Request, depth: nat): (r: Reply)
    ensures r.Respond? ==> r.status in {200, 400, 422, 500}
    ensures r.Respond? ==> (r.status == 200 <==> r.body.Success?)
    ensures !HasUrl(req) ==> r == Respond(400, ErrorBody(MissingUrl))
  {
    if !HasUrl(req) then Respond(400, ErrorBody(MissingUrl))
    else if req.startDate.None? then Uncaught
    else match ParseIsoDate(req.startDate.value)
      case None => Respond(400, ErrorBody(BadDateFormat))
      case Some(start) =>
        if req.endDate.None? then Uncaught
        else match ParseIsoDate(req.endDate.value)
          case None => Respond(400, ErrorBody(BadDateFormat))
          case Some(end) =>
            if Less(end, start) then Respond(400, ErrorBody(ReversedDates))
            else Served(MainResult(web, req.sitemapUrl.value, start, end, depth))
  }

  /**
   * The requests that reach `script.main`: a URL, and two valid dates written `YYYY-MM-DD`,
   * the first not later than the second.
   */
  predicate Accepted(req: Request, start: Date, end: Date) {
    && HasUrl(req)
    && IsValid(start) && IsValid(end)
    && req.startDate == Some(FormatIsoDate(start))
    && req.endDate == Some(FormatIsoDate(end))
    && LessEq(start, end)
  }

  /** An accepted request is answered with the outcome of the backfill over its window. */
  lemma AcceptedServed(web: Web, req: Request, start: Date, end: Date, depth: nat)
    requires Accepted(req, start, end)
    ensures HandleRequest(web, req, depth) == Served(MainResult(web, req.sitemapUrl.value, start, end, depth))
  {
    ParseFormat(start);
    ParseFormat(end);
  }

  /** Every reply other than 400 and the uncaught TypeError comes from an accepted request. */
  lemma ServedWasAccepted(web: Web, req: Request, depth: nat)
    requires HandleRequest(web, req, depth).Respond? && HandleRequest(web, req, depth).status != 400
    ensures req.startDate.Some? && req.endDate.Some?
    ensures ParseIsoDate(req.startDate.value).Some? && ParseIsoDate(req.endDate.value).Some?
    ensures var start, end := ParseIsoDate(req.startDate.value).value, ParseIsoDate(req.endDate.value).value;
      && Accepted(req, start, end)
      && HandleRequest(web, req, depth) == Served(MainResult(web, req.sitemapUrl.value, start, end, depth))
  {
    FormatParse(req.startDate.value);
    FormatParse(req.endDate.value);
  }

  /**
   * Validation, field by field, in the handler's order: the URL first, then the start date, then
   * the end date, then their order. A date field that is absent raises instead of answering.
   */
  lemma RejectedRequests(web: Web, req: Request, depth: nat)
    requires HasUrl(req)
    ensures var r := HandleRequest(web, req, depth);
      && (req.startDate.None? ==> r == Uncaught)
      && (req.startDate.Some? && ParseIsoDate(req.startDate.value).None? ==>
            r == Respond(400, ErrorBody(BadDateFormat)))
      && (req.startDate.Some? && ParseIsoDate(req.startDate.value).Some? ==>
            && (req.endDate.None? ==> r == Uncaught)
            && (req.endDate.Some? && ParseIsoDate(req.endDate.value).None? ==>
                  r == Respond(400, ErrorBody(BadDateFormat)))
            && (req.endDate.Some? && ParseIsoDate(req.endDate.value).Some? ==>
                  var start, end := ParseIsoDate(req.startDate.value).value, ParseIsoDate(req.endDate.value).value;
                  (r == Respond(400, ErrorBody(ReversedDates)) <==> Less(end, start))))
  {
    var r := HandleRequest(web, req, depth);
    if req.startDate.Some? && ParseIsoDate(req.startDate.value).Some?
       && req.endDate.Some? && ParseIsoDate(req.endDate.value).Some?
    {
      var start, end := ParseIsoDate(req.startDate.value).value, ParseIsoDate(req.endDate.value).value;
      if !Less(end, start) {
        assert r == Served(MainResult(web, req.sitemapUrl.value, start, end, depth));
      }
    }
  }

  /** A one-day window, the start date equal to the end date, is accepted. */
  lemma SingleDayAccepted(web: Web, req: Request, day: Date, depth: nat)
    requires HasUrl(req) && IsValid(day)
    requires req.startDate == Some(FormatIsoDate(day)) && req.endDate == Some(FormatIsoDate(day))
    ensures HandleRequest(web, req, depth) == Served(MainResult(web, req.sitemapUrl.value, day, day, depth))
  {
    AcceptedServed(web, req, day, day, depth);
  }

  /**
   * A 200 reply lists the sitemaps on the index's host whose dates lie in the requested window,
   * each with the `<lastmod>` date of an entry that names it, and a URL list for each of them
   * and for nothing else.
   */
  lemma SuccessInScope(web: Web, req: Request, depth: nat)
    requires HandleRequest(web, req, depth).Respond? && HandleRequest(web, req, depth).status == 200
    ensures var start, end := ParseIsoDate(req.startDate.value).value, ParseIsoDate(req.endDate.value).value;
            var found := HandleRequest(web, req, depth).body.found;
      && InScope(found.sitemaps, start, end, Netloc(req.sitemapUrl.value))
      && DatedFrom(found.sitemaps, ReachedDated(web, web(req.sitemapUrl.value).content, depth, start, end,
                                                Netloc(req.sitemapUrl.value)))
      && found.urls.keys == found.sitemaps.keys
      && found.urls.vals.Keys == found.sitemaps.vals.Keys
  {
    ServedWasAccepted(web, req, depth);
    var start, end := ParseIsoDate(req.startDate.value).value, ParseIsoDate(req.endDate.value).value;
    MainFacts(web, req.sitemapUrl.value, start, end, depth);
  }

  /**
   * The status of an accepted request's failure follows the exception's class: 422 for a
   * ValueError (the index or a sitemap is not XML), 500 for a RuntimeError (a fetch failed or
   * the index is empty) and for anything else (an empty `<lastmod>`).
   */
  lemma FailureStatus(web: Web, req: Request, start: Date, end: Date, depth: nat)
    requires Accepted(req, start, end)
    requires MainResult(web, req.sitemapUrl.value, start, end, depth).Err?
    ensures var e := MainResult(web, req.sitemapUrl.value, start, end, depth).error;
            var r := HandleRequest(web, req, depth);
      && e != RecursionLimit
      && (r.status == 422 <==> e.InvalidXml? || e.UnparseableSitemap?)
      && (r.status == 500 <==> e.FetchFailed? || e.EmptyIndex? || e.MissingText?)
  {
    AcceptedServed(web, req, start, end, depth);
    MainErrors(web, req.sitemapUrl.value, start, end, depth);
  }
}
