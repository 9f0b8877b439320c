/**
  * The Bing news scraper: the Latin-1 header sanitiser, the bounded retry
  * loop of `_fetch_with_retry` run against the replies the server gives to
  * each attempt, and the page loop of `bing_scrape_stock_news` over the
  * result cards the search pages yield.
  */
module Bing {
  import opened Results
  import opened Text
  import opened Calendar
  import opened NewsDates
  import opened Articles
  import opened Scraping

  const FallbackReferer: string := "https://www.bing.com/news/"

  /** Every character encodes as Latin-1. */
  predicate Latin1(s: string)
  {
    forall i :: 0 <= i < |s| ==> s[i] as int <= 0xFF
  }

  /** `_sanitize_header_value(v)`: a header value that always encodes as Latin-1. */
  function SanitizeHeader(v: string): (r: string)
    ensures Latin1(r)
    ensures r == v <==> Latin1(v)
    ensures !Latin1(v) ==> r == FallbackReferer
  {
    if Latin1(v) then v else FallbackReferer
  }

  /** The `Referer` header of a request: sent, sanitised, only for a non-empty referer. */
  function RefererHeader(referer: Option<string>): Option<string>
  {
    if referer.Some? && referer.value != [] then Some(SanitizeHeader(referer.value)) else None
  }

  // ---------------------------------------------------------------------
  // _fetch_with_retry

  /** The outcome of one attempt: a response that passed `raise_for_status`, or an exception. */
  datatype Reply = Success(body: string) | Failure(error: string)

  /** What the loop does, in order: a request with its `Referer` header, or a back-off sleep. */
  datatype Event = Request(attempt: int, referer: Option<string>) | Backoff(attempt: int)

  /** What the call ends with: a response, the re-raised exception, or `None` when no attempt is made. */
  datatype Fetched = Response(body: string) | Raised(error: string) | NoResponse

  /** The loop from attempt `attempt` on: its outcome and its events. */
  function Retry(reply: int -> Reply, attempt: int, maxRetries: int, referer: Option<string>): (Fetched, seq<Event>)
    decreases maxRetries - attempt
  {
    if attempt > maxRetries then (NoResponse, [])
    else
      var request := Request(attempt, RefererHeader(referer));
      match reply(attempt)
      case Success(b) => (Response(b), [request])
      case Failure(e) =>
        if attempt >= maxRetries then (Raised(e), [request])
        else
          var rest := Retry(reply, attempt + 1, maxRetries, referer);
          (rest.0, [request, Backoff(attempt)] + rest.1)
  }

  /** `_fetch_with_retry(session, url, max_retries, referer=referer)`, attempt `k` getting `reply(k)`. */
  method FetchWithRetry(reply: int -> Reply, maxRetries: int, referer: Option<string>)
    returns (result: Fetched, events: seq<Event>)
    ensures (result, events) == Retry(reply, 1, maxRetries, referer)
  {
    events := [];
    var attempt := 1;
    while attempt <= maxRetries
      invariant 1 <= attempt
      invariant Retry(reply, 1, maxRetries, referer).0 == Retry(reply, attempt, maxRetries, referer).0
      invariant Retry(reply, 1, maxRetries, referer).1 == events + Retry(reply, attempt, maxRetries, referer).1
      decreases maxRetries - attempt
    {
      var request := Request(attempt, RefererHeader(referer));
      match reply(attempt) {
        case Success(b) =>
          events := events + [request];
          return Response(b), events;
        case Failure(e) =>
          if attempt >= maxRetries {
            events := events + [request];
            return Raised(e), events;
          }
          var rest := Retry(reply, attempt + 1, maxRetries, referer);
          assert events + ([request, Backoff(attempt)] + rest.1) == (events + [request, Backoff(attempt)]) + rest.1;
          events := events + [request, Backoff(attempt)];
      }
      attempt := attempt + 1;
    }
    assert events + [] == events;
    return NoResponse, events;
  }

  /** Attempt `k` is the first success from attempt `a` on. */
  predicate FirstSuccess(reply: int -> Reply, a: int, k: int)
  {
    a <= k && reply(k).Success? && forall j :: a <= j < k ==> reply(j).Failure?
  }

  /** There is at most one first success. */
  lemma FirstSuccessUnique(reply: int -> Reply, a: int, k: int, l: int)
    requires FirstSuccess(reply, a, k) && FirstSuccess(reply, a, l)
    ensures k == l
  {
    assert k < l ==> reply(k).Failure?;
    assert l < k ==> reply(l).Failure?;
  }

  /** The call returns the response of the first successful attempt, if one comes before the limit. */
  lemma {:induction false} RetrySuccess(reply: int -> Reply, a: int, maxRetries: int, referer: Option<string>)
    ensures Retry(reply, a, maxRetries, referer).0.Response? <==> exists k :: k <= maxRetries && FirstSuccess(reply, a, k)
    ensures forall k :: k <= maxRetries && FirstSuccess(reply, a, k) ==>
              Retry(reply, a, maxRetries, referer).0 == Response(reply(k).body)
    decreases maxRetries - a
  {
    var r := Retry(reply, a, maxRetries, referer).0;
    if a > maxRetries {
      assert r == NoResponse;
    } else if reply(a).Success? {
      assert FirstSuccess(reply, a, a);
      assert r == Response(reply(a).body);
      forall k | k <= maxRetries && FirstSuccess(reply, a, k) ensures r == Response(reply(k).body) {
        FirstSuccessUnique(reply, a, a, k);
      }
    } else if a == maxRetries {
      assert r.Raised?;
      forall k | k <= maxRetries && FirstSuccess(reply, a, k) ensures false {
      }
    } else {
      RetrySuccess(reply, a + 1, maxRetries, referer);
      assert r == Retry(reply, a + 1, maxRetries, referer).0;
      forall k | FirstSuccess(reply, a + 1, k) ensures FirstSuccess(reply, a, k) {
      }
      forall k | FirstSuccess(reply, a, k) ensures FirstSuccess(reply, a + 1, k) {
        assert k != a;
      }
      if r.Response? {
        var k :| k <= maxRetries && FirstSuccess(reply, a + 1, k);
        assert FirstSuccess(reply, a, k);
      }
      if exists k :: k <= maxRetries && FirstSuccess(reply, a, k) {
        var k :| k <= maxRetries && FirstSuccess(reply, a, k);
        assert FirstSuccess(reply, a + 1, k);
      }
    }
  }

  /** The call re-raises the last failure exactly when every attempt up to the limit fails. */
  lemma {:induction false} RetryRaises(reply: int -> Reply, a: int, maxRetries: int, referer: Option<string>)
    ensures Retry(reply, a, maxRetries, referer).0.Raised? <==>
              a <= maxRetries && forall j :: a <= j <= maxRetries ==> reply(j).Failure?
    ensures Retry(reply, a, maxRetries, referer).0.Raised? ==>
              Retry(reply, a, maxRetries, referer).0.error == reply(maxRetries).error
    decreases maxRetries - a
  {
    var r := Retry(reply, a, maxRetries, referer).0;
    if a > maxRetries {
      assert r == NoResponse;
    } else if reply(a).Success? {
      assert r.Response?;
    } else if a == maxRetries {
      assert r == Raised(reply(a).error);
    } else {
      RetryRaises(reply, a + 1, maxRetries, referer);
      assert r == Retry(reply, a + 1, maxRetries, referer).0;
    }
  }

  /** No attempt is made exactly when the limit is below the first attempt. */
  lemma {:induction false} RetryNone(reply: int -> Reply, a: int, maxRetries: int, referer: Option<string>)
    ensures Retry(reply, a, maxRetries, referer).0.NoResponse? <==> a > maxRetries
    decreases maxRetries - a
  {
    if a < maxRetries && reply(a).Failure? {
      RetryNone(reply, a + 1, maxRetries, referer);
    }
  }

  /** One step of the loop: a failed attempt below the limit, its back-off, then the remaining attempts. */
  lemma RetryStep(reply: int -> Reply, a: int, maxRetries: int, referer: Option<string>)
    requires a < maxRetries && reply(a).Failure?
    ensures Retry(reply, a, maxRetries, referer).1 ==
              [Request(a, RefererHeader(referer)), Backoff(a)] + Retry(reply, a + 1, maxRetries, referer).1
  {
  }

  /** Requests are made exactly when an attempt is allowed; the last event is a request; at most `maxRetries - a + 1` requests. */
  lemma {:induction false} RetryLength(reply: int -> Reply, a: int, maxRetries: int, referer: Option<string>)
    ensures var t := Retry(reply, a, maxRetries, referer).1;
            (t == [] <==> a > maxRetries) &&
            (t != [] ==> |t| % 2 == 1 && t[|t| - 1].Request? && (|t| + 1) / 2 <= maxRetries - a + 1)
    decreases maxRetries - a
  {
    if a < maxRetries && reply(a).Failure? {
      RetryLength(reply, a + 1, maxRetries, referer);
      RetryStep(reply, a, maxRetries, referer);
    }
  }

  /** The even events are the requests of attempts `a, a+1, ...`, all with the same header. */
  lemma {:induction false} RetryRequests(reply: int -> Reply, a: int, maxRetries: int, referer: Option<string>)
    ensures var t := Retry(reply, a, maxRetries, referer).1;
            forall i :: 0 <= i < |t| && i % 2 == 0 ==> t[i] == Request(a + i / 2, RefererHeader(referer))
    decreases maxRetries - a
  {
    if a < maxRetries && reply(a).Failure? {
      RetryRequests(reply, a + 1, maxRetries, referer);
      RetryStep(reply, a, maxRetries, referer);
      var rest := Retry(reply, a + 1, maxRetries, referer).1;
      var t := Retry(reply, a, maxRetries, referer).1;
      forall i | 2 <= i < |t| && i % 2 == 0 ensures t[i] == Request(a + i / 2, RefererHeader(referer)) {
        HalfShift(i);
        assert t[i] == rest[i - 2];
      }
    } else {
      assert |Retry(reply, a, maxRetries, referer).1| <= 1;
    }
  }

  /** Dropping the first two events shifts the attempt number of the others by one. */
  lemma HalfShift(i: int)
    requires i >= 2
    ensures (i - 2) / 2 == i / 2 - 1 && (i - 2) % 2 == i % 2
  {
  }

  /** The odd events are back-offs, each after a failed attempt below the limit. */
  lemma {:induction false} RetryBackoffs(reply: int -> Reply, a: int, maxRetries: int, referer: Option<string>)
    ensures var t := Retry(reply, a, maxRetries, referer).1;
            forall i :: 0 <= i < |t| && i % 2 == 1 ==>
              t[i] == Backoff(a + i / 2) && a + i / 2 < maxRetries && reply(a + i / 2).Failure?
    decreases maxRetries - a
  {
    if a < maxRetries && reply(a).Failure? {
      RetryBackoffs(reply, a + 1, maxRetries, referer);
      RetryStep(reply, a, maxRetries, referer);
      var rest := Retry(reply, a + 1, maxRetries, referer).1;
      var t := Retry(reply, a, maxRetries, referer).1;
      forall i | 2 <= i < |t| && i % 2 == 1
        ensures t[i] == Backoff(a + i / 2) && a + i / 2 < maxRetries && reply(a + i / 2).Failure?
      {
        HalfShift(i);
        assert t[i] == rest[i - 2];
      }
    } else {
      assert |Retry(reply, a, maxRetries, referer).1| <= 1;
    }
  }

  // ---------------------------------------------------------------------
  // bing_scrape_stock_news

  /** Results per search page. */
  const PageSize := 10

  /** The `first` parameter of the search URL of page `page` (counted from 0). */
  function SearchFirst(page: int): (first: int)
    ensures first % PageSize == 1 && (first - 1) / PageSize == page
  {
    page * PageSize + 1
  }

  /** Consecutive pages ask for consecutive, non-overlapping windows of results. */
  lemma SearchWindows(p: int, q: int)
    ensures SearchFirst(p + 1) == SearchFirst(p) + PageSize
    ensures p != q ==> SearchFirst(p) != SearchFirst(q)
  {
  }

  /** `_fetch_with_retry` is called with `max_retries=3` for a search page. */
  const SearchRetries := 3

  /** The fetch's outcome only depends on the replies to attempts `a` to `maxRetries`. */
  lemma {:induction false} RetryReads(r1: int -> Reply, r2: int -> Reply, a: int, maxRetries: int, referer: Option<string>)
    requires forall k :: a <= k <= maxRetries ==> r1(k) == r2(k)
    ensures Retry(r1, a, maxRetries, referer) == Retry(r2, a, maxRetries, referer)
    decreases maxRetries - a
  {
    if a < maxRetries {
      RetryReads(r1, r2, a + 1, maxRetries, referer);
    }
  }

  /**
    * A result card (`a.title`): its text, its `href` (`None` when absent),
    * and the `aria-label` of the dated span in its parent `div` (`None` when
    * there is no such `div` or span).
    */
  datatype Card = Card(title: string, link: Option<string>, ariaLabel: Option<string>)

  /** `publish_date` and `date` of a card: both empty without a dated span. */
  function CardDate(ariaLabel: Option<string>, now: Moment): Result<(string, string), DateError>
    requires ValidMoment(now)
  {
    match ariaLabel
    case None => Ok(([], []))
    case Some(date) =>
      match ParseBingDate(date, now)
      case Ok(p) => Ok((p, date))
      case Err(e) => Err(e)
  }

  /** The record of one card, `None` when the card has no link. */
  function CardRecord(c: Card, article: string -> string, now: Moment): Option<Result<Record, DateError>>
    requires ValidMoment(now)
  {
    if c.link.None? || c.link.value == [] then None
    else
      match CardDate(c.ariaLabel, now)
      case Ok(dates) => Some(Ok(Record(dates.0, dates.1, c.title, c.link.value, article(c.link.value))))
      case Err(e) => Some(Err(e))
  }

  /** The records of a page's cards, in order; the first date that raises ends the scrape. */
  function CardsRecords(cards: seq<Card>, article: string -> string, now: Moment): Result<seq<Record>, DateError>
    requires ValidMoment(now)
  {
    if cards == [] then Ok([])
    else
      match CardRecord(cards[0], article, now)
      case None => CardsRecords(cards[1..], article, now)
      case Some(Err(e)) => Err(e)
      case Some(Ok(r)) => Then([r], CardsRecords(cards[1..], article, now))
  }

  /**
    * The pages from `page` on: `replies(first)` answers the attempts to fetch
    * the search page with that `first` parameter and `parse` finds the cards
    * in a page's body; a page whose fetch raises is skipped.
    */
  function BingPages(replies: int -> int -> Reply, parse: string -> seq<Card>, page: int, maxPages: int,
                     article: string -> string, now: Moment): Result<seq<Record>, DateError>
    requires ValidMoment(now)
    decreases maxPages - page
  {
    if page >= maxPages then Ok([])
    else
      var rest := BingPages(replies, parse, page + 1, maxPages, article, now);
      match Retry(replies(SearchFirst(page)), 1, SearchRetries, Some(FallbackReferer)).0
      case Response(body) =>
        (match CardsRecords(parse(body), article, now)
         case Err(e) => Err(e)
         case Ok(rs) => Then(rs, rest))
      case _ => rest
  }

  /** The body of the card loop for one card. */
  method ScrapeCard(c: Card, article: string -> string, now: Moment) returns (r: Option<Result<Record, DateError>>)
    requires ValidMoment(now)
    ensures r == CardRecord(c, article, now)
  {
    if c.link.None? || c.link.value == [] {
      return None;
    }
    var link := c.link.value;
    var content := article(link);
    var publishDate := [];
    var date := [];
    if c.ariaLabel.Some? {
      date := c.ariaLabel.value;
      var parsed := ParseBingDate(date, now);
      if parsed.Err? {
        return Some(Err(parsed.error));
      }
      publishDate := parsed.value;
    }
    return Some(Ok(Record(publishDate, date, c.title, link, content)));
  }

  /** The card loop of one page, appending to `results`. */
  method ScrapeCards(cards: seq<Card>, article: string -> string, now: Moment, results: seq<Record>)
    returns (r: Result<seq<Record>, DateError>)
    requires ValidMoment(now)
    ensures r == Then(results, CardsRecords(cards, article, now))
  {
    var acc := results;
    var i := 0;
    while i < |cards|
      invariant 0 <= i <= |cards|
      invariant Then(results, CardsRecords(cards, article, now)) == Then(acc, CardsRecords(cards[i..], article, now))
    {
      assert cards[i..][1..] == cards[i + 1..];
      var record := ScrapeCard(cards[i], article, now);
      match record {
        case None =>
        case Some(Err(e)) =>
          return Err(e);
        case Some(Ok(rec)) =>
          ThenAssoc(acc, [rec], CardsRecords(cards[i + 1..], article, now));
          acc := acc + [rec];
      }
      i := i + 1;
    }
    assert acc + [] == acc;
    return Ok(acc);
  }

  /** `bing_scrape_stock_news(keyword, output_dir, max_pages=maxPages)` up to writing the CSV. */
  method BingScrape(replies: int -> int -> Reply, parse: string -> seq<Card>, maxPages: int,
                    article: string -> string, now: Moment)
    returns (r: Result<seq<Record>, DateError>)
    requires ValidMoment(now)
    ensures r == BingPages(replies, parse, 0, maxPages, article, now)
  {
    var results := [];
    var page := 0;
    ThenEmpty(BingPages(replies, parse, 0, maxPages, article, now));
    while page < maxPages
      invariant page >= 0
      invariant BingPages(replies, parse, 0, maxPages, article, now) ==
                Then(results, BingPages(replies, parse, page, maxPages, article, now))
      decreases maxPages - page
    {
      var first := SearchFirst(page);
      var rest := BingPages(replies, parse, page + 1, maxPages, article, now);
      var resp, _ := FetchWithRetry(replies(first), SearchRetries, Some(FallbackReferer));
      if !resp.Response? {
        page := page + 1;
        continue;
      }
      var cards := parse(resp.body);
      var more := ScrapeCards(cards, article, now, results);
      if more.Err? {
        return more;
      }
      var rs := CardsRecords(cards, article, now).value;
      ThenAssoc(results, rs, rest);
      results := more.value;
      page := page + 1;
    }
    assert results + [] == results;
    return Ok(results);
  }

  // ---------------------------------------------------------------------
  // Properties of the page loop

  /** A record as the loop builds it: a non-empty link, its article text, and the date normalised. */
  predicate BingRecord(r: Record, article: string -> string, now: Moment)
    requires ValidMoment(now)
  {
    r.link != [] && r.content == article(r.link) && ParseBingDate(r.date, now) == Ok(r.publishDate)
  }

  /** A card without a dated span keeps an empty date, which normalises to itself. */
  lemma EmptyDate(now: Moment)
    requires ValidMoment(now)
    ensures ParseBingDate([], now) == Ok([])
  {
    assert Strip([]) == [];
    assert MatchCount([], HoursAgo).None? && MatchCount([], MinutesAgo).None? && MatchCount([], DaysAgo).None?;
    NoRelative([], now);
  }

  /** A card gives a record exactly when it has a link; that record keeps the card's title and link. */
  lemma CardRecordShape(c: Card, article: string -> string, now: Moment)
    requires ValidMoment(now)
    ensures CardRecord(c, article, now).Some? <==> c.link.Some? && c.link.value != []
    ensures var r := CardRecord(c, article, now);
            r.Some? && r.value.Ok? ==>
              BingRecord(r.value.value, article, now) && r.value.value.title == c.title &&
              r.value.value.link == c.link.value
    ensures var r := CardRecord(c, article, now);
            (r.Some? && r.value.Err?) <==> DateRaises(c, now)
  {
    if c.ariaLabel.None? {
      EmptyDate(now);
    }
  }

  /** Every record of a page has a link, its article and its normalised date; at most one per card. */
  lemma {:induction false} CardsRecordsShape(cards: seq<Card>, article: string -> string, now: Moment)
    requires ValidMoment(now)
    ensures var rs := CardsRecords(cards, article, now);
            rs.Ok? ==> |rs.value| <= |cards| && forall r :: r in rs.value ==> BingRecord(r, article, now)
  {
    if cards != [] {
      CardsRecordsShape(cards[1..], article, now);
      CardRecordShape(cards[0], article, now);
    }
  }

  /** The card's date raises when normalised (only looked at for a linked card). */
  predicate DateRaises(c: Card, now: Moment)
    requires ValidMoment(now)
  {
    c.link.Some? && c.link.value != [] && c.ariaLabel.Some? && ParseBingDate(c.ariaLabel.value, now).Err?
  }

  /** A page scrapes without error exactly when none of its linked cards' dates raises. */
  lemma {:induction false} CardsRecordsErr(cards: seq<Card>, article: string -> string, now: Moment)
    requires ValidMoment(now)
    ensures CardsRecords(cards, article, now).Err? <==> exists i :: 0 <= i < |cards| && DateRaises(cards[i], now)
  {
    if cards != [] {
      var tail := cards[1..];
      CardsRecordsErr(tail, article, now);
      CardRecordShape(cards[0], article, now);
      if exists i :: 0 <= i < |tail| && DateRaises(tail[i], now) {
        var i :| 0 <= i < |tail| && DateRaises(tail[i], now);
        assert tail[i] == cards[i + 1];
      }
      if exists i :: 0 <= i < |cards| && DateRaises(cards[i], now) {
        var i :| 0 <= i < |cards| && DateRaises(cards[i], now);
        if i > 0 {
          assert cards[i] == tail[i - 1];
        }
      }
    }
  }

  /** Every record the scrape returns was built from a linked card. */
  lemma {:induction false} BingPagesShape(replies: int -> int -> Reply, parse: string -> seq<Card>, page: int,
                                          maxPages: int, article: string -> string, now: Moment)
    requires ValidMoment(now)
    ensures var rs := BingPages(replies, parse, page, maxPages, article, now);
            rs.Ok? ==> forall r :: r in rs.value ==> BingRecord(r, article, now)
    decreases maxPages - page
  {
    if page < maxPages {
      BingPagesShape(replies, parse, page + 1, maxPages, article, now);
      var fetched := Retry(replies(SearchFirst(page)), 1, SearchRetries, Some(FallbackReferer)).0;
      if fetched.Response? {
        CardsRecordsShape(parse(fetched.body), article, now);
      }
    }
  }

  /** A search page whose three attempts all fail adds nothing to the records. */
  lemma PageSkipped(replies: int -> int -> Reply, parse: string -> seq<Card>, page: int,
                    maxPages: int, article: string -> string, now: Moment)
    requires ValidMoment(now) && page < maxPages
    requires forall k :: 1 <= k <= SearchRetries ==> replies(SearchFirst(page))(k).Failure?
    ensures BingPages(replies, parse, page, maxPages, article, now) ==
            BingPages(replies, parse, page + 1, maxPages, article, now)
  {
    RetryRaises(replies(SearchFirst(page)), 1, SearchRetries, Some(FallbackReferer));
  }

  /** The scrape reads no replies but those to the three attempts at pages `first = 1, 11, 21, ...` below `maxPages`. */
  lemma {:induction false} BingPagesReads(r1: int -> int -> Reply, r2: int -> int -> Reply, parse: string -> seq<Card>,
                                          page: int, maxPages: int, article: string -> string, now: Moment)
    requires ValidMoment(now)
    requires forall p, k :: page <= p < maxPages && 1 <= k <= SearchRetries ==>
               r1(SearchFirst(p))(k) == r2(SearchFirst(p))(k)
    ensures BingPages(r1, parse, page, maxPages, article, now) == BingPages(r2, parse, page, maxPages, article, now)
    decreases maxPages - page
  {
    if page < maxPages {
      BingPagesReads(r1, r2, parse, page + 1, maxPages, article, now);
      var f1, f2 := r1(SearchFirst(page)), r2(SearchFirst(page));
      assert forall k :: 1 <= k <= SearchRetries ==> f1(k) == f2(k);
      RetryReads(f1, f2, 1, SearchRetries, Some(FallbackReferer));
      BingPagesSame(r1, r2, parse, page, maxPages, article, now);
    }
  }

  /** Two reply sources whose retries agree on a page, and whose scrapes agree after it, agree on the scrape from it. */
  lemma BingPagesSame(r1: int -> int -> Reply, r2: int -> int -> Reply, parse: string -> seq<Card>,
                      page: int, maxPages: int, article: string -> string, now: Moment)
    requires ValidMoment(now) && page < maxPages
    requires Retry(r1(SearchFirst(page)), 1, SearchRetries, Some(FallbackReferer)) ==
             Retry(r2(SearchFirst(page)), 1, SearchRetries, Some(FallbackReferer))
    requires BingPages(r1, parse, page + 1, maxPages, article, now) == BingPages(r2, parse, page + 1, maxPages, article, now)
    ensures BingPages(r1, parse, page, maxPages, article, now) == BingPages(r2, parse, page, maxPages, article, now)
  {
  }
}
