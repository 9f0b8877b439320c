/**
  * The Google News scraper's page loop, `google_scrape_stock_news`: for each
  * page from `start_page` to `end_page` the items the search client returns,
  * stopping at the first page without any; each item with a link becomes a
  * record with its article text and its normalised date.
  */
module Google {
  import opened Results
  import opened Text
  import opened Calendar
  import opened NewsDates
  import opened Articles
  import opened Scraping

  /** A search result: `title`, `date` and `link`, each `""` when the key is missing. */
  datatype Item = Item(title: string, date: string, link: string)

  /** What the page loop applies to each stripped date. */
  type Normaliser = string -> Result<string, DateError>

  /** `parse_news_date` at clock reading `now`. */
  function NewsDateAt(now: Moment): (normalise: Normaliser)
    requires ValidMoment(now)
    ensures forall d :: normalise(d) == ParseNewsDate(d, now)
  {
    d => ParseNewsDate(d, now)
  }

  /** The item with `.strip()` applied to each field. */
  function Stripped(it: Item): Item
  {
    Item(Strip(it.title), Strip(it.date), Strip(it.link))
  }

  /** The record of one item, `None` when its stripped link is empty. */
  function ItemRecord(it: Item, article: string -> string, normalise: Normaliser): Option<Result<Record, DateError>>
  {
    var st := Stripped(it);
    if st.link == [] then None
    else
      match normalise(st.date)
      case Ok(p) => Some(Ok(Record(p, st.date, st.title, st.link, article(st.link))))
      case Err(e) => Some(Err(e))
  }

  /** The records of one page's items, in order; a date that raises ends the scrape. */
  function ItemsRecords(items: seq<Item>, article: string -> string, normalise: Normaliser): Result<seq<Record>, DateError>
  {
    if items == [] then Ok([])
    else
      match ItemRecord(items[0], article, normalise)
      case None => ItemsRecords(items[1..], article, normalise)
      case Some(Err(e)) => Err(e)
      case Some(Ok(r)) => Then([r], ItemsRecords(items[1..], article, normalise))
  }

  /** The pages from `page` to `endPage`, `results(p)` being what the client returns after `get_page(p)`. */
  function GooglePages(results: int -> seq<Item>, page: int, endPage: int, article: string -> string, normalise: Normaliser)
    : Result<seq<Record>, DateError>
    decreases endPage - page
  {
    if page > endPage || results(page) == [] then Ok([])
    else
      match ItemsRecords(results(page), article, normalise)
      case Err(e) => Err(e)
      case Ok(rs) => Then(rs, GooglePages(results, page + 1, endPage, article, normalise))
  }

  /** The body of the item loop for one item. */
  method ScrapeItem(it: Item, article: string -> string, normalise: Normaliser) returns (r: Option<Result<Record, DateError>>)
    ensures r == ItemRecord(it, article, normalise)
  {
    var st := Stripped(it);
    var title, date, link := st.title, st.date, st.link;
    if link == [] {
      return None;
    }
    var content := article(link);
    var publishDate := normalise(date);
    if publishDate.Err? {
      return Some(Err(publishDate.error));
    }
    return Some(Ok(Record(publishDate.value, date, title, link, content)));
  }

  /** The item loop of one page, appending to `records`. */
  method ScrapeItems(items: seq<Item>, article: string -> string, normalise: Normaliser, records: seq<Record>)
    returns (r: Result<seq<Record>, DateError>)
    ensures r == Then(records, ItemsRecords(items, article, normalise))
  {
    var acc := records;
    for i := 0 to |items|
      invariant Then(records, ItemsRecords(items, article, normalise)) == Then(acc, ItemsRecords(items[i..], article, normalise))
    {
      assert items[i..][1..] == items[i + 1..];
      var record := ScrapeItem(items[i], article, normalise);
      match record {
        case None =>
        case Some(Err(e)) =>
          return Err(e);
        case Some(Ok(rec)) =>
          ThenAssoc(acc, [rec], ItemsRecords(items[i + 1..], article, normalise));
          acc := acc + [rec];
      }
    }
    assert acc + [] == acc;
    return Ok(acc);
  }

  /** `google_scrape_stock_news(keyword, start_page=startPage, end_page=endPage)` up to writing the CSV. */
  method GoogleScrape(results: int -> seq<Item>, startPage: int, endPage: int, article: string -> string, now: Moment)
    returns (r: Result<seq<Record>, DateError>)
    requires ValidMoment(now)
    ensures r == GooglePages(results, startPage, endPage, article, NewsDateAt(now))
  {
    var normalise := NewsDateAt(now);
    var records: seq<Record> := [];
    var page := startPage;
    ThenEmpty(GooglePages(results, startPage, endPage, article, normalise));
    while page <= endPage
      invariant page >= startPage
      invariant GooglePages(results, startPage, endPage, article, normalise) ==
                Then(records, GooglePages(results, page, endPage, article, normalise))
      decreases endPage - page
    {
      var items := results(page);
      if items == [] {
        break;
      }
      var rest := GooglePages(results, page + 1, endPage, article, normalise);
      var more := ScrapeItems(items, article, normalise, records);
      if more.Err? {
        return more;
      }
      ThenAssoc(records, ItemsRecords(items, article, normalise).value, rest);
      records := more.value;
      page := page + 1;
    }
    assert records + [] == records;
    return Ok(records);
  }

  // ---------------------------------------------------------------------
  // Properties

  /** A record as the loop builds it: stripped fields, a non-empty link, its article and its normalised date. */
  predicate GoogleRecord(r: Record, article: string -> string, normalise: Normaliser)
  {
    r.link != [] && Trimmed(r.link) && Trimmed(r.title) && Trimmed(r.date) &&
    r.content == article(r.link) && normalise(r.date) == Ok(r.publishDate)
  }

  /** The item has a link once stripped. */
  predicate Linked(it: Item)
  {
    Stripped(it).link != []
  }

  /** The number of items with a link. */
  function LinkedCount(items: seq<Item>): nat
  {
    if items == [] then 0 else (if Linked(items[0]) then 1 else 0) + LinkedCount(items[1..])
  }

  /** The item's date raises when normalised (only looked at for a linked item). */
  predicate DateRaises(it: Item, normalise: Normaliser)
  {
    Linked(it) && normalise(Stripped(it).date).Err?
  }

  /** An item gives a record exactly when it has a link; a raising date is the only error. */
  lemma ItemRecordSome(it: Item, article: string -> string, normalise: Normaliser)
    ensures ItemRecord(it, article, normalise).Some? <==> Linked(it)
    ensures var r := ItemRecord(it, article, normalise);
            (r.Some? && r.value.Err?) <==> DateRaises(it, normalise)
  {
    var st := Stripped(it);
    assert st.date == Strip(it.date) && st.link == Strip(it.link);
  }

  /** The record of a linked item keeps its stripped title, date and link. */
  lemma ItemRecordShape(it: Item, article: string -> string, normalise: Normaliser)
    ensures var r := ItemRecord(it, article, normalise);
            r.Some? && r.value.Ok? ==>
              GoogleRecord(r.value.value, article, normalise) && r.value.value.title == Strip(it.title) &&
              r.value.value.date == Strip(it.date) && r.value.value.link == Strip(it.link)
  {
    StripTrims(it.title);
    StripTrims(it.date);
    StripTrims(it.link);
  }

  /** A page gives one record per linked item. */
  lemma {:induction false} ItemsRecordsCount(items: seq<Item>, article: string -> string, normalise: Normaliser)
    ensures var rs := ItemsRecords(items, article, normalise);
            rs.Ok? ==> |rs.value| == LinkedCount(items)
  {
    if items != [] {
      ItemsRecordsCount(items[1..], article, normalise);
      ItemRecordSome(items[0], article, normalise);
    }
  }

  /** Each record of a page is built as the loop promises. */
  lemma {:induction false} ItemsRecordsShape(items: seq<Item>, article: string -> string, normalise: Normaliser)
    ensures var rs := ItemsRecords(items, article, normalise);
            rs.Ok? ==> forall r :: r in rs.value ==> GoogleRecord(r, article, normalise)
  {
    if items != [] {
      ItemsRecordsShape(items[1..], article, normalise);
      ItemRecordShape(items[0], article, normalise);
    }
  }

  /** A page scrapes without error exactly when none of its linked items' dates raises. */
  lemma {:induction false} ItemsRecordsErr(items: seq<Item>, article: string -> string, normalise: Normaliser)
    ensures ItemsRecords(items, article, normalise).Err? <==> exists i :: 0 <= i < |items| && DateRaises(items[i], normalise)
  {
    if items != [] {
      var tail := items[1..];
      ItemsRecordsErr(tail, article, normalise);
      ItemRecordSome(items[0], article, normalise);
      if exists i :: 0 <= i < |tail| && DateRaises(tail[i], normalise) {
        var i :| 0 <= i < |tail| && DateRaises(tail[i], normalise);
        assert tail[i] == items[i + 1];
      }
      if exists i :: 0 <= i < |items| && DateRaises(items[i], normalise) {
        var i :| 0 <= i < |items| && DateRaises(items[i], normalise);
        if i > 0 {
          assert items[i] == tail[i - 1];
        }
      }
    }
  }

  /** Every record the scrape returns is built as the loop promises. */
  lemma {:induction false} GooglePagesShape(results: int -> seq<Item>, page: int, endPage: int,
                                            article: string -> string, normalise: Normaliser)
    ensures var rs := GooglePages(results, page, endPage, article, normalise);
            rs.Ok? ==> forall r :: r in rs.value ==> GoogleRecord(r, article, normalise)
    decreases endPage - page
  {
    if page <= endPage && results(page) != [] {
      GooglePagesShape(results, page + 1, endPage, article, normalise);
      ItemsRecordsShape(results(page), article, normalise);
    }
  }

  /** Two result sources agreeing on a page and on the scrape after it agree on the scrape from it. */
  lemma GooglePagesSame(r1: int -> seq<Item>, r2: int -> seq<Item>, page: int, endPage: int,
                        article: string -> string, normalise: Normaliser)
    requires r1(page) == r2(page)
    requires GooglePages(r1, page + 1, endPage, article, normalise) == GooglePages(r2, page + 1, endPage, article, normalise)
    ensures GooglePages(r1, page, endPage, article, normalise) == GooglePages(r2, page, endPage, article, normalise)
  {
  }

  /**
    * The loop stops at the first page without results: the pages after it
    * are never consulted, nor are pages beyond `endPage`.
    */
  lemma {:induction false} GooglePagesStop(r1: int -> seq<Item>, r2: int -> seq<Item>, page: int, stop: int,
                                           endPage: int, article: string -> string, normalise: Normaliser)
    requires page <= stop
    requires r1(stop) == [] || stop == endPage + 1
    requires forall q :: page <= q < stop ==> r1(q) == r2(q)
    requires stop <= endPage ==> r2(stop) == []
    ensures GooglePages(r1, page, endPage, article, normalise) == GooglePages(r2, page, endPage, article, normalise)
    decreases stop - page
  {
    if page < stop && page <= endPage && r1(page) != [] {
      GooglePagesStop(r1, r2, page + 1, stop, endPage, article, normalise);
      GooglePagesSame(r1, r2, page, endPage, article, normalise);
    }
  }

  /** Without an empty page, the scrape is the pages' records in page order. */
  lemma GooglePagesStep(results: int -> seq<Item>, page: int, endPage: int, article: string -> string, normalise: Normaliser)
    requires page <= endPage && results(page) != []
    requires ItemsRecords(results(page), article, normalise).Ok?
    ensures GooglePages(results, page, endPage, article, normalise) ==
            Then(ItemsRecords(results(page), article, normalise).value, GooglePages(results, page + 1, endPage, article, normalise))
  {
  }
}
