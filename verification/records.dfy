/**
  * The rows both news scrapers produce, and how a scrape puts the rows it
  * has gathered in front of the outcome of the rest (an exception raised
  * later loses everything gathered so far).
  */
module Scraping {
  import opened Results

  /** One row of a scraper's output: `publish_date`, `date`, `title`, `link`, `content`. */
  datatype Record = Record(publishDate: string, date: string, title: string, link: string, content: string)

  /** The records gathered so far followed by the outcome of the rest (an exception ends the scrape). */
  function Then<E>(done: seq<Record>, rest: Result<seq<Record>, E>): Result<seq<Record>, E>
  {
    match rest
    case Ok(more) => Ok(done + more)
    case Err(e) => Err(e)
  }

  lemma ThenEmpty<E>(rest: Result<seq<Record>, E>)
    ensures Then([], rest) == rest
  {
    if rest.Ok? {
      assert [] + rest.value == rest.value;
    }
  }

  lemma ThenAssoc<E>(a: seq<Record>, b: seq<Record>, rest: Result<seq<Record>, E>)
    ensures Then(a, Then(b, rest)) == Then(a + b, rest)
  {
    if rest.Ok? {
      assert a + (b + rest.value) == (a + b) + rest.value;
    }
  }
}
