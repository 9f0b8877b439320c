/**
  * `get_full_article_content` of both scrapers, after the download: the
  * paragraph texts a site selector picked (each already `get_text(strip=True)`),
  * falling back on the newspaper3k article text when they are all empty,
  * then the lines longer than ten characters joined with newlines and
  * stripped.  What the HTML parser and newspaper3k produce are inputs; a
  * failed download is `fetched == false`.
  */
module Articles {
  import opened Results
  import opened Text

  /** The sites the Google News scraper has a paragraph selector for. */
  datatype Site = Yahoo | Udn | OtherSite

  /**
    * What the selectors can see in the page: the paragraph texts inside the
    * first `<article>` element and inside `div#story_body_content`, `None`
    * where the page has no such element.
    */
  datatype Dom = Dom(article: Option<seq<string>>, storyBody: Option<seq<string>>)

  /** `s.lower()` on ASCII letters. */
  function AsciiLower(s: string): (r: string)
    ensures |r| == |s|
  {
    seq(|s|, i requires 0 <= i < |s| => if 'A' <= s[i] <= 'Z' then (s[i] as int + 32) as char else s[i])
  }

  lemma AsciiLowerIdempotent(s: string)
    ensures AsciiLower(AsciiLower(s)) == AsciiLower(s)
  {
  }

  /** `sub` occurs in `s` at position `i`. */
  predicate OccursAt(s: string, sub: string, i: int)
  {
    0 <= i <= |s| - |sub| && s[i..i + |sub|] == sub
  }

  /** `sub in s`, searched from the left. */
  predicate Contains(s: string, sub: string)
  {
    if |s| < |sub| then false
    else if s[..|sub|] == sub then true
    else if s == [] then false
    else Contains(s[1..], sub)
  }

  /** The search finds `sub` exactly when it occurs somewhere in `s`. */
  lemma {:induction false} ContainsIff(s: string, sub: string)
    ensures Contains(s, sub) <==> exists i :: OccursAt(s, sub, i)
  {
    if |s| >= |sub| {
      if s[..|sub|] == sub {
        assert OccursAt(s, sub, 0);
      } else {
        ContainsIff(s[1..], sub);
        forall i | 0 < i
          ensures OccursAt(s, sub, i) <==> OccursAt(s[1..], sub, i - 1)
        {
          if 0 < i <= |s| - |sub| {
            TailSlice(s, i, |sub|);
          }
        }
        assert !OccursAt(s, sub, 0);
        if Contains(s[1..], sub) {
          var i :| OccursAt(s[1..], sub, i);
          assert OccursAt(s, sub, i + 1);
        }
      }
    }
  }

  /** A slice of the tail is the slice of the string one position further on. */
  lemma TailSlice(s: string, i: int, k: nat)
    requires 0 < i && i + k <= |s|
    ensures s[1..][i - 1..i - 1 + k] == s[i..i + k]
  {
  }

  const YahooMark: string := "stock.yahoo"
  const UdnMark: string := "money.udn.com"

  /** The site of a lower-cased netloc: Yahoo is checked before UDN. */
  function SiteOf(netloc: string): (site: Site)
    ensures site == Yahoo <==> Contains(AsciiLower(netloc), YahooMark)
    ensures site == Udn <==> !Contains(AsciiLower(netloc), YahooMark) && Contains(AsciiLower(netloc), UdnMark)
  {
    var domain := AsciiLower(netloc);
    if Contains(domain, YahooMark) then Yahoo
    else if Contains(domain, UdnMark) then Udn
    else OtherSite
  }

  /** The dispatch ignores letter case. */
  lemma SiteOfIgnoresCase(netloc: string)
    ensures SiteOf(AsciiLower(netloc)) == SiteOf(netloc)
  {
    AsciiLowerIdempotent(netloc);
  }

  /** The paragraph texts the site's selector finds (`[]` when the element is missing or the site has none). */
  function Selected(site: Site, dom: Dom): seq<string>
  {
    match site
    case Yahoo => if dom.article.Some? then dom.article.value else []
    case Udn => if dom.storyBody.Some? then dom.storyBody.value else []
    case OtherSite => []
  }

  /** The lines kept from the paragraphs, or failing those from the fallback text. */
  function ChosenLines(paragraphs: seq<string>, fallback: seq<string>): seq<string>
  {
    if NonEmpty(paragraphs) != [] then NonEmpty(paragraphs) else fallback
  }

  /** The Bing fallback: `[line.strip() for line in text.split('\n') if line.strip()]`. */
  function BingFallback(text: Option<string>): seq<string>
  {
    if text.Some? then StrippedLines(Split(text.value, '\n')) else []
  }

  /** The Google News fallback: `article.text.split('\n')`. */
  function GoogleFallback(text: Option<string>): seq<string>
  {
    if text.Some? then Split(text.value, '\n') else []
  }

  /** `get_full_article_content` of the Bing scraper. */
  function BingArticle(fetched: bool, paragraphs: seq<string>, fallback: Option<string>): string
  {
    if !fetched then [] else JoinLines(LongLines(ChosenLines(paragraphs, BingFallback(fallback))))
  }

  /** `get_full_article_content` of the Google News scraper. */
  function GoogleArticle(fetched: bool, netloc: string, dom: Dom, fallback: Option<string>): string
  {
    if !fetched then []
    else JoinLines(LongLines(ChosenLines(Selected(SiteOf(netloc), dom), GoogleFallback(fallback))))
  }

  method BingArticleText(fetched: bool, paragraphs: seq<string>, fallback: Option<string>) returns (text: string)
    ensures text == BingArticle(fetched, paragraphs, fallback)
  {
    if !fetched {
      return [];
    }
    var content := CollectTexts(paragraphs);
    if content == [] {
      content := BingFallback(fallback);
    }
    text := JoinLines(LongLines(content));
  }

  method GoogleArticleText(fetched: bool, netloc: string, dom: Dom, fallback: Option<string>) returns (text: string)
    ensures text == GoogleArticle(fetched, netloc, dom, fallback)
  {
    if !fetched {
      return [];
    }
    var selector := Selected(SiteOf(netloc), dom);
    var content := CollectTexts(selector);
    if content == [] {
      content := GoogleFallback(fallback);
    }
    text := JoinLines(LongLines(content));
  }

  // ---------------------------------------------------------------------
  // Properties

  /** Sites other than Yahoo and UDN go straight to the fallback, whatever the page holds. */
  lemma OtherSitesUseFallback(netloc: string, dom: Dom, fallback: Option<string>)
    requires !Contains(AsciiLower(netloc), YahooMark) && !Contains(AsciiLower(netloc), UdnMark)
    ensures GoogleArticle(true, netloc, dom, fallback) == JoinLines(LongLines(GoogleFallback(fallback)))
  {
    assert SiteOf(netloc) == OtherSite;
    assert NonEmpty([]) == [];
  }

  /** Non-empty paragraphs win: the fallback text is then never consulted. */
  lemma ParagraphsWin(paragraphs: seq<string>, a: Option<string>, b: Option<string>)
    requires exists p :: p in paragraphs && p != []
    ensures BingArticle(true, paragraphs, a) == BingArticle(true, paragraphs, b)
    ensures BingArticle(true, paragraphs, a) == JoinLines(LongLines(NonEmpty(paragraphs)))
  {
    var p :| p in paragraphs && p != [];
    NonEmptyMembers(paragraphs);
    assert p in NonEmpty(paragraphs);
  }

  /** Every line of the article text is longer than ten characters and comes from the chosen lines. */
  lemma KeptLines(lines: seq<string>)
    ensures forall l :: l in LongLines(lines) ==> |l| > MinLineLength && l in lines
  {
    LongLinesMembers(lines);
  }

  /**
    * On the Bing fallback path the article's lines are exactly the stripped,
    * non-empty lines of the fallback text longer than ten characters, in
    * order: splitting the result at newlines gives them back.
    */
  lemma BingFallbackLines(paragraphs: seq<string>, text: string)
    requires NonEmpty(paragraphs) == []
    ensures var kept := LongLines(StrippedLines(Split(text, '\n')));
            (kept == [] ==> BingArticle(true, paragraphs, Some(text)) == []) &&
            (kept != [] ==> Split(BingArticle(true, paragraphs, Some(text)), '\n') == kept)
  {
    var pieces := Split(text, '\n');
    var lines := StrippedLines(pieces);
    assert forall l :: l in pieces ==> '\n' !in l;
    StrippedLinesFree(pieces, '\n');
    StrippedLinesTrimmed(pieces);
    TrimmedLinesRoundTrip(lines);
  }

  /** Long lines of trimmed, newline-free lines survive joining, stripping and splitting. */
  lemma {:induction false} TrimmedLinesRoundTrip(lines: seq<string>)
    requires forall l :: l in lines ==> l != [] && Trimmed(l) && '\n' !in l
    ensures var kept := LongLines(lines);
            (kept == [] ==> JoinLines(kept) == []) &&
            (kept != [] ==> Split(JoinLines(kept), '\n') == kept)
  {
    var kept := LongLines(lines);
    KeptTrimmed(lines);
    JoinTrimmed(kept, '\n');
    if kept != [] {
      forall k | 0 <= k < |kept| ensures '\n' !in kept[k] {
        assert kept[k] in kept;
      }
      SplitJoin(kept, '\n');
    }
  }

  lemma KeptTrimmed(lines: seq<string>)
    requires forall l :: l in lines ==> l != [] && Trimmed(l) && '\n' !in l
    ensures forall l :: l in LongLines(lines) ==> l != [] && Trimmed(l) && '\n' !in l
  {
    LongLinesMembers(lines);
  }

  /**
    * On the Google News fallback path the article is the fallback's lines
    * longer than ten characters, joined and stripped; before the strip,
    * splitting at newlines gives those lines back.
    */
  lemma GoogleFallbackLines(netloc: string, dom: Dom, text: string)
    requires NonEmpty(Selected(SiteOf(netloc), dom)) == []
    ensures var kept := LongLines(Split(text, '\n'));
            GoogleArticle(true, netloc, dom, Some(text)) == Strip(Join(kept, '\n')) &&
            (kept != [] ==> Split(Join(kept, '\n'), '\n') == kept)
  {
    var pieces := Split(text, '\n');
    var kept := LongLines(pieces);
    LongLinesMembers(pieces);
    if kept != [] {
      assert forall k :: 0 <= k < |kept| ==> kept[k] in kept;
      assert forall k :: 0 <= k < |pieces| ==> pieces[k] in pieces;
      SplitJoin(kept, '\n');
    }
  }

  /** A failed download gives empty text. */
  lemma NotFetched(paragraphs: seq<string>, netloc: string, dom: Dom, fallback: Option<string>)
    ensures BingArticle(false, paragraphs, fallback) == [] && GoogleArticle(false, netloc, dom, fallback) == []
  {
  }
}
