/**
  * The CSV file both news scrapers write their records to:
  * `keyword.replace(' ', '_') + "_news.csv"`, unless the Google News
  * scraper is given an `output_file` that is not empty.
  */
module NewsFiles {
  import opened Results

  const Suffix: string := "_news.csv"

  /** `keyword.replace(' ', '_')`. */
  function Underscored(keyword: string): (r: string)
    ensures |r| == |keyword| && ' ' !in r
    ensures forall i :: 0 <= i < |keyword| ==> r[i] == if keyword[i] == ' ' then '_' else keyword[i]
  {
    if keyword == [] then []
    else [if keyword[0] == ' ' then '_' else keyword[0]] + Underscored(keyword[1..])
  }

  /** The default file name of a scrape for `keyword`. */
  function NewsFile(keyword: string): string
  {
    Underscored(keyword) + Suffix
  }

  /** `output_file` when it is given and not empty, else the default name. */
  function GoogleOutputFile(keyword: string, outputFile: Option<string>): (f: string)
    ensures f != []
    ensures outputFile.Some? && outputFile.value != [] ==> f == outputFile.value
    ensures outputFile.None? || outputFile.value == [] ==> f == NewsFile(keyword)
  {
    if outputFile.Some? && outputFile.value != [] then outputFile.value else NewsFile(keyword)
  }

  // ---------------------------------------------------------------------
  // Properties

  /** The default name is the keyword with its spaces turned into underscores, then `_news.csv`. */
  lemma NewsFileShape(keyword: string)
    ensures var f := NewsFile(keyword);
            |f| == |keyword| + |Suffix| && f[|keyword|..] == Suffix && ' ' !in f
  {
    var u := Underscored(keyword);
    assert NewsFile(keyword)[|keyword|..] == Suffix;
    assert ' ' !in u && ' ' !in Suffix;
  }

  /** Keywords that differ only in spaces versus underscores share one file; others do not. */
  lemma NewsFileSame(a: string, b: string)
    ensures NewsFile(a) == NewsFile(b) <==> Underscored(a) == Underscored(b)
  {
    var ua, ub := Underscored(a), Underscored(b);
    if NewsFile(a) == NewsFile(b) {
      assert |ua| == |ub|;
      assert ua == NewsFile(a)[..|ua|] && ub == NewsFile(b)[..|ub|];
    }
  }

  /** Keywords without underscores are told apart by their file names. */
  lemma NewsFileInjective(a: string, b: string)
    requires '_' !in a && '_' !in b
    requires NewsFile(a) == NewsFile(b)
    ensures a == b
  {
    NewsFileSame(a, b);
    var ua, ub := Underscored(a), Underscored(b);
    forall i | 0 <= i < |a| ensures a[i] == b[i] {
      assert a[i] != '_' && b[i] != '_';
      assert ua[i] == ub[i];
    }
  }
}
