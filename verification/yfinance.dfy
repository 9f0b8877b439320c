/**
  * The yfinance exporter: assemble the fetched price tables under the
  * labels `daily`, `1m_7d` and `intraday`, run the indicator engine on each
  * (the intraday table one interval group at a time), and write one CSV
  * file per label.  What each fetch returned is an input (`None` where it
  * raised); the files written are the output, as `Outcome` values.
  */
module Yfinance {
  import opened Results
  import opened Tables
  import opened Regroup
  import opened Pipeline
  import opened Intraday

  const DailyLabel: string := "daily"
  const MinuteLabel: string := "1m_7d"
  const IntradayLabel: string := "intraday"

  // ---------------------------------------------------------------------
  // Assembling the fetched tables (`get_yfinance_data`)

  /** What the fetches returned: `None` where `history` raised. */
  datatype Fetches = Fetches(daily: Option<Table>, minute: Option<Table>, intraday: seq<Option<Table>>)

  /** A fetch that returned a table with rows and columns (`not df_iv.empty`). */
  predicate Usable(f: Option<Table>)
  {
    f.Some? && !Empty(f.value)
  }

  predicate AllWellFormed(fetches: seq<Option<Table>>)
  {
    forall k :: 0 <= k < |fetches| && fetches[k].Some? ==> WellFormed(fetches[k].value)
  }

  /** Every returned table is well-formed and all of them have the same columns. */
  predicate Compatible(fetches: seq<Option<Table>>)
  {
    AllWellFormed(fetches) &&
    forall k, l :: 0 <= k < |fetches| && 0 <= l < |fetches| && fetches[k].Some? && fetches[l].Some? ==>
                     fetches[k].value.names == fetches[l].value.names
  }

  predicate ValidFetches(fs: Fetches)
  {
    (fs.daily.Some? ==> WellFormed(fs.daily.value)) &&
    (fs.minute.Some? ==> WellFormed(fs.minute.value)) &&
    |fs.intraday| == |IntervalOrder| && Compatible(fs.intraday)
  }

  /** A failed fetch becomes `pd.DataFrame()`. */
  function OrEmpty(f: Option<Table>): (t: Table)
    ensures f.Some? ==> t == f.value
    ensures f.None? ==> Empty(t)
  {
    if f.Some? then f.value else EmptyTable
  }

  /** `df_iv['Interval'] = iv`. */
  function Tag(df: Table, iv: string): (r: Table)
    requires WellFormed(df)
    ensures WellFormed(r) && |r.rows| == |df.rows|
    ensures r.names == NamesAfterAssign(df.names, IntervalColumn)
  {
    WithColumn(df, IntervalColumn, seq(|df.rows|, _ => Text(iv)))
  }

  /**
    * Tagging adds the `Interval` column with `iv` in every row, and leaves
    * the row labels and every other column as they were.
    */
  lemma TagShape(df: Table, iv: string)
    requires WellFormed(df)
    ensures var r := Tag(df, iv);
            IntervalColumn in r.names &&
            Labels(r.rows) == Labels(df.rows) &&
            (forall i :: 0 <= i < |r.rows| ==> TaggedAs(r.rows[i], iv)) &&
            forall n :: n in df.names && n != IntervalColumn ==> n in r.names && Column(r, n) == Column(df, n)
  {
    var col := seq(|df.rows|, _ => Text(iv));
    WithColumnShape(df, IntervalColumn, col);
    var r := Tag(df, iv);
    forall i | 0 <= i < |r.rows| ensures TaggedAs(r.rows[i], iv) {
      assert r.rows[i].cells[IntervalColumn] == Column(r, IntervalColumn)[i];
    }
  }

  /** The positions of the usable fetches, in increasing order. */
  function UsableAt(fetches: seq<Option<Table>>): (ks: seq<nat>)
    ensures forall j :: 0 <= j < |ks| ==> ks[j] < |fetches| && Usable(fetches[ks[j]])
    ensures forall j, l :: 0 <= j < l < |ks| ==> ks[j] < ks[l]
    ensures forall k :: 0 <= k < |fetches| && Usable(fetches[k]) ==> k in ks
  {
    if fetches == [] then []
    else
      var n := |fetches| - 1;
      var init := UsableAt(fetches[..n]);
      assert forall k :: 0 <= k < n ==> fetches[..n][k] == fetches[k];
      init + if Usable(fetches[n]) then [n] else []
  }

  /** The tagged usable fetches, in interval order (the list `intraday`). */
  function TaggedFetches(fetches: seq<Option<Table>>, ivs: seq<string>): seq<Table>
    requires |fetches| == |ivs| && AllWellFormed(fetches)
    decreases |fetches|
  {
    if fetches == [] then []
    else
      var n := |fetches| - 1;
      assert AllWellFormed(fetches[..n]) by {
        assert forall k :: 0 <= k < n ==> fetches[..n][k] == fetches[k];
      }
      TaggedFetches(fetches[..n], ivs[..n]) +
      if Usable(fetches[n]) then [Tag(fetches[n].value, ivs[n])] else []
  }

  /** Tagged table j is the usable fetch at position `UsableAt(fetches)[j]`, tagged with its interval. */
  lemma {:induction false} TaggedFetchesAt(fetches: seq<Option<Table>>, ivs: seq<string>)
    requires |fetches| == |ivs| && AllWellFormed(fetches)
    ensures var ts := TaggedFetches(fetches, ivs);
            var ks := UsableAt(fetches);
            |ts| == |ks| &&
            forall j :: 0 <= j < |ts| ==> ts[j] == Tag(fetches[ks[j]].value, ivs[ks[j]])
    decreases |fetches|
  {
    if fetches != [] {
      var n := |fetches| - 1;
      var fs, vs := fetches[..n], ivs[..n];
      assert forall k :: 0 <= k < n ==> fs[k] == fetches[k] && vs[k] == ivs[k];
      TaggedFetchesAt(fs, vs);
      var ts0, ks0 := TaggedFetches(fs, vs), UsableAt(fs);
      var ts, ks := TaggedFetches(fetches, ivs), UsableAt(fetches);
      assert ts == ts0 + if Usable(fetches[n]) then [Tag(fetches[n].value, ivs[n])] else [];
      assert ks == ks0 + if Usable(fetches[n]) then [n] else [];
      forall j | 0 <= j < |ts| ensures ts[j] == Tag(fetches[ks[j]].value, ivs[ks[j]]) {
        if j < |ts0| {
          assert ts[j] == ts0[j] && ks[j] == ks0[j] && ks0[j] < n;
          assert fetches[ks[j]] == fs[ks0[j]] && ivs[ks[j]] == vs[ks0[j]];
        } else {
          assert ts[j] == Tag(fetches[n].value, ivs[n]) && ks[j] == n;
        }
      }
    }
  }

  /** The tagged tables are well-formed, not empty, share their columns and carry their tags. */
  lemma TaggedFetchesShape(fetches: seq<Option<Table>>, ivs: seq<string>)
    requires |fetches| == |ivs| && Compatible(fetches)
    ensures var ts := TaggedFetches(fetches, ivs);
            var ks := UsableAt(fetches);
            |ts| == |ks| &&
            forall j :: 0 <= j < |ts| ==>
              WellFormed(ts[j]) && ts[j].names == ts[0].names && |ts[j].rows| > 0 &&
              IntervalColumn in ts[j].names &&
              (forall i :: 0 <= i < |ts[j].rows| ==> TaggedAs(ts[j].rows[i], ivs[ks[j]]))
  {
    var ts := TaggedFetches(fetches, ivs);
    var ks := UsableAt(fetches);
    TaggedFetchesAt(fetches, ivs);
    forall j | 0 <= j < |ts|
      ensures WellFormed(ts[j]) && ts[j].names == ts[0].names && |ts[j].rows| > 0
      ensures IntervalColumn in ts[j].names
      ensures forall i :: 0 <= i < |ts[j].rows| ==> TaggedAs(ts[j].rows[i], ivs[ks[j]])
    {
      TagShape(fetches[ks[j]].value, ivs[ks[j]]);
      assert fetches[ks[j]].value.names == fetches[ks[0]].value.names;
    }
  }

  /** `pd.concat(intraday) if intraday else pd.DataFrame()`. */
  function IntradayTable(fetches: seq<Option<Table>>): (t: Table)
    requires |fetches| == |IntervalOrder| && Compatible(fetches)
    ensures WellFormed(t)
  {
    var ts := TaggedFetches(fetches, IntervalOrder);
    if ts == [] then EmptyTable
    else
      TaggedFetchesShape(fetches, IntervalOrder);
      StackWellFormed(ts);
      Stack(ts)
  }

  /** The dictionary `get_yfinance_data` returns, as its items in insertion order. */
  function PriceData(fs: Fetches): seq<(string, Table)>
    requires ValidFetches(fs)
  {
    [(DailyLabel, OrEmpty(fs.daily)), (MinuteLabel, OrEmpty(fs.minute)), (IntradayLabel, IntradayTable(fs.intraday))]
  }

  /** The intervals of the usable fetches, in order. */
  function UsableIntervals(fetches: seq<Option<Table>>): (tags: seq<string>)
    requires |fetches| == |IntervalOrder|
    ensures |tags| == |UsableAt(fetches)|
    ensures forall j :: 0 <= j < |tags| ==> tags[j] == IntervalOrder[UsableAt(fetches)[j]]
  {
    var ks := UsableAt(fetches);
    seq(|ks|, j requires 0 <= j < |ks| => IntervalOrder[ks[j]])
  }

  /** An interval occurs among the usable ones iff its fetch is usable. */
  lemma UsableIntervalsDistinct(fetches: seq<Option<Table>>, k: nat)
    requires |fetches| == |IntervalOrder| && k < |fetches|
    ensures Distinct(UsableIntervals(fetches))
    ensures IntervalOrder[k] in UsableIntervals(fetches) <==> Usable(fetches[k])
  {
    var ks := UsableAt(fetches);
    var tags := UsableIntervals(fetches);
    IntervalOrderDistinct();
    if Usable(fetches[k]) {
      var j :| 0 <= j < |ks| && ks[j] == k;
      assert tags[j] == IntervalOrder[k];
    }
    if IntervalOrder[k] in tags {
      var j :| 0 <= j < |tags| && tags[j] == IntervalOrder[k];
      assert ks[j] == k;
    }
  }

  /** Grouping the assembled table by an interval gives the block of that interval, or nothing. */
  lemma IntradayTableGroup(fetches: seq<Option<Table>>, iv: string)
    requires |fetches| == |IntervalOrder| && Compatible(fetches)
    ensures var t := IntradayTable(fetches);
            var ts := TaggedFetches(fetches, IntervalOrder);
            var tags := UsableIntervals(fetches);
            |ts| == |tags| &&
            (forall j :: 0 <= j < |ts| && tags[j] == iv ==> Group(t.rows, iv) == ts[j].rows) &&
            (iv !in tags ==> Group(t.rows, iv) == [])
  {
    var ts := TaggedFetches(fetches, IntervalOrder);
    var tags := UsableIntervals(fetches);
    TaggedFetchesShape(fetches, IntervalOrder);
    if ts != [] {
      UsableIntervalsDistinct(fetches, 0);
      GroupStack(ts, tags, iv);
    }
  }

  /**
    * Grouping the assembled intraday table by the interval of a usable
    * fetch gives back that fetch with its tag column.
    */
  lemma IntradayTableRegroup(fetches: seq<Option<Table>>, k: nat)
    requires |fetches| == |IntervalOrder| && Compatible(fetches) && k < |fetches|
    requires Usable(fetches[k])
    ensures var t := IntradayTable(fetches);
            !Empty(t) && IntervalColumn in t.names && IntervalOrder[k] in Tags(t.rows) &&
            GroupTable(t, IntervalOrder[k]) == Tag(fetches[k].value, IntervalOrder[k])
  {
    var ts := TaggedFetches(fetches, IntervalOrder);
    var ks := UsableAt(fetches);
    var iv := IntervalOrder[k];
    var t := IntradayTable(fetches);
    TaggedFetchesShape(fetches, IntervalOrder);
    TaggedFetchesAt(fetches, IntervalOrder);
    IntradayTableGroup(fetches, iv);
    var j :| 0 <= j < |ks| && ks[j] == k;
    assert UsableIntervals(fetches)[j] == iv;
    GroupOfTag(t.rows, iv);
    assert t.names == ts[0].names == ts[j].names;
  }

  /** A failed or empty intraday fetch has no rows in the assembled table. */
  lemma IntradayTableDrops(fetches: seq<Option<Table>>, k: nat)
    requires |fetches| == |IntervalOrder| && Compatible(fetches) && k < |fetches|
    requires !Usable(fetches[k])
    ensures Group(IntradayTable(fetches).rows, IntervalOrder[k]) == []
  {
    UsableIntervalsDistinct(fetches, k);
    IntradayTableGroup(fetches, IntervalOrder[k]);
  }

  /**
    * End to end: for every usable intraday fetch, the rows of its interval
    * in the intraday file are the engine's output on that fetch alone (with
    * its tag); an unusable fetch contributes no rows.
    */
  lemma IntradayEndToEnd(fs: Fetches, ln: real -> real, sqrt: real -> real, k: nat)
    requires ValidFetches(fs) && k < |IntervalOrder|
    requires IntradaySpec(IntradayTable(fs.intraday), Engine(ln, sqrt)).Ok?
    requires IntradaySpec(IntradayTable(fs.intraday), Engine(ln, sqrt)).value.Some?
    ensures var out := IntradaySpec(IntradayTable(fs.intraday), Engine(ln, sqrt)).value.value;
            var iv := IntervalOrder[k];
            (Usable(fs.intraday[k]) ==>
               Augment(Tag(fs.intraday[k].value, iv), ln, sqrt).Ok? &&
               Group(out.rows, iv) == Augment(Tag(fs.intraday[k].value, iv), ln, sqrt).value.rows) &&
            (!Usable(fs.intraday[k]) ==> Group(out.rows, iv) == [])
  {
    var t := IntradayTable(fs.intraday);
    var iv := IntervalOrder[k];
    if Usable(fs.intraday[k]) {
      IntradayTableRegroup(fs.intraday, k);
      IntradayRegroup(t, Engine(ln, sqrt));
    } else {
      IntradayTableDrops(fs.intraday, k);
      GroupOfTag(t.rows, iv);
      IntradayDropsOthers(t, Engine(ln, sqrt));
    }
  }

  /** The loop of `get_yfinance_data` over the intervals: tag and keep each usable fetch. */
  method TagIntraday(fetches: seq<Option<Table>>) returns (intraday: seq<Table>)
    requires |fetches| == |IntervalOrder| && AllWellFormed(fetches)
    ensures intraday == TaggedFetches(fetches, IntervalOrder)
  {
    intraday := [];
    for k := 0 to |IntervalOrder|
      invariant AllWellFormed(fetches[..k])
      invariant intraday == TaggedFetches(fetches[..k], IntervalOrder[..k])
    {
      var fetched := fetches[k];
      assert fetches[..k + 1][..k] == fetches[..k];
      assert IntervalOrder[..k + 1][..k] == IntervalOrder[..k];
      if fetched.Some? && !Empty(fetched.value) {
        var frame := new Frame.Copy(fetched.value);
        frame.Assign(IntervalColumn, seq(|fetched.value.rows|, _ => Text(IntervalOrder[k])));
        intraday := intraday + [frame.Snapshot()];
      }
    }
    assert fetches[..|IntervalOrder|] == fetches;
    assert IntervalOrder[..|IntervalOrder|] == IntervalOrder;
  }

  /** `get_yfinance_data`: try each fetch, tag and collect the usable intraday ones, then concatenate. */
  method GetYfinanceData(fs: Fetches) returns (result: seq<(string, Table)>)
    requires ValidFetches(fs)
    ensures result == PriceData(fs)
  {
    result := [(DailyLabel, OrEmpty(fs.daily)), (MinuteLabel, OrEmpty(fs.minute))];
    var intraday := TagIntraday(fs.intraday);
    if intraday == [] {
      result := result + [(IntradayLabel, EmptyTable)];
    } else {
      TaggedFetchesShape(fs.intraday, IntervalOrder);
      result := result + [(IntradayLabel, Stack(intraday))];
    }
  }

  // ---------------------------------------------------------------------
  // One CSV file per label (`yfinance_data`)

  /** What happens to one label: a file written with a table, the label skipped, or an exception logged. */
  datatype Outcome = Written(file: string, table: Table) | Skipped | Failed

  /** `f"yfinance_{stock_id}_{label}.csv"`. */
  function FileName(stockId: string, name: string): string
  {
    "yfinance_" + stockId + "_" + name + ".csv"
  }

  /** Distinct labels of one stock are written to distinct files. */
  lemma FileNameInjective(stockId: string, a: string, b: string)
    requires FileName(stockId, a) == FileName(stockId, b)
    ensures a == b
  {
    var pre := "yfinance_" + stockId + "_";
    var fa, fb := FileName(stockId, a), FileName(stockId, b);
    assert |a| == |b|;
    assert fa == pre + a + ".csv" && fb == pre + b + ".csv";
    forall i | 0 <= i < |a| ensures a[i] == b[i] {
      assert fa[|pre| + i] == a[i];
      assert fb[|pre| + i] == b[i];
    }
  }

  /** The outcome of one label of `yfinance_data`. */
  function LabelOutcome(stockId: string, name: string, df: Table, engine: Table --> Result<Table, Failure>): Outcome
    requires WellFormed(df) && Processes(engine)
  {
    if Empty(df) then Skipped
    else if name == IntradayLabel then
      match IntradaySpec(df, engine)
      case Err(_) => Failed
      case Ok(None) => Skipped
      case Ok(Some(t)) => Written(FileName(stockId, name), t)
    else
      match engine(df)
      case Err(_) => Failed
      case Ok(t) => Written(FileName(stockId, name), t)
  }

  /**
    * A label other than `intraday` is processed whole: it is written exactly
    * when the table is not empty and the engine succeeds, and then its file
    * holds the engine's output on the whole table; an empty table is skipped.
    */
  lemma WholeLabel(stockId: string, name: string, df: Table, engine: Table --> Result<Table, Failure>)
    requires WellFormed(df) && Processes(engine) && name != IntradayLabel
    ensures LabelOutcome(stockId, name, df, engine).Written? <==> !Empty(df) && engine(df).Ok?
    ensures LabelOutcome(stockId, name, df, engine).Written? ==>
              LabelOutcome(stockId, name, df, engine) == Written(FileName(stockId, name), engine(df).value)
    ensures LabelOutcome(stockId, name, df, engine).Skipped? <==> Empty(df)
  {
  }

  /**
    * The intraday label is written exactly when the table is not empty, has
    * an `Interval` column, the engine succeeds on every group and at least
    * one listed interval occurs.
    */
  lemma IntradayLabelWritten(stockId: string, df: Table, engine: Table --> Result<Table, Failure>)
    requires WellFormed(df) && Processes(engine)
    ensures LabelOutcome(stockId, IntradayLabel, df, engine).Written? <==>
              !Empty(df) && IntervalColumn in df.names &&
              (forall iv :: iv in Tags(df.rows) ==> engine(GroupTable(df, iv)).Ok?) &&
              exists iv :: iv in IntervalOrder && iv in Tags(df.rows)
  {
    IntradayFails(df, engine);
    IntradaySkips(df, engine);
  }

  /** One pass of the loop of `yfinance_data`. */
  method ExportLabel(stockId: string, name: string, df: Table, ln: real -> real, sqrt: real -> real)
    returns (outcome: Outcome)
    requires WellFormed(df)
    ensures outcome == LabelOutcome(stockId, name, df, Engine(ln, sqrt))
  {
    if Empty(df) {
      return Skipped;
    }
    if name == IntradayLabel {
      var r := RegroupIntraday(df, ln, sqrt);
      match r
      case Err(_) => outcome := Failed;
      case Ok(None) => outcome := Skipped;
      case Ok(Some(t)) => outcome := Written(FileName(stockId, name), t);
    } else {
      var r := ApplyTechnicalIndicators(df, ln, sqrt);
      match r
      case Err(_) => outcome := Failed;
      case Ok(t) => outcome := Written(FileName(stockId, name), t);
    }
  }

  /** The outcomes of the labels, in order. */
  function Outcomes(stockId: string, items: seq<(string, Table)>, engine: Table --> Result<Table, Failure>)
    : (os: seq<Outcome>)
    requires (forall i :: 0 <= i < |items| ==> WellFormed(items[i].1)) && Processes(engine)
    ensures |os| == |items|
    decreases |items|
  {
    if items == [] then []
    else
      var n := |items| - 1;
      Outcomes(stockId, items[..n], engine) + [LabelOutcome(stockId, items[n].0, items[n].1, engine)]
  }

  /** Each label's outcome depends on that label's table alone. */
  lemma {:induction false} OutcomeAt(stockId: string, items: seq<(string, Table)>, engine: Table --> Result<Table, Failure>, i: nat)
    requires (forall i :: 0 <= i < |items| ==> WellFormed(items[i].1)) && Processes(engine)
    requires i < |items|
    ensures Outcomes(stockId, items, engine)[i] == LabelOutcome(stockId, items[i].0, items[i].1, engine)
    decreases |items|
  {
    var n := |items| - 1;
    if i < n {
      OutcomeAt(stockId, items[..n], engine, i);
      assert items[..n][i] == items[i];
    }
  }

  /** The loop of `yfinance_data`: every label is handled on its own; a failure is logged and the loop goes on. */
  method ExportAll(stockId: string, priceData: seq<(string, Table)>, ln: real -> real, sqrt: real -> real)
    returns (outcomes: seq<Outcome>)
    requires forall i :: 0 <= i < |priceData| ==> WellFormed(priceData[i].1)
    ensures outcomes == Outcomes(stockId, priceData, Engine(ln, sqrt))
  {
    outcomes := [];
    for i := 0 to |priceData|
      invariant outcomes == Outcomes(stockId, priceData[..i], Engine(ln, sqrt))
    {
      var outcome := ExportLabel(stockId, priceData[i].0, priceData[i].1, ln, sqrt);
      assert priceData[..i + 1][..i] == priceData[..i];
      outcomes := outcomes + [outcome];
    }
    assert priceData[..|priceData|] == priceData;
  }

  /**
    * `yfinance_data`: assemble the fetched tables, then export every label;
    * each file depends on its own label's table alone.
    */
  method YfinanceData(stockId: string, fs: Fetches, ln: real -> real, sqrt: real -> real)
    returns (outcomes: seq<Outcome>)
    requires ValidFetches(fs)
    ensures |outcomes| == 3
    ensures outcomes[0] == LabelOutcome(stockId, DailyLabel, OrEmpty(fs.daily), Engine(ln, sqrt))
    ensures outcomes[1] == LabelOutcome(stockId, MinuteLabel, OrEmpty(fs.minute), Engine(ln, sqrt))
    ensures outcomes[2] == LabelOutcome(stockId, IntradayLabel, IntradayTable(fs.intraday), Engine(ln, sqrt))
  {
    var priceData := GetYfinanceData(fs);
    outcomes := ExportAll(stockId, priceData, ln, sqrt);
    OutcomeAt(stockId, priceData, Engine(ln, sqrt), 0);
    OutcomeAt(stockId, priceData, Engine(ln, sqrt), 1);
    OutcomeAt(stockId, priceData, Engine(ln, sqrt), 2);
  }
}
