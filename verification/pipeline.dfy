/**
  * `apply_technical_indicators`: copy the bar table, look up its price and
  * volume columns under their accepted names, and assign the fifteen
  * derived columns one after another.
  */
module Pipeline {
  import opened Values
  import opened Results
  import opened Windows
  import opened Indicator
  import opened Tables

  /** Accepted column names, the preferred one first (FinMind names before yfinance names). */
  const CloseAliases: seq<string> := ["close", "Close"]
  const HighAliases: seq<string> := ["max", "High"]
  const LowAliases: seq<string> := ["min", "Low"]
  const VolumeAliases: seq<string> := ["Trading_Volume", "Volume"]

  /** The names of the derived columns. */
  const Ma5Name: string := "MA_5"
  const Ma20Name: string := "MA_20"
  const Ma60Name: string := "MA_60"
  const RsiName: string := "RSI_14"
  const MacdLineName: string := "MACD_Line"
  const MacdSignalName: string := "MACD_Signal"
  const MacdHistName: string := "MACD_Hist"
  const HvName: string := "HV_20"
  const BbMidName: string := "BB_MID"
  const BbUpName: string := "BB_UP"
  const BbDownName: string := "BB_DOWN"
  const AtrName: string := "ATR_14"
  const ObvName: string := "OBV"
  const VwapName: string := "VWAP"
  const DivergenceName: string := "Divergence_20"

  /** The derived columns, in the order they are assigned. */
  const IndicatorNames: seq<string> :=
    [Ma5Name, Ma20Name, Ma60Name, RsiName, MacdLineName, MacdSignalName, MacdHistName, HvName,
     BbMidName, BbUpName, BbDownName, AtrName, ObvName, VwapName, DivergenceName]

  /** The input columns the indicators read. */
  datatype Bars = Bars(close: seq<real>, high: seq<real>, low: seq<real>, volume: seq<real>)

  /** One input column: the first alias present, which must hold plain numbers. */
  function Field(t: Table, aliases: seq<string>, field: string): (r: Result<seq<real>, Failure>)
    requires WellFormed(t)
    ensures r == Err(MissingField(field)) <==> forall a :: a in aliases ==> a !in t.names
    ensures r.Err? ==> r.error == MissingField(field) || r.error == NotNumeric(field)
    ensures r.Ok? ==>
              |r.value| == |t.rows| &&
              exists i :: 0 <= i < |aliases| && aliases[i] in t.names &&
                          (forall j :: 0 <= j < i ==> aliases[j] !in t.names) &&
                          Column(t, aliases[i]) == NumberCells(r.value)
  {
    match Resolve(t, aliases)
    case None => Err(MissingField(field))
    case Some(n) =>
      match Numbers(Column(t, n))
      case None => Err(NotNumeric(field))
      case Some(xs) => Ok(xs)
  }

  /**
    * The input columns, or the first exception the engine runs into: the
    * price column (moving averages), the high and low columns (ATR), the
    * one-entry OBV list that cannot be indexed by an empty table, and the
    * volume column (OBV, VWAP).
    */
  function Inputs(t: Table): (r: Result<Bars, Failure>)
    requires WellFormed(t)
    ensures r.Ok? ==>
              |t.rows| > 0 &&
              Field(t, CloseAliases, "close") == Ok(r.value.close) &&
              Field(t, HighAliases, "high") == Ok(r.value.high) &&
              Field(t, LowAliases, "low") == Ok(r.value.low) &&
              Field(t, VolumeAliases, "volume") == Ok(r.value.volume)
    ensures r.Err? <==>
              Field(t, CloseAliases, "close").Err? || Field(t, HighAliases, "high").Err? ||
              Field(t, LowAliases, "low").Err? || |t.rows| == 0 ||
              Field(t, VolumeAliases, "volume").Err?
    ensures Field(t, CloseAliases, "close").Err? ==> r == Err(Field(t, CloseAliases, "close").error)
    ensures (Field(t, CloseAliases, "close").Ok? && Field(t, HighAliases, "high").Ok? &&
             Field(t, LowAliases, "low").Ok? && |t.rows| == 0) ==> r == Err(LengthMismatch)
  {
    match Field(t, CloseAliases, "close")
    case Err(e) => Err(e)
    case Ok(close) =>
      match Field(t, HighAliases, "high")
      case Err(e) => Err(e)
      case Ok(high) =>
        match Field(t, LowAliases, "low")
        case Err(e) => Err(e)
        case Ok(low) =>
          if |t.rows| == 0 then Err(LengthMismatch)
          else
            match Field(t, VolumeAliases, "volume")
            case Err(e) => Err(e)
            case Ok(volume) => Ok(Bars(close, high, low, volume))
  }

  /** `MA_5`, `MA_20`, `MA_60`. */
  function MovingAverageColumns(close: seq<real>): (cs: seq<seq<Cell>>)
    ensures |cs| == 3
    ensures forall k :: 0 <= k < 3 ==> |cs[k]| == |close|
  {
    var price := Lift(close);
    [ValueCells(RollingMean(price, 5)), ValueCells(RollingMean(price, 20)), ValueCells(RollingMean(price, 60))]
  }

  /** `MACD_Line`, `MACD_Signal`, `MACD_Hist`. */
  function MacdColumns(close: seq<real>): (cs: seq<seq<Cell>>)
    ensures |cs| == 3
    ensures forall k :: 0 <= k < 3 ==> |cs[k]| == |close|
  {
    var macd := Macd(close, MacdFast, MacdSlow, MacdSignal);
    [NumberCells(macd.line), NumberCells(macd.signal), NumberCells(macd.hist)]
  }

  /** `BB_MID`, `BB_UP`, `BB_DOWN`. */
  function BollingerColumns(close: seq<real>, sqrt: real -> real): (cs: seq<seq<Cell>>)
    ensures |cs| == 3
    ensures forall k :: 0 <= k < 3 ==> |cs[k]| == |close|
  {
    var bands := Bollinger(close, BollingerWindow, BollingerWidth, sqrt);
    [ValueCells(bands.mid), ValueCells(bands.upper), ValueCells(bands.lower)]
  }

  /** The eleven columns computed from the price alone. */
  function PriceColumns(close: seq<real>, ln: real -> real, sqrt: real -> real): (cs: seq<seq<Cell>>)
    ensures |cs| == 11
    ensures forall k :: 0 <= k < 11 ==> |cs[k]| == |close|
  {
    MovingAverageColumns(close) +
    [ValueCells(Rsi(close, RsiPeriod))] +
    MacdColumns(close) +
    [ValueCells(Hv(close, HvWindow, TradingDays, ln, sqrt))] +
    BollingerColumns(close, sqrt)
  }

  /** The three columns computed from price and volume. */
  function VolumeColumns(close: seq<real>, volume: seq<real>): (cs: seq<seq<Cell>>)
    requires |volume| == |close| && |close| > 0
    ensures |cs| == 3
    ensures forall k :: 0 <= k < 3 ==> |cs[k]| == |close|
  {
    var obv := ObvList(close, volume);
    [NumberCells(obv),
     ValueCells(Vwap(close, volume)),
     FlagCells(Divergence(close, obv, DivergenceWindow))]
  }

  /** All fifteen derived columns, in the order of `IndicatorNames`. */
  function IndicatorColumns(b: Bars, ln: real -> real, sqrt: real -> real): (cs: seq<seq<Cell>>)
    requires |b.close| > 0
    requires |b.high| == |b.close| && |b.low| == |b.close| && |b.volume| == |b.close|
    ensures |cs| == |IndicatorNames|
    ensures forall k :: 0 <= k < |cs| ==> |cs[k]| == |b.close|
  {
    var price := PriceColumns(b.close, ln, sqrt);
    var range := [ValueCells(Atr(b.high, b.low, b.close, AtrPeriod))];
    var volume := VolumeColumns(b.close, b.volume);
    var cs := price + range + volume;
    assert forall k :: 0 <= k < |cs| ==> |cs[k]| == |b.close| by {
      forall k | 0 <= k < |cs| ensures |cs[k]| == |b.close| {
        if k < 11 {
          assert cs[k] == price[k];
        } else if k == 11 {
          assert cs[k] == range[0];
        } else {
          assert cs[k] == volume[k - 12];
        }
      }
    }
    cs
  }

  /** Successive column assignments, in order. */
  function AssignAll(t: Table, names: seq<string>, cols: seq<seq<Cell>>): (r: Table)
    requires WellFormed(t)
    requires |cols| == |names|
    requires forall k :: 0 <= k < |cols| ==> |cols[k]| == |t.rows|
    ensures WellFormed(r) && |r.rows| == |t.rows|
    decreases |names|
  {
    if names == [] then t
    else
      var n := |names| - 1;
      var prev := AssignAll(t, names[..n], cols[..n]);
      WithColumn(prev, names[n], cols[n])
  }

  lemma TakeAll<T>(s: seq<T>)
    ensures s[..|s|] == s
  {
  }

  lemma TakeOneMore<T>(s: seq<T>, k: nat)
    requires k < |s|
    ensures s[..k + 1] == s[..k] + [s[k]]
  {
  }

  /** The column names after successive assignments. */
  function NamesAfterAll(names: seq<string>, added: seq<string>): seq<string>
    decreases |added|
  {
    if added == [] then names
    else NamesAfterAssign(NamesAfterAll(names, added[..|added| - 1]), added[|added| - 1])
  }

  /** `apply_technical_indicators` as a function of its input table. */
  function Augment(t: Table, ln: real -> real, sqrt: real -> real): Result<Table, Failure>
    requires WellFormed(t)
  {
    match Inputs(t)
    case Err(e) => Err(e)
    case Ok(b) => Ok(AssignAll(t, IndicatorNames, IndicatorColumns(b, ln, sqrt)))
  }

  /** One more assignment extends the list of assignments by one. */
  lemma AssignAllSnoc(t: Table, names: seq<string>, cols: seq<seq<Cell>>, name: string, col: seq<Cell>)
    requires WellFormed(t)
    requires |cols| == |names|
    requires forall k :: 0 <= k < |cols| ==> |cols[k]| == |t.rows|
    requires |col| == |t.rows|
    ensures AssignAll(t, names + [name], cols + [col]) == WithColumn(AssignAll(t, names, cols), name, col)
  {
    assert (names + [name])[..|names|] == names;
    assert (cols + [col])[..|cols|] == cols;
  }

  /**
    * After successive assignments of distinct names: each assigned name holds
    * its column, every other column and every row label is as before, and
    * the names are updated as `NamesAfterAll` says.
    */
  lemma {:induction false} AssignAllShape(t: Table, names: seq<string>, cols: seq<seq<Cell>>)
    requires WellFormed(t)
    requires Distinct(names)
    requires |cols| == |names|
    requires forall k :: 0 <= k < |cols| ==> |cols[k]| == |t.rows|
    ensures var r := AssignAll(t, names, cols);
            r.names == NamesAfterAll(t.names, names) &&
            Labels(r.rows) == Labels(t.rows) &&
            (forall k :: 0 <= k < |names| ==> names[k] in r.names && Column(r, names[k]) == cols[k]) &&
            (forall n :: n in t.names && n !in names ==> n in r.names && Column(r, n) == Column(t, n))
    decreases |names|
  {
    if names != [] {
      var n := |names| - 1;
      AssignAllShape(t, names[..n], cols[..n]);
      var prev := AssignAll(t, names[..n], cols[..n]);
      WithColumnShape(prev, names[n], cols[n]);
      forall k | 0 <= k < n ensures names[k] != names[n] && names[k] == names[..n][k] && cols[k] == cols[..n][k] {
      }
    }
  }

  /** Adding names that are all new appends them in order. */
  lemma {:induction false} NamesAfterAllFresh(names: seq<string>, added: seq<string>)
    requires Distinct(added)
    requires forall k :: 0 <= k < |added| ==> added[k] !in names
    ensures NamesAfterAll(names, added) == names + added
    decreases |added|
  {
    if added != [] {
      var n := |added| - 1;
      NamesAfterAllFresh(names, added[..n]);
      assert added[n] !in added[..n];
      assert names + added[..n] + [added[n]] == names + added;
    }
  }

  /** Adding names that are all present leaves the names as they are. */
  lemma {:induction false} NamesAfterAllPresent(names: seq<string>, added: seq<string>)
    requires forall k :: 0 <= k < |added| ==> added[k] in names
    ensures NamesAfterAll(names, added) == names
    decreases |added|
  {
    if added != [] {
      NamesAfterAllPresent(names, added[..|added| - 1]);
    }
  }

  /** Reassigning every name its current column changes nothing. */
  lemma {:induction false} AssignAllUnchanged(t: Table, names: seq<string>, cols: seq<seq<Cell>>)
    requires WellFormed(t)
    requires |cols| == |names|
    requires forall k :: 0 <= k < |cols| ==> |cols[k]| == |t.rows|
    requires forall k :: 0 <= k < |names| ==> names[k] in t.names && Column(t, names[k]) == cols[k]
    ensures AssignAll(t, names, cols) == t
    decreases |names|
  {
    if names != [] {
      var n := |names| - 1;
      AssignAllUnchanged(t, names[..n], cols[..n]);
      AssignUnchanged(t, names[n], cols[n]);
    }
  }

  lemma IndicatorNamesDistinct()
    ensures Distinct(IndicatorNames)
    ensures forall k :: 0 <= k < |IndicatorNames| ==>
              IndicatorNames[k] !in CloseAliases && IndicatorNames[k] !in HighAliases &&
              IndicatorNames[k] !in LowAliases && IndicatorNames[k] !in VolumeAliases
  {
  }

  /**
    * The result keeps every row label in order and every original column
    * that is not a derived name; each derived column holds its indicator;
    * when none of the derived names was present, exactly the fifteen are
    * appended, in order, after the original columns.
    */
  lemma AugmentShape(t: Table, ln: real -> real, sqrt: real -> real)
    requires WellFormed(t)
    requires Augment(t, ln, sqrt).Ok?
    ensures var r := Augment(t, ln, sqrt).value;
            WellFormed(r) &&
            Labels(r.rows) == Labels(t.rows) &&
            r.names == NamesAfterAll(t.names, IndicatorNames) &&
            ((forall k :: 0 <= k < |IndicatorNames| ==> IndicatorNames[k] !in t.names) ==>
               r.names == t.names + IndicatorNames) &&
            (forall n :: n in t.names && n !in IndicatorNames ==> n in r.names && Column(r, n) == Column(t, n)) &&
            (forall k :: 0 <= k < |IndicatorNames| ==>
               IndicatorNames[k] in r.names &&
               Column(r, IndicatorNames[k]) == IndicatorColumns(Inputs(t).value, ln, sqrt)[k])
  {
    IndicatorNamesDistinct();
    var cols := IndicatorColumns(Inputs(t).value, ln, sqrt);
    AssignAllShape(t, IndicatorNames, cols);
    if forall k :: 0 <= k < |IndicatorNames| ==> IndicatorNames[k] !in t.names {
      NamesAfterAllFresh(t.names, IndicatorNames);
    }
  }

  /** Looking up the input columns gives the same answer on the result as on the input. */
  lemma FieldKept(t: Table, r: Table, aliases: seq<string>, field: string)
    requires WellFormed(t) && WellFormed(r)
    requires forall a :: a in aliases ==> (a in t.names <==> a in r.names)
    requires forall a :: a in aliases && a in t.names ==> Column(r, a) == Column(t, a)
    ensures Field(r, aliases, field) == Field(t, aliases, field)
  {
    ResolveKept(t, r, aliases);
    var n := Resolve(t, aliases);
    if n.Some? {
      assert n.value in aliases;
      assert Column(r, n.value) == Column(t, n.value);
    }
  }

  /** Tables that have the same aliases as columns resolve them to the same column. */
  lemma {:induction false} ResolveKept(t: Table, r: Table, aliases: seq<string>)
    requires forall a :: a in aliases ==> (a in t.names <==> a in r.names)
    ensures Resolve(r, aliases) == Resolve(t, aliases)
  {
    if aliases != [] && aliases[0] !in t.names {
      assert forall a :: a in aliases[1..] ==> a in aliases;
      ResolveKept(t, r, aliases[1..]);
    }
  }

  /** Applying the engine to its own output changes nothing: every column is recomputed to the same cells. */
  lemma AugmentIdempotent(t: Table, ln: real -> real, sqrt: real -> real)
    requires WellFormed(t)
    requires Augment(t, ln, sqrt).Ok?
    ensures WellFormed(Augment(t, ln, sqrt).value)
    ensures Augment(Augment(t, ln, sqrt).value, ln, sqrt) == Augment(t, ln, sqrt)
  {
    var r := Augment(t, ln, sqrt).value;
    AugmentShape(t, ln, sqrt);
    IndicatorNamesDistinct();
    NamesAfterAllKeeps(t.names, IndicatorNames);
    FieldKept(t, r, CloseAliases, "close");
    FieldKept(t, r, HighAliases, "high");
    FieldKept(t, r, LowAliases, "low");
    FieldKept(t, r, VolumeAliases, "volume");
    assert |r.rows| == |t.rows|;
    assert Inputs(r) == Inputs(t);
    var cols := IndicatorColumns(Inputs(t).value, ln, sqrt);
    AssignAllUnchanged(r, IndicatorNames, cols);
  }

  /** A name is in the names after assignments iff it was there before or was assigned. */
  lemma {:induction false} NamesAfterAllKeeps(names: seq<string>, added: seq<string>)
    ensures forall n :: n in NamesAfterAll(names, added) <==> n in names || n in added
    decreases |added|
  {
    if added != [] {
      NamesAfterAllKeeps(names, added[..|added| - 1]);
    }
  }

  /**
    * `apply_technical_indicators`: copy the table, then assign the derived
    * columns one by one; an exception aborts with nothing returned.
    */
  method ApplyTechnicalIndicators(t: Table, ln: real -> real, sqrt: real -> real)
    returns (r: Result<Table, Failure>)
    requires WellFormed(t)
    ensures r == Augment(t, ln, sqrt)
  {
    var df := new Frame.Copy(t);
    var priceField := Field(t, CloseAliases, "close");
    if priceField.Err? {
      return Err(priceField.error);
    }
    var close := priceField.value;
    ghost var cols := AssignPriceIndicators(df, t, close, ln, sqrt);
    r := ApplyRangeIndicators(df, t, cols, close, ln, sqrt);
  }

  /** The engine once the price columns are assigned: the ATR needs the high and low columns. */
  method ApplyRangeIndicators(df: Frame, t: Table, ghost cols: seq<seq<Cell>>, close: seq<real>,
                              ln: real -> real, sqrt: real -> real)
    returns (r: Result<Table, Failure>)
    modifies df
    requires WellFormed(t)
    requires Field(t, CloseAliases, "close") == Ok(close)
    requires cols == PriceColumns(close, ln, sqrt)
    requires df.Snapshot() == AssignAll(t, IndicatorNames[..|cols|], cols)
    ensures r == Augment(t, ln, sqrt)
  {
    var highField := Field(t, HighAliases, "high");
    if highField.Err? {
      return Err(highField.error);
    }
    var lowField := Field(t, LowAliases, "low");
    if lowField.Err? {
      return Err(lowField.error);
    }
    var high, low := highField.value, lowField.value;
    var atr := ValueCells(Atr(high, low, close, AtrPeriod));
    assert |cols| == 11 && |atr| == |t.rows|;
    ghost var cols' := Put(df, t, cols, 11, atr);  // df['ATR_14']
    r := ApplyVolumeIndicators(df, t, cols', Bars(close, high, low, []), ln, sqrt);
  }

  /** The engine once the ATR is assigned: OBV, VWAP and the divergence flags need the volume column. */
  method ApplyVolumeIndicators(df: Frame, t: Table, ghost cols: seq<seq<Cell>>, b: Bars,
                               ln: real -> real, sqrt: real -> real)
    returns (r: Result<Table, Failure>)
    modifies df
    requires WellFormed(t)
    requires Field(t, CloseAliases, "close") == Ok(b.close)
    requires Field(t, HighAliases, "high") == Ok(b.high)
    requires Field(t, LowAliases, "low") == Ok(b.low)
    requires cols == PriceColumns(b.close, ln, sqrt) + [ValueCells(Atr(b.high, b.low, b.close, AtrPeriod))]
    requires forall k :: 0 <= k < |cols| ==> |cols[k]| == |t.rows|
    requires df.Snapshot() == AssignAll(t, IndicatorNames[..|cols|], cols)
    ensures r == Augment(t, ln, sqrt)
  {
    var volumeField := Field(t, VolumeAliases, "volume");
    if volumeField.Err? {
      // OBV's one-entry start cannot be indexed by an empty table, before volume is read
      return Err(if |t.rows| == 0 then LengthMismatch else volumeField.error);
    }
    var volume := volumeField.value;
    var err, cols' := AssignVolumeIndicators(df, t, cols, b.close, volume);
    if err.Some? {
      return Err(err.value);
    }
    var bars := b.(volume := volume);
    assert Inputs(t) == Ok(bars);
    TakeAll(IndicatorNames);
    assert cols' == IndicatorColumns(bars, ln, sqrt);
    r := Ok(df.Snapshot());
  }

  /** The eleven columns computed from the price alone, in the order the engine assigns them. */
  method AssignPriceIndicators(df: Frame, ghost t: Table, close: seq<real>, ln: real -> real, sqrt: real -> real)
    returns (ghost cols: seq<seq<Cell>>)
    modifies df
    requires WellFormed(t)
    requires |close| == |t.rows|
    requires df.Snapshot() == t
    ensures cols == PriceColumns(close, ln, sqrt)
    ensures forall k :: 0 <= k < |cols| ==> |cols[k]| == |t.rows|
    ensures df.Snapshot() == AssignAll(t, IndicatorNames[..|cols|], cols)
  {
    cols := AssignMovingAverages(df, t, close);
    cols := Put(df, t, cols, 3, ValueCells(Rsi(close, RsiPeriod)));  // df['RSI_14']
    cols := AssignMacd(df, t, cols, close);
    cols := Put(df, t, cols, 7, ValueCells(Hv(close, HvWindow, TradingDays, ln, sqrt)));  // df['HV_20']
    cols := AssignBollinger(df, t, cols, close, sqrt);
  }

  /**
    * OBV, VWAP and the divergence flags; computing OBV fails on a table
    * without rows.
    */
  method AssignVolumeIndicators(df: Frame, ghost t: Table, ghost cols: seq<seq<Cell>>,
                                close: seq<real>, volume: seq<real>)
    returns (err: Option<Failure>, ghost cols': seq<seq<Cell>>)
    modifies df
    requires WellFormed(t)
    requires |cols| == 12
    requires forall k :: 0 <= k < |cols| ==> |cols[k]| == |t.rows|
    requires |close| == |t.rows| && |volume| == |t.rows|
    requires df.Snapshot() == AssignAll(t, IndicatorNames[..|cols|], cols)
    ensures err.Some? <==> |close| == 0
    ensures err.Some? ==> err.value == LengthMismatch
    ensures err.None? ==> cols' == cols + VolumeColumns(close, volume)
    ensures err.None? ==> forall k :: 0 <= k < |cols'| ==> |cols'[k]| == |t.rows|
    ensures err.None? ==> df.Snapshot() == AssignAll(t, IndicatorNames[..|cols'|], cols')
  {
    cols' := cols;
    var obv := CalculateObv(close, volume);
    if obv.Err? {
      return Some(obv.error), cols';
    }
    cols' := Put(df, t, cols', 12, NumberCells(obv.value));  // df['OBV']
    cols' := Put(df, t, cols', 13, ValueCells(Vwap(close, volume)));  // df['VWAP']
    var divergence := DetectDivergence(close, volume, DivergenceWindow);
    if divergence.Err? {
      assert false;
    }
    cols' := Put(df, t, cols', 14, FlagCells(divergence.value));  // df['Divergence_20']
    err := None;
  }

  /** The three moving averages of the price. */
  method AssignMovingAverages(df: Frame, ghost t: Table, close: seq<real>)
    returns (ghost cols: seq<seq<Cell>>)
    modifies df
    requires WellFormed(t)
    requires |close| == |t.rows|
    requires df.Snapshot() == t
    ensures cols == MovingAverageColumns(close)
    ensures forall k :: 0 <= k < |cols| ==> |cols[k]| == |t.rows|
    ensures df.Snapshot() == AssignAll(t, IndicatorNames[..|cols|], cols)
  {
    var price := Lift(close);
    assert AssignAll(t, IndicatorNames[..0], []) == t;
    cols := Put(df, t, [], 0, ValueCells(RollingMean(price, 5)));  // df['MA_5']
    cols := Put(df, t, cols, 1, ValueCells(RollingMean(price, 20)));  // df['MA_20']
    cols := Put(df, t, cols, 2, ValueCells(RollingMean(price, 60)));  // df['MA_60']
  }

  /** The three MACD lines. */
  method AssignMacd(df: Frame, ghost t: Table, ghost cols: seq<seq<Cell>>, close: seq<real>)
    returns (ghost cols': seq<seq<Cell>>)
    modifies df
    requires WellFormed(t)
    requires |cols| == 4
    requires forall k :: 0 <= k < |cols| ==> |cols[k]| == |t.rows|
    requires |close| == |t.rows|
    requires df.Snapshot() == AssignAll(t, IndicatorNames[..|cols|], cols)
    ensures cols' == cols + MacdColumns(close)
    ensures forall k :: 0 <= k < |cols'| ==> |cols'[k]| == |t.rows|
    ensures df.Snapshot() == AssignAll(t, IndicatorNames[..|cols'|], cols')
  {
    var macd := Macd(close, MacdFast, MacdSlow, MacdSignal);
    cols' := Put(df, t, cols, 4, NumberCells(macd.line));  // df['MACD_Line']
    cols' := Put(df, t, cols', 5, NumberCells(macd.signal));  // df['MACD_Signal']
    cols' := Put(df, t, cols', 6, NumberCells(macd.hist));  // df['MACD_Hist']
  }

  /** The three Bollinger bands. */
  method AssignBollinger(df: Frame, ghost t: Table, ghost cols: seq<seq<Cell>>, close: seq<real>,
                         sqrt: real -> real)
    returns (ghost cols': seq<seq<Cell>>)
    modifies df
    requires WellFormed(t)
    requires |cols| == 8
    requires forall k :: 0 <= k < |cols| ==> |cols[k]| == |t.rows|
    requires |close| == |t.rows|
    requires df.Snapshot() == AssignAll(t, IndicatorNames[..|cols|], cols)
    ensures cols' == cols + BollingerColumns(close, sqrt)
    ensures forall k :: 0 <= k < |cols'| ==> |cols'[k]| == |t.rows|
    ensures df.Snapshot() == AssignAll(t, IndicatorNames[..|cols'|], cols')
  {
    var bands := Bollinger(close, BollingerWindow, BollingerWidth, sqrt);
    cols' := Put(df, t, cols, 8, ValueCells(bands.mid));  // df['BB_MID']
    cols' := Put(df, t, cols', 9, ValueCells(bands.upper));  // df['BB_UP']
    cols' := Put(df, t, cols', 10, ValueCells(bands.lower));  // df['BB_DOWN']
  }

  /**
    * `df[name] = col` for the next derived column: `name` is entry `k` of
    * `IndicatorNames`, the one after the `k` columns assigned so far.
    */
  method Put(df: Frame, ghost t: Table, ghost cols: seq<seq<Cell>>, k: nat, col: seq<Cell>)
    returns (ghost cols': seq<seq<Cell>>)
    modifies df
    requires WellFormed(t)
    requires k == |cols| < |IndicatorNames|
    requires forall k :: 0 <= k < |cols| ==> |cols[k]| == |t.rows|
    requires |col| == |t.rows|
    requires df.Snapshot() == AssignAll(t, IndicatorNames[..|cols|], cols)
    ensures cols' == cols + [col]
    ensures forall k :: 0 <= k < |cols'| ==> |cols'[k]| == |t.rows|
    ensures df.Snapshot() == AssignAll(t, IndicatorNames[..|cols'|], cols')
  {
    var name := IndicatorNames[k];
    ghost var names := IndicatorNames[..k];
    TakeOneMore(IndicatorNames, k);
    AssignAllSnoc(t, names, cols, name, col);
    df.Assign(name, col);
    cols' := cols + [col];
  }
}
