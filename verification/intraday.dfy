/**
  * The intraday branch of the yfinance exporter: split the intraday table
  * by its `Interval` tag, run the indicator engine on every group on its
  * own, and put the groups of the listed intervals back together in the
  * fixed order 5m, 15m, 30m, 60m.
  *
  * The regrouping is stated for any engine that keeps the shape of its
  * input (`Processes`); `Engine` is the indicator engine itself, and
  * `AugmentKeepsShape` shows that it is one.
  */
module Intraday {
  import opened Results
  import opened Tables
  import opened Regroup
  import opened Pipeline

  /** The intraday intervals, in the order they are fetched and reassembled. */
  const IntervalOrder: seq<string> := ["5m", "15m", "30m", "60m"]

  lemma IntervalOrderDistinct()
    ensures Distinct(IntervalOrder)
  {
  }

  lemma IntervalNotDerived()
    ensures IntervalColumn !in IndicatorNames
  {
  }

  /**
    * What a successful run of the engine keeps: every column (the derived
    * ones added), every row with its label, and every row's interval tag;
    * and it never succeeds on a table without rows.
    */
  predicate KeepsShape(t: Table, r: Table)
  {
    WellFormed(r) && r.names == NamesAfterAll(t.names, IndicatorNames) &&
    |r.rows| == |t.rows| > 0 &&
    forall i :: 0 <= i < |t.rows| ==>
      r.rows[i].index == t.rows[i].index &&
      (IntervalColumn in t.rows[i].cells ==>
         IntervalColumn in r.rows[i].cells && r.rows[i].cells[IntervalColumn] == t.rows[i].cells[IntervalColumn])
  }

  /** An engine defined on every well-formed table that keeps the shape of what it processes. */
  ghost predicate Processes(engine: Table --> Result<Table, Failure>)
  {
    (forall t {:trigger engine.requires(t)} :: WellFormed(t) ==> engine.requires(t)) &&
    (forall t {:trigger engine(t)} :: WellFormed(t) && engine.requires(t) && engine(t).Ok? ==> KeepsShape(t, engine(t).value))
  }

  /** `apply_technical_indicators` keeps the shape of the table it is given. */
  lemma AugmentKeepsShape(ln: real -> real, sqrt: real -> real)
    ensures forall t :: WellFormed(t) && Augment(t, ln, sqrt).Ok? ==> KeepsShape(t, Augment(t, ln, sqrt).value)
  {
    forall t | WellFormed(t) && Augment(t, ln, sqrt).Ok? ensures KeepsShape(t, Augment(t, ln, sqrt).value) {
      var r := Augment(t, ln, sqrt).value;
      AugmentShape(t, ln, sqrt);
      IntervalNotDerived();
      assert Inputs(t).Ok?;
      assert |r.rows| == |t.rows| by {
        assert |Labels(r.rows)| == |Labels(t.rows)|;
      }
      forall i | 0 <= i < |t.rows|
        ensures r.rows[i].index == t.rows[i].index
        ensures IntervalColumn in t.rows[i].cells ==>
                  IntervalColumn in r.rows[i].cells && r.rows[i].cells[IntervalColumn] == t.rows[i].cells[IntervalColumn]
      {
        assert Labels(r.rows)[i] == Labels(t.rows)[i];
        if IntervalColumn in t.rows[i].cells {
          assert IntervalColumn in t.names;
          assert Column(r, IntervalColumn)[i] == Column(t, IntervalColumn)[i];
        }
      }
    }
  }

  /** The indicator engine as a function value. */
  function Engine(ln: real -> real, sqrt: real -> real): (engine: Table --> Result<Table, Failure>)
    ensures Processes(engine)
    ensures forall t :: WellFormed(t) ==> engine(t) == Augment(t, ln, sqrt)
  {
    AugmentKeepsShape(ln, sqrt);
    t requires WellFormed(t) => Augment(t, ln, sqrt)
  }

  // ---------------------------------------------------------------------
  // Group, compute, reorder

  /** `temp_processed_dfs`: the engine's output for each group, or the first exception. */
  function ProcessGroups(df: Table, tags: seq<string>, engine: Table --> Result<Table, Failure>)
    : Result<map<string, Table>, Failure>
    requires WellFormed(df) && Processes(engine)
    decreases |tags|
  {
    if tags == [] then Ok(map[])
    else
      var n := |tags| - 1;
      match ProcessGroups(df, tags[..n], engine)
      case Err(e) => Err(e)
      case Ok(m) =>
        match engine(GroupTable(df, tags[n]))
        case Err(e) => Err(e)
        case Ok(g) => Ok(m[tags[n] := g])
  }

  /** Processing the groups fails iff the engine fails on one of them. */
  lemma {:induction false} ProcessGroupsFails(df: Table, tags: seq<string>, engine: Table --> Result<Table, Failure>)
    requires WellFormed(df) && Processes(engine)
    ensures ProcessGroups(df, tags, engine).Err? <==>
              exists s :: s in tags && engine(GroupTable(df, s)).Err?
    decreases |tags|
  {
    if tags != [] {
      var n := |tags| - 1;
      ProcessGroupsFails(df, tags[..n], engine);
      assert tags == tags[..n] + [tags[n]];
    }
  }

  /** On success there is one entry per tag: the engine's output for that tag's group alone. */
  lemma {:induction false} ProcessGroupsEntries(df: Table, tags: seq<string>, engine: Table --> Result<Table, Failure>)
    requires WellFormed(df) && Processes(engine)
    requires ProcessGroups(df, tags, engine).Ok?
    ensures var m := ProcessGroups(df, tags, engine).value;
            (forall s :: s in m <==> s in tags) &&
            (forall s :: s in m ==> engine(GroupTable(df, s)) == Ok(m[s]))
    decreases |tags|
  {
    if tags != [] {
      var n := |tags| - 1;
      ProcessGroupsEntries(df, tags[..n], engine);
      assert tags == tags[..n] + [tags[n]];
    }
  }

  /**
    * The engine's output for one group: the columns of the whole table plus
    * the derived ones, as many rows as the group, each still tagged with the
    * group's interval.
    */
  lemma ProcessedGroup(df: Table, iv: string, engine: Table --> Result<Table, Failure>)
    requires WellFormed(df) && Processes(engine)
    requires engine(GroupTable(df, iv)).Ok?
    ensures var r := engine(GroupTable(df, iv)).value;
            WellFormed(r) && r.names == NamesAfterAll(df.names, IndicatorNames) &&
            |r.rows| == |Group(df.rows, iv)| > 0 &&
            forall i :: 0 <= i < |r.rows| ==> TaggedAs(r.rows[i], iv)
  {
    var g := GroupTable(df, iv);
    var r := engine(g).value;
    assert KeepsShape(g, r);
    GroupMembers(df.rows, iv);
    forall i | 0 <= i < |r.rows| ensures TaggedAs(r.rows[i], iv) {
      assert g.rows[i] in Group(df.rows, iv);
    }
  }

  /** The processed groups picked by the fixed order, with what is known of each. */
  lemma OrderedGroups(df: Table, m: map<string, Table>, engine: Table --> Result<Table, Failure>)
    requires WellFormed(df) && Processes(engine)
    requires ProcessGroups(df, Tags(df.rows), engine) == Ok(m)
    ensures var ts := Ordered(m, IntervalOrder);
            var p := Present(m.Keys, IntervalOrder);
            Distinct(p) &&
            (forall s :: s in p <==> s in IntervalOrder && s in Tags(df.rows)) &&
            (forall k, l :: 0 <= k < l < |p| ==> IndexOf(IntervalOrder, p[k]) < IndexOf(IntervalOrder, p[l])) &&
            forall k :: 0 <= k < |ts| ==>
              engine(GroupTable(df, p[k])) == Ok(ts[k]) &&
              WellFormed(ts[k]) && ts[k].names == NamesAfterAll(df.names, IndicatorNames) &&
              |ts[k].rows| > 0 &&
              forall i :: 0 <= i < |ts[k].rows| ==> TaggedAs(ts[k].rows[i], p[k])
  {
    ProcessGroupsEntries(df, Tags(df.rows), engine);
    IntervalOrderDistinct();
    var ts := Ordered(m, IntervalOrder);
    var p := Present(m.Keys, IntervalOrder);
    forall k | 0 <= k < |ts|
      ensures engine(GroupTable(df, p[k])) == Ok(ts[k])
      ensures WellFormed(ts[k]) && ts[k].names == NamesAfterAll(df.names, IndicatorNames)
      ensures |ts[k].rows| > 0
      ensures forall i :: 0 <= i < |ts[k].rows| ==> TaggedAs(ts[k].rows[i], p[k])
    {
      assert p[k] in p;
      ProcessedGroup(df, p[k], engine);
    }
  }

  /**
    * The intraday branch of `yfinance_data`: group by `Interval`, run the
    * engine on every group, keep the listed intervals in the fixed order and
    * concatenate them.  `Ok(None)` means nothing is written.
    */
  function IntradaySpec(df: Table, engine: Table --> Result<Table, Failure>): Result<Option<Table>, Failure>
    requires WellFormed(df) && Processes(engine)
  {
    if IntervalColumn !in df.names then Err(MissingField(IntervalColumn))
    else
      match ProcessGroups(df, Tags(df.rows), engine)
      case Err(e) => Err(e)
      case Ok(m) =>
        var ordered := Ordered(m, IntervalOrder);
        if ordered == [] then Ok(None)
        else
          OrderedGroups(df, m, engine);
          var out := Stack(ordered);
          if Empty(out) then Ok(None) else Ok(Some(out))
  }

  /**
    * Regrouping the reassembled table gives, for each listed interval that
    * occurs, exactly the engine's output on that interval's rows alone.
    */
  lemma IntradayRegroup(df: Table, engine: Table --> Result<Table, Failure>)
    requires WellFormed(df) && Processes(engine)
    requires IntradaySpec(df, engine).Ok? && IntradaySpec(df, engine).value.Some?
    ensures var out := IntradaySpec(df, engine).value.value;
            forall iv :: iv in IntervalOrder && iv in Tags(df.rows) ==>
              engine(GroupTable(df, iv)).Ok? && Group(out.rows, iv) == engine(GroupTable(df, iv)).value.rows
  {
    var m := ProcessGroups(df, Tags(df.rows), engine).value;
    var ts := Ordered(m, IntervalOrder);
    var p := Present(m.Keys, IntervalOrder);
    OrderedGroups(df, m, engine);
    var out := IntradaySpec(df, engine).value.value;
    assert out.rows == StackRows(ts);
    forall iv | iv in IntervalOrder && iv in Tags(df.rows)
      ensures engine(GroupTable(df, iv)).Ok?
      ensures Group(out.rows, iv) == engine(GroupTable(df, iv)).value.rows
    {
      GroupStack(ts, p, iv);
      var k :| 0 <= k < |p| && p[k] == iv;
    }
  }

  /** An interval that is not listed, or does not occur, has no rows in the reassembled table. */
  lemma IntradayDropsOthers(df: Table, engine: Table --> Result<Table, Failure>)
    requires WellFormed(df) && Processes(engine)
    requires IntradaySpec(df, engine).Ok? && IntradaySpec(df, engine).value.Some?
    ensures var out := IntradaySpec(df, engine).value.value;
            forall iv :: iv !in IntervalOrder || iv !in Tags(df.rows) ==> Group(out.rows, iv) == []
  {
    var m := ProcessGroups(df, Tags(df.rows), engine).value;
    var ts := Ordered(m, IntervalOrder);
    var p := Present(m.Keys, IntervalOrder);
    OrderedGroups(df, m, engine);
    var out := IntradaySpec(df, engine).value.value;
    assert out.rows == StackRows(ts);
    forall iv | iv !in IntervalOrder || iv !in Tags(df.rows)
      ensures Group(out.rows, iv) == []
    {
      GroupStack(ts, p, iv);
    }
  }

  /** Every row of the reassembled table carries one of the listed intervals. */
  lemma IntradayRowsListed(df: Table, engine: Table --> Result<Table, Failure>)
    requires WellFormed(df) && Processes(engine)
    requires IntradaySpec(df, engine).Ok? && IntradaySpec(df, engine).value.Some?
    ensures var out := IntradaySpec(df, engine).value.value;
            forall i :: 0 <= i < |out.rows| ==> TaggedAny(out.rows[i], IntervalOrder)
  {
    var m := ProcessGroups(df, Tags(df.rows), engine).value;
    var ts := Ordered(m, IntervalOrder);
    var p := Present(m.Keys, IntervalOrder);
    OrderedGroups(df, m, engine);
    StackRowsTagged(ts, p);
    var out := IntradaySpec(df, engine).value.value;
    forall i | 0 <= i < |out.rows| ensures TaggedAny(out.rows[i], IntervalOrder) {
      assert out.rows == StackRows(ts);
      assert TaggedAny(out.rows[i], p);
      var j :| 0 <= j < |p| && TaggedAs(out.rows[i], p[j]);
      assert p[j] in p;
      var k :| 0 <= k < |IntervalOrder| && IntervalOrder[k] == p[j];
    }
  }

  /** The row carries one of the tags. */
  predicate TaggedAny(r: Row, tags: seq<string>)
  {
    exists j :: 0 <= j < |tags| && TaggedAs(r, tags[j])
  }

  /** Every stacked row carries the tag of the block it came from. */
  lemma {:induction false} StackRowsTagged(ts: seq<Table>, tags: seq<string>)
    requires |ts| == |tags|
    requires forall j, i :: 0 <= j < |ts| && 0 <= i < |ts[j].rows| ==> TaggedAs(ts[j].rows[i], tags[j])
    ensures forall i :: 0 <= i < |StackRows(ts)| ==> TaggedAny(StackRows(ts)[i], tags)
  {
    if ts != [] {
      var rest := StackRows(ts[1..]);
      assert StackRows(ts) == ts[0].rows + rest;
      forall j, i | 0 <= j < |ts[1..]| && 0 <= i < |ts[1..][j].rows| ensures TaggedAs(ts[1..][j].rows[i], tags[1..][j]) {
        assert ts[1..][j] == ts[j + 1];
      }
      StackRowsTagged(ts[1..], tags[1..]);
      forall i | 0 <= i < |StackRows(ts)| ensures TaggedAny(StackRows(ts)[i], tags) {
        if i < |ts[0].rows| {
          assert StackRows(ts)[i] == ts[0].rows[i];
          assert TaggedAs(StackRows(ts)[i], tags[0]);
        } else {
          assert StackRows(ts)[i] == rest[i - |ts[0].rows|];
          assert TaggedAny(rest[i - |ts[0].rows|], tags[1..]);
          var j :| 0 <= j < |tags[1..]| && TaggedAs(rest[i - |ts[0].rows|], tags[1..][j]);
          assert tags[1..][j] == tags[j + 1];
        }
      }
    }
  }

  /** Every row of an earlier tag of `tags` comes before every row of a later one. */
  predicate InTagOrder(rows: seq<Row>, tags: seq<string>)
  {
    forall a, b, i, j ::
      (0 <= a < b < |tags| && 0 <= i < |rows| && 0 <= j < |rows| &&
       TaggedAs(rows[i], tags[a]) && TaggedAs(rows[j], tags[b])) ==> i < j
  }

  /**
    * The reassembled table holds the intervals in the fixed order: every
    * row of an earlier listed interval comes before every row of a later one.
    */
  lemma IntradayOrder(df: Table, engine: Table --> Result<Table, Failure>)
    requires WellFormed(df) && Processes(engine)
    requires IntradaySpec(df, engine).Ok? && IntradaySpec(df, engine).value.Some?
    ensures InTagOrder(IntradaySpec(df, engine).value.value.rows, IntervalOrder)
  {
    var m := ProcessGroups(df, Tags(df.rows), engine).value;
    var ts := Ordered(m, IntervalOrder);
    var p := Present(m.Keys, IntervalOrder);
    OrderedGroups(df, m, engine);
    IntervalOrderDistinct();
    assert IntradaySpec(df, engine).value.value.rows == StackRows(ts);
    StackRowsTagged(ts, p);
    StackRowsOrdered(ts, p);
    TagOrderTransfer(StackRows(ts), p, IntervalOrder);
  }

  /**
    * Rows in the order of `p`, each tagged with a tag of `p`, are in the
    * order of `order` when `p` lists its tags in the order of `order`.
    */
  lemma TagOrderTransfer(rows: seq<Row>, p: seq<string>, order: seq<string>)
    requires Distinct(order) && InTagOrder(rows, p)
    requires forall s :: s in p ==> s in order
    requires forall k, l :: 0 <= k < l < |p| ==> IndexOf(order, p[k]) < IndexOf(order, p[l])
    requires forall i :: 0 <= i < |rows| ==> TaggedAny(rows[i], p)
    ensures InTagOrder(rows, order)
  {
    forall a, b, i, j |
      0 <= a < b < |order| && 0 <= i < |rows| && 0 <= j < |rows| &&
      TaggedAs(rows[i], order[a]) && TaggedAs(rows[j], order[b])
      ensures i < j
    {
      var k :| 0 <= k < |p| && TaggedAs(rows[i], p[k]);
      var l :| 0 <= l < |p| && TaggedAs(rows[j], p[l]);
      assert p[k] in p && p[l] in p;
      assert IndexOf(order, p[k]) == a && IndexOf(order, p[l]) == b;
    }
  }

  /** Stacked blocks wholly tagged with distinct tags are in the order of their tags. */
  lemma {:induction false} StackRowsOrdered(ts: seq<Table>, tags: seq<string>)
    requires |ts| == |tags| && Distinct(tags)
    requires forall j, i :: 0 <= j < |ts| && 0 <= i < |ts[j].rows| ==> TaggedAs(ts[j].rows[i], tags[j])
    ensures InTagOrder(StackRows(ts), tags)
  {
    if ts != [] {
      var rows, rest, n := StackRows(ts), StackRows(ts[1..]), |ts[0].rows|;
      assert rows == ts[0].rows + rest;
      forall j, i | 0 <= j < |ts[1..]| && 0 <= i < |ts[1..][j].rows| ensures TaggedAs(ts[1..][j].rows[i], tags[1..][j]) {
        assert ts[1..][j] == ts[j + 1];
      }
      DistinctTail(tags);
      StackRowsTagged(ts[1..], tags[1..]);
      StackRowsOrdered(ts[1..], tags[1..]);
      forall a, b, i, j |
        0 <= a < b < |tags| && 0 <= i < |rows| && 0 <= j < |rows| &&
        TaggedAs(rows[i], tags[a]) && TaggedAs(rows[j], tags[b])
        ensures i < j
      {
        if i >= n && j >= n {
          StackRowsOrderedStep(rest, tags, a, b, i - n, j - n);
        }
      }
    }
  }

  /** The inductive step of `StackRowsOrdered`, for two rows of the later blocks. */
  lemma StackRowsOrderedStep(rest: seq<Row>, tags: seq<string>, a: nat, b: nat, i: nat, j: nat)
    requires Distinct(tags) && a < b < |tags| && i < |rest| && j < |rest|
    requires InTagOrder(rest, tags[1..])
    requires forall k :: 0 <= k < |rest| ==> TaggedAny(rest[k], tags[1..])
    requires TaggedAs(rest[i], tags[a]) && TaggedAs(rest[j], tags[b])
    ensures i < j
  {
    var k :| 0 <= k < |tags[1..]| && TaggedAs(rest[i], tags[1..][k]);
    assert tags[1..][k] == tags[k + 1];
    assert a == k + 1;
    assert tags[1..][a - 1] == tags[a] && tags[1..][b - 1] == tags[b];
  }

  /** The intraday label fails exactly when there is no `Interval` column or the engine fails on some group. */
  lemma IntradayFails(df: Table, engine: Table --> Result<Table, Failure>)
    requires WellFormed(df) && Processes(engine)
    ensures IntradaySpec(df, engine).Err? <==>
              IntervalColumn !in df.names ||
              exists iv :: iv in Tags(df.rows) && engine(GroupTable(df, iv)).Err?
  {
    ProcessGroupsFails(df, Tags(df.rows), engine);
  }

  /**
    * The intraday label writes nothing exactly when every group succeeds
    * but none of the listed intervals occurs.
    */
  lemma IntradaySkips(df: Table, engine: Table --> Result<Table, Failure>)
    requires WellFormed(df) && Processes(engine)
    ensures IntradaySpec(df, engine) == Ok(None) <==>
              IntervalColumn in df.names &&
              (forall iv :: iv in Tags(df.rows) ==> engine(GroupTable(df, iv)).Ok?) &&
              (forall iv :: iv in IntervalOrder ==> iv !in Tags(df.rows))
  {
    var tags := Tags(df.rows);
    IntradayFails(df, engine);
    if IntervalColumn in df.names && ProcessGroups(df, tags, engine).Ok? {
      var m := ProcessGroups(df, tags, engine).value;
      OrderedGroups(df, m, engine);
      var ts := Ordered(m, IntervalOrder);
      var p := Present(m.Keys, IntervalOrder);
      if ts != [] {
        assert StackRows(ts) == ts[0].rows + StackRows(ts[1..]);
        NamesAfterAllKeeps(df.names, IndicatorNames);
        assert IndicatorNames[0] in ts[0].names;
        assert p[0] in p;
      } else {
        assert p == [];
      }
    }
  }

  /** One more group: the definition of `ProcessGroups` on a prefix of the tags. */
  lemma ProcessGroupsStep(df: Table, tags: seq<string>, i: nat, engine: Table --> Result<Table, Failure>)
    requires WellFormed(df) && Processes(engine) && i < |tags|
    ensures var before := ProcessGroups(df, tags[..i], engine);
            var g := engine(GroupTable(df, tags[i]));
            ProcessGroups(df, tags[..i + 1], engine) ==
              if before.Err? then before
              else if g.Err? then Err(g.error)
              else Ok(before.value[tags[i] := g.value])
  {
    assert tags[..i + 1][..i] == tags[..i];
    assert tags[..i + 1][i] == tags[i];
  }

  /** The loop of `yfinance_data` over the groups, filling `temp_processed_dfs`. */
  method ProcessAll(df: Table, tags: seq<string>, ln: real -> real, sqrt: real -> real)
    returns (r: Result<map<string, Table>, Failure>)
    requires WellFormed(df)
    ensures r == ProcessGroups(df, tags, Engine(ln, sqrt))
  {
    ghost var engine := Engine(ln, sqrt);
    var processed: map<string, Table> := map[];
    var i := 0;
    while i < |tags|
      invariant 0 <= i <= |tags|
      invariant ProcessGroups(df, tags[..i], engine) == Ok(processed)
    {
      var group := GroupTable(df, tags[i]);
      var g := ApplyTechnicalIndicators(group, ln, sqrt);
      assert engine(group) == g;
      ProcessGroupsStep(df, tags, i, engine);
      if g.Err? {
        PrefixFailure(df, tags, i + 1, engine);
        return Err(g.error);
      }
      processed := processed[tags[i] := g.value];
      i := i + 1;
    }
    assert tags[..i] == tags;
    return Ok(processed);
  }

  /** The intraday branch, as `yfinance_data` runs it. */
  method RegroupIntraday(df: Table, ln: real -> real, sqrt: real -> real)
    returns (r: Result<Option<Table>, Failure>)
    requires WellFormed(df)
    ensures r == IntradaySpec(df, Engine(ln, sqrt))
  {
    if IntervalColumn !in df.names {
      return Err(MissingField(IntervalColumn));
    }
    var processed := ProcessAll(df, Tags(df.rows), ln, sqrt);
    if processed.Err? {
      return Err(processed.error);
    }
    var ordered := Ordered(processed.value, IntervalOrder);
    if ordered == [] {
      return Ok(None);
    }
    OrderedGroups(df, processed.value, Engine(ln, sqrt));
    var out := Stack(ordered);
    if Empty(out) {
      return Ok(None);
    }
    return Ok(Some(out));
  }

  /** Once the groups of a prefix of the tags fail, processing all of them fails the same way. */
  lemma {:induction false} PrefixFailure(df: Table, tags: seq<string>, k: nat, engine: Table --> Result<Table, Failure>)
    requires WellFormed(df) && Processes(engine)
    requires k <= |tags|
    requires ProcessGroups(df, tags[..k], engine).Err?
    ensures ProcessGroups(df, tags, engine) == ProcessGroups(df, tags[..k], engine)
    decreases |tags| - k
  {
    if k < |tags| {
      assert tags[..k + 1][..k] == tags[..k];
      PrefixFailure(df, tags, k + 1, engine);
    } else {
      assert tags[..k] == tags;
    }
  }
}
