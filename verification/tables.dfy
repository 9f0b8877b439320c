/**
  * Tables as the scrapers handle them: an ordered list of column names and
  * an ordered list of rows, each row carrying its index label and one cell
  * per column.  `Frame` is the mutable table that column assignment
  * (`df[name] = column`) updates in place.
  */
module Tables {
  import opened Values
  import opened Results

  /** One cell: a raw number, a derived indicator value, a flag, or text (such as the interval tag). */
  datatype Cell = Number(x: real) | Value(v: Val) | Flag(b: bool) | Text(s: string)

  datatype Row = Row(index: int, cells: map<string, Cell>)

  datatype Table = Table(names: seq<string>, rows: seq<Row>)

  predicate Distinct(xs: seq<string>)
  {
    forall i, j :: 0 <= i < j < |xs| ==> xs[i] != xs[j]
  }

  /** Column names are distinct and every row has exactly one cell per column. */
  predicate WellFormed(t: Table)
  {
    Distinct(t.names) &&
    forall i :: 0 <= i < |t.rows| ==> t.rows[i].cells.Keys == set n | n in t.names
  }

  /** `DataFrame.empty`: no rows or no columns. */
  predicate Empty(t: Table)
  {
    |t.rows| == 0 || |t.names| == 0
  }

  /** `pd.DataFrame()`. */
  const EmptyTable := Table([], [])

  /** The row labels, top to bottom. */
  function Labels(rows: seq<Row>): (ls: seq<int>)
    ensures |ls| == |rows|
    ensures forall i :: 0 <= i < |rows| ==> ls[i] == rows[i].index
  {
    seq(|rows|, i requires 0 <= i < |rows| => rows[i].index)
  }

  /** The cells of one column, top to bottom. */
  function Column(t: Table, name: string): (col: seq<Cell>)
    requires WellFormed(t) && name in t.names
    ensures |col| == |t.rows|
    ensures forall i :: 0 <= i < |t.rows| ==> col[i] == t.rows[i].cells[name]
  {
    seq(|t.rows|, i requires 0 <= i < |t.rows| => t.rows[i].cells[name])
  }

  /** The values of a column whose every cell is a raw number. */
  function Numbers(cells: seq<Cell>): (r: Option<seq<real>>)
    ensures r.Some? <==> forall i :: 0 <= i < |cells| ==> cells[i].Number?
    ensures r.Some? ==> |r.value| == |cells| && forall i :: 0 <= i < |cells| ==> cells[i] == Number(r.value[i])
  {
    if forall i :: 0 <= i < |cells| ==> cells[i].Number? then
      Some(seq(|cells|, i requires 0 <= i < |cells| => cells[i].x))
    else None
  }

  /** Cells holding the given numbers, values or flags. */
  function NumberCells(xs: seq<real>): (cs: seq<Cell>)
    ensures |cs| == |xs|
    ensures forall i :: 0 <= i < |xs| ==> cs[i] == Number(xs[i])
  {
    seq(|xs|, i requires 0 <= i < |xs| => Number(xs[i]))
  }

  function ValueCells(vs: seq<Val>): (cs: seq<Cell>)
    ensures |cs| == |vs|
    ensures forall i :: 0 <= i < |vs| ==> cs[i] == Value(vs[i])
  {
    seq(|vs|, i requires 0 <= i < |vs| => Value(vs[i]))
  }

  function FlagCells(bs: seq<bool>): (cs: seq<Cell>)
    ensures |cs| == |bs|
    ensures forall i :: 0 <= i < |bs| ==> cs[i] == Flag(bs[i])
  {
    seq(|bs|, i requires 0 <= i < |bs| => Flag(bs[i]))
  }

  /**
    * `df.get(a, df.get(b, ...))`: the first of the aliases that names a
    * column, if any does.
    */
  function Resolve(t: Table, aliases: seq<string>): (r: Option<string>)
    ensures r.Some? <==> exists i :: 0 <= i < |aliases| && aliases[i] in t.names
    ensures r.Some? ==>
              r.value in t.names &&
              exists i :: 0 <= i < |aliases| && aliases[i] == r.value &&
                          forall j :: 0 <= j < i ==> aliases[j] !in t.names
  {
    if aliases == [] then None
    else if aliases[0] in t.names then Some(aliases[0])
    else
      var r := Resolve(t, aliases[1..]);
      assert forall i :: 1 <= i < |aliases| ==> aliases[i] == aliases[1..][i - 1];
      r
  }

  /** The names after `df[name] = ...`: an existing column keeps its place, a new one goes last. */
  function NamesAfterAssign(names: seq<string>, name: string): seq<string>
  {
    if name in names then names else names + [name]
  }

  /** `df[name] = col`: replace or append one column (`WithColumnShape` says what else holds). */
  function WithColumn(t: Table, name: string, col: seq<Cell>): (r: Table)
    requires WellFormed(t) && |col| == |t.rows|
    ensures WellFormed(r) && |r.rows| == |t.rows|
  {
    var rows := seq(|t.rows|, i requires 0 <= i < |t.rows| =>
      Row(t.rows[i].index, t.rows[i].cells[name := col[i]]));
    var r := Table(NamesAfterAssign(t.names, name), rows);
    assert forall i :: 0 <= i < |rows| ==> rows[i].cells.Keys == set n | n in r.names;
    r
  }

  /**
    * After `df[name] = col` the named column holds `col`, every other column
    * and every row label is as before, and a new name goes last.
    */
  lemma WithColumnShape(t: Table, name: string, col: seq<Cell>)
    requires WellFormed(t) && |col| == |t.rows|
    ensures var r := WithColumn(t, name, col);
            r.names == NamesAfterAssign(t.names, name) &&
            Labels(r.rows) == Labels(t.rows) &&
            name in r.names && Column(r, name) == col &&
            forall n :: n in t.names && n != name ==> n in r.names && Column(r, n) == Column(t, n)
  {
  }

  /** Assigning a column its own cells changes nothing. */
  lemma AssignUnchanged(t: Table, name: string, col: seq<Cell>)
    requires WellFormed(t) && |col| == |t.rows|
    requires name in t.names && Column(t, name) == col
    ensures WithColumn(t, name, col) == t
  {
    var r := WithColumn(t, name, col);
    WithColumnShape(t, name, col);
    forall i | 0 <= i < |t.rows| ensures r.rows[i] == t.rows[i] {
      assert r.rows[i].cells == t.rows[i].cells;
    }
  }

  /** The rows of several tables, one after the other. */
  function StackRows(ts: seq<Table>): (rows: seq<Row>)
  {
    if ts == [] then [] else ts[0].rows + StackRows(ts[1..])
  }

  /**
    * `pd.concat(ts)` of tables that share their columns: the rows one after
    * the other, under the first table's names.
    */
  function Stack(ts: seq<Table>): (r: Table)
    requires |ts| > 0
    requires forall k :: 0 <= k < |ts| ==> ts[k].names == ts[0].names
  {
    Table(ts[0].names, StackRows(ts))
  }

  /** Stacking splits over a split of the list of tables. */
  lemma {:induction false} StackRowsAppend(a: seq<Table>, b: seq<Table>)
    ensures StackRows(a + b) == StackRows(a) + StackRows(b)
  {
    if a == [] {
      assert a + b == b;
    } else {
      assert (a + b)[0] == a[0];
      assert (a + b)[1..] == a[1..] + b;
      StackRowsAppend(a[1..], b);
    }
  }

  /** Stacked well-formed tables with one set of names are well-formed. */
  lemma {:induction false} StackWellFormed(ts: seq<Table>)
    requires |ts| > 0
    requires forall k :: 0 <= k < |ts| ==> ts[k].names == ts[0].names && WellFormed(ts[k])
    ensures WellFormed(Stack(ts))
    ensures |Stack(ts).rows| == RowTotal(ts)
  {
    var keys := set n | n in ts[0].names;
    var rest := StackRows(ts[1..]);
    if |ts| == 1 {
      assert ts[1..] == [];
    } else {
      StackWellFormed(ts[1..]);
      assert forall i :: 0 <= i < |rest| ==> rest[i].cells.Keys == keys;
    }
    var all := ts[0].rows + rest;
    assert Stack(ts).rows == all;
    forall i | 0 <= i < |all| ensures all[i].cells.Keys == keys {
      if i >= |ts[0].rows| {
        assert all[i] == rest[i - |ts[0].rows|];
      }
    }
  }

  /** The number of rows of all the tables together. */
  function RowTotal(ts: seq<Table>): nat
  {
    if ts == [] then 0 else |ts[0].rows| + RowTotal(ts[1..])
  }

  /** A table whose cells the program updates in place. */
  class Frame {
    var names: seq<string>
    var rows: seq<Row>

    function Snapshot(): Table
      reads this
    {
      Table(names, rows)
    }

    /** `df.copy()`: a new frame with the same columns and rows. */
    constructor Copy(t: Table)
      ensures Snapshot() == t
    {
      names := t.names;
      rows := t.rows;
    }

    /** `df[name] = col`. */
    method Assign(name: string, col: seq<Cell>)
      modifies this
      requires WellFormed(Snapshot()) && |col| == |rows|
      ensures Snapshot() == WithColumn(old(Snapshot()), name, col)
    {
      var before := rows;
      names := NamesAfterAssign(names, name);
      rows := seq(|before|, i requires 0 <= i < |before| =>
        Row(before[i].index, before[i].cells[name := col[i]]));
    }
  }
}
