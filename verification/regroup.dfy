/**
  * Splitting a table's rows by their `Interval` tag (`df.groupby('Interval')`)
  * and putting blocks of rows back together (`pd.concat`).  A group keeps
  * the rows of one tag in their original order.
  */
module Regroup {
  import opened Tables

  /** The column that carries the bar interval of each row. */
  const IntervalColumn: string := "Interval"

  /** The row's interval tag is the text `iv`. */
  predicate TaggedAs(r: Row, iv: string)
  {
    IntervalColumn in r.cells && r.cells[IntervalColumn] == Text(iv)
  }

  /** The rows tagged `iv`, in their original order. */
  function Group(rows: seq<Row>, iv: string): seq<Row>
  {
    if rows == [] then []
    else
      var n := |rows| - 1;
      var init := Group(rows[..n], iv);
      if TaggedAs(rows[n], iv) then init + [rows[n]] else init
  }

  /** A group holds exactly the rows that carry its tag. */
  lemma {:induction false} GroupMembers(rows: seq<Row>, iv: string)
    ensures forall r :: r in Group(rows, iv) <==> r in rows && TaggedAs(r, iv)
  {
    if rows != [] {
      var n := |rows| - 1;
      GroupMembers(rows[..n], iv);
      assert rows == rows[..n] + [rows[n]];
    }
  }

  /** `df.groupby('Interval').get_group(iv)`: the same columns, only the rows tagged `iv`. */
  function GroupTable(t: Table, iv: string): (g: Table)
    requires WellFormed(t)
    ensures WellFormed(g) && g.names == t.names
  {
    var g := Group(t.rows, iv);
    GroupMembers(t.rows, iv);
    assert forall i :: 0 <= i < |g| ==> g[i].cells.Keys == set n | n in t.names by {
      forall i | 0 <= i < |g| ensures g[i].cells.Keys == set n | n in t.names {
        assert g[i] in t.rows;
        var j :| 0 <= j < |t.rows| && t.rows[j] == g[i];
      }
    }
    Table(t.names, g)
  }

  /** Grouping distributes over concatenation: the order within a group is the order of the rows. */
  lemma {:induction false} GroupAppend(a: seq<Row>, b: seq<Row>, iv: string)
    ensures Group(a + b, iv) == Group(a, iv) + Group(b, iv)
    decreases |b|
  {
    if b == [] {
      assert a + b == a;
    } else {
      var n := |b| - 1;
      var init, last := b[..n], b[n];
      GroupAppend(a, init, iv);
      assert b == init + [last];
      assert a + b == (a + init) + [last];
      var x := if TaggedAs(last, iv) then [last] else [];
      GroupSnoc(a + init, last, iv);
      GroupSnoc(init, last, iv);
      calc {
        Group(a + b, iv);
        Group(a + init, iv) + x;
        (Group(a, iv) + Group(init, iv)) + x;
        Group(a, iv) + (Group(init, iv) + x);
        Group(a, iv) + Group(b, iv);
      }
    }
  }

  /** One more row adds itself to its group when it carries the tag. */
  lemma GroupSnoc(rows: seq<Row>, r: Row, iv: string)
    ensures Group(rows + [r], iv) == Group(rows, iv) + (if TaggedAs(r, iv) then [r] else [])
  {
    var s := rows + [r];
    assert s[..|s| - 1] == rows;
    assert s[|s| - 1] == r;
  }

  /** A block whose rows all carry tag `iv` is its own group of `iv`. */
  lemma {:induction false} GroupAllTagged(rows: seq<Row>, iv: string)
    requires forall i :: 0 <= i < |rows| ==> TaggedAs(rows[i], iv)
    ensures Group(rows, iv) == rows
  {
    if rows != [] {
      var n := |rows| - 1;
      GroupAllTagged(rows[..n], iv);
      assert rows[..n] + [rows[n]] == rows;
    }
  }

  /** A block none of whose rows carries tag `iv` has an empty group of `iv`. */
  lemma {:induction false} GroupNoneTagged(rows: seq<Row>, iv: string)
    requires forall i :: 0 <= i < |rows| ==> !TaggedAs(rows[i], iv)
    ensures Group(rows, iv) == []
  {
    if rows != [] {
      GroupNoneTagged(rows[..|rows| - 1], iv);
    }
  }

  /** The distinct tags in order of first appearance (rows without a text tag have none). */
  function Tags(rows: seq<Row>): (tags: seq<string>)
    ensures Distinct(tags)
    ensures forall s :: s in tags <==> exists i :: 0 <= i < |rows| && TaggedAs(rows[i], s)
  {
    if rows == [] then []
    else
      var n := |rows| - 1;
      var init := Tags(rows[..n]);
      assert forall s :: (exists i :: 0 <= i < |rows| && TaggedAs(rows[i], s)) <==>
                         (exists i :: 0 <= i < n && TaggedAs(rows[..n][i], s)) || TaggedAs(rows[n], s) by {
        forall s
          ensures (exists i :: 0 <= i < |rows| && TaggedAs(rows[i], s)) <==>
                  (exists i :: 0 <= i < n && TaggedAs(rows[..n][i], s)) || TaggedAs(rows[n], s)
        {
          if exists i :: 0 <= i < |rows| && TaggedAs(rows[i], s) {
            var i :| 0 <= i < |rows| && TaggedAs(rows[i], s);
            if i < n {
              assert rows[..n][i] == rows[i];
            }
          }
          if exists i :: 0 <= i < n && TaggedAs(rows[..n][i], s) {
            var i :| 0 <= i < n && TaggedAs(rows[..n][i], s);
            assert rows[i] == rows[..n][i];
          }
        }
      }
      var r := rows[n];
      if IntervalColumn in r.cells && r.cells[IntervalColumn].Text? && r.cells[IntervalColumn].s !in init then
        init + [r.cells[IntervalColumn].s]
      else init
  }

  /** A tag occurs iff its group is not empty. */
  lemma GroupOfTag(rows: seq<Row>, iv: string)
    ensures iv in Tags(rows) <==> |Group(rows, iv)| > 0
  {
    GroupMembers(rows, iv);
    if iv in Tags(rows) {
      var i :| 0 <= i < |rows| && TaggedAs(rows[i], iv);
      assert rows[i] in Group(rows, iv);
    }
    if |Group(rows, iv)| > 0 {
      var r := Group(rows, iv)[0];
      assert r in Group(rows, iv);
      var i :| 0 <= i < |rows| && rows[i] == r;
    }
  }

  /**
    * Stacking blocks that are each wholly tagged with their own, distinct
    * tag, then grouping by a tag, gives back the block of that tag (and
    * nothing for a tag no block carries).
    */
  lemma {:induction false} GroupStack(ts: seq<Table>, tags: seq<string>, iv: string)
    requires |ts| == |tags| && Distinct(tags)
    requires forall j, i :: 0 <= j < |ts| && 0 <= i < |ts[j].rows| ==> TaggedAs(ts[j].rows[i], tags[j])
    ensures forall j :: 0 <= j < |ts| && tags[j] == iv ==> Group(StackRows(ts), iv) == ts[j].rows
    ensures iv !in tags ==> Group(StackRows(ts), iv) == []
  {
    if ts != [] {
      var rest := StackRows(ts[1..]);
      assert StackRows(ts) == ts[0].rows + rest;
      GroupAppend(ts[0].rows, rest, iv);
      assert Distinct(tags[1..]) by {
        forall i, j | 0 <= i < j < |tags[1..]| ensures tags[1..][i] != tags[1..][j] {
          assert tags[1..][i] == tags[i + 1] && tags[1..][j] == tags[j + 1];
        }
      }
      forall j, i | 0 <= j < |ts[1..]| && 0 <= i < |ts[1..][j].rows|
        ensures TaggedAs(ts[1..][j].rows[i], tags[1..][j])
      {
        assert ts[1..][j] == ts[j + 1] && tags[1..][j] == tags[j + 1];
      }
      GroupStack(ts[1..], tags[1..], iv);
      if tags[0] == iv {
        GroupAllTagged(ts[0].rows, iv);
        assert iv !in tags[1..] by {
          forall j | 0 <= j < |tags[1..]| ensures tags[1..][j] != iv {
            assert tags[1..][j] == tags[j + 1];
          }
        }
        forall j | 0 <= j < |ts| && tags[j] == iv ensures j == 0 {
        }
      } else {
        forall i | 0 <= i < |ts[0].rows| ensures !TaggedAs(ts[0].rows[i], iv) {
          assert TaggedAs(ts[0].rows[i], tags[0]);
        }
        GroupNoneTagged(ts[0].rows, iv);
        forall j | 0 <= j < |ts| && tags[j] == iv
          ensures Group(StackRows(ts), iv) == ts[j].rows
        {
          assert j > 0 && ts[1..][j - 1] == ts[j] && tags[1..][j - 1] == tags[j];
        }
        if iv !in tags {
          assert iv !in tags[1..];
        }
      }
    }
  }

  /** The position of the first occurrence of `x` in `s`. */
  function IndexOf(s: seq<string>, x: string): (k: nat)
    requires x in s
    ensures k < |s| && s[k] == x && forall j :: 0 <= j < k ==> s[j] != x
  {
    if s[0] == x then 0 else 1 + IndexOf(s[1..], x)
  }

  /** Past the head, a position in the tail is one more than in the tail. */
  lemma IndexOfTail(s: seq<string>, x: string)
    requires |s| > 0 && x in s[1..] && x != s[0]
    ensures IndexOf(s, x) == 1 + IndexOf(s[1..], x)
  {
  }

  /**
    * `[m[iv] for iv in order if iv in m]`: the tags of `order` present in
    * `keys`, each once and in the order `order` lists them.
    */
  function Present(keys: set<string>, order: seq<string>): (p: seq<string>)
    ensures forall s :: s in p <==> s in order && s in keys
    ensures Distinct(order) ==> Distinct(p)
    ensures Distinct(order) ==>
              forall i, j :: 0 <= i < j < |p| ==> IndexOf(order, p[i]) < IndexOf(order, p[j])
  {
    if order == [] then []
    else
      var rest := Present(keys, order[1..]);
      assert forall s :: s in order <==> s == order[0] || s in order[1..];
      var p := if order[0] in keys then [order[0]] + rest else rest;
      assert Distinct(order) ==>
               Distinct(order[1..]) && order[0] !in order[1..] &&
               forall i, j :: 0 <= i < j < |p| ==> IndexOf(order, p[i]) < IndexOf(order, p[j]) by {
        if Distinct(order) {
          DistinctTail(order);
          PresentStep(keys, order, rest);
        }
      }
      p
  }

  /** The tail of a list without repeats has none, and does not hold the head. */
  lemma DistinctTail(order: seq<string>)
    requires |order| > 0 && Distinct(order)
    ensures Distinct(order[1..]) && order[0] !in order[1..]
  {
    forall i, j | 0 <= i < j < |order[1..]| ensures order[1..][i] != order[1..][j] {
      assert order[1..][i] == order[i + 1] && order[1..][j] == order[j + 1];
    }
    forall j | 0 <= j < |order[1..]| ensures order[1..][j] != order[0] {
      assert order[1..][j] == order[j + 1];
    }
  }

  /** Putting the head in front of the tags of the tail that are present keeps them in the order of the list. */
  lemma PresentStep(keys: set<string>, order: seq<string>, rest: seq<string>)
    requires |order| > 0 && order[0] !in order[1..]
    requires forall x :: x in rest ==> x in order[1..] && x in order
    requires forall i, j :: 0 <= i < j < |rest| ==> IndexOf(order[1..], rest[i]) < IndexOf(order[1..], rest[j])
    ensures var p := if order[0] in keys then [order[0]] + rest else rest;
            forall i, j :: 0 <= i < j < |p| ==> IndexOf(order, p[i]) < IndexOf(order, p[j])
  {
    var p := if order[0] in keys then [order[0]] + rest else rest;
    var o := if order[0] in keys then 1 else 0;
    forall i, j | 0 <= i < j < |p| ensures IndexOf(order, p[i]) < IndexOf(order, p[j]) {
      assert p[j] == rest[j - o] && p[j] in rest;
      IndexOfTail(order, p[j]);
      if i >= o {
        assert p[i] == rest[i - o] && p[i] in rest;
        IndexOfTail(order, p[i]);
      }
    }
  }

  /** The tables of the present tags, in the order of `order`. */
  function Ordered(m: map<string, Table>, order: seq<string>): (ts: seq<Table>)
    ensures |ts| == |Present(m.Keys, order)|
    ensures forall j :: 0 <= j < |ts| ==> ts[j] == m[Present(m.Keys, order)[j]]
  {
    var p := Present(m.Keys, order);
    seq(|p|, j requires 0 <= j < |p| => m[p[j]])
  }
}
