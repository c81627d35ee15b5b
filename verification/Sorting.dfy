/** Sorting numbers in rising order. */
module Sorting {
  predicate Ascending(rows: seq<nat>) {
    forall i, j :: 0 <= i < j < |rows| ==> rows[i] < rows[j]
  }

  method Insert(rows: seq<nat>, row: nat) returns (r: seq<nat>)
    requires Ascending(rows) && row !in rows
    ensures Ascending(r) && |r| == |rows| + 1 && forall x :: x in r <==> x in rows || x == row
  {
    var at := |rows|;
    while at > 0 && rows[at - 1] > row
      invariant 0 <= at <= |rows| && (at < |rows| ==> row < rows[at])
    {
      at := at - 1;
    }
    if at > 0 {
      assert rows[at - 1] in rows;
    }
    InsertedElements(rows, row, at);
    InsertedOrder(rows, row, at);
    r := rows[..at] + [row] + rows[at..];
  }

  lemma InsertedElements(rows: seq<nat>, row: nat, at: nat)
    requires at <= |rows|
    ensures forall x :: x in rows[..at] + [row] + rows[at..] <==> x in rows || x == row
  {
    assert rows == rows[..at] + rows[at..];
  }

  lemma InsertedOrder(rows: seq<nat>, row: nat, at: nat)
    requires Ascending(rows) && at <= |rows| && (at > 0 ==> rows[at - 1] < row) && (at < |rows| ==> row < rows[at])
    ensures Ascending(rows[..at] + [row] + rows[at..])
  {
    forall i | 0 <= i < |rows|
      ensures if i < at then rows[i] < row else row < rows[i]
    {
    }
  }

  /** `[...rows].sort((a, b) => a - b)`. */
  method Sorted(rows: set<nat>) returns (r: seq<nat>)
    ensures Ascending(r) && |r| == |rows| && forall x :: x in r <==> x in rows
  {
    r := [];
    var rest := rows;
    while rest != {}
      invariant rest <= rows && Ascending(r) && |r| + |rest| == |rows| && forall x :: x in r <==> x in rows && x !in rest
      decreases |rest|
    {
      var row :| row in rest;
      rest := rest - {row};
      r := Insert(r, row);
    }
  }
}
