/** The k-way merge of src/lib/history-projection.ts: ascending readers are merged by sequence number,
    the last reader's rows are passed on, and only event rows are kept. */
module HistoryProjection {
  import opened Wrappers

  datatype Row = Row(number: nat, clientMsgId: nat, content: nat)

  predicate Rising(s: seq<Row>) {
    forall i, j :: 0 <= i < j < |s| ==> s[i].number < s[j].number
  }

  ghost predicate Equivalence(same: (Row, Row) -> bool) {
    && (forall a :: same(a, a))
    && (forall a, b :: same(a, b) ==> same(b, a))
    && (forall a, b, c :: same(a, b) && same(b, c) ==> same(a, c))
  }

  /** The row of a stream with this number. */
  ghost function At(s: seq<Row>, n: nat): (r: Option<Row>)
    ensures r.Some? ==> r.value in s && r.value.number == n
    ensures r.None? ==> forall row <- s :: row.number != n
  {
    if s == [] then None else if s[0].number == n then Some(s[0]) else At(s[1..], n)
  }

  /** The row of the last stream that has one with this number. */
  ghost function Canonical(streams: seq<seq<Row>>, n: nat): Option<Row> {
    if streams == [] then None
    else
      var last := At(streams[|streams| - 1], n);
      if last.Some? then last else Canonical(streams[..|streams| - 1], n)
  }

  /** All streams that have this number have the same row there. */
  ghost predicate Agree(streams: seq<seq<Row>>, same: (Row, Row) -> bool, n: nat) {
    forall i, j :: 0 <= i < |streams| && 0 <= j < |streams| && At(streams[i], n).Some? && At(streams[j], n).Some? ==>
      same(At(streams[i], n).value, At(streams[j], n).value)
  }

  /** Row `r` is a canonical event, and the last one of its client id. */
  ghost predicate Projected(streams: seq<seq<Row>>, event: Row -> bool, below: nat, r: Row) {
    && r.number < below && event(r) && Canonical(streams, r.number) == Some(r)
    && forall n: nat :: r.number < n < below && Canonical(streams, n).Some? && event(Canonical(streams, n).value) ==>
         Canonical(streams, n).value.clientMsgId != r.clientMsgId
  }

  /** Reader `p` of a stream stands at the first row that is not below `n`. */
  predicate Stands(s: seq<Row>, p: nat, n: nat) {
    p <= |s| && (forall i :: 0 <= i < p ==> s[i].number < n) && (forall i :: p <= i < |s| ==> s[i].number >= n)
  }

  lemma {:induction false} AtPosition(s: seq<Row>, p: nat, n: nat)
    requires Rising(s) && Stands(s, p, n)
    ensures At(s, n) == if p < |s| && s[p].number == n then Some(s[p]) else None
  {
    if s != [] {
      if p == 0 {
        assert At(s, n).Some? ==> At(s, n).value in s;
      } else {
        AtPosition(s[1..], p - 1, n);
      }
    }
  }

  lemma Advance(s: seq<Row>, p: nat, n: nat)
    requires Rising(s) && Stands(s, p, n)
    ensures Stands(s, if p < |s| && s[p].number == n then p + 1 else p, n + 1)
  {
  }

  lemma CanonicalStep(streams: seq<seq<Row>>, i: nat, n: nat)
    requires i < |streams|
    ensures Canonical(streams[..i + 1], n) == if At(streams[i], n).Some? then At(streams[i], n) else Canonical(streams[..i], n)
  {
    assert streams[..i + 1][..i] == streams[..i];
  }

  lemma {:induction false} CanonicalFrom(streams: seq<seq<Row>>, n: nat) returns (i: nat)
    requires Canonical(streams, n).Some?
    ensures i < |streams| && At(streams[i], n) == Canonical(streams, n)
  {
    i := |streams| - 1;
    if At(streams[i], n).None? {
      i := CanonicalFrom(streams[..i], n);
    }
  }

  // -------------------------------------------------------------------- merging

  predicate AllStand(streams: seq<seq<Row>>, at: seq<nat>, n: nat) {
    |at| == |streams| && forall i :: 0 <= i < |streams| ==> Stands(streams[i], at[i], n)
  }

  predicate AllRise(streams: seq<seq<Row>>) {
    forall i :: 0 <= i < |streams| ==> Rising(streams[i])
  }

  /** The smallest number among the heads. */
  method Least(streams: seq<seq<Row>>, at: seq<nat>) returns (sequence: Option<nat>)
    requires |at| == |streams| && forall i :: 0 <= i < |streams| ==> at[i] <= |streams[i]|
    ensures sequence.None? ==> forall i :: 0 <= i < |streams| ==> at[i] == |streams[i]|
    ensures sequence.Some? ==>
              && (exists i :: 0 <= i < |streams| && at[i] < |streams[i]| && streams[i][at[i]].number == sequence.value)
              && (forall i :: 0 <= i < |streams| && at[i] < |streams[i]| ==> sequence.value <= streams[i][at[i]].number)
  {
    sequence := None;
    for i := 0 to |streams|
      invariant sequence.None? ==> forall j :: 0 <= j < i ==> at[j] == |streams[j]|
      invariant sequence.Some? ==>
                  && (exists j :: 0 <= j < i && at[j] < |streams[j]| && streams[j][at[j]].number == sequence.value)
                  && (forall j :: 0 <= j < i && at[j] < |streams[j]| ==> sequence.value <= streams[j][at[j]].number)
    {
      if at[i] < |streams[i]| && (sequence.None? || streams[i][at[i]].number < sequence.value) {
        sequence := Some(streams[i][at[i]].number);
      }
    }
  }

  /** One number: the heads that have it are compared, and the last one is canonical. */
  method Compare(streams: seq<seq<Row>>, at: seq<nat>, n: nat, same: (Row, Row) -> bool) returns (agree: bool, canonical: Option<Row>)
    requires AllRise(streams) && AllStand(streams, at, n) && Equivalence(same)
    ensures agree <==> Agree(streams, same, n)
    ensures agree ==> canonical == Canonical(streams, n)
  {
    hide At, Rising, Stands;
    agree, canonical := true, None;
    NoStreams(n);
    for i := 0 to |streams|
      invariant canonical == Canonical(streams[..i], n)
      invariant forall j :: 0 <= j < i && At(streams[j], n).Some? ==> canonical.Some? && same(canonical.value, At(streams[j], n).value)
      invariant canonical.Some? ==> exists j :: 0 <= j < i && At(streams[j], n) == canonical
    {
      AtPosition(streams[i], at[i], n);
      StandsInside(streams[i], at[i], n);
      CanonicalStep(streams, i, n);
      if at[i] < |streams[i]| && streams[i][at[i]].number == n {
        var row := streams[i][at[i]];
        if canonical.Some? && !same(canonical.value, row) {
          return false, canonical;
        }
        assert canonical.Some? ==> same(row, canonical.value);
        canonical := Some(row);
      }
    }
    assert streams[..|streams|] == streams;
  }

  lemma NoStreams(n: nat)
    ensures Canonical([], n) == None
  {
  }

  lemma StandsInside(s: seq<Row>, p: nat, n: nat)
    requires Stands(s, p, n)
    ensures p <= |s|
  {
  }

  method NextHeads(streams: seq<seq<Row>>, at: seq<nat>, n: nat) returns (next: seq<nat>)
    requires AllRise(streams) && AllStand(streams, at, n)
    ensures AllStand(streams, next, n + 1)
    ensures forall i :: 0 <= i < |streams| ==> next[i] == if at[i] < |streams[i]| && streams[i][at[i]].number == n then at[i] + 1 else at[i]
  {
    hide Rising, Stands;
    next := [];
    for i := 0 to |streams|
      invariant |next| == i && forall j :: 0 <= j < i ==> Stands(streams[j], next[j], n + 1)
      invariant forall j :: 0 <= j < i ==> next[j] == if at[j] < |streams[j]| && streams[j][at[j]].number == n then at[j] + 1 else at[j]
    {
      Advance(streams[i], at[i], n);
      StandsInside(streams[i], at[i], n);
      next := next + [if at[i] < |streams[i]| && streams[i][at[i]].number == n then at[i] + 1 else at[i]];
    }
  }

  function Left(streams: seq<seq<Row>>, at: seq<nat>): nat
    requires |at| == |streams| && forall i :: 0 <= i < |streams| ==> at[i] <= |streams[i]|
  {
    if streams == [] then 0
    else |streams[|streams| - 1]| - at[|at| - 1] + Left(streams[..|streams| - 1], at[..|at| - 1])
  }

  lemma {:induction false} LeftFalls(streams: seq<seq<Row>>, at: seq<nat>, next: seq<nat>)
    requires |at| == |next| == |streams| && forall i :: 0 <= i < |streams| ==> at[i] <= next[i] <= |streams[i]|
    ensures Left(streams, next) <= Left(streams, at)
    ensures (exists i :: 0 <= i < |streams| && at[i] < next[i]) ==> Left(streams, next) < Left(streams, at)
  {
    if streams != [] {
      var n := |streams| - 1;
      LeftFalls(streams[..n], at[..n], next[..n]);
      if i :| 0 <= i < |streams| && at[i] < next[i] {
        assert i < n ==> at[..n][i] < next[..n][i];
      }
    }
  }

  /** The last canonical event below `n` of every client id. */
  ghost predicate Tracks(events: map<nat, Row>, streams: seq<seq<Row>>, event: Row -> bool, n: nat) {
    && (forall id <- events :: events[id].clientMsgId == id && Projected(streams, event, n, events[id]))
    && (forall r :: Projected(streams, event, n, r) ==> r.clientMsgId in events && events[r.clientMsgId] == r)
  }

  lemma NothingBetween(streams: seq<seq<Row>>, at: seq<nat>, n: nat, sequence: nat, m: nat)
    requires AllRise(streams) && AllStand(streams, at, n) && n <= m < sequence
    requires forall i :: 0 <= i < |streams| && at[i] < |streams[i]| ==> sequence <= streams[i][at[i]].number
    ensures Canonical(streams, m) == None && (forall i :: 0 <= i < |streams| ==> At(streams[i], m) == None)
  {
    forall i | 0 <= i < |streams|
      ensures At(streams[i], m) == None
    {
      assert Stands(streams[i], at[i], n);
      if at[i] < |streams[i]| {
        assert Rising(streams[i]);
      }
    }
    hide At;
    if Canonical(streams, m).Some? {
      var i := CanonicalFrom(streams, m);
    }
  }

  lemma TracksJump(events: map<nat, Row>, streams: seq<seq<Row>>, event: Row -> bool, n: nat, later: nat)
    requires Tracks(events, streams, event, n) && n <= later && forall m: nat :: n <= m < later ==> Canonical(streams, m) == None
    ensures Tracks(events, streams, event, later)
  {
    hide Canonical;
    forall r
      ensures Projected(streams, event, later, r) <==> Projected(streams, event, n, r)
    {
    }
  }

  lemma ProjectedStep(streams: seq<seq<Row>>, event: Row -> bool, n: nat, r: Row)
    ensures Projected(streams, event, n + 1, r)
       <==> (Canonical(streams, n) == Some(r) && event(r))
            || (Projected(streams, event, n, r)
                && !(Canonical(streams, n).Some? && event(Canonical(streams, n).value) && Canonical(streams, n).value.clientMsgId == r.clientMsgId))
  {
    CanonicalNumber(streams, n);
    hide Canonical;
  }

  /** One more number: its canonical row is an event, or not. */
  lemma TracksStep(events: map<nat, Row>, streams: seq<seq<Row>>, event: Row -> bool, n: nat)
    requires Tracks(events, streams, event, n)
    ensures var canonical := Canonical(streams, n);
            Tracks(if canonical.Some? && event(canonical.value) then events[canonical.value.clientMsgId := canonical.value] else events,
                   streams, event, n + 1)
  {
    hide Canonical, Projected;
    forall r {
      ProjectedStep(streams, event, n, r);
    }
  }

  lemma {:induction false} CanonicalNumber(streams: seq<seq<Row>>, n: nat)
    ensures Canonical(streams, n).Some? ==> Canonical(streams, n).value.number == n
  {
    if streams != [] {
      CanonicalNumber(streams[..|streams| - 1], n);
    }
  }

  /** A canonical event with no later one of the same client id. */
  ghost predicate Kept(streams: seq<seq<Row>>, event: Row -> bool, r: Row) {
    && event(r) && Canonical(streams, r.number) == Some(r)
    && forall n: nat :: r.number < n && Canonical(streams, n).Some? && event(Canonical(streams, n).value) ==>
         Canonical(streams, n).value.clientMsgId != r.clientMsgId
  }

  /** `sort((a, b) => a.seq - b.seq)` of the rows that are kept. */
  method Sorted(events: map<nat, Row>) returns (rows: seq<Row>)
    requires forall a, b :: a in events && b in events && a != b ==> events[a].number != events[b].number
    ensures Rising(rows) && forall r :: r in rows <==> exists id :: id in events && events[id] == r
  {
    rows := [];
    var rest := events.Keys;
    while rest != {}
      invariant rest <= events.Keys && Rising(rows)
      invariant forall r :: r in rows <==> exists id :: id in events && id !in rest && events[id] == r
      decreases |rest|
    {
      var id :| id in rest;
      var row := events[id];
      var at := |rows|;
      while at > 0 && rows[at - 1].number > row.number
        invariant 0 <= at <= |rows| && (at < |rows| ==> row.number < rows[at].number)
      {
        at := at - 1;
      }
      if at > 0 {
        assert rows[at - 1] in rows;
      }
      InsertedElements(rows, row, at);
      InsertedOrder(rows, row, at);
      rows := rows[..at] + [row] + rows[at..];
      rest := rest - {id};
    }
  }

  lemma InsertedElements(rows: seq<Row>, row: Row, at: nat)
    requires at <= |rows|
    ensures forall r :: r in rows[..at] + [row] + rows[at..] <==> r in rows || r == row
  {
    assert rows == rows[..at] + rows[at..];
  }

  lemma InsertedOrder(rows: seq<Row>, row: Row, at: nat)
    requires Rising(rows) && at <= |rows| && (at > 0 ==> rows[at - 1].number < row.number) && (at < |rows| ==> row.number < rows[at].number)
    ensures Rising(rows[..at] + [row] + rows[at..])
  {
    forall i | 0 <= i < |rows|
      ensures if i < at then rows[i].number < row.number else row.number < rows[i].number
    {
    }
  }

  lemma StartsEmpty(streams: seq<seq<Row>>, at: seq<nat>, event: Row -> bool)
    requires |at| == |streams| && forall i :: 0 <= i < |at| ==> at[i] == 0
    ensures AllStand(streams, at, 0) && Tracks(map[], streams, event, 0)
  {
  }

  lemma HeadsInside(streams: seq<seq<Row>>, at: seq<nat>, n: nat)
    requires AllStand(streams, at, n)
    ensures forall i :: 0 <= i < |streams| ==> at[i] <= |streams[i]|
  {
  }

  lemma JumpStands(s: seq<Row>, p: nat, n: nat, later: nat)
    requires Rising(s) && Stands(s, p, n) && n <= later && (p < |s| ==> later <= s[p].number)
    ensures Stands(s, p, later)
  {
  }

  /** No stream has a number between the last one and the smallest head. */
  lemma Jump(streams: seq<seq<Row>>, at: seq<nat>, n: nat, head: nat, same: (Row, Row) -> bool, event: Row -> bool, events: map<nat, Row>)
    requires AllRise(streams) && AllStand(streams, at, n) && Tracks(events, streams, event, n)
    requires forall i :: 0 <= i < |streams| ==> at[i] <= |streams[i]|
    requires exists i :: 0 <= i < |streams| && at[i] < |streams[i]| && streams[i][at[i]].number == head
    requires forall i :: 0 <= i < |streams| && at[i] < |streams[i]| ==> head <= streams[i][at[i]].number
    ensures n <= head && AllStand(streams, at, head) && Tracks(events, streams, event, head)
    ensures forall m: nat :: n <= m < head ==> Agree(streams, same, m)
  {
    hide Tracks, Canonical, Rising, At;
    var k :| 0 <= k < |streams| && at[k] < |streams[k]| && streams[k][at[k]].number == head;
    assert Stands(streams[k], at[k], n);
    forall i | 0 <= i < |streams|
      ensures Stands(streams[i], at[i], head)
    {
      JumpStands(streams[i], at[i], n, head);
    }
    forall m: nat | n <= m < head
      ensures Agree(streams, same, m) && Canonical(streams, m) == None
    {
      NothingBetween(streams, at, n, head, m);
    }
    TracksJump(events, streams, event, n, head);
  }

  /** When every reader is at its end, no stream has a number that is still to come. */
  lemma AllDone(streams: seq<seq<Row>>, at: seq<nat>, n: nat, same: (Row, Row) -> bool)
    requires AllRise(streams) && AllStand(streams, at, n) && forall i :: 0 <= i < |streams| ==> at[i] == |streams[i]|
    ensures forall m: nat :: n <= m ==> Canonical(streams, m) == None && Agree(streams, same, m)
  {
    hide Canonical, Rising, At;
    forall m: nat | n <= m
      ensures Canonical(streams, m) == None && Agree(streams, same, m)
    {
      NothingBetween(streams, at, n, m + 1, m);
    }
  }

  lemma EventsDiffer(events: map<nat, Row>, streams: seq<seq<Row>>, event: Row -> bool, n: nat)
    requires Tracks(events, streams, event, n)
    ensures forall a, b :: a in events && b in events && a != b ==> events[a].number != events[b].number
  {
    hide Canonical;
    forall a, b | a in events && b in events && events[a].number == events[b].number
      ensures a == b
    {
      assert Projected(streams, event, n, events[a]) && Projected(streams, event, n, events[b]);
    }
  }

  lemma KeptIsTracked(events: map<nat, Row>, streams: seq<seq<Row>>, event: Row -> bool, n: nat)
    requires Tracks(events, streams, event, n) && forall m: nat :: n <= m ==> Canonical(streams, m) == None
    ensures forall r :: Kept(streams, event, r) <==> exists id :: id in events && events[id] == r
  {
    hide Canonical;
    forall r
      ensures Kept(streams, event, r) <==> Projected(streams, event, n, r)
    {
    }
    hide Projected, Kept;
  }

  /** The merge fails exactly when two streams disagree at some number. Otherwise it passes on the
      last stream's rows in order, and returns the latest canonical event of each client id. */
  method MergeHistoryProjection(streams: seq<seq<Row>>, same: (Row, Row) -> bool, event: Row -> bool)
      returns (result: Result<seq<Row>>, live: seq<Row>)
    requires AllRise(streams) && Equivalence(same)
    ensures result.Err? <==> exists n: nat :: !Agree(streams, same, n)
    ensures result.Ok? ==> live == if streams == [] then [] else streams[|streams| - 1]
    ensures result.Ok? ==> Rising(result.value) && forall r :: r in result.value <==> Kept(streams, event, r)
  {
    hide Rising, Stands, Agree, Canonical, Tracks, Left, Projected, Kept;
    var at: seq<nat> := seq(|streams|, _ => 0);
    var events: map<nat, Row> := map[];
    live := [];
    ghost var n: nat := 0;
    var last := |streams| - 1;
    StartsEmpty(streams, at, event);
    while true
      invariant AllStand(streams, at, n) && forall i :: 0 <= i < |streams| ==> at[i] <= |streams[i]|
      invariant forall m: nat :: m < n ==> Agree(streams, same, m)
      invariant Tracks(events, streams, event, n)
      invariant live == if streams == [] then [] else streams[last][..at[last]]
      invariant |at| == |streams|
      decreases Left(streams, at)
    {
      var sequence := Least(streams, at);
      if sequence.None? {
        AllDone(streams, at, n, same);
        break;
      }
      var head: nat := sequence.value;
      Jump(streams, at, n, head, same, event, events);
      n := head;
      var agree, canonical := Compare(streams, at, head, same);
      if !agree {
        return Err, live;
      }
      if streams != [] && at[last] < |streams[last]| && streams[last][at[last]].number == head {
        live := live + [streams[last][at[last]]];
      }
      TracksStep(events, streams, event, n);
      if canonical.Some? && event(canonical.value) {
        events := events[canonical.value.clientMsgId := canonical.value];
      }
      var next := NextHeads(streams, at, head);
      HeadsInside(streams, next, head + 1);
      LeftFalls(streams, at, next);
      at := next;
      n := n + 1;
    }
    EventsDiffer(events, streams, event, n);
    var rows := Sorted(events);
    result := Ok(rows);
    KeptIsTracked(events, streams, event, n);
  }
}
