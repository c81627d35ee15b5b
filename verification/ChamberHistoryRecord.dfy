/** Backup units of src/lib/chamber-history-record.ts: payloads, sealed records, heads, and the
    validator of payloads. Sealing is ideal (a record is known by its payload) and so is hashing (a
    digest is known by the record it was made from). */
module ChamberHistoryRecord {
  import opened Sorting
  import opened Wrappers

  type Id = nat
  type Device = nat

  /** A block of attachment ciphertext; only equality matters. */
  type Bytes = nat

  datatype Manifest = Manifest(blob: Id, parts: seq<Bytes>)

  /** `safe` marks the rows of the creator's gallery safe. */
  datatype Message = Message(number: nat, safe: bool, manifests: seq<Manifest>)

  datatype Reference = Reference(blob: Id, index: nat, unit: Id)

  datatype Link = Link(id: Id, digest: Digest)

  datatype Digest = Hash(record: Record)

  datatype Payload =
    | Messages(afterSeq: nat, upperSeq: nat, previous: Option<Link>, rows: seq<Message>, attachments: seq<Reference>,
               preferences: seq<Id>, omitted: seq<nat>)
    | Attachment(blob: Id, index: nat, bytes: Bytes)
    | Preferences(hidden: seq<Id>, gallery: seq<Id>)

  datatype Record = Record(id: Id, device: Device, revision: nat, payload: Payload)

  datatype Head = Head(device: Device, id: Id, digest: Digest, revision: nat, afterSeq: nat, upperSeq: nat)

  const SLICE := 1000
  const MAX_ROWS := 100
  const MAX_ATTACHMENTS := 30_000
  const MAX_PREFERENCE_UNITS := 20
  const MAX_INDEX := 65_536

  function HeadOf(record: Record, afterSeq: nat, upperSeq: nat): Head {
    Head(record.device, record.id, Hash(record), record.revision, afterSeq, upperSeq)
  }

  function LinkOf(head: Head): Link {
    Link(head.id, head.digest)
  }

  // ----------------------------------------------------------------- validator

  function Numbers(rows: seq<Message>): (numbers: seq<nat>)
    ensures |numbers| == |rows| && forall i :: 0 <= i < |rows| ==> numbers[i] == rows[i].number
  {
    seq(|rows|, i requires 0 <= i < |rows| => rows[i].number)
  }

  predicate DistinctIds(ids: seq<Id>) {
    forall i, j :: 0 <= i < j < |ids| ==> ids[i] != ids[j]
  }

  /** The limits on sizes, and the positions of attachments. */
  predicate WithinLimits(p: Payload) {
    match p
    case Messages(afterSeq, upperSeq, _, rows, attachments, preferences, omitted) =>
      && afterSeq <= upperSeq && |rows| <= MAX_ROWS && |attachments| <= MAX_ATTACHMENTS && |omitted| <= MAX_ROWS
      && |preferences| <= MAX_PREFERENCE_UNITS && DistinctIds(preferences)
      && forall ref <- attachments :: ref.index < MAX_INDEX
    case Attachment(_, index, _) => index < MAX_INDEX
    case Preferences(hidden, gallery) => |hidden| <= SLICE && |gallery| <= SLICE && DistinctIds(hidden) && Ascending(gallery)
  }

  /** The rows and the omitted numbers rise, and every number in the range is in exactly one. */
  ghost predicate Covers(afterSeq: nat, upperSeq: nat, rows: seq<nat>, omitted: seq<nat>) {
    && Ascending(rows) && Ascending(omitted)
    && (forall n: nat :: n in rows || n in omitted <==> afterSeq < n <= upperSeq)
    && (forall n: nat :: !(n in rows && n in omitted))
  }

  ghost predicate Valid(p: Payload) {
    WithinLimits(p) && (p.Messages? ==> Covers(p.afterSeq, p.upperSeq, Numbers(p.rows), p.omitted))
  }

  function InsertNumber(sorted: seq<nat>, n: nat): seq<nat> {
    if sorted == [] || sorted[|sorted| - 1] <= n then sorted + [n]
    else InsertNumber(sorted[..|sorted| - 1], n) + [sorted[|sorted| - 1]]
  }

  /** `sort((a, b) => a - b)`. */
  function SortNumbers(numbers: seq<nat>): seq<nat> {
    if numbers == [] then [] else InsertNumber(SortNumbers(numbers[..|numbers| - 1]), numbers[|numbers| - 1])
  }

  predicate Rising(numbers: seq<nat>) {
    forall i, j :: 0 <= i < j < |numbers| ==> numbers[i] <= numbers[j]
  }

  lemma RisingAppend(front: seq<nat>, last: nat)
    requires Rising(front) && forall i :: 0 <= i < |front| ==> front[i] <= last
    ensures Rising(front + [last])
  {
  }

  lemma BoundedFront(sorted: seq<nat>)
    requires Rising(sorted) && sorted != []
    ensures var front: multiset<nat> := multiset(sorted[..|sorted| - 1]); forall x :: x in front ==> x <= sorted[|sorted| - 1]
  {
  }

  lemma AppendGreatest(front: seq<nat>, last: nat, n: nat, inserted: seq<nat>)
    requires Rising(front + [last]) && Rising(inserted) && n <= last
    requires multiset(inserted) == multiset(front) + multiset{n}
    ensures Rising(inserted + [last]) && multiset(inserted + [last]) == multiset(front + [last]) + multiset{n}
  {
    assert (front + [last])[..|front|] == front;
    BoundedFront(front + [last]);
    hide Rising;
    forall i | 0 <= i < |inserted|
      ensures inserted[i] <= last
    {
      assert inserted[i] in multiset(inserted);
    }
    RisingAppend(inserted, last);
  }

  lemma {:induction false} InsertNumberSorts(sorted: seq<nat>, n: nat)
    requires Rising(sorted)
    ensures Rising(InsertNumber(sorted, n)) && multiset(InsertNumber(sorted, n)) == multiset(sorted) + multiset{n}
  {
    if sorted == [] || sorted[|sorted| - 1] <= n {
      RisingAppend(sorted, n);
    } else {
      var front, last := sorted[..|sorted| - 1], sorted[|sorted| - 1];
      InsertNumberSorts(front, n);
      hide Rising;
      assert sorted == front + [last];
      AppendGreatest(front, last, n, InsertNumber(front, n));
    }
  }

  lemma {:induction false} SortNumbersSorts(numbers: seq<nat>)
    ensures Rising(SortNumbers(numbers)) && multiset(SortNumbers(numbers)) == multiset(numbers)
  {
    if numbers != [] {
      var front, last := numbers[..|numbers| - 1], numbers[|numbers| - 1];
      assert numbers == front + [last];
      SortNumbersSorts(front);
      InsertNumberSorts(SortNumbers(front), last);
    }
  }

  /** The numbers from `afterSeq + 1` on, `count` of them. */
  predicate Consecutive(numbers: seq<nat>, afterSeq: nat) {
    forall i :: 0 <= i < |numbers| ==> numbers[i] == afterSeq + i + 1
  }

  lemma {:induction false} AscendingOnce(numbers: seq<nat>, n: nat)
    requires Ascending(numbers)
    ensures Count(numbers, n) == if n in numbers then 1 else 0
  {
    if numbers != [] {
      var front, last := numbers[..|numbers| - 1], numbers[|numbers| - 1];
      assert numbers == front + [last];
      AscendingOnce(front, n);
    }
  }

  function Count(numbers: seq<nat>, n: nat): nat {
    var all: multiset<nat> := multiset(numbers);
    all[n]
  }

  /** Two ascending lists sort to consecutive numbers of the right count exactly when they cover. */
  lemma CoverageIsExact(afterSeq: nat, upperSeq: nat, rows: seq<nat>, omitted: seq<nat>)
    requires afterSeq <= upperSeq && Ascending(rows) && Ascending(omitted)
    ensures |rows| + |omitted| == upperSeq - afterSeq && Consecutive(SortNumbers(rows + omitted), afterSeq)
       <==> Covers(afterSeq, upperSeq, rows, omitted)
  {
    var sorted := SortNumbers(rows + omitted);
    SortNumbersSorts(rows + omitted);
    assert multiset(sorted) == multiset(rows) + multiset(omitted);
    assert |sorted| == |multiset(sorted)| == |rows| + |omitted|;
    forall n: nat
      ensures Count(sorted, n) == (if n in rows then 1 else 0) + if n in omitted then 1 else 0
    {
      AscendingOnce(rows, n);
      AscendingOnce(omitted, n);
    }
    if |sorted| == upperSeq - afterSeq && Consecutive(sorted, afterSeq) {
      ConsecutiveCovers(afterSeq, upperSeq, rows, omitted, sorted);
    }
    if Covers(afterSeq, upperSeq, rows, omitted) {
      CoveringIsConsecutive(afterSeq, upperSeq, sorted);
    }
  }

  lemma ConsecutiveCovers(afterSeq: nat, upperSeq: nat, rows: seq<nat>, omitted: seq<nat>, sorted: seq<nat>)
    requires Ascending(rows) && Ascending(omitted) && afterSeq <= upperSeq
    requires |sorted| == upperSeq - afterSeq && Consecutive(sorted, afterSeq)
    requires forall n: nat :: Count(sorted, n) == (if n in rows then 1 else 0) + if n in omitted then 1 else 0
    ensures Covers(afterSeq, upperSeq, rows, omitted)
  {
    assert Ascending(sorted);
    forall n: nat
      ensures n in rows || n in omitted <==> afterSeq < n <= upperSeq
      ensures !(n in rows && n in omitted)
    {
      AscendingOnce(sorted, n);
      if afterSeq < n <= upperSeq {
        assert sorted[n - afterSeq - 1] == n;
      }
    }
  }

  /** A rising list that holds each number of the range once is consecutive. */
  lemma {:induction false} CoveringIsConsecutive(afterSeq: nat, upperSeq: nat, sorted: seq<nat>)
    requires afterSeq <= upperSeq && Rising(sorted)
    requires forall n: nat :: Count(sorted, n) == if afterSeq < n <= upperSeq then 1 else 0
    ensures |sorted| == upperSeq - afterSeq && Consecutive(sorted, afterSeq)
  {
    if afterSeq == upperSeq {
      assert forall i :: 0 <= i < |sorted| ==> Count(sorted, sorted[i]) > 0;
    } else {
      assert Count(sorted, upperSeq) == 1;
      assert upperSeq in sorted;
      var front, last := sorted[..|sorted| - 1], sorted[|sorted| - 1];
      assert sorted == front + [last];
      assert Count(sorted, last) > 0;
      assert last == upperSeq;
      forall n: nat
        ensures Count(front, n) == Count(sorted, n) - if n == last then 1 else 0
      {
      }
      CoveringIsConsecutive(afterSeq, upperSeq - 1, front);
    }
  }

  method ValidChamberHistoryPayload(payload: Payload) returns (valid: bool)
    ensures valid == Valid(payload)
  {
    if !WithinLimits(payload) {
      return false;
    }
    if !payload.Messages? {
      return true;
    }
    var omitted, rows := payload.omitted, payload.rows;
    ghost var numbers := Numbers(rows);
    if exists i :: 0 <= i < |omitted|
         && (omitted[i] <= payload.afterSeq || omitted[i] > payload.upperSeq || (i > 0 && omitted[i] <= omitted[i - 1])) {
      NotCovered(payload.afterSeq, payload.upperSeq, numbers, omitted);
      return false;
    }
    StepsAscend(omitted);
    var rises := RowsRise(rows, payload.afterSeq);
    hide Covers, Ascending, Rising, Numbers, SortNumbers;
    if !rises {
      return false;
    }
    CoverageIsExact(payload.afterSeq, payload.upperSeq, numbers, omitted);
    var coverage := SortNumbers(Numbers(rows) + omitted);
    SortNumbersSorts(numbers + omitted);
    assert |coverage| == |multiset(coverage)| == |numbers + omitted|;
    valid := |coverage| == payload.upperSeq - payload.afterSeq && Consecutive(coverage, payload.afterSeq);
  }

  /** Each row's number must lie above the last one's. */
  method RowsRise(rows: seq<Message>, afterSeq: nat) returns (rises: bool)
    ensures rises ==> Ascending(Numbers(rows))
    ensures !rises ==> forall upperSeq: nat, omitted: seq<nat> :: !Covers(afterSeq, upperSeq, Numbers(rows), omitted)
  {
    ghost var numbers := Numbers(rows);
    var last := afterSeq;
    for i := 0 to |rows|
      invariant last == if i == 0 then afterSeq else rows[i - 1].number
      invariant forall j :: 0 <= j < i ==> afterSeq < numbers[j]
      invariant forall j :: 0 < j < i ==> numbers[j - 1] < numbers[j]
    {
      if rows[i].number <= last {
        assert numbers[i] in numbers;
        if i > 0 {
          var before, after := numbers[i - 1], numbers[i];
          assert !Ascending(numbers);
        }
        return false;
      }
      last := rows[i].number;
    }
    StepsAscend(numbers);
    return true;
  }

  lemma {:induction false} StepsAscend(numbers: seq<nat>)
    requires forall i :: 0 < i < |numbers| ==> numbers[i - 1] < numbers[i]
    ensures Ascending(numbers)
  {
    if numbers != [] {
      var front, last := numbers[..|numbers| - 1], numbers[|numbers| - 1];
      StepsAscend(front);
      assert numbers == front + [last];
      assert front != [] ==> front[|front| - 1] < last;
    }
  }

  lemma NotCovered(afterSeq: nat, upperSeq: nat, rows: seq<nat>, omitted: seq<nat>)
    requires exists i :: 0 <= i < |omitted| && (omitted[i] <= afterSeq || omitted[i] > upperSeq || (i > 0 && omitted[i] <= omitted[i - 1]))
    ensures !Covers(afterSeq, upperSeq, rows, omitted)
  {
    var i :| 0 <= i < |omitted| && (omitted[i] <= afterSeq || omitted[i] > upperSeq || (i > 0 && omitted[i] <= omitted[i - 1]));
    assert omitted[i] in omitted;
  }
}
