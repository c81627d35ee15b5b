/** The virtual list of src/lib/chat-render-window.ts: a Fenwick tree over row heights, and the
    window of rows that are kept mounted. Heights are reals. */
module ChatRenderWindow {
  import opened Bits
  import opened Sorting
  import opened Wrappers

  const SIZE := 96
  const ACTIVE_ABOVE := 200
  const LEAD := 24
  const DEFAULT_HEIGHT := 76.0
  const MAX_PINS := 4

  // ------------------------------------------------------------- the low bit

  /** The least power of two in the binary form of `i`. */
  function LowBit(i: nat): (bit: nat)
    requires i > 0
    ensures 0 < bit <= i
  {
    if i % 2 == 1 then 1 else 2 * LowBit(i / 2)
  }

  /** The bitwise "and" of two numbers in binary form. */
  function And(a: nat, b: nat): nat {
    if a == 0 || b == 0 then 0 else (if a % 2 == 1 && b % 2 == 1 then 1 else 0) + 2 * And(a / 2, b / 2)
  }

  /** The low bit is the mask that the code writes as `i & -i`, with `-i` in two's complement. */
  lemma {:induction false} LowBitIsMask(i: nat, width: nat)
    requires 0 < i < Pow2(width)
    ensures And(i, Pow2(width) - i) == LowBit(i)
  {
    var negated := Pow2(width) - i;
    if i % 2 == 1 {
      assert negated / 2 == Pow2(width - 1) - 1 - i / 2;
      AndComplement(i / 2, width - 1);
    } else {
      assert negated / 2 == Pow2(width - 1) - i / 2;
      LowBitIsMask(i / 2, width - 1);
    }
  }

  lemma {:induction false} AndComplement(a: nat, width: nat)
    requires a < Pow2(width)
    ensures And(a, Pow2(width) - 1 - a) == 0
  {
    if width > 0 {
      var complement := Pow2(width) - 1 - a;
      assert complement / 2 == Pow2(width - 1) - 1 - a / 2;
      AndComplement(a / 2, width - 1);
    }
  }

  /** Between a number and the next multiple of its low bit, low bits are those of the difference. */
  lemma {:induction false} LowBitBetween(i: nat, r: nat)
    requires i > 0 && 0 < r < LowBit(i)
    ensures LowBit(i + r) == LowBit(r)
  {
    if i % 2 == 0 && r % 2 == 0 {
      assert (i + r) / 2 == i / 2 + r / 2;
      LowBitBetween(i / 2, r / 2);
    }
  }

  lemma {:induction false} LowBitGrows(i: nat)
    requires i > 0
    ensures LowBit(i + LowBit(i)) >= 2 * LowBit(i)
  {
    if i % 2 == 0 {
      assert (i + LowBit(i)) / 2 == i / 2 + LowBit(i / 2);
      LowBitGrows(i / 2);
    }
  }

  // ---------------------------------------------------------------- range sums

  /** The heights of rows `from` to `to`, added up. */
  function Sum(h: seq<real>, from: nat, to: nat): real
    requires to <= |h|
  {
    if from >= to then 0.0 else Sum(h, from, to - 1) + h[to - 1]
  }

  lemma {:induction false} SumSplit(h: seq<real>, a: nat, b: nat, c: nat)
    requires a <= b <= c <= |h|
    ensures Sum(h, a, c) == Sum(h, a, b) + Sum(h, b, c)
  {
    if b < c {
      SumSplit(h, a, b, c - 1);
    }
  }

  lemma {:induction false} SumUpdate(h: seq<real>, k: nat, v: real, a: nat, b: nat)
    requires b <= |h| && k < |h|
    ensures Sum(h[k := v], a, b) == Sum(h, a, b) + if a <= k < b then v - h[k] else 0.0
  {
    if a < b {
      SumUpdate(h, k, v, a, b - 1);
    }
  }

  lemma {:induction false} SumGrows(h: seq<real>, a: nat, b: nat)
    requires a < b <= |h| && forall k :: 0 <= k < |h| ==> h[k] > 0.0
    ensures Sum(h, 0, a) < Sum(h, 0, b)
  {
    if a < b - 1 {
      SumGrows(h, a, b - 1);
    }
  }

  /** Row `r` spans the offset; before the first row and after the last one the ends stand in. */
  predicate Spans(h: seq<real>, r: nat, offset: real) {
    if h == [] then r == 0
    else
      && r < |h|
      && (r == 0 || Sum(h, 0, r) <= offset)
      && (r == |h| - 1 || offset < Sum(h, 0, r + 1))
  }

  lemma SpanIsUnique(h: seq<real>, r: nat, s: nat, offset: real)
    requires forall k :: 0 <= k < |h| ==> h[k] > 0.0
    requires Spans(h, r, offset) && Spans(h, s, offset)
    ensures r == s
  {
    if r + 1 < s {
      SumGrows(h, r + 1, s);
    } else if s + 1 < r {
      SumGrows(h, s + 1, r);
    }
  }

  lemma SearchEnds(h: seq<real>, low: nat, offset: real)
    requires low <= |h| && forall k :: 0 <= k < |h| ==> h[k] > 0.0
    requires (low == 0 || Sum(h, 0, low) <= offset) && (low == |h| || offset < Sum(h, 0, low + 1))
    ensures Spans(h, Min(low, Max(0, |h| - 1)), offset)
  {
    if 1 < low == |h| {
      SumGrows(h, low - 1, low);
    }
  }

  // -------------------------------------------------------------- Fenwick tree

  /** Entry `i` holds the sum of the `LowBit(i)` rows that end before row `i`. */
  ghost predicate Represents(sums: seq<real>, h: seq<real>) {
    && |sums| == |h| + 1
    && forall i :: 1 <= i <= |h| ==> sums[i] == Sum(h, i - LowBit(i), i)
  }

  /** The rows that entry `i` adds up include row `index`. */
  predicate Covers(i: nat, index: nat)
    requires i > 0
  {
    i - LowBit(i) <= index < i
  }

  lemma FirstOnChain(index: nat)
    ensures Covers(index + 1, index)
    ensures forall j :: 1 <= j <= index ==> !Covers(j, index)
  {
    hide LowBit;
  }

  /** After an entry that covers a row, the next one to do so is `LowBit(i)` further. */
  lemma NextOnChain(i: nat, index: nat)
    requires i > 0 && Covers(i, index)
    ensures Covers(i + LowBit(i), index)
    ensures forall j :: i < j < i + LowBit(i) ==> !Covers(j, index)
  {
    LowBitGrows(i);
    forall j | i < j < i + LowBit(i)
      ensures index < j - LowBit(j)
    {
      LowBitBetween(i, j - i);
    }
  }

  lemma Added(before: seq<real>, after: seq<real>, h: seq<real>, index: nat, value: real)
    requires index < |h| && Represents(before, h) && |after| == |before|
    requires forall j :: 1 <= j <= |h| ==> after[j] == before[j] + if Covers(j, index) then value else 0.0
    ensures Represents(after, h[index := h[index] + value])
  {
    hide LowBit, Sum;
    forall j | 1 <= j <= |h|
      ensures after[j] == Sum(h[index := h[index] + value], j - LowBit(j), j)
    {
      SumUpdate(h, index, h[index] + value, j - LowBit(j), j);
    }
  }

  /** The heights of the rows before `count`, and nothing for the others. */
  function Filled(h: seq<real>, count: nat): (r: seq<real>)
    ensures |r| == |h|
  {
    seq(|h|, i requires 0 <= i < |h| => if i < count then h[i] else 0.0)
  }

  lemma {:induction false} SumNothing(h: seq<real>, from: nat, to: nat)
    requires to <= |h| && forall i :: 0 <= i < |h| ==> h[i] == 0.0
    ensures Sum(h, from, to) == 0.0
  {
    if from < to {
      SumNothing(h, from, to - 1);
    }
  }

  lemma NothingFilled(sums: seq<real>, h: seq<real>)
    requires |sums| == |h| + 1 && forall i :: 0 <= i < |sums| ==> sums[i] == 0.0
    ensures Represents(sums, Filled(h, 0))
  {
    hide LowBit;
    forall i | 1 <= i <= |h|
      ensures Sum(Filled(h, 0), i - LowBit(i), i) == 0.0
    {
      SumNothing(Filled(h, 0), i - LowBit(i), i);
    }
  }

  // ---------------------------------------------------------------- the window

  predicate Distinct(ids: seq<string>) {
    forall i, j :: 0 <= i < j < |ids| ==> ids[i] != ids[j]
  }

  predicate Indexes(indices: map<string, nat>, ids: seq<string>) {
    && (forall i :: 0 <= i < |ids| ==> ids[i] in indices && indices[ids[i]] == i)
    && (forall id <- indices :: indices[id] < |ids| && ids[indices[id]] == id)
  }

  function HeightOf(heights: map<string, real>, id: string): real {
    if id in heights then heights[id] else DEFAULT_HEIGHT
  }

  function RowHeights(heights: map<string, real>, ids: seq<string>): (h: seq<real>)
    ensures |h| == |ids| && forall i :: 0 <= i < |ids| ==> h[i] == HeightOf(heights, ids[i])
  {
    seq(|ids|, i requires 0 <= i < |ids| => HeightOf(heights, ids[i]))
  }

  lemma SameHeights(before: map<string, real>, after: map<string, real>, ids: seq<string>)
    requires forall id <- ids :: (id in after <==> id in before) && (id in after ==> after[id] == before[id])
    ensures RowHeights(after, ids) == RowHeights(before, ids)
  {
  }

  function Min(a: int, b: int): int {
    if a < b then a else b
  }

  function Max(a: int, b: int): int {
    if a < b then b else a
  }

  function Abs(x: real): real {
    if x < 0.0 then -x else x
  }

  class ChatRenderWindow {
    var ids: seq<string>
    var indices: map<string, nat>
    var heights: map<string, real>
    var sums: array<real>
    var width: real
    var start: nat
    var end: nat

    /** The rows' heights: as measured, or the default. */
    ghost function Heights(): (h: seq<real>)
      reads this
      ensures |h| == |ids|
    {
      RowHeights(heights, ids)
    }

    predicate Active()
      reads this
    {
      |ids| > ACTIVE_ABOVE
    }

    /** A window of `SIZE` rows, cut off at the end of a short list; a list that is not active may
        be mounted as a whole. */
    predicate InRange()
      reads this
    {
      || (start <= Max(0, |ids| - SIZE) && end == Min(|ids|, start + SIZE))
      || (!Active() && start == 0 && end == |ids|)
    }

    ghost predicate Valid()
      reads this, sums
    {
      && Distinct(ids) && Indexes(indices, ids)
      && (forall id <- heights :: id in indices && heights[id] > 0.0)
      && Represents(sums[..], Heights())
      && InRange()
    }

    constructor ()
      ensures Valid() && ids == [] && heights == map[] && width == 0.0 && start == 0 && end == 0 && fresh(sums)
    {
      ids, indices, heights := [], map[], map[];
      sums := new real[1](_ => 0.0);
      width, start, end := 0.0, 0, 0;
    }

    /** Adds to the height of one row: the entries on the chain are exactly those that cover it. */
    method Add(index: nat, value: real, ghost h: seq<real>)
      requires index < |h| && Represents(sums[..], h)
      modifies sums
      ensures Represents(sums[..], h[index := h[index] + value])
    {
      hide LowBit, Sum;
      ghost var before := sums[..];
      var i := index + 1;
      FirstOnChain(index);
      while i < sums.Length
        invariant index < i && i - LowBit(i) <= index
        invariant forall j :: 1 <= j < i && j <= |h| ==> sums[j] == before[j] + if Covers(j, index) then value else 0.0
        invariant forall j :: i <= j <= |h| ==> sums[j] == before[j]
      {
        sums[i] := sums[i] + value;
        NextOnChain(i, index);
        i := i + LowBit(i);
      }
      Added(before, sums[..], h, index, value);
    }

    /** The exact sum of the heights before a row. */
    method Offset(index: int) returns (sum: real)
      requires Represents(sums[..], Heights())
      ensures sum == Sum(Heights(), 0, Max(0, Min(index, |ids|)))
    {
      sum := 0.0;
      var i := Min(index, |ids|);
      while i > 0
        invariant i <= |ids| && (i >= 0 || i == Min(index, |ids|))
        invariant sum + Sum(Heights(), 0, Max(0, i)) == Sum(Heights(), 0, Max(0, Min(index, |ids|)))
      {
        SumSplit(Heights(), 0, i - LowBit(i), i);
        sum := sum + sums[i];
        i := i - LowBit(i);
      }
    }

    /** The only row that spans the offset. */
    method At(offset: real) returns (row: nat)
      requires Valid()
      ensures Spans(Heights(), row, offset)
    {
      hide Sum, Represents, Distinct, Indexes, InRange;
      ghost var h := Heights();
      var low, high := 0, |ids|;
      while low < high
        invariant 0 <= low <= high <= |h|
        invariant low == 0 || Sum(h, 0, low) <= offset
        invariant high == |h| || offset < Sum(h, 0, high + 1)
      {
        var mid := (low + high) / 2;
        var before := Offset(mid + 1);
        if before <= offset {
          low := mid + 1;
        } else {
          high := mid;
        }
      }
      SearchEnds(h, low, offset);
      row := Min(low, Max(0, |ids| - 1));
    }

    method Measure(id: string, height: real) returns (changed: bool)
      requires Valid()
      modifies this`heights, sums
      ensures Valid()
      ensures changed == (id in indices && height > 0.0 && (HeightOf(old(heights), id) - height <= -0.5 || HeightOf(old(heights), id) - height >= 0.5))
      ensures heights == if changed then old(heights)[id := height] else old(heights)
      ensures Heights() == if changed then old(Heights())[indices[id] := height] else old(Heights())
    {
      hide Sum, LowBit, Represents;
      if id !in indices || height <= 0.0 {
        return false;
      }
      var index, previous := indices[id], HeightOf(heights, id);
      if Abs(previous - height) < 0.5 {
        return false;
      }
      ghost var h := Heights();
      heights := heights[id := height];
      assert Heights() == h[index := height];
      Add(index, height - previous, h);
      return true;
    }

    /** A new tree, filled row by row. */
    method Rebuild()
      modifies this`sums
      ensures fresh(sums) && Represents(sums[..], Heights())
    {
      hide Sum, LowBit, RowHeights, Represents;
      sums := new real[|ids| + 1](_ => 0.0);
      ghost var h := Heights();
      NothingFilled(sums[..], h);
      for i := 0 to |ids|
        invariant Heights() == h && fresh(sums) && Represents(sums[..], Filled(h, i))
      {
        Add(i, HeightOf(heights, ids[i]), Filled(h, i));
        assert Filled(h, i)[i := Filled(h, i)[i] + h[i]] == Filled(h, i + 1);
      }
      assert Filled(h, |ids|) == h;
    }

    /** Heights survive unless the width has changed; the window stays at its first row if it can. */
    method Sync(newIds: seq<string>, newWidth: real)
      requires Valid() && Distinct(newIds)
      modifies this
      ensures Valid() && ids == newIds
      ensures -1.0 <= newWidth - old(width) <= 1.0 && newIds == old(ids) ==> unchanged(this)
      ensures !(-1.0 <= newWidth - old(width) <= 1.0) ==> width == newWidth && Heights() == RowHeights(map[], newIds)
      ensures -1.0 <= newWidth - old(width) <= 1.0 ==> Heights() == RowHeights(old(heights), newIds)
      ensures !(-1.0 <= newWidth - old(width) <= 1.0) || newIds != old(ids) ==>
                && fresh(sums) && width == newWidth && end == Min(|ids|, start + SIZE)
                && start == Min(if old(start) < |old(ids)| && old(ids)[old(start)] in indices then indices[old(ids)[old(start)]] else old(start),
                                Max(0, |ids| - SIZE))
    {
      hide Represents, RowHeights, Indexes, Distinct, InRange;
      var resized := Abs(newWidth - width) > 1.0;
      if !resized && newIds == ids {
        return;
      }
      var first := if start < |ids| then Some(ids[start]) else None;
      width := newWidth;
      Replace(newIds, if resized then map[] else heights);
      Rebuild();
      Locate(first);
    }

    method Replace(newIds: seq<string>, known: map<string, real>)
      requires Distinct(newIds) && forall id <- known :: known[id] > 0.0
      modifies this`ids, this`indices, this`heights
      ensures ids == newIds && Indexes(indices, ids)
      ensures forall id <- heights :: id in indices && heights[id] > 0.0
      ensures Heights() == RowHeights(known, newIds)
    {
      ids := newIds;
      indices := map i: nat | i < |newIds| :: newIds[i] := i;
      heights := map id | id in known && id in indices :: known[id];
      SameHeights(known, heights, newIds);
    }

    method Locate(first: Option<string>)
      modifies this`start, this`end
      ensures InRange() && end == Min(|ids|, start + SIZE)
      ensures start == Min(if first.Some? && first.value in indices then indices[first.value] else old(start), Max(0, |ids| - SIZE))
    {
      start := Min(if first.Some? && first.value in indices then indices[first.value] else start, Max(0, |ids| - SIZE));
      end := Min(|ids|, start + SIZE);
    }

    method Choose(center: int, frozen: bool)
      requires Valid()
      modifies this`start, this`end
      ensures Valid()
      ensures !Active() ==> start == 0 && end == |ids|
      ensures Active() && frozen ==> start == old(start) && end == old(end)
      ensures Active() ==> end == start + SIZE
      ensures Active() && !frozen && 0 <= center < |ids| ==> start <= center < end
      ensures Active() && !frozen ==> start == Max(0, Min(|ids| - SIZE, center - LEAD))
    {
      if !Active() {
        start, end := 0, |ids|;
        return;
      }
      if frozen {
        return;
      }
      start := Max(0, Min(|ids| - SIZE, center - LEAD));
      end := Min(|ids|, start + SIZE);
    }

    /** The rows that up to `count` pins name. */
    ghost predicate Pinned(pins: seq<string>, count: nat, row: nat)
      reads this
    {
      exists p :: 0 <= p < |pins| && p < count && pins[p] in indices && indices[pins[p]] == row
    }

    method Mounted(pins: seq<string>) returns (rows: seq<nat>)
      requires Valid()
      ensures Ascending(rows) && |rows| <= end - start + MAX_PINS
      ensures forall row: nat :: row in rows <==> start <= row < end || Pinned(pins, MAX_PINS, row)
    {
      hide Represents, Distinct, RowHeights, Ascending;
      var from := start;
      var window: seq<nat> := seq(end - start, i requires i >= 0 => from + i);
      var mounted := Elements(window);
      ElementsAtMost(window);
      WindowRows(start, end, window);
      var count := Min(|pins|, MAX_PINS);
      for p := 0 to count
        invariant |mounted| <= end - start + p
        invariant forall row: nat :: row in mounted <==> start <= row < end || Pinned(pins, p, row)
      {
        if pins[p] in indices {
          mounted := mounted + {indices[pins[p]]};
        }
      }
      rows := Sorted(mounted);
    }
  }

  lemma WindowRows(start: nat, end: nat, window: seq<nat>)
    requires start <= end && |window| == end - start && forall i :: 0 <= i < |window| ==> window[i] == start + i
    ensures forall row: nat :: row in window <==> start <= row < end
  {
    forall row: nat | start <= row < end
      ensures row in window
    {
      assert window[row - start] == row;
    }
  }

  function Elements(s: seq<nat>): set<nat> {
    set x | x in s
  }

  lemma {:induction false} ElementsAtMost(s: seq<nat>)
    ensures |Elements(s)| <= |s|
  {
    if s != [] {
      ElementsAtMost(s[..|s| - 1]);
      assert Elements(s) == Elements(s[..|s| - 1]) + {s[|s| - 1]};
    } else {
      assert Elements(s) == {};
    }
  }
}
