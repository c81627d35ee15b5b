/** The archive writer of src/lib/cloud-backup.ts with the server rules of server/cloud-backups.mjs. The
    device's saved state, its history rows and the server survive every stop; a pass may stop at any step. */
module CloudBackup {
  import opened CloudArchive
  import opened Sequences
  import opened Wrappers

  const PAGE := 100
  const BATCHES := 20
  const MAX_SEALED := 1_800_000
  const WAIT := 45_000

  // ------------------------------------------------------------ history rows

  predicate Within(m: Message, a: nat, b: nat, late: set<nat>) {
    a < m.number <= b && m.number !in late
  }

  /** The rows numbered from a (excluded) to b that were not late. */
  function Span(rows: seq<Message>, a: nat, b: nat, late: set<nat>): seq<Message> {
    if rows == [] then []
    else Span(rows[..|rows| - 1], a, b, late) + (if Within(rows[|rows| - 1], a, b, late) then [rows[|rows| - 1]] else [])
  }

  /** The rows above the cursor, in order. */
  function After(rows: seq<Message>, cursor: nat): seq<Message> {
    Span(rows, cursor, if rows == [] then 0 else rows[|rows| - 1].number, {})
  }

  lemma SpanAppend(rows: seq<Message>, m: Message, a: nat, b: nat, late: set<nat>)
    ensures Span(rows + [m], a, b, late) == Span(rows, a, b, late) + (if Within(m, a, b, late) then [m] else [])
  {
    assert (rows + [m])[..|rows|] == rows;
  }

  lemma {:induction false} SpanOnes(rows: seq<Message>, a: nat, b: nat, late: set<nat>)
    ensures forall m :: m in Span(rows, a, b, late) <==> m in rows && Within(m, a, b, late)
  {
    if rows != [] {
      SpanOnes(rows[..|rows| - 1], a, b, late);
      assert rows == rows[..|rows| - 1] + [rows[|rows| - 1]];
    }
  }

  lemma {:induction false} SpanIsAscending(rows: seq<Message>, a: nat, b: nat, late: set<nat>)
    requires Ascending(rows)
    ensures Ascending(Span(rows, a, b, late))
  {
    if rows != [] {
      var front, last := rows[..|rows| - 1], rows[|rows| - 1];
      SpanIsAscending(front, a, b, late);
      SpanOnes(front, a, b, late);
      var kept := Span(front, a, b, late);
      forall i: nat | i < |kept|
        ensures kept[i].number < last.number
      {
        assert kept[i] in front;
      }
    }
  }

  lemma {:induction false} SpanConcat(lo: seq<Message>, hi: seq<Message>, a: nat, b: nat, late: set<nat>)
    ensures Span(lo + hi, a, b, late) == Span(lo, a, b, late) + Span(hi, a, b, late)
  {
    if hi == [] {
      assert lo + hi == lo;
    } else {
      var front, last := hi[..|hi| - 1], hi[|hi| - 1];
      SpanConcat(lo, front, a, b, late);
      SpanAppend(lo + front, last, a, b, late);
      SpanAppend(front, last, a, b, late);
      hide Span, Within;
      assert hi == front + [last];
      ConcatAssociative(lo, front, [last]);
      ConcatAssociative(Span(lo, a, b, late), Span(front, a, b, late), if Within(last, a, b, late) then [last] else []);
    }
  }

  /** A row that nobody holds may be called late. */
  lemma {:induction false} SpanIgnores(rows: seq<Message>, a: nat, b: nat, late: set<nat>, n: nat)
    requires forall m :: m in rows ==> m.number != n
    ensures Span(rows, a, b, late + {n}) == Span(rows, a, b, late)
  {
    if rows != [] {
      assert rows[|rows| - 1] in rows && forall m :: m in rows[..|rows| - 1] ==> m in rows;
      SpanIgnores(rows[..|rows| - 1], a, b, late, n);
    }
  }

  lemma {:induction false} SpanOfNothing(rows: seq<Message>, a: nat, b: nat, late: set<nat>)
    requires forall m :: m in rows ==> !Within(m, a, b, late)
    ensures Span(rows, a, b, late) == []
  {
    if rows != [] {
      assert rows[|rows| - 1] in rows && forall m :: m in rows[..|rows| - 1] ==> m in rows;
      SpanOfNothing(rows[..|rows| - 1], a, b, late);
    }
  }

  lemma {:induction false} SpanOfAll(rows: seq<Message>, a: nat, b: nat, late: set<nat>)
    requires forall m :: m in rows ==> Within(m, a, b, late)
    ensures Span(rows, a, b, late) == rows
  {
    if rows != [] {
      assert rows[|rows| - 1] in rows && forall m :: m in rows[..|rows| - 1] ==> m in rows;
      SpanOfAll(rows[..|rows| - 1], a, b, late);
      assert rows == rows[..|rows| - 1] + [rows[|rows| - 1]];
    }
  }

  /** Neighbouring spans join. */
  lemma {:induction false} SpanSplits(rows: seq<Message>, a: nat, b: nat, c: nat, late: set<nat>)
    requires Ascending(rows) && a <= b <= c
    ensures Span(rows, a, c, late) == Span(rows, a, b, late) + Span(rows, b, c, late)
  {
    if rows != [] {
      var front, last := rows[..|rows| - 1], rows[|rows| - 1];
      SpanSplits(front, a, b, c, late);
      if last.number <= b {
        SpanOfNothing(front, b, c, late);
      } else if Within(last, b, c, late) {
        ConcatAssociative(Span(front, a, b, late), Span(front, b, c, late), [last]);
      }
    }
  }

  lemma SpanOfMiddle(lo: seq<Message>, mid: seq<Message>, hi: seq<Message>, a: nat, b: nat, late: set<nat>)
    requires forall m :: m in lo || m in hi ==> !Within(m, a, b, late)
    requires forall m :: m in mid ==> Within(m, a, b, late)
    ensures Span(lo + mid + hi, a, b, late) == mid
  {
    hide Span;
    SpanConcat(lo + mid, hi, a, b, late);
    SpanConcat(lo, mid, a, b, late);
    SpanOfNothing(lo, a, b, late);
    SpanOfAll(mid, a, b, late);
    SpanOfNothing(hi, a, b, late);
  }

  lemma {:induction false} CutAt(rows: seq<Message>, cursor: nat) returns (k: nat)
    requires Ascending(rows)
    ensures k <= |rows|
    ensures forall i: nat :: i < k ==> rows[i].number <= cursor
    ensures forall i: nat :: k <= i < |rows| ==> rows[i].number > cursor
  {
    if rows == [] || rows[|rows| - 1].number <= cursor {
      k := |rows|;
    } else {
      k := CutAt(rows[..|rows| - 1], cursor);
    }
  }

  /** The rows above the cursor are the end of the list. */
  lemma AfterIsSuffix(rows: seq<Message>, cursor: nat) returns (k: nat)
    requires Ascending(rows)
    ensures k <= |rows| && After(rows, cursor) == rows[k..]
    ensures forall i: nat :: i < k ==> rows[i].number <= cursor
    ensures forall i: nat :: k <= i < |rows| ==> rows[i].number > cursor
  {
    k := CutAt(rows, cursor);
    hide Span;
    assert rows[..k] + rows[k..] + [] == rows;
    SpanOfMiddle(rows[..k], rows[k..], [], cursor, if rows == [] then 0 else rows[|rows| - 1].number, {});
  }

  /** A page of rows above the cursor is the whole span up to its last row. */
  lemma PageIsSpan(rows: seq<Message>, cursor: nat, n: nat, late: set<nat>)
    requires Ascending(rows) && 0 < n <= |After(rows, cursor)|
    requires forall m :: m in rows && m.number > cursor ==> m.number !in late
    ensures Span(rows, cursor, After(rows, cursor)[n - 1].number, late) == After(rows, cursor)[..n]
  {
    var k := AfterIsSuffix(rows, cursor);
    hide After, Span;
    assert rows[k..][..n] == rows[k..k + n];
    assert rows == rows[..k] + rows[k..k + n] + rows[k + n..];
    SpanOfMiddle(rows[..k], rows[k..k + n], rows[k + n..], cursor, rows[k + n - 1].number, late);
  }

  // ------------------------------------------------------------ the chain of parts

  datatype Config = Config(roomId: nat, start: nat, inherited: seq<Archive>, current: nat)

  function CursorOf(parts: seq<Part>, start: nat): nat {
    if parts == [] then start else parts[|parts| - 1].lastSeq
  }

  /** A part holds exactly the rows above the part before it, and its index entry says so. */
  predicate Next(c: Config, from: nat, p: Part, rows: seq<Message>, late: set<nat>) {
    var s := p.digest.contents;
    && s.archiveId == c.current && s.partId == p.id
    && s.messages == Span(rows, from, p.lastSeq, late)
    && Fits(s, c.roomId, p)
    && p.inventory == InventoryOf(s.messages)
  }

  predicate Chain(c: Config, parts: seq<Part>, rows: seq<Message>, late: set<nat>) {
    parts == [] ||
    (var front := parts[..|parts| - 1];
     Chain(c, front, rows, late) && Next(c, CursorOf(front, c.start), parts[|parts| - 1], rows, late))
  }

  lemma ChainAppend(c: Config, parts: seq<Part>, p: Part, rows: seq<Message>, late: set<nat>)
    requires Chain(c, parts, rows, late) && Next(c, CursorOf(parts, c.start), p, rows, late)
    ensures Chain(c, parts + [p], rows, late) && CursorOf(parts + [p], c.start) == p.lastSeq
  {
    assert (parts + [p])[..|parts|] == parts;
  }

  lemma NextMovesOn(c: Config, from: nat, p: Part, rows: seq<Message>, late: set<nat>)
    requires Next(c, from, p, rows, late)
    ensures from < p.firstSeq <= p.lastSeq
  {
    SpanOnes(rows, from, p.lastSeq, late);
    var messages := p.digest.contents.messages;
    assert messages[0] in messages && messages[|messages| - 1] in messages;
  }

  /** The parts of a chain are disjoint and increasing, up to the cursor. */
  lemma {:induction false} ChainIncreases(c: Config, parts: seq<Part>, rows: seq<Message>, late: set<nat>)
    requires Chain(c, parts, rows, late)
    ensures c.start <= CursorOf(parts, c.start)
    ensures forall p :: p in parts ==> p.firstSeq <= p.lastSeq <= CursorOf(parts, c.start)
    ensures forall i: nat, j: nat :: i < j < |parts| ==> parts[i].lastSeq < parts[j].firstSeq
  {
    hide Span, Fits, InventoryOf;
    if parts != [] {
      var front, last := parts[..|parts| - 1], parts[|parts| - 1];
      ChainIncreases(c, front, rows, late);
      NextMovesOn(c, CursorOf(front, c.start), last, rows, late);
      assert parts == front + [last];
      forall i: nat | i < |front|
        ensures parts[i].lastSeq < last.firstSeq
      {
        assert front[i] in front;
      }
    }
  }

  /** A chain holds each row between the start and its cursor exactly once, in order, apart from exactly
      the late ones. */
  lemma {:induction false} ChainHoldsEachOnce(c: Config, parts: seq<Part>, rows: seq<Message>, late: set<nat>)
    requires Chain(c, parts, rows, late) && Ascending(rows)
    ensures MessagesOf(parts) == Span(rows, c.start, CursorOf(parts, c.start), late)
  {
    hide Span, Fits, InventoryOf;
    if parts == [] {
      SpanIsEmpty(rows, c.start, late);
    } else {
      var front, last := parts[..|parts| - 1], parts[|parts| - 1];
      ChainHoldsEachOnce(c, front, rows, late);
      ChainIncreases(c, front, rows, late);
      NextMovesOn(c, CursorOf(front, c.start), last, rows, late);
      SpanSplits(rows, c.start, CursorOf(front, c.start), last.lastSeq, late);
    }
  }

  /** Its published counts are those of the rows it holds. */
  lemma {:induction false} ChainCounts(c: Config, parts: seq<Part>, rows: seq<Message>, late: set<nat>)
    requires Chain(c, parts, rows, late)
    ensures forall p :: p in parts ==> p.inventory == InventoryOf(p.digest.contents.messages)
  {
    hide Span, Fits, InventoryOf;
    if parts != [] {
      ChainCounts(c, parts[..|parts| - 1], rows, late);
      assert parts == parts[..|parts| - 1] + [parts[|parts| - 1]];
    }
  }

  lemma {:induction false} SpanIsEmpty(rows: seq<Message>, a: nat, late: set<nat>)
    ensures Span(rows, a, a, late) == []
  {
    if rows != [] {
      SpanIsEmpty(rows[..|rows| - 1], a, late);
    }
  }

  // ------------------------------------------------------------ fitting a part under the size limit

  /** Halving until the sealed part fits; None when a single message does not. */
  function Fitted(messages: seq<Message>, size: seq<Message> -> nat): (r: Option<seq<Message>>)
    requires |messages| > 0
    ensures r.Some? ==> 0 < |r.value| <= |messages| && r.value == messages[..|r.value|] && size(r.value) <= MAX_SEALED
    ensures r.None? ==> size(messages[..1]) > MAX_SEALED
    ensures size(messages) <= MAX_SEALED ==> r == Some(messages)
    decreases |messages|
  {
    if size(messages) <= MAX_SEALED then Some(messages)
    else if |messages| == 1 then
      assert messages[..1] == messages;
      None
    else
      var half := messages[..(|messages| + 1) / 2];
      assert half[..1] == messages[..1];
      var r := Fitted(half, size);
      assert r.Some? ==> half[..|r.value|] == messages[..|r.value|];
      r
  }

  // ------------------------------------------------------------ the device and the server

  datatype Staged = Staged(part: Part, contents: Sealed)

  datatype Entry = Entry(id: nat, writable: bool, counts: Inventory)

  datatype Envelope = Envelope(revision: nat, archives: seq<Archive>, entries: seq<Entry>)

  /** The saved backup state of the device; the archives are the inherited ones and the current one. */
  datatype Local = Local(parts: seq<Part>, cursor: nat, revision: nat, pending: Option<Envelope>, pendingPart: Option<Staged>,
                         batchStartedAt: Option<nat>)

  datatype Server = Server(backup: Option<Envelope>, store: map<(nat, nat), Sealed>)

  function Archives(c: Config, parts: seq<Part>): seq<Archive> {
    c.inherited + [Archive(c.current, parts)]
  }

  function Entries(archives: seq<Archive>): (r: seq<Entry>)
    ensures |r| == |archives|
    ensures forall i: nat :: i < |r| ==>
              r[i] == Entry(archives[i].id, i == |archives| - 1, ArchiveInventory(archives[i].parts))
  {
    seq(|archives|, (i: nat) requires i < |archives| =>
      Entry(archives[i].id, i == |archives| - 1, ArchiveInventory(archives[i].parts)))
  }

  function EnvelopeOf(c: Config, revision: nat, parts: seq<Part>): Envelope {
    Envelope(revision, Archives(c, parts), Entries(Archives(c, parts)))
  }

  predicate SameEntry(a: Entry, b: Entry) {
    a.id == b.id && a.writable == b.writable
  }

  /** The archive is still listed, as writable as it was. */
  predicate Keeps(entries: seq<Entry>, entry: Entry) {
    exists j :: 0 <= j < |entries| && SameEntry(entry, entries[j])
  }

  /** The server takes the next revision that still lists its archives, and answers a repeated one again. */
  function Save(server: Server, e: Envelope): Result<Server> {
    match server.backup
    case None => if e.revision == 1 then Ok(server.(backup := Some(e))) else Err
    case Some(b) =>
      if b == e then Ok(server)
      else if e.revision != b.revision + 1 then Err
      else if exists i :: 0 <= i < |b.entries| && !Keeps(e.entries, b.entries[i]) then Err
      else Ok(server.(backup := Some(e)))
  }

  /** Whatever envelope is sent: the revision only moves on by one, the same one may be repeated, and no archive
      is forgotten. */
  lemma ServerMovesOn(server: Server, e: Envelope)
    ensures match Save(server, e)
            case Err => true
            case Ok(after) =>
              && after.store == server.store && after.backup == Some(e)
              && (server.backup.None? ==> e.revision == 1)
              && (server.backup.Some? && server.backup.value != e ==>
                    && e.revision == server.backup.value.revision + 1
                    && forall i :: 0 <= i < |server.backup.value.entries| ==> Keeps(e.entries, server.backup.value.entries[i]))
  {
  }

  /** Whatever part is sent: a stored one is never replaced, and only a writable archive takes one. */
  lemma StoredPartsAreFinal(server: Server, archiveId: nat, partId: nat, s: Sealed)
    ensures match PutPart(server, archiveId, partId, s)
            case Err => true
            case Ok(after) =>
              && after.backup == server.backup && Writable(server, archiveId)
              && (archiveId, partId) in after.store && after.store[(archiveId, partId)] == s
              && forall k <- server.store :: k in after.store && after.store[k] == server.store[k]
  {
  }

  predicate Writable(server: Server, archiveId: nat) {
    server.backup.Some? && exists i :: 0 <= i < |server.backup.value.entries|
                                    && server.backup.value.entries[i].id == archiveId && server.backup.value.entries[i].writable
  }

  /** A part is written once; the same part again is already stored, another one is refused. */
  function PutPart(server: Server, archiveId: nat, partId: nat, s: Sealed): Result<Server> {
    if !Writable(server, archiveId) then Err
    else if (archiveId, partId) in server.store then
      if server.store[(archiveId, partId)] == s then Ok(server) else Err
    else Ok(server.(store := server.store[(archiveId, partId) := s]))
  }

  // ------------------------------------------------------------ what every run keeps

  predicate Stored(store: map<(nat, nat), Sealed>, archives: seq<Archive>) {
    forall a, p :: a in archives && p in a.parts ==> (a.id, p.id) in store && Digest(store[(a.id, p.id)]) == p.digest
  }

  /** An envelope cites only stored parts, and a chain of rows that stops at or before the cursor. */
  predicate Published(c: Config, e: Envelope, cursor: nat, store: map<(nat, nat), Sealed>, rows: seq<Message>, late: set<nat>) {
    && |e.archives| > 0 && e == EnvelopeOf(c, e.revision, e.archives[|e.archives| - 1].parts)
    && Stored(store, e.archives)
    && (var parts := e.archives[|e.archives| - 1].parts;
        Chain(c, parts, rows, late) && CursorOf(parts, c.start) <= cursor)
  }

  /** The row number up to which rows are already cut into parts. */
  function Reach(l: Local): nat {
    if l.pendingPart.Some? then l.pendingPart.value.part.lastSeq else l.cursor
  }

  predicate HistoryOk(c: Config, l: Local, store: map<(nat, nat), Sealed>, rows: seq<Message>, late: set<nat>) {
    && Ascending(rows) && (forall m :: m in rows ==> m.number >= 1 && m.supported)
    && Chain(c, l.parts, rows, late) && l.cursor == CursorOf(l.parts, c.start)
    && (l.pendingPart.Some? ==>
          var s := l.pendingPart.value;
          && Next(c, l.cursor, s.part, rows, late) && s.contents == s.part.digest.contents
          && ((c.current, s.part.id) in store ==> store[(c.current, s.part.id)] == s.contents))
    && (forall n :: n in late ==> n <= Reach(l))
    && Stored(store, Archives(c, l.parts))
  }

  /** The server is at the device's revision, or one ahead with exactly the pending envelope. */
  predicate RevisionsOk(c: Config, l: Local, server: Server, rows: seq<Message>, late: set<nat>) {
    && (l.pending.Some? ==> l.pending.value == EnvelopeOf(c, l.revision + 1, l.parts))
    && (server.backup.None? ==> l.revision == 0)
    && (server.backup.Some? ==>
          var b := server.backup.value;
          && (b.revision == l.revision || l.pending == Some(b))
          && Published(c, b, l.cursor, server.store, rows, late))
  }

  predicate ValidState(c: Config, l: Local, server: Server, rows: seq<Message>, late: set<nat>) {
    && HistoryOk(c, l, server.store, rows, late)
    && RevisionsOk(c, l, server, rows, late)
  }

  // ------------------------------------------------------------ steps keep it

  /** A row that arrives above what is cut into parts joins a later part; below it, it is late for good. */
  lemma {:induction false} ArrivalKeepsChain(c: Config, parts: seq<Part>, rows: seq<Message>, late: set<nat>, i: nat, m: Message,
                                             reach: nat)
    requires Chain(c, parts, rows, late) && CursorOf(parts, c.start) <= reach
    requires i <= |rows| && forall r :: r in rows ==> r.number != m.number
    ensures Chain(c, parts, rows[..i] + [m] + rows[i..], if m.number <= reach then late + {m.number} else late)
  {
    hide Span, Fits, InventoryOf;
    if parts != [] {
      var front, last := parts[..|parts| - 1], parts[|parts| - 1];
      NextMovesOn(c, CursorOf(front, c.start), last, rows, late);
      ArrivalKeepsChain(c, front, rows, late, i, m, reach);
      ArrivalKeepsSpan(rows, late, i, m, CursorOf(front, c.start), last.lastSeq, reach);
    }
  }

  lemma ArrivalKeepsSpan(rows: seq<Message>, late: set<nat>, i: nat, m: Message, a: nat, b: nat, reach: nat)
    requires b <= reach && i <= |rows| && forall r :: r in rows ==> r.number != m.number
    ensures Span(rows[..i] + [m] + rows[i..], a, b, if m.number <= reach then late + {m.number} else late) == Span(rows, a, b, late)
  {
    var late' := if m.number <= reach then late + {m.number} else late;
    var lo, hi := rows[..i], rows[i..];
    assert rows == lo + hi;
    SpanIgnores(rows, a, b, late, m.number);
    SpanConcat(lo, hi, a, b, late');
    SpanConcat(lo + [m], hi, a, b, late');
    SpanAppend(lo, m, a, b, late');
    hide Span;
  }

  lemma ArrivalKeepsHistory(c: Config, l: Local, store: map<(nat, nat), Sealed>, rows: seq<Message>, late: set<nat>, i: nat, m: Message)
    requires HistoryOk(c, l, store, rows, late) && i <= |rows| && m.number >= 1 && m.supported
    requires Ascending(rows[..i] + [m] + rows[i..])
    ensures HistoryOk(c, l, store, rows[..i] + [m] + rows[i..], if m.number <= Reach(l) then late + {m.number} else late)
    ensures l.cursor <= Reach(l)
  {
    NewNumber(rows, i, m);
    hide Span, Fits, InventoryOf, Chain, Stored, Ascending;
    if l.pendingPart.Some? {
      NextMovesOn(c, l.cursor, l.pendingPart.value.part, rows, late);
      ArrivalKeepsSpan(rows, late, i, m, l.cursor, l.pendingPart.value.part.lastSeq, Reach(l));
    }
    ArrivalKeepsChain(c, l.parts, rows, late, i, m, Reach(l));
  }

  lemma ArrivalKeepsState(c: Config, l: Local, server: Server, rows: seq<Message>, late: set<nat>, i: nat, m: Message)
    requires ValidState(c, l, server, rows, late) && i <= |rows| && m.number >= 1 && m.supported
    requires Ascending(rows[..i] + [m] + rows[i..])
    ensures ValidState(c, l, server, rows[..i] + [m] + rows[i..], if m.number <= Reach(l) then late + {m.number} else late)
  {
    ArrivalKeepsHistory(c, l, server.store, rows, late, i, m);
    NewNumber(rows, i, m);
    hide HistoryOk, Chain, Stored, Ascending, EnvelopeOf;
    if server.backup.Some? {
      var e := server.backup.value;
      ArrivalKeepsChain(c, e.archives[|e.archives| - 1].parts, rows, late, i, m, Reach(l));
    }
  }

  lemma NewNumber(rows: seq<Message>, i: nat, m: Message)
    requires i <= |rows| && Ascending(rows[..i] + [m] + rows[i..])
    ensures forall r :: r in rows ==> r.number != m.number
    ensures forall r :: r in rows[..i] + [m] + rows[i..] <==> r in rows || r == m
  {
    var all := rows[..i] + [m] + rows[i..];
    assert all[i] == m;
    forall k: nat | k < |rows|
      ensures rows[k].number != m.number && rows[k] in all
    {
      assert rows[k] == all[if k < i then k else k + 1];
    }
    assert rows == rows[..i] + rows[i..];
  }

  lemma WaitingKeepsState(c: Config, l: Local, server: Server, rows: seq<Message>, late: set<nat>)
    requires ValidState(c, l, server, rows, late)
    ensures forall at :: ValidState(c, l.(batchStartedAt := at), server, rows, late)
  {
    hide Chain, Stored, Published, EnvelopeOf, Next, Ascending;
  }

  /** Any envelope of this device is accepted: fresh at the next revision, or repeated after a lost answer. */
  lemma SendIsAccepted(c: Config, l: Local, server: Server, rows: seq<Message>, late: set<nat>)
    requires ValidState(c, l, server, rows, late) && l.pending.Some?
    ensures Save(server, l.pending.value) == Ok(server.(backup := l.pending))
    ensures ValidState(c, l, server.(backup := l.pending), rows, late)
    ensures RevisionsOk(c, l.(revision := l.pending.value.revision, pending := None), server.(backup := l.pending), rows, late)
  {
    var e := l.pending.value;
    hide HistoryOk;
    assert e.archives == Archives(c, l.parts) && e.archives[|e.archives| - 1].parts == l.parts by {
      assert Archives(c, l.parts)[|c.inherited|] == Archive(c.current, l.parts);
    }
    PublishedNow(c, l, server.store, rows, late);
    if server.backup.Some? && server.backup.value != e {
      SameEntries(c, server.backup.value, e, l, server, rows, late);
    }
  }

  lemma PublishedNow(c: Config, l: Local, store: map<(nat, nat), Sealed>, rows: seq<Message>, late: set<nat>)
    requires HistoryOk(c, l, store, rows, late)
    ensures Published(c, EnvelopeOf(c, l.revision + 1, l.parts), l.cursor, store, rows, late)
  {
    hide Chain, Stored;
    assert Archives(c, l.parts)[|c.inherited|] == Archive(c.current, l.parts);
  }

  lemma SameEntries(c: Config, b: Envelope, e: Envelope, l: Local, server: Server, rows: seq<Message>, late: set<nat>)
    requires Published(c, b, l.cursor, server.store, rows, late) && e == EnvelopeOf(c, l.revision + 1, l.parts)
    ensures forall i :: 0 <= i < |b.entries| ==> exists j :: 0 <= j < |e.entries| && SameEntry(b.entries[i], e.entries[j])
  {
    hide Chain, Stored;
    forall i: nat | i < |b.entries|
      ensures i < |e.entries| && SameEntry(b.entries[i], e.entries[i])
    {
      assert b.archives[i].id == e.archives[i].id;
    }
  }

  /** The archive that parts go to is open for writing once any envelope is accepted. */
  lemma CurrentIsWritable(c: Config, l: Local, server: Server, rows: seq<Message>, late: set<nat>)
    requires ValidState(c, l, server, rows, late) && server.backup.Some?
    ensures Writable(server, c.current)
  {
    hide Chain, Stored, HistoryOk;
    var b := server.backup.value;
    var i := |c.inherited|;
    assert b.archives[i].id == c.current;
    assert b.entries[i].writable && b.entries[i].id == c.current;
  }

  lemma StagingKeepsState(c: Config, l: Local, server: Server, rows: seq<Message>, late: set<nat>)
    requires ValidState(c, l, server, rows, late) && l.pending.None?
    ensures ValidState(c, l.(pending := Some(EnvelopeOf(c, l.revision + 1, l.parts))), server, rows, late)
  {
    hide Chain, Stored, Published, EnvelopeOf;
  }

  lemma ConfirmingKeepsState(c: Config, l: Local, server: Server, rows: seq<Message>, late: set<nat>)
    requires ValidState(c, l, server, rows, late) && l.pending.Some? && server.backup == l.pending
    ensures ValidState(c, l.(revision := l.pending.value.revision, pending := None), server, rows, late)
  {
    SendIsAccepted(c, l, server, rows, late);
    hide Chain, Stored, Published, EnvelopeOf, RevisionsOk;
  }

  function PartOf(c: Config, id: nat, messages: seq<Message>): Part
    requires |messages| > 0
  {
    Part(id, Digest(Sealed(c.current, id, c.roomId, messages)), messages[0].number, messages[|messages| - 1].number, |messages|,
         InventoryOf(messages))
  }

  /** The first rows above the cursor, cut into a part, are the next part of the chain. */
  lemma CutIsNext(c: Config, l: Local, rows: seq<Message>, late: set<nat>, id: nat, n: nat)
    requires Ascending(rows) && forall m :: m in rows ==> m.number >= 1 && m.supported
    requires forall k :: k in late ==> k <= l.cursor
    requires 0 < n <= |After(rows, l.cursor)|
    ensures Next(c, l.cursor, PartOf(c, id, After(rows, l.cursor)[..n]), rows, late)
  {
    var messages := After(rows, l.cursor)[..n];
    var upto := messages[n - 1].number;
    PageIsSpan(rows, l.cursor, n, late);
    SpanIsAscending(rows, l.cursor, upto, late);
    SpanOnes(rows, l.cursor, upto, late);
    hide Span, After, InventoryOf;
    forall i: nat | i < n
      ensures messages[i].number >= 1 && messages[i].supported
    {
      assert messages[i] in messages;
    }
  }

  lemma HistoryFacts(c: Config, l: Local, server: Server, rows: seq<Message>, late: set<nat>)
    requires ValidState(c, l, server, rows, late) && l.pendingPart.None?
    ensures Ascending(rows) && (forall m :: m in rows ==> m.number >= 1 && m.supported) && forall k :: k in late ==> k <= l.cursor
  {
    hide Chain, Stored, Published, EnvelopeOf, Next;
  }

  lemma CuttingKeepsState(c: Config, l: Local, server: Server, rows: seq<Message>, late: set<nat>, part: Part)
    requires ValidState(c, l, server, rows, late) && l.pendingPart.None?
    requires Next(c, l.cursor, part, rows, late) && (c.current, part.id) !in server.store
    ensures ValidState(c, l.(pendingPart := Some(Staged(part, part.digest.contents)), batchStartedAt := None), server, rows, late)
  {
    NextMovesOn(c, l.cursor, part, rows, late);
    hide Chain, Stored, Published, EnvelopeOf, Next, Ascending;
  }

  lemma PuttingKeepsState(c: Config, l: Local, server: Server, rows: seq<Message>, late: set<nat>)
    requires ValidState(c, l, server, rows, late) && l.pendingPart.Some? && server.backup.Some?
    ensures var s := l.pendingPart.value;
            var key := (c.current, s.part.id);
            var after := server.(store := server.store[key := s.contents]);
            && PutPart(server, c.current, s.part.id, s.contents) == Ok(after)
            && ValidState(c, l, after, rows, late)
  {
    var s := l.pendingPart.value;
    CurrentIsWritable(c, l, server, rows, late);
    var after := server.store[(c.current, s.part.id) := s.contents];
    StoreGrows(server.store, after, Archives(c, l.parts));
    StoreGrows(server.store, after, server.backup.value.archives);
    hide Chain, Stored, EnvelopeOf, Next, Ascending, Writable;
    assert (c.current, s.part.id) in server.store ==> after == server.store;
  }

  lemma StoreGrows(before: map<(nat, nat), Sealed>, after: map<(nat, nat), Sealed>, archives: seq<Archive>)
    requires Stored(before, archives) && forall k :: k in before ==> k in after
    ensures (forall k :: k in before ==> after[k] == before[k]) ==> Stored(after, archives)
  {
  }

  lemma CommittingKeepsState(c: Config, l: Local, server: Server, rows: seq<Message>, late: set<nat>)
    requires ValidState(c, l, server, rows, late) && l.pendingPart.Some? && l.pending.None?
    requires (c.current, l.pendingPart.value.part.id) in server.store
    ensures var part := l.pendingPart.value.part;
            ValidState(c, l.(parts := l.parts + [part], cursor := part.lastSeq, pendingPart := None), server, rows, late)
  {
    var part := l.pendingPart.value.part;
    NextMovesOn(c, l.cursor, part, rows, late);
    ChainAppend(c, l.parts, part, rows, late);
    StoredAppend(c, l.parts, part, server.store);
    hide Chain, Stored, EnvelopeOf, Ascending, Span, Fits, InventoryOf;
  }

  lemma StoredAppend(c: Config, parts: seq<Part>, part: Part, store: map<(nat, nat), Sealed>)
    requires Stored(store, Archives(c, parts)) && (c.current, part.id) in store
    requires store[(c.current, part.id)] == part.digest.contents
    ensures Stored(store, Archives(c, parts + [part]))
  {
    assert Archives(c, parts)[|c.inherited|] == Archive(c.current, parts);
    forall a, p | a in Archives(c, parts + [part]) && p in a.parts
      ensures (a.id, p.id) in store && Digest(store[(a.id, p.id)]) == p.digest
    {
      if a in c.inherited {
        assert a in Archives(c, parts);
      } else {
        assert a == Archive(c.current, parts + [part]);
        if p in parts {
          assert Archive(c.current, parts) in Archives(c, parts);
        } else {
          assert p == part && p.digest == Digest(p.digest.contents);
        }
      }
    }
  }

  // ------------------------------------------------------------ what a published backup is worth

  /** From the envelope on the server, at any moment of any run: every part it cites is stored and passes
      the checks of a restore; its own archive gives back each history row from the start to its cursor
      exactly once, except exactly the rows that arrived late; and its counts are those of the rows. */
  lemma PublishedBackupRestores(c: Config, l: Local, server: Server, rows: seq<Message>, late: set<nat>)
    requires ValidState(c, l, server, rows, late) && server.backup.Some?
    ensures Stored(server.store, server.backup.value.archives)
    ensures |server.backup.value.archives| > 0
    ensures var archive := server.backup.value.archives[|server.backup.value.archives| - 1];
            && CursorOf(archive.parts, c.start) <= l.cursor
            && MessagesOf(archive.parts) == Span(rows, c.start, CursorOf(archive.parts, c.start), late)
            && ArchiveInventory(archive.parts) == InventoryOf(MessagesOf(archive.parts))
  {
    var archive := server.backup.value.archives[|server.backup.value.archives| - 1];
    hide HistoryOk;
    assert Chain(c, archive.parts, rows, late);
    assert Ascending(rows) by {
      HistoryIsAscending(c, l, server, rows, late);
    }
    ChainHoldsEachOnce(c, archive.parts, rows, late);
    ChainCounts(c, archive.parts, rows, late);
    PublishedCountsAreExact(archive.parts);
  }

  lemma HistoryIsAscending(c: Config, l: Local, server: Server, rows: seq<Message>, late: set<nat>)
    requires ValidState(c, l, server, rows, late)
    ensures Ascending(rows)
  {
  }

  /** A history row at or below the cursor is in the archive exactly when it was not late. */
  lemma RowIsBackedUpExactly(c: Config, l: Local, server: Server, rows: seq<Message>, late: set<nat>, m: Message)
    requires ValidState(c, l, server, rows, late) && m in rows && c.start < m.number <= l.cursor
    ensures m in MessagesOf(l.parts) <==> m.number !in late
  {
    ChainHoldsEachOnce(c, l.parts, rows, late);
    SpanOnes(rows, c.start, l.cursor, late);
  }

  /** Any row restored below the cursor is then in the history but never in the archive. */
  lemma RestoredRowIsLeftOut(c: Config, l: Local, server: Server, rows: seq<Message>, late: set<nat>, i: nat, m: Message)
    requires ValidState(c, l, server, rows, late) && i <= |rows| && m.supported && c.start < m.number <= l.cursor
    requires Ascending(rows[..i] + [m] + rows[i..])
    ensures ValidState(c, l, server, rows[..i] + [m] + rows[i..], late + {m.number})
    ensures m in rows[..i] + [m] + rows[i..] && m !in MessagesOf(l.parts)
  {
    CursorIsBelowReach(c, l, server, rows, late);
    ArrivalKeepsState(c, l, server, rows, late, i, m);
    NewNumber(rows, i, m);
    hide ValidState;
    RowIsBackedUpExactly(c, l, server, rows[..i] + [m] + rows[i..], late + {m.number}, m);
  }

  lemma CursorIsBelowReach(c: Config, l: Local, server: Server, rows: seq<Message>, late: set<nat>)
    requires ValidState(c, l, server, rows, late)
    ensures l.cursor <= Reach(l)
  {
    if l.pendingPart.Some? {
      NextMovesOn(c, l.cursor, l.pendingPart.value.part, rows, late);
    }
  }

  // ------------------------------------------------------------ the writer

  /** A call may be lost before it takes effect, or take effect while its answer is lost. */
  datatype Fault = Fine | Before | Unanswered

  datatype Step = Staging(batch: nat) | Sending(batch: nat) | Confirming(batch: nat) | Cutting(batch: nat) | Putting(batch: nat) | Committing(batch: nat)

  /** Part ids drawn for a pass: distinct, and used by no stored or pending part. */
  predicate NewIds(c: Config, pendingPart: Option<Staged>, store: map<(nat, nat), Sealed>, ids: seq<nat>) {
    && (forall i: nat, j: nat :: i < j < |ids| ==> ids[i] != ids[j])
    && (forall i: nat :: i < |ids| ==> (c.current, ids[i]) !in store)
    && (pendingPart.Some? ==> pendingPart.value.part.id !in ids)
  }

  /** The ids not yet used stay new when a part with the next id, or the pending one, is stored. */
  lemma IdsMoveOn(c: Config, pendingPart: Option<Staged>, store: map<(nat, nat), Sealed>, ids: seq<nat>)
    requires NewIds(c, pendingPart, store, ids) && |ids| > 0
    ensures (c.current, ids[0]) !in store
    ensures forall s: Staged :: (pendingPart.None? && s.part.id == ids[0]) || pendingPart == Some(s) ==>
              && NewIds(c, None, store, ids[1..])
              && NewIds(c, None, store[(c.current, s.part.id) := s.contents], ids[1..])
  {
    var rest := ids[1..];
    forall i: nat | i < |rest|
      ensures rest[i] in ids && rest[i] != ids[0] && (c.current, rest[i]) !in store
    {
      assert rest[i] == ids[i + 1];
    }
  }

  lemma PendingMovesOn(c: Config, l: Local, server: Server, rows: seq<Message>, late: set<nat>)
    requires ValidState(c, l, server, rows, late) && l.pendingPart.Some?
    ensures l.cursor <= l.pendingPart.value.part.lastSeq
  {
    NextMovesOn(c, l.cursor, l.pendingPart.value.part, rows, late);
  }

  /** The time from which rows have been waiting, and whether they may wait on. */
  function Since(started: Option<nat>, now: nat): nat {
    if started.Some? then started.value else now
  }

  predicate MayWait(started: Option<nat>, now: nat) {
    0 <= now - Since(started, now) < 45_000
  }

  /** Rows are cut when there are a hundred, when the pass is forced, or when they have waited long enough. */
  predicate Ripe(above: seq<Message>, force: bool, started: Option<nat>, now: nat) {
    above != [] && (force || |above| >= 100 || !MayWait(started, now))
  }

  /** Everything above the cursor, up to a hundred rows. */
  function PageOf(above: seq<Message>): seq<Message> {
    above[..if |above| < 100 then |above| else 100]
  }

  /** No part is pending, and rows have been waiting too long at this reading of the clock. */
  predicate Overdue(l: Local, force: bool, now: nat) {
    l.pendingPart.None? && (force || (l.batchStartedAt.Some? && !MayWait(l.batchStartedAt, now)))
  }

  /** Less than a page lies above the cursor. */
  predicate Few(rows: seq<Message>, cursor: nat) {
    |After(rows, cursor)| < 100
  }

  ghost predicate PagesFit(size: seq<Message> -> nat) {
    forall messages: seq<Message> :: |messages| <= 100 ==> size(messages) <= MAX_SEALED
  }

  /** There were no more rows before. */
  lemma FewBefore(before: seq<Message>, rows: seq<Message>, cursor: nat)
    requires Few(rows, cursor) && Ascending(before) && Ascending(rows) && forall m :: m in before ==> m in rows
    ensures Few(before, cursor)
  {
    AfterGrows(before, rows, cursor);
    hide After;
  }

  /** Overdue rows are cut. */
  lemma OverdueIsRipe(l: Local, above: seq<Message>, force: bool, now: nat)
    ensures Overdue(l, force, now) ==> (Ripe(above, force, l.batchStartedAt, now) <==> above != [])
  {
  }

  lemma CutReaches(rows: seq<Message>, cursor: nat, above: seq<Message>, last: nat)
    requires Ascending(rows) && above == After(rows, cursor) && 0 < |above| < 100 && cursor <= last
    requires PageOf(above)[|PageOf(above)| - 1].number == last
    ensures forall m :: m in rows ==> m.number <= last
  {
    hide After;
    assert PageOf(above) == above;
    WholePageReaches(rows, cursor, last);
  }

  lemma SameOverdue(before: Local, after: Local, force: bool, now: nat)
    requires after.pendingPart == before.pendingPart && after.batchStartedAt == before.batchStartedAt
    ensures Overdue(before, force, now) == Overdue(after, force, now)
  {
  }

  lemma {:induction false} NoMoreThan(a: seq<Message>, b: seq<Message>)
    requires (forall i, j :: 0 <= i < j < |a| ==> a[i] != a[j]) && forall m :: m in a ==> m in b
    ensures |a| <= |b|
  {
    if a != [] {
      var front, last := a[..|a| - 1], a[|a| - 1];
      assert a == front + [last] && last in a;
      var k :| 0 <= k < |b| && b[k] == last;
      var rest := b[..k] + b[k + 1..];
      forall m | m in front
        ensures m in rest
      {
        var i :| 0 <= i < |front| && front[i] == m;
        assert m in a;
        var j :| 0 <= j < |b| && b[j] == m;
        assert a[i] != a[|a| - 1];
        assert if j < k then rest[j] == m else rest[j - 1] == m;
      }
      NoMoreThan(front, rest);
    }
  }

  /** More rows leave no fewer above a cursor. */
  lemma AfterGrows(before: seq<Message>, rows: seq<Message>, cursor: nat)
    requires Ascending(before) && Ascending(rows) && forall m :: m in before ==> m in rows
    ensures |After(before, cursor)| <= |After(rows, cursor)|
  {
    AfterOnes(before, cursor);
    AfterOnes(rows, cursor);
    var k := AfterIsSuffix(before, cursor);
    hide After;
    NoMoreThan(After(before, cursor), After(rows, cursor));
  }

  lemma AfterOnes(rows: seq<Message>, cursor: nat)
    requires Ascending(rows)
    ensures forall m :: m in After(rows, cursor) <==> m in rows && m.number > cursor
  {
    var k := AfterIsSuffix(rows, cursor);
    hide After;
    forall m | m in rows && m.number > cursor
      ensures m in rows[k..]
    {
      var i :| 0 <= i < |rows| && rows[i] == m;
      assert rows[k..][i - k] == m;
    }
  }

  /** A part that holds all rows above the cursor reaches every row. */
  lemma WholePageReaches(rows: seq<Message>, cursor: nat, last: nat)
    requires Ascending(rows) && cursor <= last
    requires After(rows, cursor) != [] && last == After(rows, cursor)[|After(rows, cursor)| - 1].number
    ensures forall m :: m in rows ==> m.number <= last
  {
    var k := AfterIsSuffix(rows, cursor);
    hide After;
    assert last == rows[|rows| - 1].number;
    forall m | m in rows
      ensures m.number <= last
    {
      var i :| 0 <= i < |rows| && rows[i] == m;
    }
  }

  class CloudBackup {
    const config: Config
    /** The length of the ciphertext that a list of messages seals to. */
    const size: seq<Message> -> nat
    var local: Local
    var server: Server
    /** The device's history, ordered by number. */
    var rows: seq<Message>
    /** Numbers of the rows that arrived at or below what was already cut into parts. */
    ghost var late: set<nat>

    ghost predicate Valid()
      reads this
    {
      ValidState(config, local, server, rows, late)
    }

    /** A first backup: a server that stores the inherited archives, if any, and has no envelope of this one. */
    constructor (config: Config, size: seq<Message> -> nat, store: map<(nat, nat), Sealed>)
      requires Stored(store, config.inherited)
      ensures Valid() && this.config == config && this.size == size
      ensures rows == [] && late == {} && local.parts == [] && local.cursor == config.start
    {
      this.config, this.size := config, size;
      local := Local([], config.start, 0, None, None, None);
      server := Server(None, store);
      rows, late := [], {};
      new;
      forall a | a in Archives(config, [])
        ensures a in config.inherited || a == Archive(config.current, [])
      {
      }
    }

    /** A history row is stored, unless its number is taken. */
    method Arrive(m: Message)
      requires Valid() && m.number >= 1 && m.supported
      modifies this`rows, this`late
      ensures Valid()
      ensures m.number > old(Reach(local)) ==> late == old(late)
      ensures m.number <= old(Reach(local)) && (forall r :: r in old(rows) ==> r.number != m.number) ==>
                m in rows && late == old(late) + {m.number}
      ensures forall r :: r in old(rows) ==> r in rows
      ensures exists r :: r in rows && r.number == m.number
    {
      hide ValidState;
      HistoryIsAscending(config, local, server, rows, late);
      var i := 0;
      while i < |rows| && rows[i].number < m.number
        invariant i <= |rows|
        invariant forall j: nat :: j < i ==> rows[j].number < m.number
      {
        i := i + 1;
      }
      if i < |rows| && rows[i].number == m.number {
        assert rows[i] in rows;
        return;
      }
      ArrivalKeepsState(config, local, server, rows, late, i, m);
      NewNumber(rows, i, m);
      assert (rows[..i] + [m] + rows[i..])[i] == m;
      late := if m.number <= Reach(local) then late + {m.number} else late;
      rows := rows[..i] + [m] + rows[i..];
    }

    /** Rows that arrive while a call is under way. */
    method Interlude(messages: seq<Message>)
      requires Valid() && forall m :: m in messages ==> m.number >= 1 && m.supported
      modifies this`rows, this`late
      ensures Valid() && (messages == [] ==> rows == old(rows)) && forall r :: r in old(rows) ==> r in rows
    {
      hide ValidState;
      for i := 0 to |messages|
        invariant Valid() && (i == 0 ==> rows == old(rows)) && forall r :: r in old(rows) ==> r in rows
      {
        Arrive(messages[i]);
      }
    }

    /** Unless one is pending, an envelope of everything indexed so far becomes durable. */
    method StageEnvelope(fault: Fault) returns (ok: bool)
      requires Valid()
      modifies this`local
      ensures Valid() && (ok <==> fault.Fine?)
      ensures local == old(local) || (old(local).pending.None? && local == old(local).(pending := local.pending))
      ensures ok ==> local.pending.Some?
    {
      if fault.Before? {
        return false;
      }
      if local.pending.None? {
        StagingKeepsState(config, local, server, rows, late);
        hide ValidState;
        local := local.(pending := Some(EnvelopeOf(config, local.revision + 1, local.parts)));
      }
      return fault.Fine?;
    }

    /** Sends the pending envelope and, once answered, records its revision. */
    method SendEnvelope(sent: Fault, saved: Fault) returns (ok: bool)
      requires Valid()
      modifies this`local, this`server
      ensures Valid() && server.store == old(server).store
      ensures local.parts == old(local).parts && local.cursor == old(local).cursor && local.pendingPart == old(local).pendingPart
      ensures local.batchStartedAt == old(local).batchStartedAt
      ensures ok ==> local.pending.None?
      ensures ok && old(local).pending.Some? ==> server.backup == Some(EnvelopeOf(config, local.revision, local.parts))
      ensures sent.Fine? && saved.Fine? ==> ok
    {
      if local.pending.None? {
        return true;
      }
      if sent.Before? {
        return false;
      }
      SendIsAccepted(config, local, server, rows, late);
      assert local.pending.value == EnvelopeOf(config, local.revision + 1, local.parts);
      assert local.pending.value.revision == local.revision + 1;
      hide ValidState, RevisionsOk, HistoryOk, EnvelopeOf;
      var answer := Save(server, local.pending.value);
      if answer.Err? {
        return false;
      }
      server := answer.value;
      if !sent.Fine? || saved.Before? {
        return false;
      }
      ConfirmingKeepsState(config, local, server, rows, late);
      local := local.(revision := local.pending.value.revision, pending := None);
      return saved.Fine?;
    }

    method Fit(messages: seq<Message>) returns (r: Option<seq<Message>>)
      requires |messages| > 0
      ensures r == Fitted(messages, size)
    {
      var rest := messages;
      while size(rest) > MAX_SEALED
        invariant |rest| > 0 && Fitted(rest, size) == Fitted(messages, size)
        decreases |rest|
      {
        if |rest| == 1 {
          return None;
        }
        rest := rest[..(|rest| + 1) / 2];
      }
      return Some(rest);
    }

    /** Cuts the next rows into a part, unless one is pending or a short page may still wait for more rows. */
    method CutPart(id: nat, force: bool, now: nat, fault: Fault) returns (ok: bool)
      requires Valid() && (config.current, id) !in server.store
      modifies this`local
      ensures Valid() && local.pending == old(local).pending && local.revision == old(local).revision
      ensures local.parts == old(local).parts && local.cursor == old(local).cursor
      ensures old(local).pendingPart.Some? ==> local.pendingPart == old(local).pendingPart
      ensures old(local).pendingPart.None? && local.pendingPart.Some? ==> local.pendingPart.value.part.id == id
      ensures ok && old(local).pendingPart.None? ==> (local.pendingPart.Some? <==> Ripe(After(rows, local.cursor), force, old(local).batchStartedAt, now))
      ensures old(local).pendingPart.None? && local.pendingPart.Some? ==> IsCut(local.pendingPart.value, PageOf(After(rows, local.cursor)))
      ensures old(local).pendingPart.Some? ==> local.batchStartedAt == old(local).batchStartedAt
      ensures ok && old(local).pendingPart.None? ==>
                local.batchStartedAt == if After(rows, local.cursor) == [] || local.pendingPart.Some? then None
                                        else Some(if old(local).batchStartedAt.Some? then old(local).batchStartedAt.value else now)
      ensures fault.Fine? && (forall m :: size([m]) <= MAX_SEALED) ==> ok
    {
      if fault.Before? {
        return false;
      }
      if local.pendingPart.Some? {
        return fault.Fine?;
      }
      var above := After(rows, local.cursor);
      var page := if |above| > PAGE then above[..PAGE] else above;
      assert page == PageOf(above);
      hide After, ValidState, IsCut;
      WaitingKeepsState(config, local, server, rows, late);
      if page == [] {
        local := local.(batchStartedAt := None);
        return fault.Fine?;
      }
      if !force && |page| < PAGE {
        var since := if local.batchStartedAt.Some? then local.batchStartedAt.value else now;
        if now >= since && now - since < WAIT {
          local := local.(batchStartedAt := Some(since));
          return fault.Fine?;
        }
      }
      var cut := Cut(id, page);
      return cut && fault.Fine?;
    }

    /** Seals the page, halved as often as it takes to fit, as the pending part. */
    method Cut(id: nat, page: seq<Message>) returns (ok: bool)
      requires Valid() && (config.current, id) !in server.store && local.pendingPart.None?
      requires page == PageOf(After(rows, local.cursor)) && page != []
      modifies this`local
      ensures Valid() && local.pending == old(local).pending && local.revision == old(local).revision
      ensures local.parts == old(local).parts && local.cursor == old(local).cursor
      ensures !ok ==> local == old(local) && size([page[0]]) > MAX_SEALED
      ensures ok ==> local.pendingPart.Some? && local.pendingPart.value.part.id == id && local.batchStartedAt.None?
      ensures ok ==> IsCut(local.pendingPart.value, page)
    {
      hide After, Fitted, Fits, InventoryOf, ValidState;
      var fit := Fit(page);
      if fit.None? {
        assert page[..1] == [page[0]];
        return false;
      }
      var part := PartOf(config, id, fit.value);
      assert fit.value == After(rows, local.cursor)[..|fit.value|];
      HistoryFacts(config, local, server, rows, late);
      CutIsNext(config, local, rows, late, id, |fit.value|);
      CuttingKeepsState(config, local, server, rows, late, part);
      local := local.(pendingPart := Some(Staged(part, part.digest.contents)), batchStartedAt := None);
      return true;
    }

    /** The part holds the page, or its beginning when the page is too large. */
    predicate IsCut(staged: Staged, page: seq<Message>) {
      var cut := staged.contents.messages;
      && 0 < |cut| <= |page| && cut == page[..|cut|] && cut[|cut| - 1].number == staged.part.lastSeq
      && (size(page) <= MAX_SEALED ==> cut == page)
    }

    /** Stores the pending part, then indexes it and moves the cursor. */
    method StorePart(put: Fault, saved: Fault) returns (ok: bool)
      requires Valid() && local.pending.None? && local.pendingPart.Some? && server.backup.Some?
      modifies this`local, this`server
      ensures Valid() && local.pending.None? && server.backup == old(server).backup
      ensures var s := old(local).pendingPart.value;
              && (server == old(server) || server.store == old(server).store[(config.current, s.part.id) := s.contents])
              && (ok ==> local.parts == old(local).parts + [s.part] && local.pendingPart.None? && local.cursor == s.part.lastSeq)
      ensures local.batchStartedAt == old(local).batchStartedAt && old(local).cursor <= local.cursor
      ensures local.pendingPart.Some? ==> local.pendingPart == old(local).pendingPart
      ensures put.Fine? && saved.Fine? ==> ok
    {
      if put.Before? {
        return false;
      }
      PuttingKeepsState(config, local, server, rows, late);
      hide ValidState;
      var s := local.pendingPart.value;
      var answer := PutPart(server, config.current, s.part.id, s.contents);
      if answer.Err? {
        return false;
      }
      server := answer.value;
      if !put.Fine? || saved.Before? {
        return false;
      }
      CommittingKeepsState(config, local, server, rows, late);
      PendingMovesOn(config, local, server, rows, late);
      local := local.(parts := local.parts + [s.part], cursor := s.part.lastSeq, pendingPart := None);
      return saved.Fine?;
    }

    /** One foreground pass. Whatever stops it, the state stays valid; a pass that ends normally leaves the
        server with exactly what the device has indexed. A forced one then has indexed everything, or twenty
        more parts; any other leaves less than a page, and only rows that may still wait: the time from which
        they wait is set once and kept while nothing is cut. When they have waited long enough, all rows are
        indexed, unless there are more than a page or the page is too large. */
    method Sync(enabled: bool, force: bool, ids: seq<nat>, now: nat -> nat, faults: Step -> Fault, arrivals: nat -> seq<Message>)
      returns (ok: bool)
      requires Valid() && |ids| == BATCHES && NewIds(config, local.pendingPart, server.store, ids)
      requires forall k: nat, m :: m in arrivals(k) ==> m.number >= 1 && m.supported
      modifies this`local, this`server, this`rows, this`late
      ensures Valid()
      ensures ok ==> local.pending.None? && server.backup == Some(EnvelopeOf(config, local.revision, local.parts))
      ensures ok && enabled ==> |local.parts| >= |old(local).parts| + BATCHES || AtRest(now, force)
      ensures ok && enabled && local.parts == old(local).parts && After(rows, local.cursor) != [] ==>
                local.batchStartedAt == if old(local).batchStartedAt.Some? then old(local).batchStartedAt else Some(now(0))
      ensures ok && enabled && Overdue(old(local), force, now(0)) && Few(rows, old(local.cursor)) && PagesFit(size) ==> forall m :: m in old(rows) ==> m.number <= local.cursor
      ensures (forall s :: faults(s).Fine?) && (forall m :: size([m]) <= MAX_SEALED) ==> ok
    {
      hide ValidState, EnvelopeOf, After, NewIds, AtRest, Overdue, Few, PagesFit;
      ok := StageEnvelope(faults(Staging(BATCHES)));
      if !ok {
        return false;
      }
      Interlude(arrivals(0));
      ok := SendEnvelope(faults(Sending(BATCHES)), faults(Confirming(BATCHES)));
      if !ok || !enabled {
        return ok;
      }
      SameOverdue(old(local), local, force, now(0));
      assert ids[0..] == ids;
      for batch := 0 to BATCHES
        invariant Valid() && local.pending.None? && server.backup == Some(EnvelopeOf(config, local.revision, local.parts))
        invariant NewIds(config, local.pendingPart, server.store, ids[batch..])
        invariant |local.parts| >= |old(local).parts| + batch
        invariant old(local).cursor <= local.cursor && forall r :: r in old(rows) ==> r in rows
        invariant batch == 0 ==>
                    && local.parts == old(local).parts && local.batchStartedAt == old(local).batchStartedAt
                    && local.cursor == old(local).cursor && local.pendingPart == old(local).pendingPart
                    && (Overdue(old(local), force, now(0)) ==> Overdue(local, force, now(0)))
        invariant batch > 0 && Overdue(old(local), force, now(0)) && Few(rows, old(local.cursor)) && PagesFit(size) ==> forall m :: m in old(rows) ==> m.number <= local.cursor
      {
        assert ids[batch..][1..] == ids[batch + 1..];
        ghost var before, since := rows, local.batchStartedAt;
        HistoryIsAscending(config, local, server, rows, late);
        var more: bool;
        ok, more := Batch(batch, force, ids[batch..], ids[batch], now(batch), faults, arrivals);
        HistoryIsAscending(config, local, server, rows, late);
        if Few(rows, old(local.cursor)) {
          FewBefore(before, rows, old(local.cursor));
        }
        if !ok {
          return false;
        }
        if !more {
          RestsNow(now, force, batch, since);
          return true;
        }
      }
      return true;
    }

    /** What is left may wait: there is less than a page, and by some reading of the clock it had not waited
        for 45 seconds yet. */
    ghost predicate AtRest(now: nat -> nat, force: bool)
      reads this
    {
      && local.pendingPart.None? && |After(rows, local.cursor)| < 100
      && (After(rows, local.cursor) != [] ==>
            && !force && local.batchStartedAt.Some?
            && exists k: nat :: k < BATCHES && 0 <= now(k) - local.batchStartedAt.value < 45_000)
    }

    lemma RestsNow(now: nat -> nat, force: bool, batch: nat, since: Option<nat>)
      requires batch < BATCHES && local.pendingPart.None? && !Ripe(After(rows, local.cursor), force, since, now(batch))
      requires After(rows, local.cursor) != [] ==> local.batchStartedAt == Some(Since(since, now(batch)))
      ensures AtRest(now, force)
    {
      hide After;
    }

    /** One round of a pass: cut a part, store it, index it, publish the new envelope. */
    method Batch(batch: nat, force: bool, ghost ids: seq<nat>, id: nat, now: nat, faults: Step -> Fault, arrivals: nat -> seq<Message>)
      returns (ok: bool, more: bool)
      requires Valid() && local.pending.None? && server.backup == Some(EnvelopeOf(config, local.revision, local.parts))
      requires |ids| > 0 && ids[0] == id && NewIds(config, local.pendingPart, server.store, ids)
      requires forall k: nat, m :: m in arrivals(k) ==> m.number >= 1 && m.supported
      modifies this`local, this`server, this`rows, this`late
      ensures Valid() && (forall r :: r in old(rows) ==> r in rows) && old(local).cursor <= local.cursor
      ensures ok ==> local.pending.None? && server.backup == Some(EnvelopeOf(config, local.revision, local.parts))
      ensures ok && more ==> |local.parts| == |old(local).parts| + 1 && NewIds(config, local.pendingPart, server.store, ids[1..])
      ensures ok && !more ==> local.parts == old(local).parts && local.cursor == old(local).cursor && rows == old(rows)
      ensures ok && !more ==>
                && local.pendingPart.None? && old(local).pendingPart.None?
                && !Ripe(After(rows, local.cursor), force, old(local).batchStartedAt, now)
                && (After(rows, local.cursor) != [] ==> local.batchStartedAt == Some(Since(old(local).batchStartedAt, now)))
      ensures ok && Overdue(old(local), force, now) && Few(rows, old(local.cursor)) && PagesFit(size) ==> forall m :: m in old(rows) ==> m.number <= local.cursor
      ensures (forall s :: faults(s).Fine?) && (forall m :: size([m]) <= MAX_SEALED) ==> ok
    {
      hide ValidState, EnvelopeOf, After, NewIds, Ripe;
      HistoryIsAscending(config, local, server, rows, late);
      IdsMoveOn(config, local.pendingPart, server.store, ids);
      ghost var above := After(rows, local.cursor);
      ok := CutPart(id, force, now, faults(Cutting(batch)));
      if !ok {
        return false, false;
      }
      if local.pendingPart.None? {
        AfterOnes(rows, local.cursor);
        OverdueIsRipe(old(local), above, force, now);
        return true, false;
      }
      Interlude(arrivals(2 * batch + 1));
      ok := StorePart(faults(Putting(batch)), faults(Committing(batch)));
      if !ok {
        return false, false;
      }
      ok := StageEnvelope(faults(Staging(batch)));
      if !ok {
        return false, false;
      }
      Interlude(arrivals(2 * batch + 2));
      ok := SendEnvelope(faults(Sending(batch)), faults(Confirming(batch)));
      if ok && Overdue(old(local), force, now) && Few(rows, old(local.cursor)) && PagesFit(size) {
        HistoryIsAscending(config, local, server, rows, late);
        FewBefore(old(rows), rows, old(local.cursor));
        CutReaches(old(rows), old(local.cursor), above, local.cursor);
      }
      return ok, true;
    }
  }
}
