/** Which rows and marks a chamber backup holds (src/lib/chamber-history.ts), and that recovery brings them
    back (src/lib/chamber-history-recovery.ts): a number is left out only when it is that of a joiner's safe row. */
module ChamberHistoryRows {
  import opened ChamberHistory
  import opened ChamberHistoryRecord
  import opened ChamberHistoryRecovery
  import opened Wrappers

  // ------------------------------------------------------- what records tell

  type Rows = map<nat, Message>

  /** Rows are those that were read, and whatever is omitted was a joiner's safe row. */
  predicate Tells(role: Role, seen: Rows, rows: seq<Message>, omitted: seq<nat>) {
    && (forall row <- rows :: row.number in seen && seen[row.number] == row)
    && (forall n <- omitted :: n in seen && role == Joiner && seen[n].safe)
  }

  /** So do all records from a link back. */
  predicate Told(role: Role, seen: Rows, link: Link)
    decreases link
  {
    var p := link.digest.record.payload;
    p.Messages? ==> Tells(role, seen, p.rows, p.omitted) && (p.previous.Some? ==> Told(role, seen, p.previous.value))
  }

  function Upper(s: State): nat {
    if s.batch.Some? then s.batch.value.upperSeq else s.cursor
  }

  predicate Numbered(seen: Rows) {
    forall n <- seen :: seen[n].number == n
  }

  /** Exactly the numbers of a range have been read, each as one row. */
  ghost predicate SeenRange(seen: Rows, base: nat, upper: nat) {
    (forall n: nat :: n in seen <==> base < n <= upper) && Numbered(seen)
  }

  ghost predicate LocalTold(role: Role, local: Local) {
    var s := local.state;
    && local.base <= s.cursor && SeenRange(local.seen, local.base, Upper(s))
    && (s.head.Some? ==> Told(role, local.seen, LinkOf(s.head.value)))
    && (s.batch.Some? ==> Tells(role, local.seen, s.batch.value.rows, s.batch.value.omitted))
  }

  predicate PublishedTold(w: World) {
    forall h <- w.server.published :: h.device in w.devices && Told(w.role, w.devices[h.device].seen, LinkOf(h))
  }

  ghost predicate ToldInv(w: World) {
    (forall d <- w.devices :: LocalTold(w.role, w.devices[d])) && PublishedTold(w)
  }

  predicate Extends(seen: Rows, more: Rows) {
    forall n <- seen :: n in more && more[n] == seen[n]
  }

  lemma TellsMore(role: Role, seen: Rows, more: Rows, rows: seq<Message>, omitted: seq<nat>)
    requires Tells(role, seen, rows, omitted) && Extends(seen, more)
    ensures Tells(role, more, rows, omitted)
  {
  }

  lemma {:induction false} ToldMore(role: Role, seen: Rows, more: Rows, link: Link)
    requires Told(role, seen, link) && Extends(seen, more)
    ensures Told(role, more, link)
    decreases link
  {
    var p := link.digest.record.payload;
    if p.Messages? {
      TellsMore(role, seen, more, p.rows, p.omitted);
      hide Tells, Extends;
      if p.previous.Some? {
        ToldMore(role, seen, more, p.previous.value);
      }
    }
  }

  // ------------------------------------------------- every step keeps it so

  lemma PageRow(page: seq<Message>, cursor: nat, row: Message)
    requires Consecutive(Numbers(page), cursor) && row in page
    ensures cursor < row.number <= cursor + |page| && page[row.number - cursor - 1] == row
  {
    var i :| 0 <= i < |page| && page[i] == row;
    assert Numbers(page)[i] == row.number;
  }

  lemma PageNumber(page: seq<Message>, cursor: nat, n: nat)
    requires Consecutive(Numbers(page), cursor) && cursor < n <= cursor + |page|
    ensures page[n - cursor - 1].number == n && page[n - cursor - 1] in page
  {
    assert Numbers(page)[n - cursor - 1] == page[n - cursor - 1].number;
  }

  lemma NumberInPage(page: seq<Message>, cursor: nat, n: nat)
    requires Consecutive(Numbers(page), cursor)
    ensures n in ByNumber(page) <==> cursor < n <= cursor + |page|
    ensures n in ByNumber(page) ==> ByNumber(page)[n].number == n
  {
    ByNumberRows(page);
    hide ByNumber, Numbers, Consecutive;
    if n in ByNumber(page) {
      PageRow(page, cursor, ByNumber(page)[n]);
    }
    if cursor < n <= cursor + |page| {
      PageNumber(page, cursor, n);
    }
  }

  lemma RowByNumber(page: seq<Message>, cursor: nat, row: Message)
    requires Consecutive(Numbers(page), cursor) && row in page
    ensures row.number in ByNumber(page) && ByNumber(page)[row.number] == row
  {
    ByNumberRows(page);
    hide ByNumber, Numbers, Consecutive;
    PageRow(page, cursor, row);
    PageRow(page, cursor, ByNumber(page)[row.number]);
  }

  lemma PageByNumber(page: seq<Message>, cursor: nat)
    requires Consecutive(Numbers(page), cursor)
    ensures SeenRange(ByNumber(page), cursor, cursor + |page|)
    ensures forall row <- page :: row.number in ByNumber(page) && ByNumber(page)[row.number] == row
  {
    hide ByNumber, Numbers, Consecutive;
    forall n: nat
      ensures n in ByNumber(page) <==> cursor < n <= cursor + |page|
      ensures n in ByNumber(page) ==> ByNumber(page)[n].number == n
    {
      NumberInPage(page, cursor, n);
    }
    forall row <- page
      ensures row.number in ByNumber(page) && ByNumber(page)[row.number] == row
    {
      RowByNumber(page, cursor, row);
    }
  }

  lemma SnapshotTells(role: Role, page: seq<Message>, cursor: nat)
    requires Consecutive(Numbers(page), cursor)
    ensures Tells(role, ByNumber(page), Visible(role, page), OmittedSafe(role, page))
  {
    PageByNumber(page, cursor);
    SplitByRow(role, page);
    hide ByNumber, Visible, OmittedSafe, Consecutive, Numbers, SeenRange;
    forall n | n in OmittedSafe(role, page)
      ensures n in ByNumber(page) && role == Joiner && ByNumber(page)[n].safe
    {
      var row :| row in page && row.number == n && role == Joiner && row.safe;
    }
  }

  lemma SeenGrows(seen: Rows, base: nat, cursor: nat, page: Rows, upper: nat)
    requires SeenRange(seen, base, cursor) && SeenRange(page, cursor, upper) && base <= cursor <= upper
    ensures SeenRange(seen + page, base, upper) && Extends(seen, seen + page) && Extends(page, seen + page)
  {
  }

  lemma BeganTold(role: Role, local: Local, page: seq<Message>, hidden: seq<Id>, gallery: seq<Id>)
    requires LocalTold(role, local) && Snapshots(role, local.state, page, hidden, gallery)
    ensures LocalTold(role, local.(state := local.state.(batch := Some(BatchOf(role, local.state, page, hidden, gallery))),
                                   seen := local.seen + ByNumber(page)))
    ensures Extends(local.seen, local.seen + ByNumber(page))
  {
    var s := local.state;
    PageByNumber(page, s.cursor);
    SnapshotTells(role, page, s.cursor);
    SeenGrows(local.seen, local.base, s.cursor, ByNumber(page), s.cursor + |page|);
    hide ByNumber, Visible, OmittedSafe, Consecutive, Numbers, BlobsAgree, Plan, SeenRange, Extends, Tells, Told;
    var more := local.seen + ByNumber(page);
    if s.head.Some? {
      ToldMore(role, local.seen, more, LinkOf(s.head.value));
    }
    TellsMore(role, ByNumber(page), more, Visible(role, page), OmittedSafe(role, page));
  }

  /** A pending head is that of the record of its batch. */
  lemma PendingHeadForm(w: World, d: Device)
    requires Inv(w) && d in w.devices && w.devices[d].state.pending.Some?
    ensures var s := w.devices[d].state;
            && s.batch.Some? && s.pending.value == PendingFor(s, s.pending.value.record) && s.batch.value.upperSeq >= s.cursor
            && (s.pending.value.head.Some? ==>
                  && s.pending.value.head.value.digest.record.payload == MessagesPayload(s)
                  && s.pending.value.head.value.device == d)
  {
    assert DeviceInv(w.server, w.used, w.role, d, w.devices[d]);
    hide Chain, Covers, BlobsAgree, Plan, Spells, Valid, SliceCount, HeadInv, ServerHeadInv, UploadsInv;
  }

  lemma PendingHeadTold(w: World, d: Device)
    requires Inv(w) && d in w.devices && LocalTold(w.role, w.devices[d])
    requires w.devices[d].state.pending.Some? && w.devices[d].state.pending.value.head.Some?
    ensures Told(w.role, w.devices[d].seen, LinkOf(w.devices[d].state.pending.value.head.value))
  {
    PendingHeadForm(w, d);
    hide Inv, Tells, SeenRange, PendingFor;
  }

  lemma CommitTold(w: World, d: Device)
    requires Inv(w) && d in w.devices && LocalTold(w.role, w.devices[d]) && Commits(w.devices[d])
    ensures LocalTold(w.role, w.devices[d].(state := Committed(w.devices[d].state), phase := Idle))
  {
    PendingHeadForm(w, d);
    var s := w.devices[d].state;
    if s.pending.value.head.Some? {
      PendingHeadTold(w, d);
    }
    hide Inv, Tells, SeenRange, Told, MessagesPayload;
  }

  lemma StepKeepsLocal(w: World, d: Device, act: Act)
    requires Inv(w) && d in w.devices && LocalTold(w.role, w.devices[d])
    ensures LocalTold(w.role, Do(w, d, act).devices[d]) && Extends(w.devices[d].seen, Do(w, d, act).devices[d].seen)
  {
    var local := w.devices[d];
    if act.Snapshot? && Snapshots(w.role, local.state, act.page, act.hidden, act.gallery) {
      BeganTold(w.role, local, act.page, act.hidden, act.gallery);
    }
    if act.Commit? && Commits(local) {
      CommitTold(w, d);
    }
    hide Inv, Tells, SeenRange, Told, Snapshots, BatchOf, ByNumber, Committed, Commits, NextPayload, PendingFor, AcceptsHead, Saved;
  }

  lemma StepPublishes(w: World, d: Device, act: Act)
    requires Inv(w) && d in w.devices
    ensures forall h <- Do(w, d, act).server.published | h !in w.server.published ::
              w.devices[d].state.pending.Some? && w.devices[d].state.pending.value.head == Some(h)
  {
    hide Inv, Snapshots, BatchOf, ByNumber, Committed, Commits, NextPayload, PendingFor, AcceptsHead, Saved, Seals;
  }

  lemma PublishedStays(w: World, after: World, d: Device)
    requires PublishedTold(w) && d in w.devices && after.role == w.role && after.devices.Keys == w.devices.Keys
    requires forall e <- w.devices | e != d :: after.devices[e] == w.devices[e]
    requires Extends(w.devices[d].seen, after.devices[d].seen)
    requires forall h <- after.server.published | h !in w.server.published :: h.device == d && Told(w.role, w.devices[d].seen, LinkOf(h))
    ensures PublishedTold(after)
  {
    hide Told, Extends;
    forall h <- after.server.published
      ensures h.device in after.devices && Told(after.role, after.devices[h.device].seen, LinkOf(h))
    {
      if h.device == d {
        ToldMore(w.role, w.devices[d].seen, after.devices[d].seen, LinkOf(h));
      }
    }
  }

  lemma NewHeadsAreTold(w: World, d: Device, act: Act)
    requires Inv(w) && ToldInv(w) && d in w.devices
    ensures forall h <- Do(w, d, act).server.published | h !in w.server.published :: h.device == d && Told(w.role, w.devices[d].seen, LinkOf(h))
  {
    StepPublishes(w, d, act);
    hide Inv, Do, Told, LocalTold;
    forall h <- Do(w, d, act).server.published | h !in w.server.published
      ensures h.device == d && Told(w.role, w.devices[d].seen, LinkOf(h))
    {
      PendingHeadForm(w, d);
      PendingHeadTold(w, d);
    }
  }

  lemma StepKeepsTold(w: World, d: Device, act: Act)
    requires Inv(w) && ToldInv(w) && d in w.devices
    ensures ToldInv(Do(w, d, act))
  {
    StepKeepsLocal(w, d, act);
    NewHeadsAreTold(w, d, act);
    StepChangesOne(w, d, act);
    hide Inv, Do, Told, LocalTold, PublishedTold, Extends;
    PublishedStays(w, Do(w, d, act), d);
  }

  lemma StepChangesOne(w: World, d: Device, act: Act)
    requires d in w.devices
    ensures Do(w, d, act).role == w.role && Do(w, d, act).devices.Keys == w.devices.Keys
    ensures forall e <- w.devices | e != d :: Do(w, d, act).devices[e] == w.devices[e]
  {
    hide Snapshots, BatchOf, ByNumber, Committed, Commits, NextPayload, PendingFor, AcceptsHead, Saved, Seals, SealedState;
  }

  /** Whatever the devices do and wherever they die. */
  lemma {:induction false} RunKeepsTold(w: World, run: seq<(Device, Act)>)
    requires Inv(w) && ToldInv(w)
    ensures Inv(RunFrom(w, run)) && ToldInv(RunFrom(w, run))
  {
    if run != [] {
      var front := run[..|run| - 1];
      var (d, act) := run[|run| - 1];
      RunKeepsTold(w, front);
      if d in RunFrom(w, front).devices {
        StepKeepsInv(RunFrom(w, front), d, act);
        StepKeepsTold(RunFrom(w, front), d, act);
      }
      hide Inv, ToldInv, Do;
    }
  }

  lemma StartIsTold(w: World)
    requires Start(w)
    ensures Inv(w) && ToldInv(w)
  {
    StartIsInv(w);
    hide Inv;
  }

  // --------------------------------------------------------- rows in the chain

  /** The record holds the row, unless it is a joiner's safe row, whose number it then omits. */
  predicate Holds(role: Role, r: Record, row: Message) {
    r.payload.Messages?
    && if role == Joiner && row.safe then row.number in r.payload.omitted && row !in r.payload.rows
       else row in r.payload.rows && row.number !in r.payload.omitted
  }

  /** Every row of the range that has been read is held by one record of the chain. */
  lemma {:induction false} RowIsInChain(units: Units, role: Role, base: nat, device: Device, link: Link, upper: nat, bound: nat, seen: Rows, n: nat)
      returns (r: Record)
    requires Chain(units, role, base, device, link, upper, bound) && Told(role, seen, link) && base < n <= upper && Numbered(seen)
    ensures r in Records(Some(link)) && r.id in units && units[r.id] == r && n in seen && Holds(role, r, seen[n])
    decreases link
  {
    RestStep(units, role, base, device, link, upper, bound);
    r := link.digest.record;
    var p := r.payload;
    if n <= p.afterSeq {
      hide Chain, Sound, Tells, Records;
      r := RowIsInChain(units, role, base, device, p.previous.value, p.afterSeq, r.revision - 1, seen, n);
    } else {
      hide Chain, Records;
      RecordHolds(units, role, r, seen, n);
    }
  }

  lemma RecordHolds(units: Units, role: Role, r: Record, seen: Rows, n: nat)
    requires Sound(units, role, r) && Tells(role, seen, r.payload.rows, r.payload.omitted) && r.payload.afterSeq < n <= r.payload.upperSeq && Numbered(seen)
    ensures n in seen && Holds(role, r, seen[n])
  {
    var rows, omitted := r.payload.rows, r.payload.omitted;
    assert n in Numbers(rows) || n in omitted;
    assert !(n in Numbers(rows) && n in omitted);
    if n in Numbers(rows) {
      var k :| 0 <= k < |rows| && Numbers(rows)[k] == n;
      assert rows[k] in rows && rows[k].number == n;
    }
    hide Covers, Provides, Cites;
  }

  // ------------------------------------------------------------------- the marks

  predicate IsSlice(units: Units, id: Id) {
    id in units && units[id].payload.Preferences?
  }

  /** The marks of cited units, joined in order. */
  function HiddenOf(units: Units, ids: seq<Id>): seq<Id> {
    if ids == [] then []
    else HiddenOf(units, ids[..|ids| - 1]) + if IsSlice(units, ids[|ids| - 1]) then units[ids[|ids| - 1]].payload.hidden else []
  }

  function GalleryOf(units: Units, ids: seq<Id>): seq<Id> {
    if ids == [] then []
    else GalleryOf(units, ids[..|ids| - 1]) + if IsSlice(units, ids[|ids| - 1]) then units[ids[|ids| - 1]].payload.gallery else []
  }

  lemma SliceExtends(s: seq<Id>, k: nat)
    ensures s[..Clip(s, k * SLICE)] + SliceOf(s, k) == s[..Clip(s, (k + 1) * SLICE)]
  {
    assert (k + 1) * SLICE == k * SLICE + SLICE;
  }

  lemma {:induction false} SlicesJoin(units: Units, m: Metadata, ids: seq<Id>)
    requires forall i :: 0 <= i < |ids| ==> ids[i] in units && units[ids[i]].payload == PreferencePayload(m, i)
    ensures HiddenOf(units, ids) == m.hidden[..Clip(m.hidden, |ids| * SLICE)]
    ensures GalleryOf(units, ids) == m.gallery[..Clip(m.gallery, |ids| * SLICE)]
  {
    if ids != [] {
      var k := |ids| - 1;
      SlicesJoin(units, m, ids[..k]);
      SliceExtends(m.hidden, k);
      SliceExtends(m.gallery, k);
      hide Clip, SliceOf;
    }
  }

  /** Slices that spell the marks give them back when they are joined. */
  lemma SpelledMarks(units: Units, ids: seq<Id>, marks: (seq<Id>, seq<Id>))
    requires Spells(units, ids, marks)
    ensures HiddenOf(units, ids) == marks.0 && GalleryOf(units, ids) == marks.1
  {
    var m := Metadata(marks.0, marks.1, ids);
    SlicesJoin(units, m, ids);
    EnoughSlices(m);
    hide HiddenOf, GalleryOf, SliceOf;
    assert m.hidden[..|m.hidden|] == m.hidden && m.gallery[..|m.gallery|] == m.gallery;
  }

  lemma EnoughSlices(m: Metadata)
    ensures |m.hidden| <= SliceCount(m) * SLICE && |m.gallery| <= SliceCount(m) * SLICE
  {
  }

  /** The record that a batch ends with cites its marks, in order. */
  lemma PendingMarks(w: World, d: Device)
    requires Inv(w) && d in w.devices && w.devices[d].state.pending.Some? && w.devices[d].state.pending.value.head.Some?
    requires Saved(w.server, w.devices[d].state.pending.value.record) && w.devices[d].state.batch.Some?
    ensures var s := w.devices[d].state;
            var p := s.pending.value.head.value.digest.record.payload;
            && p.Messages? && HiddenOf(w.server.units, p.preferences) == s.batch.value.metadata.hidden
            && GalleryOf(w.server.units, p.preferences) == s.batch.value.metadata.gallery
  {
    assert DeviceInv(w.server, w.used, w.role, d, w.devices[d]);
    PendingHeadIsChained(w.server, w.used, w.role, d, w.devices[d]);
    PendingHeadForm(w, d);
    hide Inv, DeviceInv, Chain, Spells, AcceptsHead;
    var s := w.devices[d].state;
    SpelledMarks(w.server.units, s.pending.value.head.value.digest.record.payload.preferences,
                 (s.batch.value.metadata.hidden, s.batch.value.metadata.gallery));
  }

  // -------------------------------------------------------- what a backup holds

  /** Behind the published head: every local row, but for the numbers of a joiner's safe rows, and the marks. */
  ghost predicate BackedUp(w: World, d: Device, history: seq<Message>, hidden: seq<Id>, gallery: seq<Id>) {
    && d in w.devices && w.devices[d].state.head.Some?
    && var h := w.devices[d].state.head.value;
       && h in w.server.published && h.digest.record.payload.Messages?
       && HiddenOf(w.server.units, h.digest.record.payload.preferences) == hidden
       && GalleryOf(w.server.units, h.digest.record.payload.preferences) == gallery
       && forall row <- history :: w.devices[d].base < row.number ==> IsHeld(w, h, row)
  }

  ghost predicate IsHeld(w: World, h: Head, row: Message) {
    exists r :: r in Records(Some(LinkOf(h))) && r.id in w.server.units && w.server.units[r.id] == r && Holds(w.role, r, row)
  }

  lemma HeadFacts(w: World, d: Device)
    requires Inv(w) && d in w.devices && w.devices[d].state.head.Some?
    ensures var s := w.devices[d].state;
            var h := s.head.value;
            && h in w.server.published && h.digest.record.payload.Messages? && s.marks.Some?
            && Spells(w.server.units, h.digest.record.payload.preferences, s.marks.value)
            && Chain(w.server.units, w.role, w.devices[d].base, d, LinkOf(h), s.cursor, Settled(s))
  {
    assert DeviceInv(w.server, w.used, w.role, d, w.devices[d]);
    hide Covers, Spells, BatchInv, PendingInv, ServerHeadInv;
  }

  lemma LocalFacts(w: World, d: Device)
    requires ToldInv(w) && d in w.devices && w.devices[d].state.head.Some?
    ensures LocalTold(w.role, w.devices[d]) && Told(w.role, w.devices[d].seen, LinkOf(w.devices[d].state.head.value))
    ensures Numbered(w.devices[d].seen)
  {
    hide Told, PublishedTold, Tells;
  }

  /** A device that is up to date has backed up everything. */
  lemma UpToDateIsBackedUp(w: World, d: Device, history: seq<Message>, hidden: seq<Id>, gallery: seq<Id>)
    requires Inv(w) && ToldInv(w) && d in w.devices && Knows(history, w.devices[d].seen)
    requires var s := w.devices[d].state;
             && s.batch.None? && s.head.Some? && s.marks == Some((hidden, gallery))
             && forall i :: 0 <= i < |history| ==> history[i].number <= s.cursor
    ensures BackedUp(w, d, history, hidden, gallery)
  {
    HeadFacts(w, d);
    LocalFacts(w, d);
    var local := w.devices[d];
    var s := local.state;
    SpelledMarks(w.server.units, s.head.value.digest.record.payload.preferences, (hidden, gallery));
    hide Inv, ToldInv, Chain, Told, Spells, HiddenOf, GalleryOf, Tells, Records, Holds;
    forall row <- history | local.base < row.number
      ensures IsHeld(w, s.head.value, row)
    {
      var i :| 0 <= i < |history| && history[i] == row;
      assert row.number in local.seen && local.seen[row.number] == row;
      var r := RowIsInChain(w.server.units, w.role, local.base, d, LinkOf(s.head.value), s.cursor, Settled(s), local.seen, row.number);
    }
  }

  /** Repeated passes without faults over a whole history: in the end everything is backed up, unless a
      payload exceeds the size limits. */
  method BackUp(backup: ChamberBackup, history: seq<Message>, lastSeq: nat, hidden: seq<Id>, gallery: seq<Id>) returns (outcome: Outcome)
    requires backup.Valid() && Inv(backup.start) && ToldInv(backup.start)
    requires BlobsAgree(history) && Whole(history, lastSeq, backup.State().cursor) && (backup.world.role == Joiner ==> gallery == [])
    requires Knows(history, backup.Log().1)
    modifies backup
    ensures backup.Valid() && (outcome == UpToDate || outcome == Refused)
    ensures outcome == UpToDate ==> BackedUp(backup.world, backup.device, history, hidden, gallery)
    ensures outcome == Refused ==> backup.State().batch.Some? && TooLarge(backup.State())
  {
    hide Inv, ToldInv, RunFrom, BlobsAgree, BackedUp, Whole, Knows, TooLarge;
    outcome := backup.SyncAll(history, lastSeq, hidden, gallery);
    RunKeepsTold(backup.start, backup.run);
    if outcome == UpToDate {
      UpToDateIsBackedUp(backup.world, backup.device, history, hidden, gallery);
    }
  }

  // ------------------------------------------------------------- what comes back

  /** Once a head is restored, every row that was read up to it is on disk with its media, but for a joiner's
      safe rows and what the recovery does not ask for. */
  lemma EveryRowIsRecovered(request: Request, bases: map<Device, nat>, listed: Units, units: Units, store: Store, i: nat, seen: Rows, n: nat)
    requires Asked(request, bases, listed, units) && i < |request.heads| && HeadRestored(listed, request.chatOnly, request.heads[i], store)
    requires Told(request.role, seen, LinkOf(request.heads[i])) && Numbered(seen)
    requires request.heads[i].device in bases && bases[request.heads[i].device] < n <= request.heads[i].upperSeq
    ensures n in seen
    ensures !(request.role == Joiner && seen[n].safe) && ChamberHistoryRecovery.InScope(request.chatOnly, seen[n]) ==>
              seen[n] in store.rows && HasMedia(store, seen[n])
  {
    var h := request.heads[i];
    assert h in request.heads;
    hide Chain, Told, HasMedia, HasMarks;
    var r := RowIsInChain(listed, request.role, bases[h.device], h.device, LinkOf(h), h.upperSeq, h.revision, seen, n);
    hide Records;
    assert Restored(listed, request.chatOnly, r, store);
    if !(request.role == Joiner && seen[n].safe) {
      var k :| 0 <= k < |r.payload.rows| && r.payload.rows[k] == seen[n];
    }
  }

  /** And so are the marks that its last record cites. */
  lemma EveryMarkIsRecovered(listed: Units, chatOnly: bool, h: Head, store: Store)
    requires HeadRestored(listed, chatOnly, h, store) && h.digest.record.payload.Messages?
    ensures forall id <- HiddenOf(listed, h.digest.record.payload.preferences) :: id in store.hidden
    ensures !chatOnly ==> forall id <- GalleryOf(listed, h.digest.record.payload.preferences) :: id in store.gallery
  {
    var r := h.digest.record;
    assert r in Records(Some(LinkOf(h)));
    assert Restored(listed, chatOnly, r, store);
    hide HasMedia, Records, HeadRestored;
    MarksOfSlices(listed, chatOnly, r.payload.preferences, store);
  }

  lemma {:induction false} MarksOfSlices(listed: Units, chatOnly: bool, ids: seq<Id>, store: Store)
    requires forall i :: 0 <= i < |ids| ==> HasMarks(listed, store, chatOnly, ids[i])
    ensures forall id <- HiddenOf(listed, ids) :: id in store.hidden
    ensures !chatOnly ==> forall id <- GalleryOf(listed, ids) :: id in store.gallery
  {
    if ids != [] {
      MarksOfSlices(listed, chatOnly, ids[..|ids| - 1], store);
      assert HasMarks(listed, store, chatOnly, ids[|ids| - 1]);
    }
  }

  /** From end to end: whatever run of the writers led to the published heads, a completed recovery brings
      back every row that a writer had read up to its head. */
  lemma WrittenRowsAreRecovered(w: World, run: seq<(Device, Act)>, log: seq<Record>, heads: seq<Head>, chatOnly: bool, store: Store, i: nat, n: nat)
    requires Start(w) && DistinctDevices(heads) && i < |heads|
    requires forall h <- heads :: h in RunFrom(w, run).server.published
    requires forall id <- RunFrom(w, run).server.units :: RunFrom(w, run).server.units[id] in log
    requires forall r :: r in log ==> r.id in RunFrom(w, run).server.units && RunFrom(w, run).server.units[r.id] == r
    requires HeadRestored(RunFrom(w, run).server.units, chatOnly, heads[i], store)
    ensures heads[i].device in w.devices && heads[i].device in RunFrom(w, run).devices
    ensures w.devices[heads[i].device].base < n <= heads[i].upperSeq ==>
              var seen := RunFrom(w, run).devices[heads[i].device].seen;
              && n in seen
              && (!(w.role == Joiner && seen[n].safe) && ChamberHistoryRecovery.InScope(chatOnly, seen[n]) ==>
                    seen[n] in store.rows && HasMedia(store, seen[n]))
  {
    var h, after := heads[i], RunFrom(w, run);
    assert h in heads;
    StartIsTold(w);
    RunKeepsTold(w, run);
    RunKeepsInv(w, run);
    PublishedHeadsAreChained(w, run, h);
    hide Inv, Chain, Told, Tells, Start, RunFrom, HeadRestored, Asked;
    if w.devices[h.device].base < n <= h.upperSeq {
      PublishedHeadsCanBeAsked(w, run, log, heads, chatOnly);
      var bases := map d | d in w.devices :: w.devices[d].base;
      var units := Selected(log, heads);
      hide LocalTold;
      LocalNumbered(after, h.device);
      EveryRowIsRecovered(Request(chatOnly, w.role, heads, Approved(units), |units|), bases, after.server.units, after.server.units, store, i,
                          after.devices[h.device].seen, n);
    }
  }

  lemma LocalNumbered(w: World, d: Device)
    requires ToldInv(w) && d in w.devices
    ensures Numbered(w.devices[d].seen)
  {
    hide Told, PublishedTold, Tells;
    assert LocalTold(w.role, w.devices[d]);
  }
}
