/** The backup writer of src/lib/chamber-history.ts as a machine of crash-safe steps, for any number
    of devices that share one server. */
module ChamberHistory {
  import opened ChamberHistoryRecord
  import opened Sorting
  import opened Wrappers

  const PAGE := 20

  datatype Role = Creator | Joiner

  // ------------------------------------------------------------ durable state

  datatype Chunk = Chunk(blob: Id, index: nat, bytes: Bytes)

  /** The marks of hidden chat messages and gallery items, and the units that already hold them. */
  datatype Metadata = Metadata(hidden: seq<Id>, gallery: seq<Id>, units: seq<Id>)

  datatype Batch = Batch(afterSeq: nat, upperSeq: nat, rows: seq<Message>, omitted: seq<nat>, chunks: seq<Chunk>,
                         references: seq<Reference>, metadata: Metadata)

  datatype Pending = Pending(record: Record, chunk: Option<Chunk>, preference: bool, head: Option<Head>)

  /** `marks` are the marks that the last published messages record cites; they stand for the hash
      of the metadata. */
  datatype State = State(cursor: nat, revision: nat, marks: Option<(seq<Id>, seq<Id>)>, head: Option<Head>,
                         batch: Option<Batch>, pending: Option<Pending>)

  // --------------------------------------------------------------------- plan

  function SetManifest(unique: seq<Manifest>, m: Manifest): seq<Manifest> {
    if unique == [] then [m]
    else if unique[0].blob == m.blob then [m] + unique[1..]
    else [unique[0]] + SetManifest(unique[1..], m)
  }

  function SetManifests(unique: seq<Manifest>, manifests: seq<Manifest>): seq<Manifest>
    decreases |manifests|
  {
    if manifests == [] then unique else SetManifests(SetManifest(unique, manifests[0]), manifests[1..])
  }

  /** The manifests of the rows by blob, as a JavaScript Map keeps them. */
  function Unique(rows: seq<Message>): seq<Manifest> {
    if rows == [] then [] else SetManifests(Unique(rows[..|rows| - 1]), rows[|rows| - 1].manifests)
  }

  function PartChunks(m: Manifest): (chunks: seq<Chunk>)
    ensures |chunks| == |m.parts|
  {
    seq(|m.parts|, i requires 0 <= i < |m.parts| => Chunk(m.blob, i, m.parts[i]))
  }

  function Chunks(manifests: seq<Manifest>): seq<Chunk> {
    if manifests == [] then [] else PartChunks(manifests[0]) + Chunks(manifests[1..])
  }

  function Plan(rows: seq<Message>): seq<Chunk> {
    Chunks(Unique(rows))
  }

  /** A blob id names one immutable content. */
  ghost predicate BlobsAgree(rows: seq<Message>) {
    forall a, b, m, n :: a in rows && b in rows && m in a.manifests && n in b.manifests && m.blob == n.blob ==> m == n
  }

  lemma {:induction false} SetManifestElements(unique: seq<Manifest>, m: Manifest)
    requires forall x :: x in unique && x.blob == m.blob ==> x == m
    ensures forall x :: x in SetManifest(unique, m) <==> x in unique || x == m
  {
    if unique != [] {
      assert unique == [unique[0]] + unique[1..];
      if unique[0].blob != m.blob {
        SetManifestElements(unique[1..], m);
      }
    }
  }

  lemma {:induction false} SetManifestBlobs(unique: seq<Manifest>, m: Manifest)
    requires DistinctBlobs(unique)
    ensures DistinctBlobs(SetManifest(unique, m))
    ensures forall x :: x in SetManifest(unique, m) ==> x in unique || x == m
  {
    if unique != [] {
      assert unique == [unique[0]] + unique[1..];
      if unique[0].blob != m.blob {
        SetManifestBlobs(unique[1..], m);
        assert forall i :: 0 <= i < |SetManifest(unique[1..], m)| ==> SetManifest(unique[1..], m)[i] in SetManifest(unique[1..], m);
      }
    }
  }

  predicate DistinctBlobs(unique: seq<Manifest>) {
    forall i, j :: 0 <= i < j < |unique| ==> unique[i].blob != unique[j].blob
  }

  lemma {:induction false} SetManifestsElements(unique: seq<Manifest>, manifests: seq<Manifest>)
    requires DistinctBlobs(unique)
    requires forall x, y :: (x in unique || x in manifests) && y in manifests && x.blob == y.blob ==> x == y
    ensures DistinctBlobs(SetManifests(unique, manifests))
    ensures forall x :: x in SetManifests(unique, manifests) <==> x in unique || x in manifests
    decreases |manifests|
  {
    if manifests != [] {
      assert manifests == [manifests[0]] + manifests[1..];
      SetManifestElements(unique, manifests[0]);
      SetManifestBlobs(unique, manifests[0]);
      SetManifestsElements(SetManifest(unique, manifests[0]), manifests[1..]);
    }
  }

  predicate HasManifest(rows: seq<Message>, m: Manifest) {
    exists row :: row in rows && m in row.manifests
  }

  lemma {:induction false} UniqueElements(rows: seq<Message>)
    requires BlobsAgree(rows)
    ensures DistinctBlobs(Unique(rows))
    ensures forall m :: m in Unique(rows) <==> HasManifest(rows, m)
  {
    if rows != [] {
      var front, last := rows[..|rows| - 1], rows[|rows| - 1];
      UniqueElements(front);
      ManifestsAgree(rows);
      hide SetManifests, DistinctBlobs, BlobsAgree, HasManifest;
      SetManifestsElements(Unique(front), last.manifests);
    }
  }

  lemma ManifestsAgree(rows: seq<Message>)
    requires BlobsAgree(rows) && rows != []
    ensures var front, last := rows[..|rows| - 1], rows[|rows| - 1];
            && BlobsAgree(front)
            && (forall x, y :: (HasManifest(front, x) || x in last.manifests) && y in last.manifests && x.blob == y.blob ==> x == y)
            && (forall m :: HasManifest(rows, m) <==> HasManifest(front, m) || m in last.manifests)
  {
    assert rows == rows[..|rows| - 1] + [rows[|rows| - 1]];
  }

  lemma {:induction false} ChunksElements(manifests: seq<Manifest>)
    ensures forall c :: c in Chunks(manifests) <==> exists m :: m in manifests && c in PartChunks(m)
  {
    if manifests != [] {
      assert manifests == [manifests[0]] + manifests[1..];
      ChunksElements(manifests[1..]);
    }
  }

  predicate DistinctChunks(chunks: seq<Chunk>) {
    forall i, j :: 0 <= i < j < |chunks| ==> chunks[i].blob != chunks[j].blob || chunks[i].index != chunks[j].index
  }

  lemma {:induction false} ChunksDistinct(manifests: seq<Manifest>)
    requires DistinctBlobs(manifests)
    ensures DistinctChunks(Chunks(manifests))
  {
    if manifests != [] {
      ChunksDistinct(manifests[1..]);
      ChunksElements(manifests[1..]);
      forall i | 0 <= i < |Chunks(manifests[1..])|
        ensures Chunks(manifests[1..])[i].blob != manifests[0].blob
      {
        assert Chunks(manifests[1..])[i] in Chunks(manifests[1..]);
      }
    }
  }

  /** The plan lists every part of every manifest of the rows, once. */
  lemma PlanIsComplete(rows: seq<Message>)
    requires BlobsAgree(rows)
    ensures DistinctChunks(Plan(rows))
    ensures forall row, m, i :: row in rows && m in row.manifests && 0 <= i < |m.parts| ==> Chunk(m.blob, i, m.parts[i]) in Plan(rows)
  {
    UniqueElements(rows);
    ChunksElements(Unique(rows));
    ChunksDistinct(Unique(rows));
    forall row, m, i | row in rows && m in row.manifests && 0 <= i < |m.parts|
      ensures Chunk(m.blob, i, m.parts[i]) in Plan(rows)
    {
      assert HasManifest(rows, m);
      assert PartChunks(m)[i] == Chunk(m.blob, i, m.parts[i]);
    }
  }

  // --------------------------------------------------------- the next payload

  function SliceCount(m: Metadata): nat {
    ((if |m.hidden| < |m.gallery| then |m.gallery| else |m.hidden|) + SLICE - 1) / SLICE
  }

  function Clip(s: seq<Id>, at: nat): nat {
    if at < |s| then at else |s|
  }

  function SliceOf(s: seq<Id>, i: nat): seq<Id> {
    s[Clip(s, i * SLICE)..Clip(s, i * SLICE + SLICE)]
  }

  function PreferencePayload(m: Metadata, i: nat): Payload {
    Preferences(SliceOf(m.hidden, i), SliceOf(m.gallery, i))
  }

  function MessagesPayload(s: State): Payload
    requires s.batch.Some?
  {
    var b := s.batch.value;
    Messages(b.afterSeq, b.upperSeq, if s.head.Some? then Some(LinkOf(s.head.value)) else None, b.rows, b.references, b.metadata.units, b.omitted)
  }

  /** Chunks first, then slices of marks, then the messages record that cites them all. */
  function NextPayload(s: State): Payload
    requires s.batch.Some?
  {
    var b := s.batch.value;
    if |b.references| < |b.chunks| then
      var c := b.chunks[|b.references|];
      Attachment(c.blob, c.index, c.bytes)
    else if |b.metadata.units| < SliceCount(b.metadata) then PreferencePayload(b.metadata, |b.metadata.units|)
    else MessagesPayload(s)
  }

  function PendingFor(s: State, record: Record): Pending
    requires s.batch.Some?
  {
    var b := s.batch.value;
    var chunk := if |b.references| < |b.chunks| then Some(b.chunks[|b.references|]) else None;
    var preference := chunk.None? && |b.metadata.units| < SliceCount(b.metadata);
    Pending(record, chunk, preference, if chunk.Some? || preference then None else Some(HeadOf(record, b.afterSeq, b.upperSeq)))
  }

  // ------------------------------------------------------------------ snapshot

  function Visible(role: Role, page: seq<Message>): seq<Message> {
    if page == [] then []
    else
      var front, last := page[..|page| - 1], page[|page| - 1];
      if role == Joiner && last.safe then Visible(role, front) else Visible(role, front) + [last]
  }

  function OmittedSafe(role: Role, page: seq<Message>): seq<nat> {
    if page == [] then []
    else
      var front, last := page[..|page| - 1], page[|page| - 1];
      if role == Joiner && last.safe then OmittedSafe(role, front) + [last.number] else OmittedSafe(role, front)
  }

  /** When a batch is begun: the page follows the cursor without a gap, and there is something new. */
  ghost predicate Snapshots(role: Role, s: State, page: seq<Message>, hidden: seq<Id>, gallery: seq<Id>) {
    && s.batch.None? && s.pending.None?
    && |page| <= PAGE && Consecutive(Numbers(page), s.cursor)
    && !(page == [] && s.head.Some? && s.marks == Some((hidden, gallery)))
    && (role == Joiner ==> gallery == [])
    && BlobsAgree(Visible(role, page))
  }

  function BatchOf(role: Role, s: State, page: seq<Message>, hidden: seq<Id>, gallery: seq<Id>): Batch {
    Batch(s.cursor, s.cursor + |page|, Visible(role, page), OmittedSafe(role, page), Plan(Visible(role, page)), [],
          Metadata(hidden, gallery, []))
  }

  /** A page is split into the rows that are backed up and the numbers of a joiner's safe rows, and nothing
      else is left out. */
  lemma SnapshotCovers(role: Role, page: seq<Message>, cursor: nat)
    requires Consecutive(Numbers(page), cursor)
    ensures Covers(cursor, cursor + |page|, Numbers(Visible(role, page)), OmittedSafe(role, page))
    ensures role == Joiner ==> forall row <- Visible(role, page) :: !row.safe
    ensures role == Creator ==> OmittedSafe(role, page) == []
    ensures forall row <- page :: row in Visible(role, page) <==> !(role == Joiner && row.safe)
    ensures forall row <- page :: row.number in OmittedSafe(role, page) <==> role == Joiner && row.safe
  {
    SnapshotCoversRange(role, page, cursor);
    SplitByRow(role, page);
    hide Visible, OmittedSafe, Covers;
    forall row, other | row in page && other in page && row.number == other.number
      ensures row == other
    {
      var i, j :| 0 <= i < |page| && 0 <= j < |page| && page[i] == row && page[j] == other;
      assert Numbers(page)[i] == row.number && Numbers(page)[j] == other.number;
    }
  }

  /** Each row goes to one side. */
  lemma {:induction false} SplitByRow(role: Role, page: seq<Message>)
    ensures forall row :: row in Visible(role, page) <==> row in page && !(role == Joiner && row.safe)
    ensures forall n :: n in OmittedSafe(role, page) <==> exists row :: row in page && row.number == n && role == Joiner && row.safe
  {
    if page != [] {
      var front, last := page[..|page| - 1], page[|page| - 1];
      assert page == front + [last];
      SplitByRow(role, front);
      if role == Joiner && last.safe {
        assert OmittedSafe(role, page) == OmittedSafe(role, front) + [last.number];
        assert Visible(role, page) == Visible(role, front);
      } else {
        assert OmittedSafe(role, page) == OmittedSafe(role, front);
        assert Visible(role, page) == Visible(role, front) + [last];
      }
      hide Visible, OmittedSafe;
      forall n | n in OmittedSafe(role, page)
        ensures exists row :: row in page && row.number == n && role == Joiner && row.safe
      {
        if n in OmittedSafe(role, front) {
          var row :| row in front && row.number == n && role == Joiner && row.safe;
          assert row in page;
        } else {
          assert last in page;
        }
      }
    }
  }

  lemma {:induction false} SnapshotCoversRange(role: Role, page: seq<Message>, cursor: nat)
    requires Consecutive(Numbers(page), cursor)
    ensures Covers(cursor, cursor + |page|, Numbers(Visible(role, page)), OmittedSafe(role, page))
    ensures role == Joiner ==> forall row <- Visible(role, page) :: !row.safe
    ensures role == Creator ==> OmittedSafe(role, page) == []
  {
    if page != [] {
      var front, last := page[..|page| - 1], page[|page| - 1];
      assert Numbers(front) == Numbers(page)[..|page| - 1];
      SnapshotCoversRange(role, front, cursor);
      assert last.number == Numbers(page)[|page| - 1] == cursor + |page|;
      if role == Joiner && last.safe {
        CoversOmitting(cursor, cursor + |front|, Numbers(Visible(role, front)), OmittedSafe(role, front));
      } else {
        assert Numbers(Visible(role, page)) == Numbers(Visible(role, front)) + [last.number];
        CoversRow(cursor, cursor + |front|, Numbers(Visible(role, front)), OmittedSafe(role, front));
      }
    }
  }

  lemma CoversRow(afterSeq: nat, upperSeq: nat, rows: seq<nat>, omitted: seq<nat>)
    requires Covers(afterSeq, upperSeq, rows, omitted) && afterSeq <= upperSeq
    ensures Covers(afterSeq, upperSeq + 1, rows + [upperSeq + 1], omitted)
  {
    assert forall i :: 0 <= i < |rows| ==> rows[i] in rows;
  }

  lemma CoversOmitting(afterSeq: nat, upperSeq: nat, rows: seq<nat>, omitted: seq<nat>)
    requires Covers(afterSeq, upperSeq, rows, omitted) && afterSeq <= upperSeq
    ensures Covers(afterSeq, upperSeq + 1, rows, omitted + [upperSeq + 1])
  {
    assert forall i :: 0 <= i < |omitted| ==> omitted[i] in omitted;
  }

  // -------------------------------------------------------------------- commit

  /** What one acknowledged upload leads to. */
  function Committed(s: State): State
    requires s.batch.Some? && s.pending.Some?
  {
    var b, p := s.batch.value, s.pending.value;
    var cleared := s.(pending := None);
    if p.chunk.Some? then
      cleared.(batch := Some(b.(references := b.references + [Reference(p.chunk.value.blob, p.chunk.value.index, p.record.id)])))
    else if p.preference then
      cleared.(batch := Some(b.(metadata := b.metadata.(units := b.metadata.units + [p.record.id]))))
    else
      cleared.(cursor := b.upperSeq, marks := Some((b.metadata.hidden, b.metadata.gallery)), head := p.head, batch := None)
  }

  // -------------------------------------------------------------------- server

  datatype Server = Server(units: map<Id, Record>, heads: map<Device, Head>, published: set<Head>)

  /** Units are immutable: only the first record under an id is kept. */
  function Save(server: Server, record: Record): Server {
    if record.id in server.units then server else server.(units := server.units[record.id := record])
  }

  predicate Saved(server: Server, record: Record) {
    record.id in server.units && server.units[record.id] == record
  }

  /** A head must name a stored unit and be the same as before or of a greater revision. */
  predicate AcceptsHead(server: Server, head: Head) {
    && head.id in server.units && server.units[head.id].device == head.device && server.units[head.id].revision == head.revision
    && Hash(server.units[head.id]) == head.digest
    && (head.device in server.heads ==> server.heads[head.device] == head || server.heads[head.device].revision < head.revision)
  }

  function SaveHead(server: Server, head: Head): Server {
    if AcceptsHead(server, head) then Server(server.units, server.heads[head.device := head], server.published + {head}) else server
  }

  /** Whatever is sent: a stored unit is never replaced. */
  lemma UnitsAreFinal(server: Server, record: Record)
    ensures forall id <- server.units :: id in Save(server, record).units && Save(server, record).units[id] == server.units[id]
    ensures Save(server, record).heads == server.heads && Save(server, record).published == server.published
  {
  }

  /** Whatever head is sent: heads only move on to greater revisions, of stored units under their own digest. */
  lemma HeadsMoveOn(server: Server, head: Head, d: Device)
    requires d in server.heads
    ensures var after := SaveHead(server, head);
            && after.units == server.units && d in after.heads
            && (after.heads[d] == server.heads[d]
                || (after.heads[d] == head && head.device == d && server.heads[d].revision < head.revision
                    && head.id in server.units && server.units[head.id].device == d && head.digest == Hash(server.units[head.id])))
  {
  }

  // --------------------------------------------------------- what a chain must be

  type Units = map<Id, Record>

  ghost predicate Grows(units: Units, more: Units) {
    forall id :: id in units ==> id in more && more[id] == units[id]
  }

  /** The unit that the last reference to a chunk names. */
  function FindUnit(attachments: seq<Reference>, blob: Id, index: nat): (r: Option<Id>)
    ensures r.Some? ==> Reference(blob, index, r.value) in attachments
  {
    if attachments == [] then None
    else
      var last := attachments[|attachments| - 1];
      if last.blob == blob && last.index == index then Some(last.unit) else FindUnit(attachments[..|attachments| - 1], blob, index)
  }

  /** Unit `id` is stored, by the same device and before the record that cites it. */
  predicate Cites(units: Units, r: Record, id: Id) {
    id in units && units[id].id == id && units[id].device == r.device && units[id].revision < r.revision
  }

  predicate Provides(units: Units, attachments: seq<Reference>, c: Chunk) {
    var unit := FindUnit(attachments, c.blob, c.index);
    unit.Some? && unit.value in units && units[unit.value].payload == Attachment(c.blob, c.index, c.bytes)
  }

  /** A messages record covers its range, belongs to its owner's role, and cites stored units that
      hold every part of every manifest in its rows. */
  ghost predicate Sound(units: Units, role: Role, r: Record) {
    && r.payload.Messages?
    && var p := r.payload;
       && p.afterSeq <= p.upperSeq && Covers(p.afterSeq, p.upperSeq, Numbers(p.rows), p.omitted)
       && (role == Creator ==> p.omitted == []) && (role == Joiner ==> forall row <- p.rows :: !row.safe)
       && (forall ref <- p.attachments :: Cites(units, r, ref.unit))
       && (forall row, m, i :: row in p.rows && m in row.manifests && 0 <= i < |m.parts| ==> Provides(units, p.attachments, Chunk(m.blob, i, m.parts[i])))
       && (forall id <- p.preferences ::
             Cites(units, r, id) && units[id].payload.Preferences? && (role == Joiner ==> units[id].payload.gallery == []))
  }

  /** The records from `link` back to the base: each is stored under its digest, is sound, and ends
      where its successor begins; revisions fall. */
  ghost predicate Chain(units: Units, role: Role, base: nat, device: Device, link: Link, upper: nat, bound: nat)
    decreases link.digest
  {
    var r := link.digest.record;
    && link.id in units && units[link.id] == r && r.id == link.id && r.device == device && r.revision <= bound
    && Sound(units, role, r) && r.payload.upperSeq == upper
    && match r.payload.previous
       case None => r.payload.afterSeq == base
       case Some(previous) => r.revision > 0 && Chain(units, role, base, device, previous, r.payload.afterSeq, r.revision - 1)
  }

  lemma SoundGrows(units: Units, more: Units, role: Role, r: Record)
    requires Sound(units, role, r) && Grows(units, more)
    ensures Sound(more, role, r)
  {
    hide Covers;
    var p := r.payload;
    forall row, m, i | row in p.rows && m in row.manifests && 0 <= i < |m.parts|
      ensures Provides(more, p.attachments, Chunk(m.blob, i, m.parts[i]))
    {
      assert Provides(units, p.attachments, Chunk(m.blob, i, m.parts[i]));
    }
  }

  lemma {:induction false} ChainGrows(units: Units, more: Units, role: Role, base: nat, device: Device, link: Link, upper: nat, bound: nat, higher: nat)
    requires Chain(units, role, base, device, link, upper, bound) && Grows(units, more) && bound <= higher
    ensures Chain(more, role, base, device, link, upper, higher)
    decreases link.digest
  {
    var r := link.digest.record;
    SoundGrows(units, more, role, r);
    hide Sound;
    if r.payload.previous.Some? {
      ChainGrows(units, more, role, base, device, r.payload.previous.value, r.payload.afterSeq, r.revision - 1, r.revision - 1);
    }
  }

  // ------------------------------------------------------------------- machine

  /** How far the current pass has come with the pending unit; a crash forgets it. */
  datatype Phase = Idle | UnitSaved | HeadSaved

  /** `base` is where the local history begins, and `seen` are the rows of all pages that have been read. */
  datatype Local = Local(base: nat, state: State, phase: Phase, seen: map<nat, Message>)

  /** `used` are the unit ids ever drawn; each draw is fresh. */
  datatype World = World(role: Role, server: Server, devices: map<Device, Local>, used: set<Id>)

  datatype Act =
    | Snapshot(page: seq<Message>, hidden: seq<Id>, gallery: seq<Id>)
    | Seal(id: Id)
    | PutUnit(answered: bool)
    | PutHead(answered: bool)
    | Commit
    | Crash

  ghost predicate Seals(w: World, s: State, id: Id) {
    s.batch.Some? && s.pending.None? && id !in w.used && Valid(NextPayload(s))
  }

  function SealedState(s: State, device: Device, id: Id): State
    requires s.batch.Some?
  {
    s.(revision := s.revision + 1, pending := Some(PendingFor(s, Record(id, device, s.revision + 1, NextPayload(s)))))
  }

  predicate Commits(local: Local) {
    && local.state.batch.Some? && local.state.pending.Some?
    && (local.phase == HeadSaved || (local.phase == UnitSaved && local.state.pending.value.head.None?))
  }

  function ByNumber(page: seq<Message>): map<nat, Message> {
    if page == [] then map[] else ByNumber(page[..|page| - 1])[page[|page| - 1].number := page[|page| - 1]]
  }

  function Began(w: World, d: Device, page: seq<Message>, hidden: seq<Id>, gallery: seq<Id>): World
    requires d in w.devices
  {
    var local := w.devices[d];
    w.(devices := w.devices[d := local.(state := local.state.(batch := Some(BatchOf(w.role, local.state, page, hidden, gallery))),
                                        seen := local.seen + ByNumber(page))])
  }

  function Sealed(w: World, d: Device, id: Id): World
    requires d in w.devices && w.devices[d].state.batch.Some?
  {
    w.(devices := w.devices[d := w.devices[d].(state := SealedState(w.devices[d].state, d, id), phase := Idle)], used := w.used + {id})
  }

  function UnitPut(w: World, d: Device, answered: bool): World
    requires d in w.devices && w.devices[d].state.pending.Some?
  {
    var local := w.devices[d];
    var server := Save(w.server, local.state.pending.value.record);
    var phase := if answered && Saved(server, local.state.pending.value.record) then UnitSaved else local.phase;
    w.(server := server, devices := w.devices[d := local.(phase := phase)])
  }

  function HeadPut(w: World, d: Device, answered: bool): World
    requires d in w.devices && w.devices[d].state.pending.Some? && w.devices[d].state.pending.value.head.Some?
  {
    var local := w.devices[d];
    var head := local.state.pending.value.head.value;
    var phase := if answered && AcceptsHead(w.server, head) then HeadSaved else local.phase;
    w.(server := SaveHead(w.server, head), devices := w.devices[d := local.(phase := phase)])
  }

  function UnitCommitted(w: World, d: Device): World
    requires d in w.devices && Commits(w.devices[d])
  {
    w.(devices := w.devices[d := w.devices[d].(state := Committed(w.devices[d].state), phase := Idle)])
  }

  function Crashed(w: World, d: Device): World
    requires d in w.devices
  {
    w.(devices := w.devices[d := w.devices[d].(phase := Idle)])
  }

  predicate PutsHead(local: Local) {
    local.state.pending.Some? && local.state.pending.value.head.Some? && local.phase != Idle
  }

  /** One atomic step of one device; a step that its guard forbids changes nothing. A request may
      take effect without being answered. */
  ghost function Do(w: World, d: Device, act: Act): World
    requires d in w.devices
  {
    match act
    case Snapshot(page, hidden, gallery) =>
      if Snapshots(w.role, w.devices[d].state, page, hidden, gallery) then Began(w, d, page, hidden, gallery) else w
    case Seal(id) => if Seals(w, w.devices[d].state, id) then Sealed(w, d, id) else w
    case PutUnit(answered) => if w.devices[d].state.pending.Some? then UnitPut(w, d, answered) else w
    case PutHead(answered) => if PutsHead(w.devices[d]) then HeadPut(w, d, answered) else w
    case Commit => if Commits(w.devices[d]) then UnitCommitted(w, d) else w
    case Crash => Crashed(w, d)
  }

  ghost predicate Start(w: World) {
    && w.server == Server(map[], map[], {}) && w.used == {}
    && forall d <- w.devices :: w.devices[d] == Local(w.devices[d].base, State(w.devices[d].base, 0, None, None, None, None), Idle, map[])
  }

  ghost function RunFrom(w: World, run: seq<(Device, Act)>): World {
    if run == [] then w
    else
      var before, (d, act) := RunFrom(w, run[..|run| - 1]), run[|run| - 1];
      if d in before.devices then Do(before, d, act) else before
  }

  // ----------------------------------------------------------------- invariant

  /** Revisions up to this one belong to units that have been committed. */
  function Settled(s: State): nat {
    if s.pending.Some? && s.revision > 0 then s.revision - 1 else s.revision
  }

  predicate UnitIs(units: Units, id: Id, device: Device, bound: nat, payload: Payload) {
    && id in units && units[id].id == id && units[id].device == device && units[id].revision <= bound
    && units[id].payload == payload
  }

  /** The marks of the last messages record are spelled by the units that it cites. */
  predicate Spells(units: Units, preferences: seq<Id>, marks: (seq<Id>, seq<Id>)) {
    var m := Metadata(marks.0, marks.1, preferences);
    && |preferences| == SliceCount(m)
    && forall i :: 0 <= i < |preferences| ==> preferences[i] in units && units[preferences[i]].payload == PreferencePayload(m, i)
  }

  ghost predicate HeadInv(server: Server, role: Role, d: Device, local: Local) {
    var s := local.state;
    match s.head
    case None => s.cursor == local.base
    case Some(h) =>
      && h in server.published && h.device == d && h.upperSeq == s.cursor && h.revision <= Settled(s)
      && Chain(server.units, role, local.base, d, LinkOf(h), s.cursor, Settled(s))
      && s.marks.Some? && Spells(server.units, h.digest.record.payload.preferences, s.marks.value)
  }

  ghost predicate BatchInv(server: Server, role: Role, d: Device, s: State) {
    s.batch.Some? ==>
      var b := s.batch.value;
      && b.afterSeq == s.cursor <= b.upperSeq && Covers(b.afterSeq, b.upperSeq, Numbers(b.rows), b.omitted)
      && (role == Creator ==> b.omitted == []) && (role == Joiner ==> b.metadata.gallery == [] && forall row <- b.rows :: !row.safe)
      && BlobsAgree(b.rows) && b.chunks == Plan(b.rows)
      && UploadsInv(server.units, d, Settled(s), b)
  }

  /** The references are a prefix of the plan, and the preference units of the slices, all stored. */
  predicate UploadsInv(units: Units, d: Device, bound: nat, b: Batch) {
    && |b.references| <= |b.chunks| && |b.metadata.units| <= SliceCount(b.metadata)
    && (b.metadata.units != [] ==> |b.references| == |b.chunks|)
    && (forall i :: 0 <= i < |b.references| ==>
          && b.references[i] == Reference(b.chunks[i].blob, b.chunks[i].index, b.references[i].unit)
          && UnitIs(units, b.references[i].unit, d, bound, Attachment(b.chunks[i].blob, b.chunks[i].index, b.chunks[i].bytes)))
    && (forall i :: 0 <= i < |b.metadata.units| ==> UnitIs(units, b.metadata.units[i], d, bound, PreferencePayload(b.metadata, i)))
  }

  ghost predicate PendingInv(server: Server, used: set<Id>, d: Device, local: Local) {
    var s := local.state;
    && (s.pending.Some? ==>
          var record := s.pending.value.record;
          && s.batch.Some? && s.revision > 0 && record == Record(record.id, d, s.revision, NextPayload(s)) && Valid(record.payload)
          && s.pending.value == PendingFor(s, record)
          && record.id in used && (record.id in server.units ==> server.units[record.id] == record))
    && (local.phase != Idle ==> s.pending.Some? && Saved(server, s.pending.value.record))
    && (local.phase == HeadSaved ==> s.pending.value.head.Some? && d in server.heads && server.heads[d] == s.pending.value.head.value)
  }

  /** The server's head is the committed one, or the pending one. */
  ghost predicate ServerHeadInv(server: Server, d: Device, s: State) {
    d in server.heads ==> server.heads[d] in server.published && (s.head == Some(server.heads[d]) || (s.pending.Some? && s.pending.value.head == Some(server.heads[d])))
  }

  ghost predicate DeviceInv(server: Server, used: set<Id>, role: Role, d: Device, local: Local) {
    && HeadInv(server, role, d, local) && BatchInv(server, role, d, local.state)
    && PendingInv(server, used, d, local) && ServerHeadInv(server, d, local.state)
  }

  ghost predicate PublishedInv(w: World) {
    forall h <- w.server.published ::
      h.device in w.devices && Chain(w.server.units, w.role, w.devices[h.device].base, h.device, LinkOf(h), h.upperSeq, h.revision)
  }

  predicate Draws(w: World, d: Device, id: Id)
    requires d in w.devices
  {
    w.devices[d].state.pending.Some? && w.devices[d].state.pending.value.record.id == id
  }

  /** Unit ids are never drawn twice. */
  ghost predicate IdsInv(w: World) {
    && (forall id <- w.server.units :: id in w.used && w.server.units[id].id == id)
    && (forall d, id :: d in w.devices && Draws(w, d, id) ==> id in w.used)
    && (forall d, e, id :: d in w.devices && e in w.devices && Draws(w, d, id) && Draws(w, e, id) ==> d == e)
  }

  ghost predicate Inv(w: World) {
    && (forall d <- w.devices :: DeviceInv(w.server, w.used, w.role, d, w.devices[d]))
    && PublishedInv(w) && IdsInv(w)
  }

  // -------------------------------------------------- every step keeps the invariant

  /** What other devices and the server do leaves a device's invariant alone. */
  lemma Undisturbed(server: Server, after: Server, used: set<Id>, more: set<Id>, role: Role, d: Device, local: Local)
    requires DeviceInv(server, used, role, d, local)
    requires Grows(server.units, after.units) && server.published <= after.published && used <= more
    requires d in after.heads ==> d in server.heads && after.heads[d] == server.heads[d]
    requires d in server.heads ==> d in after.heads
    requires local.state.pending.Some? ==>
               var record := local.state.pending.value.record;
               record.id in after.units ==> after.units[record.id] == record
    ensures DeviceInv(after, more, role, d, local)
  {
    var s := local.state;
    hide Chain, Covers, Valid, BlobsAgree, Plan, NextPayload, PendingFor, PreferencePayload, SliceCount;
    if s.head.Some? {
      ChainGrows(server.units, after.units, role, local.base, d, LinkOf(s.head.value), s.cursor, Settled(s), Settled(s));
    }
  }

  lemma NewBatchIsSound(server: Server, role: Role, d: Device, s: State, page: seq<Message>, hidden: seq<Id>, gallery: seq<Id>)
    requires Snapshots(role, s, page, hidden, gallery)
    ensures BatchInv(server, role, d, s.(batch := Some(BatchOf(role, s, page, hidden, gallery))))
  {
    SnapshotCoversRange(role, page, s.cursor);
    hide Covers, BlobsAgree, Plan, Visible, OmittedSafe, Consecutive, UnitIs;
  }

  lemma BatchLeavesTheRest(server: Server, used: set<Id>, role: Role, d: Device, local: Local, batch: Option<Batch>, seen: map<nat, Message>)
    requires DeviceInv(server, used, role, d, local) && local.state.pending.None?
    ensures var after := local.(state := local.state.(batch := batch), seen := seen);
            HeadInv(server, role, d, after) && PendingInv(server, used, d, after) && ServerHeadInv(server, d, after.state)
  {
    hide Chain, Covers, Valid, BlobsAgree, Plan, Spells, BatchInv, NextPayload, PendingFor;
  }

  lemma SnapshotKeeps(server: Server, used: set<Id>, role: Role, d: Device, local: Local, page: seq<Message>, hidden: seq<Id>, gallery: seq<Id>,
                      seen: map<nat, Message>)
    requires DeviceInv(server, used, role, d, local) && Snapshots(role, local.state, page, hidden, gallery)
    ensures DeviceInv(server, used, role, d, local.(state := local.state.(batch := Some(BatchOf(role, local.state, page, hidden, gallery))), seen := seen))
  {
    NewBatchIsSound(server, role, d, local.state, page, hidden, gallery);
    BatchLeavesTheRest(server, used, role, d, local, Some(BatchOf(role, local.state, page, hidden, gallery)), seen);
    hide HeadInv, BatchInv, PendingInv, ServerHeadInv, BatchOf;
  }

  lemma SealKeeps(server: Server, used: set<Id>, role: Role, d: Device, local: Local, id: Id)
    requires DeviceInv(server, used, role, d, local) && (forall u <- server.units :: u in used)
    requires local.state.batch.Some? && local.state.pending.None? && id !in used && Valid(NextPayload(local.state))
    ensures DeviceInv(server, used + {id}, role, d, local.(state := SealedState(local.state, d, id), phase := Idle))
  {
    hide Chain, Covers, Valid, BlobsAgree, Plan, Spells, UploadsInv, PreferencePayload, SliceCount;
  }

  lemma SaveKeeps(server: Server, used: set<Id>, role: Role, d: Device, local: Local, phase: Phase)
    requires DeviceInv(server, used, role, d, local) && local.state.pending.Some?
    requires phase == local.phase || phase == UnitSaved
    ensures var after := Save(server, local.state.pending.value.record);
            Saved(after, local.state.pending.value.record) && DeviceInv(after, used, role, d, local.(phase := phase))
  {
    Undisturbed(server, Save(server, local.state.pending.value.record), used, used, role, d, local);
    hide Chain, Covers, Valid, BlobsAgree, Plan, NextPayload, PendingFor, UploadsInv, Spells;
  }

  lemma CrashKeeps(server: Server, used: set<Id>, role: Role, d: Device, local: Local)
    requires DeviceInv(server, used, role, d, local)
    ensures DeviceInv(server, used, role, d, local.(phase := Idle))
  {
    hide Chain, Covers, Valid, BlobsAgree, Plan, NextPayload, PendingFor, UploadsInv, Spells;
  }

  // ----------------------------------------------------------- a head is sound

  lemma {:induction false} FindsItsUnit(references: seq<Reference>, chunks: seq<Chunk>, k: nat)
    requires |references| == |chunks| && DistinctChunks(chunks) && k < |chunks|
    requires forall i :: 0 <= i < |references| ==> references[i].blob == chunks[i].blob && references[i].index == chunks[i].index
    ensures FindUnit(references, chunks[k].blob, chunks[k].index) == Some(references[k].unit)
  {
    var last := |references| - 1;
    if k < last {
      FindsItsUnit(references[..last], chunks[..last], k);
    }
  }

  /** When everything has been uploaded, the messages record is sound. */
  lemma MessagesRecordIsSound(server: Server, used: set<Id>, role: Role, d: Device, local: Local)
    requires DeviceInv(server, used, role, d, local) && local.state.pending.Some? && local.state.pending.value.head.Some?
    ensures Sound(server.units, role, local.state.pending.value.record)
  {
    var s := local.state;
    var b, r := s.batch.value, s.pending.value.record;
    var units := server.units;
    PlanIsComplete(b.rows);
    assert r.payload == MessagesPayload(s);
    hide Covers, Valid, BlobsAgree, Plan, Chain, Spells;
    forall i | 0 <= i < |b.references|
      ensures Cites(units, r, b.references[i].unit)
    {
      assert UnitIs(units, b.references[i].unit, d, Settled(s), Attachment(b.chunks[i].blob, b.chunks[i].index, b.chunks[i].bytes));
    }
    forall i | 0 <= i < |b.metadata.units|
      ensures Cites(units, r, b.metadata.units[i]) && units[b.metadata.units[i]].payload.Preferences?
      ensures role == Joiner ==> units[b.metadata.units[i]].payload.gallery == []
    {
      assert UnitIs(units, b.metadata.units[i], d, Settled(s), PreferencePayload(b.metadata, i));
    }
    forall row, m, i | row in b.rows && m in row.manifests && 0 <= i < |m.parts|
      ensures Provides(units, b.references, Chunk(m.blob, i, m.parts[i]))
    {
      var k :| 0 <= k < |b.chunks| && b.chunks[k] == Chunk(m.blob, i, m.parts[i]);
      FindsItsUnit(b.references, b.chunks, k);
      assert UnitIs(units, b.references[k].unit, d, Settled(s), Attachment(b.chunks[k].blob, b.chunks[k].index, b.chunks[k].bytes));
    }
  }

  /** The head of a pending messages record, once that record is stored. */
  lemma PendingHeadIsChained(server: Server, used: set<Id>, role: Role, d: Device, local: Local)
    requires DeviceInv(server, used, role, d, local) && local.state.pending.Some? && local.state.pending.value.head.Some?
    requires Saved(server, local.state.pending.value.record)
    ensures var s := local.state;
            var h := s.pending.value.head.value;
            && h.device == d && h.upperSeq == s.batch.value.upperSeq && h.revision == s.revision
            && Chain(server.units, role, local.base, d, LinkOf(h), h.upperSeq, s.revision)
            && Spells(server.units, h.digest.record.payload.preferences, (s.batch.value.metadata.hidden, s.batch.value.metadata.gallery))
            && AcceptsHead(server, h)
  {
    MessagesRecordIsSound(server, used, role, d, local);
    hide Sound, Covers, Valid, BlobsAgree, Plan;
    var s := local.state;
    var b := s.batch.value;
    assert s.pending.value.record.payload == MessagesPayload(s);
    forall i | 0 <= i < |b.metadata.units|
      ensures b.metadata.units[i] in server.units && server.units[b.metadata.units[i]].payload == PreferencePayload(b.metadata, i)
    {
      assert UnitIs(server.units, b.metadata.units[i], d, Settled(s), PreferencePayload(b.metadata, i));
    }
    assert forall i :: PreferencePayload(b.metadata, i) == PreferencePayload(Metadata(b.metadata.hidden, b.metadata.gallery, b.metadata.units), i);
  }

  lemma SaveHeadKeeps(server: Server, used: set<Id>, role: Role, d: Device, local: Local, phase: Phase)
    requires DeviceInv(server, used, role, d, local) && local.state.pending.Some? && local.state.pending.value.head.Some?
    requires local.phase != Idle && (phase == local.phase || phase == HeadSaved)
    ensures var after := SaveHead(server, local.state.pending.value.head.value);
            && AcceptsHead(server, local.state.pending.value.head.value)
            && DeviceInv(after, used, role, d, local.(phase := phase))
  {
    PendingHeadIsChained(server, used, role, d, local);
    hide Chain, Covers, Valid, BlobsAgree, Plan, NextPayload, PendingFor, UploadsInv, Spells;
  }

  lemma CommitKeeps(server: Server, used: set<Id>, role: Role, d: Device, local: Local)
    requires DeviceInv(server, used, role, d, local) && Commits(local)
    ensures DeviceInv(server, used, role, d, local.(state := Committed(local.state), phase := Idle))
  {
    hide Chain, Covers, Valid, BlobsAgree, Plan, NextPayload, UploadsInv, Spells;
    var s := local.state;
    var units := server.units;
    if s.head.Some? {
      ChainGrows(units, units, role, local.base, d, LinkOf(s.head.value), s.cursor, Settled(s), s.revision);
    }
    if s.pending.value.head.Some? {
      PendingHeadIsChained(server, used, role, d, local);
    } else {
      UploadsGrow(server, d, s);
    }
  }

  /** Committing a chunk or a slice extends the stored prefix by one. */
  lemma UploadsGrow(server: Server, d: Device, s: State)
    requires s.batch.Some? && s.pending.Some? && s.revision > 0
    requires s.pending.value == PendingFor(s, s.pending.value.record) && s.pending.value.head.None?
    requires s.pending.value.record == Record(s.pending.value.record.id, d, s.revision, NextPayload(s))
    requires Saved(server, s.pending.value.record) && UploadsInv(server.units, d, Settled(s), s.batch.value)
    ensures UploadsInv(server.units, d, s.revision, Committed(s).batch.value)
  {
    var metadata := s.batch.value.metadata;
    SameMarks(metadata, metadata.units + [s.pending.value.record.id]);
    hide SliceCount, PreferencePayload, Plan;
  }

  lemma SameMarks(m: Metadata, units: seq<Id>)
    ensures SliceCount(m.(units := units)) == SliceCount(m)
    ensures forall i :: PreferencePayload(m.(units := units), i) == PreferencePayload(m, i)
  {
  }

  lemma PublishedKeeps(w: World, after: World)
    requires PublishedInv(w) && after.role == w.role && after.server.published == w.server.published
    requires Grows(w.server.units, after.server.units)
    requires forall d <- w.devices :: d in after.devices && after.devices[d].base == w.devices[d].base
    ensures PublishedInv(after)
  {
    hide Chain;
    forall h <- after.server.published
      ensures Chain(after.server.units, after.role, after.devices[h.device].base, h.device, LinkOf(h), h.upperSeq, h.revision)
    {
      var base := w.devices[h.device].base;
      ChainGrows(w.server.units, after.server.units, w.role, base, h.device, LinkOf(h), h.upperSeq, h.revision, h.revision);
    }
  }

  /** The other devices, when one device has acted. */
  lemma OthersKeep(w: World, after: World, d: Device)
    requires Inv(w) && d in w.devices && after.role == w.role && after.devices.Keys == w.devices.Keys
    requires Grows(w.server.units, after.server.units) && w.server.published <= after.server.published && w.used <= after.used
    requires forall e <- w.devices | e != d :: after.devices[e] == w.devices[e]
    requires forall e: Device | e != d :: (e in after.server.heads <==> e in w.server.heads)
                                       && (e in w.server.heads ==> after.server.heads[e] == w.server.heads[e])
    requires forall id <- after.server.units | id !in w.server.units ::
               Draws(w, d, id)
    ensures forall e <- w.devices | e != d :: DeviceInv(after.server, after.used, after.role, e, after.devices[e])
  {
    hide DeviceInv;
    forall e <- w.devices | e != d
      ensures DeviceInv(after.server, after.used, after.role, e, after.devices[e])
    {
      assert DeviceInv(w.server, w.used, w.role, e, w.devices[e]);
      if w.devices[e].state.pending.Some? {
        PendingIsSafe(w, e);
        assert Draws(w, e, w.devices[e].state.pending.value.record.id);
      }
      Undisturbed(w.server, after.server, w.used, after.used, w.role, e, w.devices[e]);
    }
  }

  lemma PendingIsSafe(w: World, e: Device)
    requires e in w.devices && DeviceInv(w.server, w.used, w.role, e, w.devices[e]) && w.devices[e].state.pending.Some?
    ensures var record := w.devices[e].state.pending.value.record;
            record.id in w.used && (record.id in w.server.units ==> w.server.units[record.id] == record)
  {
  }

  /** What a step may change beyond its own device. */
  lemma StepFrame(w: World, d: Device, act: Act)
    requires d in w.devices
    requires w.devices[d].state.pending.Some? && w.devices[d].state.pending.value.head.Some? ==> w.devices[d].state.pending.value.head.value.device == d
    ensures var after := Do(w, d, act);
            && after.role == w.role && after.devices.Keys == w.devices.Keys
            && Grows(w.server.units, after.server.units) && w.server.published <= after.server.published && w.used <= after.used
            && (forall e <- w.devices :: after.devices[e].base == w.devices[e].base)
            && (forall e <- w.devices | e != d :: after.devices[e] == w.devices[e])
            && (forall e: Device | e != d :: (e in after.server.heads <==> e in w.server.heads)
                                             && (e in w.server.heads ==> after.server.heads[e] == w.server.heads[e]))
            && (forall id <- after.server.units | id !in w.server.units :: Draws(w, d, id))
  {
    hide Snapshots, BatchOf, Seals, SealedState, Committed, AcceptsHead;
  }

  lemma StepKeepsOthers(w: World, d: Device, act: Act)
    requires Inv(w) && d in w.devices
    ensures var after := Do(w, d, act);
            && after.role == w.role && after.devices.Keys == w.devices.Keys
            && Grows(w.server.units, after.server.units) && w.server.published <= after.server.published && w.used <= after.used
            && (forall e <- w.devices :: after.devices[e].base == w.devices[e].base)
            && (forall e <- w.devices | e != d :: DeviceInv(after.server, after.used, after.role, e, after.devices[e]))
  {
    assert DeviceInv(w.server, w.used, w.role, d, w.devices[d]);
    PendingHeadDevice(w, d);
    StepFrame(w, d, act);
    hide DeviceInv, Do, PublishedInv, IdsInv;
    OthersKeep(w, Do(w, d, act), d);
  }

  lemma PendingHeadDevice(w: World, d: Device)
    requires d in w.devices && DeviceInv(w.server, w.used, w.role, d, w.devices[d])
    ensures var s := w.devices[d].state; s.pending.Some? && s.pending.value.head.Some? ==> s.pending.value.head.value.device == d
  {
    hide Chain, Covers, Valid, BlobsAgree, Plan, NextPayload, UploadsInv, Spells;
  }

  lemma StepKeepsDevice(w: World, d: Device, act: Act)
    requires Inv(w) && d in w.devices
    ensures var after := Do(w, d, act); DeviceInv(after.server, after.used, after.role, d, after.devices[d])
  {
    var local := w.devices[d];
    var s := local.state;
    assert DeviceInv(w.server, w.used, w.role, d, local);
    hide DeviceInv, PublishedInv, Snapshots, BatchOf, SealedState, Committed, AcceptsHead, Save, SaveHead, NextPayload;
    match act
    case Snapshot(page, hidden, gallery) =>
      if Snapshots(w.role, s, page, hidden, gallery) {
        SnapshotKeeps(w.server, w.used, w.role, d, local, page, hidden, gallery, local.seen + ByNumber(page));
      }
    case Seal(id) =>
      if Seals(w, s, id) {
        SealKeeps(w.server, w.used, w.role, d, local, id);
      }
    case PutUnit(answered) =>
      if s.pending.Some? {
        SaveKeeps(w.server, w.used, w.role, d, local, if answered then UnitSaved else local.phase);
      }
    case PutHead(answered) =>
      if s.pending.Some? && s.pending.value.head.Some? && local.phase != Idle {
        SaveHeadKeeps(w.server, w.used, w.role, d, local, if answered then HeadSaved else local.phase);
      }
    case Commit =>
      if Commits(local) {
        CommitKeeps(w.server, w.used, w.role, d, local);
      }
    case Crash =>
      CrashKeeps(w.server, w.used, w.role, d, local);
  }

  lemma StepKeepsPublished(w: World, d: Device, act: Act)
    requires Inv(w) && d in w.devices
    ensures PublishedInv(Do(w, d, act))
  {
    var after := Do(w, d, act);
    var local := w.devices[d];
    StepKeepsOthers(w, d, act);
    assert DeviceInv(w.server, w.used, w.role, d, local);
    hide DeviceInv, Chain, Snapshots, BatchOf, SealedState, Committed;
    if act.PutHead? && local.state.pending.Some? && local.state.pending.value.head.Some? && local.phase != Idle {
      SavedWhenStarted(w, d);
      PendingHeadIsChained(w.server, w.used, w.role, d, local);
    } else {
      PublishedKeeps(w, after);
    }
  }

  lemma SavedWhenStarted(w: World, d: Device)
    requires d in w.devices && DeviceInv(w.server, w.used, w.role, d, w.devices[d]) && w.devices[d].phase != Idle
    ensures w.devices[d].state.pending.Some? && Saved(w.server, w.devices[d].state.pending.value.record)
  {
    hide HeadInv, BatchInv;
  }

  lemma StepKeepsIds(w: World, d: Device, act: Act)
    requires IdsInv(w) && d in w.devices
    ensures IdsInv(Do(w, d, act))
  {
    hide Snapshots, BatchOf, NextPayload, AcceptsHead, Saved, Valid;
    var after := Do(w, d, act);
    assert w.devices[d].state.pending.Some? ==> Draws(w, d, w.devices[d].state.pending.value.record.id);
    forall e, id | e in after.devices && Draws(after, e, id)
      ensures Draws(w, e, id) || (act.Seal? && e == d && id == act.id && id !in w.used && id in after.used)
    {
    }
  }

  /** Every step of every device keeps the invariant, a crash between any two steps included. */
  lemma StepKeepsInv(w: World, d: Device, act: Act)
    requires Inv(w) && d in w.devices
    ensures Inv(Do(w, d, act))
  {
    StepKeepsOthers(w, d, act);
    StepKeepsDevice(w, d, act);
    StepKeepsPublished(w, d, act);
    StepKeepsIds(w, d, act);
    hide DeviceInv, PublishedInv, IdsInv, Do;
  }

  lemma StartIsInv(w: World)
    requires Start(w)
    ensures Inv(w)
  {
    hide Chain;
  }

  lemma {:induction false} RunKeepsInv(w: World, run: seq<(Device, Act)>)
    requires Start(w)
    ensures Inv(RunFrom(w, run)) && RunFrom(w, run).devices.Keys == w.devices.Keys && RunFrom(w, run).role == w.role
    ensures forall d <- w.devices :: RunFrom(w, run).devices[d].base == w.devices[d].base
  {
    if run == [] {
      StartIsInv(w);
    } else {
      var front := run[..|run| - 1];
      var (d, act) := run[|run| - 1];
      RunKeepsInv(w, front);
      if d in w.devices {
        StepKeepsInv(RunFrom(w, front), d, act);
        StepKeepsOthers(RunFrom(w, front), d, act);
      }
      hide Inv, Do;
    }
  }

  lemma UnitsAreNamed(w: World, run: seq<(Device, Act)>)
    requires Start(w)
    ensures forall id <- RunFrom(w, run).server.units :: RunFrom(w, run).server.units[id].id == id
  {
    RunKeepsInv(w, run);
    hide DeviceInv, RunFrom, PublishedInv;
  }

  /** The main result: in every reachable state, every head that the server has ever accepted
      reaches only stored records, stored attachments and stored marks, in an unbroken chain. */
  lemma PublishedHeadsAreChained(w: World, run: seq<(Device, Act)>, h: Head)
    requires Start(w) && h in RunFrom(w, run).server.published
    ensures h.device in w.devices
    ensures Chain(RunFrom(w, run).server.units, w.role, w.devices[h.device].base, h.device, LinkOf(h), h.upperSeq, h.revision)
  {
    RunKeepsInv(w, run);
    hide Chain, DeviceInv, RunFrom;
  }

  // ------------------------------------------------------------------ progress

  /** What the validator refuses in the next unit of a batch: a part with too high an index, marks that are
      repeated or out of order, or more rows, attachments or mark units than a record may hold. */
  predicate TooLarge(s: State)
    requires s.batch.Some?
  {
    var b := s.batch.value;
    if |b.references| < |b.chunks| then b.chunks[|b.references|].index >= MAX_INDEX
    else if |b.metadata.units| < SliceCount(b.metadata) then
      !DistinctIds(SliceOf(b.metadata.hidden, |b.metadata.units|)) || !Ascending(SliceOf(b.metadata.gallery, |b.metadata.units|))
    else
      || |b.rows| > MAX_ROWS || |b.omitted| > MAX_ROWS || |b.references| > MAX_ATTACHMENTS
      || |b.metadata.units| > MAX_PREFERENCE_UNITS || !DistinctIds(b.metadata.units)
      || exists ref :: ref in b.references && ref.index >= MAX_INDEX
  }

  /** Sealing fails only on size limits: the coverage rule always holds for what is sealed. */
  lemma SealFailsOnlyOnLimits(w: World, d: Device)
    requires Inv(w) && d in w.devices && w.devices[d].state.batch.Some?
    ensures Valid(NextPayload(w.devices[d].state)) <==> !TooLarge(w.devices[d].state)
  {
    assert DeviceInv(w.server, w.used, w.role, d, w.devices[d]);
    hide Chain, Covers, BlobsAgree, Plan, UploadsInv, Spells, DistinctIds, Ascending, SliceCount;
  }

  /** A pending unit can always be finished, however often it was sent before: nothing conflicts. */
  lemma ReplayFinishes(w: World, d: Device)
    requires Inv(w) && d in w.devices && w.devices[d].state.pending.Some?
    ensures var after := RunFrom(w, [(d, PutUnit(true)), (d, PutHead(true)), (d, Commit)]);
            d in after.devices && w.devices[d].state.batch.Some?
            && after.devices[d] == w.devices[d].(state := Committed(w.devices[d].state), phase := Idle)
  {
    var local := w.devices[d];
    var s := local.state;
    var first := Do(w, d, PutUnit(true));
    assert DeviceInv(w.server, w.used, w.role, d, local);
    SaveKeeps(w.server, w.used, w.role, d, local, UnitSaved);
    hide DeviceInv, Committed, SaveHead, AcceptsHead;
    StepKeepsInv(w, d, PutUnit(true));
    assert first.devices[d] == local.(phase := UnitSaved);
    var second := Do(first, d, PutHead(true));
    hide Save, Saved;
    if s.pending.value.head.Some? {
      SaveHeadKeeps(first.server, w.used, w.role, d, first.devices[d], HeadSaved);
    }
    assert Commits(second.devices[d]) by {
      PendingHasBatch(w, d);
    }
    ThreeSteps(w, d, PutUnit(true), PutHead(true), Commit);
  }

  lemma PendingHasBatch(w: World, d: Device)
    requires Inv(w) && d in w.devices && w.devices[d].state.pending.Some?
    ensures w.devices[d].state.batch.Some?
  {
    assert DeviceInv(w.server, w.used, w.role, d, w.devices[d]);
    hide Chain, Covers, BlobsAgree, Plan, UploadsInv, Spells, NextPayload, PendingFor, Valid;
  }

  lemma RunAppend(w: World, run: seq<(Device, Act)>, d: Device, act: Act)
    requires d in RunFrom(w, run).devices
    ensures RunFrom(w, run + [(d, act)]) == Do(RunFrom(w, run), d, act)
  {
    assert (run + [(d, act)])[..|run|] == run;
    hide Do;
  }

  lemma ThreeSteps(w: World, d: Device, a: Act, b: Act, c: Act)
    requires d in w.devices
    ensures d in Do(w, d, a).devices && d in Do(Do(w, d, a), d, b).devices
    ensures RunFrom(w, [(d, a), (d, b), (d, c)]) == Do(Do(Do(w, d, a), d, b), d, c)
  {
    KeepsDevices(w, d, a);
    KeepsDevices(Do(w, d, a), d, b);
    hide Do;
    assert RunFrom(w, []) == w;
    RunAppend(w, [], d, a);
    RunAppend(w, [(d, a)], d, b);
    RunAppend(w, [(d, a), (d, b)], d, c);
    assert [] + [(d, a)] == [(d, a)] && [(d, a)] + [(d, b)] == [(d, a), (d, b)];
    assert [(d, a), (d, b)] + [(d, c)] == [(d, a), (d, b), (d, c)];
  }

  lemma KeepsDevices(w: World, d: Device, act: Act)
    requires d in w.devices
    ensures Do(w, d, act).devices.Keys == w.devices.Keys && Do(w, d, act).role == w.role
  {
    hide Snapshots, BatchOf, Seals, SealedState, Committed, AcceptsHead;
  }

  // ------------------------------------------------------------- one sync pass

  const UNITS_PER_PASS := 10

  /** A unit takes five awaits: to begin a batch, to seal, to put the unit, to put its head, and to commit. */
  const AWAITS_PER_PASS := 50

  /** The first rows after a number, at most a page of them. */
  function PageAfter(history: seq<Message>, afterSeq: nat): (page: seq<Message>)
    ensures |page| <= PAGE
  {
    if history == [] then []
    else
      var page, last := PageAfter(history[..|history| - 1], afterSeq), history[|history| - 1];
      if last.number > afterSeq && |page| < PAGE then page + [last] else page
  }

  lemma {:induction false} PageRows(history: seq<Message>, afterSeq: nat)
    ensures forall row <- PageAfter(history, afterSeq) :: row in history
    ensures PageAfter(history, afterSeq) == [] ==> forall i :: 0 <= i < |history| ==> history[i].number <= afterSeq
  {
    if history != [] {
      var front, last := history[..|history| - 1], history[|history| - 1];
      assert history == front + [last];
      PageRows(front, afterSeq);
    }
  }

  lemma {:induction false} VisibleRows(role: Role, page: seq<Message>)
    ensures forall row <- Visible(role, page) :: row in page
  {
    if page != [] {
      assert page == page[..|page| - 1] + [page[|page| - 1]];
      VisibleRows(role, page[..|page| - 1]);
    }
  }

  lemma FreshId(used: set<Id>) returns (id: Id)
    ensures id !in used
  {
    if used == {} {
      id := 0;
    } else {
      var top := Greatest(used);
      id := top + 1;
    }
  }

  lemma {:induction false} Greatest(ids: set<Id>) returns (top: Id)
    requires ids != {}
    ensures top in ids && forall x: nat :: x in ids ==> x <= top
    decreases |ids|
  {
    var id :| id in ids;
    top := id;
    if ids != {id} {
      var rest := Greatest(ids - {id});
      assert forall x: nat :: x in ids ==> x == id || x in ids - {id};
      top := if rest < id then id else rest;
    }
  }

  // ------------------------------------------------------------ what is left to do

  /** What is left: rows behind the cursor, how far the marks are, and units of the batch. */
  datatype Left = Left(rows: nat, stage: nat, units: nat)

  predicate Less(a: Left, b: Left) {
    a.rows < b.rows || (a.rows == b.rows && (a.stage < b.stage || (a.stage == b.stage && a.units < b.units)))
  }

  function RowsLeft(cursor: nat, lastSeq: nat): nat {
    if cursor < lastSeq then lastSeq - cursor else 0
  }

  function UnitsLeft(b: Batch): nat {
    (if |b.references| < |b.chunks| then |b.chunks| - |b.references| else 0)
    + (if |b.metadata.units| < SliceCount(b.metadata) then SliceCount(b.metadata) - |b.metadata.units| else 0) + 1
  }

  /** A batch of rows brings the cursor forward, and a batch of the current marks the head; another batch
      only makes way for one of those. */
  function LeftOf(s: State, lastSeq: nat, marks: (seq<Id>, seq<Id>)): Left {
    var rows := RowsLeft(s.cursor, lastSeq);
    match s.batch
    case None => Left(rows, if rows == 0 && s.head.Some? && s.marks == Some(marks) then 0 else 2, 0)
    case Some(b) =>
      var last := RowsLeft(b.upperSeq, lastSeq) < rows || (rows == 0 && (b.metadata.hidden, b.metadata.gallery) == marks);
      Left(rows, if last then 1 else 3, UnitsLeft(b))
  }

  lemma BatchIsProgress(role: Role, s: State, page: seq<Message>, hidden: seq<Id>, gallery: seq<Id>, lastSeq: nat)
    requires Snapshots(role, s, page, hidden, gallery)
    requires if page == [] then lastSeq <= s.cursor else s.cursor < lastSeq
    ensures Less(LeftOf(s.(batch := Some(BatchOf(role, s, page, hidden, gallery))), lastSeq, (hidden, gallery)), LeftOf(s, lastSeq, (hidden, gallery)))
  {
    hide Visible, OmittedSafe, Plan, SliceCount, BlobsAgree;
  }

  lemma CommitIsProgress(w: World, d: Device, lastSeq: nat, marks: (seq<Id>, seq<Id>))
    requires Inv(w) && d in w.devices && w.devices[d].state.pending.Some? && w.devices[d].state.batch.Some?
    ensures var s := w.devices[d].state;
            Less(LeftOf(Committed(s), lastSeq, marks), LeftOf(s, lastSeq, marks)) && s.cursor <= Committed(s).cursor
  {
    assert DeviceInv(w.server, w.used, w.role, d, w.devices[d]);
    hide Chain, Covers, BlobsAgree, Plan, Spells, NextPayload, Valid, SliceCount, HeadInv, ServerHeadInv, UnitIs;
  }

  /** The device has every row from some number on, up to the last. */
  predicate Whole(history: seq<Message>, lastSeq: nat, cursor: nat) {
    |history| <= lastSeq && lastSeq - |history| <= cursor && Consecutive(Numbers(history), lastSeq - |history|)
  }

  lemma {:induction false} WholePage(history: seq<Message>, lastSeq: nat, cursor: nat)
    requires Whole(history, lastSeq, cursor)
    ensures var page := PageAfter(history, cursor);
            Consecutive(Numbers(page), cursor) && (|page| == RowsLeft(cursor, lastSeq) || |page| == PAGE < RowsLeft(cursor, lastSeq))
  {
    if history != [] {
      var front, last := history[..|history| - 1], history[|history| - 1];
      assert Numbers(front) == Numbers(history)[..|history| - 1];
      WholePage(front, lastSeq - 1, cursor);
      assert last.number == Numbers(history)[|history| - 1] == lastSeq;
      if last.number > cursor && |PageAfter(front, cursor)| < PAGE {
        assert Numbers(PageAfter(front, cursor) + [last]) == Numbers(PageAfter(front, cursor)) + [last.number];
      }
    }
  }

  /** What has been read of the history is what it holds. */
  predicate Knows(history: seq<Message>, seen: map<nat, Message>) {
    forall row <- history :: row.number in seen ==> seen[row.number] == row
  }

  lemma {:induction false} ByNumberRows(page: seq<Message>)
    ensures forall n <- ByNumber(page) :: ByNumber(page)[n] in page && ByNumber(page)[n].number == n
    ensures forall row <- page :: row.number in ByNumber(page)
  {
    if page != [] {
      assert page == page[..|page| - 1] + [page[|page| - 1]];
      ByNumberRows(page[..|page| - 1]);
    }
  }

  lemma KnowsPage(history: seq<Message>, lastSeq: nat, cursor: nat, seen: map<nat, Message>, page: seq<Message>)
    requires Whole(history, lastSeq, cursor) && Knows(history, seen) && forall row <- page :: row in history
    ensures Knows(history, seen + ByNumber(page))
  {
    ByNumberRows(page);
    hide ByNumber;
    forall row <- history | row.number in ByNumber(page)
      ensures ByNumber(page)[row.number] == row
    {
      var other := ByNumber(page)[row.number];
      var i, j :| 0 <= i < |history| && 0 <= j < |history| && history[i] == row && history[j] == other;
      assert Numbers(history)[i] == row.number && Numbers(history)[j] == other.number;
    }
  }

  datatype Outcome = UpToDate | Paused | Refused | Crashed | MoreToDo

  class ChamberBackup {
    const device: Device
    var world: World

    /** The actions of this pass so far, and how many awaits remain before the program dies. */
    ghost var run: seq<(Device, Act)>
    ghost var start: World
    var lifetime: nat

    ghost predicate Valid()
      reads this
    {
      device in world.devices && Inv(world) && world == RunFrom(start, run)
    }

    constructor (world: World, device: Device, lifetime: nat)
      requires device in world.devices && Inv(world)
      ensures Valid() && this.world == world && start == world && run == [] && this.device == device && this.lifetime == lifetime
    {
      this.world, this.device, this.lifetime := world, device, lifetime;
      start, run := world, [];
    }

    /** An await at which the program may die. */
    method Await() returns (alive: bool)
      modifies this`lifetime
      ensures lifetime <= old(lifetime) && (!alive ==> lifetime == 0)
      ensures old(lifetime) > 0 ==> alive && lifetime == old(lifetime) - 1
    {
      alive := lifetime > 0;
      lifetime := if alive then lifetime - 1 else 0;
    }

    ghost method Record(act: Act, before: World)
      requires device in before.devices && Inv(before) && before == RunFrom(start, run) && world == Do(before, device, act)
      modifies this`run
      ensures Valid() && run == old(run) + [(device, act)]
    {
      StepKeepsInv(before, device, act);
      KeepsDevices(before, device, act);
      RunAppend(start, run, device, act);
      run := run + [(device, act)];
      hide Inv, Do;
    }

    function State(): State
      reads this
      requires device in world.devices
    {
      world.devices[device].state
    }

    /** Where the history begins, and what has been read of it. */
    function Log(): (nat, map<nat, Message>)
      reads this
      requires device in world.devices
    {
      (world.devices[device].base, world.devices[device].seen)
    }

    /** Begins a batch; the marks or the rows are new. */
    method Begin(hidden: seq<Id>, gallery: seq<Id>, page: seq<Message>)
      requires Valid() && Snapshots(world.role, State(), page, hidden, gallery)
      modifies this`world, this`run
      ensures Valid() && old(run) < run && State().pending.None?
      ensures world.role == old(world).role && Log() == (old(Log()).0, old(Log()).1 + ByNumber(page))
      ensures State() == old(State()).(batch := Some(BatchOf(world.role, old(State()), page, hidden, gallery)))
    {
      hide Inv, RunFrom, Snapshots, BatchOf;
      ghost var before := world;
      world := Began(world, device, page, hidden, gallery);
      Record(Snapshot(page, hidden, gallery), before);
      SnapshotsForm(before.role, before.devices[device].state, page, hidden, gallery);
    }

    /** Makes the next unit durable before it is sent; a payload that is not valid is refused. */
    method SealNext() returns (sealed: bool)
      requires Valid() && State().batch.Some? && State().pending.None?
      modifies this`world, this`run
      ensures Valid() && old(run) <= run && (if sealed then State().pending.Some? else world == old(world))
      ensures !sealed ==> !ChamberHistoryRecord.Valid(NextPayload(State()))
      ensures world.role == old(world).role && Log() == old(Log()) && State() == old(State()).(revision := State().revision, pending := State().pending)
    {
      hide Inv, RunFrom, NextPayload, PendingFor;
      ghost var before := world;
      sealed := ValidChamberHistoryPayload(NextPayload(State()));
      if !sealed {
        return;
      }
      ghost var unused := FreshId(world.used);
      var id: Id :| id !in world.used;
      world := Sealed(world, device, id);
      Record(Seal(id), before);
    }

    /** Puts the pending unit; it may be stored though the answer is lost. */
    method Put() returns (answered: bool)
      requires Valid() && State().pending.Some?
      modifies this`world, this`run, this`lifetime
      ensures Valid() && old(run) <= run && State() == old(State()) && lifetime <= old(lifetime)
      ensures if answered then world.devices[device].phase == UnitSaved else lifetime == 0
      ensures old(lifetime) > 0 ==> answered && lifetime == old(lifetime) - 1
      ensures world.role == old(world).role && Log() == old(Log())
    {
      SaveIsAnswered(world, device);
      hide Inv, RunFrom, Save;
      ghost var before := world;
      var alive := Await();
      world := UnitPut(world, device, alive);
      answered := alive && Saved(world.server, State().pending.value.record);
      Record(PutUnit(alive), before);
    }

    method PutItsHead() returns (answered: bool)
      requires Valid() && PutsHead(world.devices[device])
      modifies this`world, this`run, this`lifetime
      ensures Valid() && old(run) <= run && State() == old(State()) && lifetime <= old(lifetime)
      ensures if answered then world.devices[device].phase == HeadSaved else lifetime == 0
      ensures old(lifetime) > 0 ==> answered && lifetime == old(lifetime) - 1
      ensures world.role == old(world).role && Log() == old(Log())
    {
      hide Inv, RunFrom, SaveHead, AcceptsHead;
      ghost var before := world;
      HeadIsAccepted(world, device);
      var alive := Await();
      answered := alive && AcceptsHead(world.server, State().pending.value.head.value);
      world := HeadPut(world, device, alive);
      Record(PutHead(alive), before);
    }

    method CommitUnit()
      requires Valid() && Commits(world.devices[device])
      modifies this`world, this`run
      ensures Valid() && old(run) < run && State() == Committed(old(State())) && world.role == old(world).role && Log() == old(Log())
    {
      hide Inv, RunFrom, Committed, Commits;
      ghost var before := world;
      world := UnitCommitted(world, device);
      Record(Commit, before);
    }

    /** The first part of a round: a batch to work on, if there is anything new. */
    method Prepare(history: seq<Message>, lastSeq: nat, hidden: seq<Id>, gallery: seq<Id>) returns (outcome: Outcome)
      requires Valid() && BlobsAgree(history)
      modifies this`world, this`run, this`lifetime
      ensures Valid() && old(run) <= run
      ensures outcome == MoreToDo ==> State().batch.Some?
      ensures outcome == Crashed ==> lifetime == 0
      ensures outcome == UpToDate ==> UpToDateWith(history, lastSeq, hidden, gallery)
      ensures outcome != Refused && world.role == old(world).role && State().cursor == old(State()).cursor && Log().0 == old(Log()).0
      ensures Whole(history, lastSeq, State().cursor) && Knows(history, old(Log()).1) ==> Knows(history, Log().1)
      ensures old(lifetime) > 0 ==> outcome != Crashed && lifetime >= old(lifetime) - 1
      ensures (world.role == Joiner ==> gallery == []) && Whole(history, lastSeq, State().cursor) ==> outcome != Paused
      ensures outcome == MoreToDo && Whole(history, lastSeq, State().cursor) ==>
                State() == old(State()) || Less(LeftOf(State(), lastSeq, (hidden, gallery)), LeftOf(old(State()), lastSeq, (hidden, gallery)))
    {
      if State().batch.Some? {
        return MoreToDo;
      }
      BatchBeforePending(world, device);
      hide Inv, RunFrom, BlobsAgree, Visible, PageAfter, LeftOf, BatchOf, Whole, Knows, ByNumber;
      var s := State();
      var page := PageAfter(history, s.cursor);
      PageRows(history, s.cursor);
      if Whole(history, lastSeq, s.cursor) {
        WholePage(history, lastSeq, s.cursor);
      }
      if page == [] {
        if s.cursor < lastSeq {
          return Paused;
        }
        if s.head.Some? && s.marks == Some((hidden, gallery)) {
          return UpToDate;
        }
      }
      if !Consecutive(Numbers(page), s.cursor) || (world.role == Joiner && gallery != []) {
        return Paused;
      }
      var alive := Await();
      if !alive {
        return Crashed;
      }
      VisibleAgrees(world.role, history, page);
      if Whole(history, lastSeq, s.cursor) {
        BatchIsProgress(world.role, s, page, hidden, gallery, lastSeq);
        if Knows(history, Log().1) {
          KnowsPage(history, lastSeq, s.cursor, Log().1, page);
        }
      }
      Begin(hidden, gallery, page);
      return MoreToDo;
    }

    /** Everything local is behind a published head, with the current marks. */
    predicate UpToDateWith(history: seq<Message>, lastSeq: nat, hidden: seq<Id>, gallery: seq<Id>)
      reads this
      requires device in world.devices
    {
      var s := State();
      && s.batch.None? && s.head.Some? && s.marks == Some((hidden, gallery)) && lastSeq <= s.cursor
      && forall i :: 0 <= i < |history| ==> history[i].number <= s.cursor
    }

    /** The second part of a round: one unit is made durable, sent and committed. */
    method Upload(ghost lastSeq: nat, ghost marks: (seq<Id>, seq<Id>)) returns (outcome: Outcome)
      requires Valid() && State().batch.Some?
      modifies this`world, this`run, this`lifetime
      ensures Valid() && old(run) <= run
      ensures outcome == MoreToDo || outcome == Refused || (outcome == Crashed && lifetime == 0)
      ensures outcome == Refused ==> State().batch.Some? && !ChamberHistoryRecord.Valid(NextPayload(State()))
      ensures world.role == old(world).role && old(State()).cursor <= State().cursor && Log() == old(Log())
      ensures old(lifetime) >= 4 ==> outcome != Crashed && lifetime >= old(lifetime) - 4
      ensures outcome == MoreToDo ==> Less(LeftOf(State(), lastSeq, marks), LeftOf(old(State()), lastSeq, marks))
    {
      hide Inv, RunFrom, NextPayload, Committed, Less;
      if State().pending.None? {
        var alive := Await();
        if !alive {
          return Crashed;
        }
        var sealed := SealNext();
        if !sealed {
          return Refused;
        }
      }
      var answered := Put();
      if !answered {
        return Crashed;
      }
      if State().pending.value.head.Some? {
        answered := PutItsHead();
        if !answered {
          return Crashed;
        }
      }
      var alive := Await();
      if !alive {
        return Crashed;
      }
      PendingHasBatch(world, device);
      CommitIsProgress(world, device, lastSeq, marks);
      CommitUnit();
      return MoreToDo;
    }

    /** One foreground pass, which may die at any await. Whatever happens, it has only taken steps of
        the machine, and the state it leaves satisfies the invariant. A pass that leaves more to do has
        left less than there was. */
    method Sync(history: seq<Message>, lastSeq: nat, hidden: seq<Id>, gallery: seq<Id>) returns (outcome: Outcome)
      requires Valid() && BlobsAgree(history)
      modifies this`world, this`run, this`lifetime
      ensures Valid() && old(run) <= run
      ensures outcome == Crashed ==> lifetime == 0
      ensures outcome == UpToDate ==> UpToDateWith(history, lastSeq, hidden, gallery)
      ensures outcome == Refused ==> State().batch.Some? && TooLarge(State())
      ensures world.role == old(world).role && old(State()).cursor <= State().cursor && Log().0 == old(Log()).0
      ensures Whole(history, lastSeq, old(State()).cursor) && Knows(history, old(Log()).1) ==> Knows(history, Log().1)
      ensures old(lifetime) >= AWAITS_PER_PASS ==> outcome != Crashed
      ensures (world.role == Joiner ==> gallery == []) && Whole(history, lastSeq, old(State()).cursor) ==> outcome != Paused
      ensures outcome == MoreToDo && Whole(history, lastSeq, old(State()).cursor) ==>
                Less(LeftOf(State(), lastSeq, (hidden, gallery)), LeftOf(old(State()), lastSeq, (hidden, gallery)))
    {
      hide Inv, RunFrom, LeftOf, BlobsAgree, NextPayload, Numbers, Consecutive, Knows;
      ghost var marks := (hidden, gallery);
      for units := 0 to UNITS_PER_PASS
        invariant Valid() && old(run) <= run && world.role == old(world).role && old(State()).cursor <= State().cursor
        invariant Log().0 == old(Log()).0
        invariant Whole(history, lastSeq, old(State()).cursor) && Knows(history, old(Log()).1) ==> Knows(history, Log().1)
        invariant old(lifetime) >= AWAITS_PER_PASS ==> lifetime >= old(lifetime) - 5 * units
        invariant Whole(history, lastSeq, old(State()).cursor) ==>
                    if units == 0 then State() == old(State()) else Less(LeftOf(State(), lastSeq, marks), LeftOf(old(State()), lastSeq, marks))
      {
        outcome := Prepare(history, lastSeq, hidden, gallery);
        if outcome != MoreToDo {
          return;
        }
        outcome := Upload(lastSeq, marks);
        if outcome == Refused {
          SealFailsOnlyOnLimits(world, device);
        }
        if outcome != MoreToDo {
          return;
        }
      }
      return MoreToDo;
    }

    /** Passes that are not interrupted come to an end: the whole history and the current marks are behind
        a published head, unless a payload exceeds the size limits. */
    method SyncAll(history: seq<Message>, lastSeq: nat, hidden: seq<Id>, gallery: seq<Id>) returns (outcome: Outcome)
      requires Valid() && BlobsAgree(history) && Whole(history, lastSeq, State().cursor) && (world.role == Joiner ==> gallery == [])
      modifies this`world, this`run, this`lifetime
      ensures Valid() && old(run) <= run
      ensures (outcome == UpToDate || outcome == Refused) && Log().0 == old(Log()).0 && (Knows(history, old(Log()).1) ==> Knows(history, Log().1))
      ensures outcome == UpToDate ==> UpToDateWith(history, lastSeq, hidden, gallery)
      ensures outcome == Refused ==> State().batch.Some? && TooLarge(State())
    {
      hide Inv, RunFrom, LeftOf, BlobsAgree, NextPayload, Numbers, Consecutive, TooLarge, Knows;
      ghost var marks := (hidden, gallery);
      outcome := MoreToDo;
      while outcome == MoreToDo
        invariant Valid() && old(run) <= run && world.role == old(world).role && old(State()).cursor <= State().cursor
        invariant Log().0 == old(Log()).0
        invariant Whole(history, lastSeq, old(State()).cursor) && Knows(history, old(Log()).1) ==> Knows(history, Log().1)
        invariant outcome == MoreToDo || outcome == UpToDate || outcome == Refused
        invariant outcome == UpToDate ==> UpToDateWith(history, lastSeq, hidden, gallery)
        invariant outcome == Refused ==> State().batch.Some? && TooLarge(State())
        decreases outcome == MoreToDo, LeftOf(State(), lastSeq, marks).rows, LeftOf(State(), lastSeq, marks).stage, LeftOf(State(), lastSeq, marks).units
      {
        lifetime := AWAITS_PER_PASS;
        outcome := Sync(history, lastSeq, hidden, gallery);
      }
    }
  }

  lemma BatchBeforePending(w: World, d: Device)
    requires Inv(w) && d in w.devices && w.devices[d].state.batch.None?
    ensures w.devices[d].state.pending.None?
  {
    if w.devices[d].state.pending.Some? {
      PendingHasBatch(w, d);
    }
  }

  lemma VisibleAgrees(role: Role, history: seq<Message>, page: seq<Message>)
    requires BlobsAgree(history) && forall row <- page :: row in history
    ensures BlobsAgree(Visible(role, page))
  {
    VisibleRows(role, page);
    hide Visible;
  }

  /** The server never answers a pending unit with a conflict. */
  lemma SaveIsAnswered(w: World, d: Device)
    requires Inv(w) && d in w.devices && w.devices[d].state.pending.Some?
    ensures Saved(Save(w.server, w.devices[d].state.pending.value.record), w.devices[d].state.pending.value.record)
    ensures w.devices[d].state.pending.value.head.Some? ==> w.devices[d].state.batch.Some?
  {
    assert DeviceInv(w.server, w.used, w.role, d, w.devices[d]);
    PendingIsSafe(w, d);
    PendingHasBatch(w, d);
    hide DeviceInv;
  }

  lemma SnapshotsForm(role: Role, s: State, page: seq<Message>, hidden: seq<Id>, gallery: seq<Id>)
    requires Snapshots(role, s, page, hidden, gallery)
    ensures s.batch.None? && s.pending.None?
  {
  }

  lemma HeadIsAccepted(w: World, d: Device)
    requires Inv(w) && d in w.devices && PutsHead(w.devices[d])
    ensures AcceptsHead(w.server, w.devices[d].state.pending.value.head.value)
  {
    assert DeviceInv(w.server, w.used, w.role, d, w.devices[d]);
    SavedWhenStarted(w, d);
    PendingHeadIsChained(w.server, w.used, w.role, d, w.devices[d]);
    hide DeviceInv, AcceptsHead;
  }
}
