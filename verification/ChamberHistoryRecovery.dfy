/** The recovery walker of src/lib/chamber-history-recovery.ts: it chooses the units to ask for, and
    follows published heads back through their chains, with a checkpoint after every record. */
module ChamberHistoryRecovery {
  import opened ChamberHistory
  import opened ChamberHistoryRecord
  import opened Wrappers

  const LIST_PAGE := 100
  const MAX_UNITS := 50_000
  const MAX_MARKS := 20_000

  // -------------------------------------------------------- choosing the units

  datatype Unit = Unit(id: Id, device: Device, revision: nat, digest: Digest)

  function UnitOf(r: Record): Unit {
    Unit(r.id, r.device, r.revision, Hash(r))
  }

  /** The revision of the last head of a device, as a JavaScript Map of the heads has it. */
  function HeadRevision(heads: seq<Head>, d: Device): nat {
    if heads == [] then 0
    else
      var last := heads[|heads| - 1];
      if last.device == d then last.revision else HeadRevision(heads[..|heads| - 1], d)
  }

  function Selected(log: seq<Record>, heads: seq<Head>): seq<Unit> {
    if log == [] then []
    else
      var front, last := log[..|log| - 1], log[|log| - 1];
      if last.revision <= HeadRevision(heads, last.device) then Selected(front, heads) + [UnitOf(last)] else Selected(front, heads)
  }

  lemma SelectedAppend(log: seq<Record>, last: Record, heads: seq<Head>)
    ensures Selected(log + [last], heads)
         == if last.revision <= HeadRevision(heads, last.device) then Selected(log, heads) + [UnitOf(last)] else Selected(log, heads)
  {
    assert (log + [last])[..|log|] == log;
  }

  lemma {:induction false} SelectedGrows(log: seq<Record>, heads: seq<Head>, k: nat)
    requires k <= |log|
    ensures |Selected(log[..k], heads)| <= |Selected(log, heads)|
    decreases |log|
  {
    if k == |log| {
      assert log[..k] == log;
    } else {
      var front := log[..|log| - 1];
      SelectedGrows(front, heads, k);
      assert front[..k] == log[..k];
    }
  }

  lemma {:induction false} SelectedUnits(log: seq<Record>, heads: seq<Head>)
    ensures forall r :: r in log && r.revision <= HeadRevision(heads, r.device) ==> UnitOf(r) in Selected(log, heads)
    ensures forall u :: u in Selected(log, heads) ==> exists r :: r in log && u == UnitOf(r) && r.revision <= HeadRevision(heads, r.device)
  {
    if log != [] {
      var front, last := log[..|log| - 1], log[|log| - 1];
      assert log == front + [last];
      SelectedUnits(front, heads);
    }
  }

  /** Reads the list page by page; too many units are refused. */
  method SelectUnits(log: seq<Record>, heads: seq<Head>) returns (units: Option<seq<Unit>>)
    ensures units == if |Selected(log, heads)| > MAX_UNITS then None else Some(Selected(log, heads))
  {
    hide Selected, HeadRevision;
    var chosen: seq<Unit> := [];
    var after := 0;
    NothingSelected(heads);
    while true
      invariant after <= |log| && chosen == Selected(log[..after], heads) && |chosen| <= MAX_UNITS
      decreases |log| - after
    {
      var count := if |log| - after < LIST_PAGE then |log| - after else LIST_PAGE;
      var rows := log[after..after + count];
      for i := 0 to |rows|
        invariant chosen == Selected(log[..after + i], heads) && |chosen| <= MAX_UNITS
      {
        assert log[..after + i + 1] == log[..after + i] + [rows[i]];
        SelectedAppend(log[..after + i], rows[i], heads);
        if rows[i].revision <= HeadRevision(heads, rows[i].device) {
          chosen := chosen + [UnitOf(rows[i])];
        }
        if |chosen| > MAX_UNITS {
          SelectedGrows(log, heads, after + i + 1);
          return None;
        }
      }
      after := after + count;
      if count < LIST_PAGE {
        break;
      }
    }
    assert log[..after] == log;
    return Some(chosen);
  }

  lemma NothingSelected(heads: seq<Head>)
    ensures Selected([], heads) == []
  {
  }

  function Approved(units: seq<Unit>): map<Id, Unit> {
    if units == [] then map[] else Approved(units[..|units| - 1])[units[|units| - 1].id := units[|units| - 1]]
  }

  lemma {:induction false} ApprovedUnits(units: seq<Unit>)
    ensures |Approved(units)| <= |units|
    ensures forall id <- Approved(units) :: Approved(units)[id] in units && Approved(units)[id].id == id
    ensures forall u <- units :: u.id in Approved(units)
  {
    if units != [] {
      var front, last := units[..|units| - 1], units[|units| - 1];
      assert units == front + [last];
      ApprovedUnits(front);
      assert Approved(units).Keys == Approved(front).Keys + {last.id};
    }
  }

  // ----------------------------------------------------------------- the chain

  /** The records from a link back, newest first. */
  function Records(link: Option<Link>): seq<Record>
    decreases link
  {
    match link
    case None => []
    case Some(l) =>
      var r := l.digest.record;
      [r] + if r.payload.Messages? then Records(r.payload.previous) else []
  }

  predicate DistinctDevices(heads: seq<Head>) {
    forall i, j :: 0 <= i < j < |heads| ==> heads[i].device != heads[j].device
  }

  /** The rest of a chain, which may be at its end. */
  ghost predicate Rest(units: Units, role: Role, base: nat, device: Device, next: Option<Link>, upper: nat, bound: nat) {
    match next
    case None => upper == base
    case Some(link) => Chain(units, role, base, device, link, upper, bound)
  }

  lemma RestStep(units: Units, role: Role, base: nat, device: Device, link: Link, upper: nat, bound: nat)
    requires Chain(units, role, base, device, link, upper, bound)
    ensures var r := link.digest.record;
            && r.payload.Messages? && Sound(units, role, r) && link.id in units && units[link.id] == r && r.id == link.id && r.device == device && r.revision <= bound
            && r.payload.upperSeq == upper && Records(Some(link)) == [r] + Records(r.payload.previous)
            && Rest(units, role, base, device, r.payload.previous, r.payload.afterSeq, if r.revision > 0 then r.revision - 1 else 0)
            && (r.payload.previous.Some? ==> r.revision > 0)
  {
    hide Covers;
  }

  predicate Accounts(r: Record, n: nat) {
    r.payload.Messages? && (n in Numbers(r.payload.rows) || n in r.payload.omitted)
  }

  /** A chain covers every number from the base to the head: each is a row, or omitted. */
  lemma {:induction false} ChainCovers(units: Units, role: Role, base: nat, device: Device, next: Option<Link>, upper: nat, bound: nat, n: nat)
    requires Rest(units, role, base, device, next, upper, bound)
    ensures base <= upper
    ensures base < n <= upper ==> exists r :: r in Records(next) && Accounts(r, n)
    decreases next
  {
    if next.Some? {
      var r := next.value.digest.record;
      RestStep(units, role, base, device, next.value, upper, bound);
      ChainCovers(units, role, base, device, r.payload.previous, r.payload.afterSeq, if r.revision > 0 then r.revision - 1 else 0, n);
      hide Chain, Records;
      if base < n <= r.payload.afterSeq {
        var later :| later in Records(r.payload.previous) && Accounts(later, n);
        assert later in Records(next);
      } else if r.payload.afterSeq < n <= upper {
        assert r in Records(next);
      }
    }
  }

  // ------------------------------------------------------------------ restored

  /** What is on the recovering device's disk. */
  datatype Store = Store(rows: set<Message>, parts: set<Chunk>, hidden: set<Id>, gallery: set<Id>)

  predicate Within(store: Store, more: Store) {
    store.rows <= more.rows && store.parts <= more.parts && store.hidden <= more.hidden && store.gallery <= more.gallery
  }

  /** A chat recovery leaves the gallery safe alone. */
  predicate InScope(chatOnly: bool, row: Message) {
    !(chatOnly && row.safe)
  }

  predicate HasParts(store: Store, m: Manifest) {
    forall i :: 0 <= i < |m.parts| ==> Chunk(m.blob, i, m.parts[i]) in store.parts
  }

  predicate HasMedia(store: Store, row: Message) {
    forall j :: 0 <= j < |row.manifests| ==> HasParts(store, row.manifests[j])
  }

  predicate HasMarks(units: Units, store: Store, chatOnly: bool, unit: Id) {
    && unit in units && units[unit].payload.Preferences?
    && (forall id <- units[unit].payload.hidden :: id in store.hidden)
    && (!chatOnly ==> forall id <- units[unit].payload.gallery :: id in store.gallery)
  }

  /** The rows of a record are on disk with all their media, and so are the marks it cites. */
  predicate Restored(units: Units, chatOnly: bool, r: Record, store: Store) {
    r.payload.Messages?
    && (forall i :: 0 <= i < |r.payload.rows| && InScope(chatOnly, r.payload.rows[i]) ==>
          r.payload.rows[i] in store.rows && HasMedia(store, r.payload.rows[i]))
    && (forall i :: 0 <= i < |r.payload.preferences| ==> HasMarks(units, store, chatOnly, r.payload.preferences[i]))
  }

  lemma RestoredStays(units: Units, chatOnly: bool, r: Record, store: Store, more: Store)
    requires Restored(units, chatOnly, r, store) && Within(store, more)
    ensures Restored(units, chatOnly, r, more)
  {
  }

  /** Every hidden-message mark that the server holds. */
  function AllMarks(units: Units): set<Id> {
    set unit, id | unit in units && units[unit].payload.Preferences? && id in units[unit].payload.hidden :: id
  }

  lemma SmallerSet<T>(a: set<T>, b: set<T>)
    requires a <= b
    ensures |a| <= |b|
  {
    assert b == a + (b - a);
  }

  // ------------------------------------------------------------------- request

  /** What is asked for, and the units as they were listed and as the server has them now. */
  datatype Request = Request(chatOnly: bool, role: Role, heads: seq<Head>, approved: map<Id, Unit>, unitCount: nat)

  ghost predicate Asked(request: Request, bases: map<Device, nat>, listed: Units, units: Units) {
    && DistinctDevices(request.heads) && Grows(listed, units) && |request.approved| <= request.unitCount
    && (forall h <- request.heads :: h.device in bases
          && Chain(listed, request.role, bases[h.device], h.device, LinkOf(h), h.upperSeq, h.revision))
    && (forall h <- request.heads, id <- listed :: listed[id].device == h.device && listed[id].revision <= h.revision ==>
          id in request.approved && request.approved[id] == UnitOf(listed[id]))
  }

  lemma HeadRevisionIs(heads: seq<Head>, h: Head)
    requires DistinctDevices(heads) && h in heads
    ensures HeadRevision(heads, h.device) == h.revision
    decreases |heads|
  {
    var front, last := heads[..|heads| - 1], heads[|heads| - 1];
    if last.device == h.device {
      var i :| 0 <= i < |heads| && heads[i] == h;
    } else {
      assert heads == front + [last];
      HeadRevisionIs(front, h);
    }
  }

  /** Every cited unit has a smaller revision, so the selection by revision has whole chains. */
  lemma SelectionIsEnough(log: seq<Record>, listed: Units, heads: seq<Head>, bases: map<Device, nat>, role: Role, chatOnly: bool)
    requires DistinctDevices(heads)
    requires forall id <- listed :: listed[id] in log && listed[id].id == id
    requires forall r :: r in log ==> r.id in listed && listed[r.id] == r
    requires forall h <- heads :: h.device in bases
                                  && Chain(listed, role, bases[h.device], h.device, LinkOf(h), h.upperSeq, h.revision)
    ensures var units := Selected(log, heads); Asked(Request(chatOnly, role, heads, Approved(units), |units|), bases, listed, listed)
  {
    hide Chain, Selected, Approved;
    var units := Selected(log, heads);
    SelectedUnits(log, heads);
    ApprovedUnits(units);
    forall h <- heads, id <- listed | listed[id].device == h.device && listed[id].revision <= h.revision
      ensures id in Approved(units) && Approved(units)[id] == UnitOf(listed[id])
    {
      HeadRevisionIs(heads, h);
      assert UnitOf(listed[id]) in units;
      var u := Approved(units)[id];
      var r :| r in log && u == UnitOf(r);
    }
  }

  // ---------------------------------------------------------------- checkpoint

  datatype Position = Position(headId: Id, next: Option<Link>, upper: nat)

  datatype Checkpoint = Checkpoint(doneHeads: seq<Id>, current: Option<Position>, count: nat, imported: nat)

  const FRESH := Checkpoint([], None, 0, 0)

  ghost predicate HeadRestored(units: Units, chatOnly: bool, h: Head, store: Store) {
    forall r :: r in Records(Some(LinkOf(h))) ==> Restored(units, chatOnly, r, store)
  }

  /** The rest of the chain is sound, and every record of the head is ahead or restored. */
  ghost predicate Walking(request: Request, bases: map<Device, nat>, units: Units, h: Head, next: Option<Link>, upper: nat, store: Store) {
    && h.device in bases && Rest(units, request.role, bases[h.device], h.device, next, upper, h.revision)
    && forall r :: r in Records(Some(LinkOf(h))) ==> r in Records(next) || Restored(units, request.chatOnly, r, store)
  }

  /** Record `id` is behind the walk. */
  predicate Behind(request: Request, units: Units, cp: Checkpoint, i: nat, id: Id)
    requires i < |request.heads|
  {
    var h := request.heads[i];
    && id in units && units[id].device == h.device
    && (h.id in cp.doneHeads
        || (cp.current.Some? && cp.current.value.headId == h.id
            && (cp.current.value.next.Some? ==> cp.current.value.next.value.digest.record.revision < units[id].revision)))
  }

  ghost predicate ProgressInv(request: Request, bases: map<Device, nat>, units: Units, store: Store, cp: Checkpoint, visited: set<Id>) {
    && (forall h <- request.heads | h.id in cp.doneHeads :: HeadRestored(units, request.chatOnly, h, store))
    && (cp.current.Some? ==>
          exists i :: 0 <= i < |request.heads| && request.heads[i].id == cp.current.value.headId
                   && cp.current.value.headId !in cp.doneHeads && (forall j :: 0 <= j < i ==> request.heads[j].id in cp.doneHeads)
                   && Walking(request, bases, units, request.heads[i], cp.current.value.next, cp.current.value.upper, store))
    && cp.count == |visited| && visited <= request.approved.Keys
    && (forall id <- visited :: exists i :: 0 <= i < |request.heads| && Behind(request, units, cp, i, id))
  }

  lemma ProgressStays(request: Request, bases: map<Device, nat>, units: Units, store: Store, more: Store, cp: Checkpoint, visited: set<Id>)
    requires ProgressInv(request, bases, units, store, cp, visited) && Within(store, more)
    ensures ProgressInv(request, bases, units, more, cp, visited)
  {
    hide Restored, Rest, Within, Behind;
    forall r: Record | Restored(units, request.chatOnly, r, store)
      ensures Restored(units, request.chatOnly, r, more)
    {
      RestoredStays(units, request.chatOnly, r, store, more);
    }
    if cp.current.Some? {
      var i :| 0 <= i < |request.heads| && request.heads[i].id == cp.current.value.headId
            && cp.current.value.headId !in cp.doneHeads && (forall j :: 0 <= j < i ==> request.heads[j].id in cp.doneHeads)
            && Walking(request, bases, units, request.heads[i], cp.current.value.next, cp.current.value.upper, store);
      assert Walking(request, bases, units, request.heads[i], cp.current.value.next, cp.current.value.upper, more);
    }
  }

  // ------------------------------------------------------------- walking back

  /** What the chain promises of the record that comes next. */
  lemma NextRecord(request: Request, bases: map<Device, nat>, listed: Units, units: Units, i: nat, link: Link, upper: nat)
    requires Asked(request, bases, listed, units) && i < |request.heads|
    requires request.heads[i].device in bases
    requires Chain(listed, request.role, bases[request.heads[i].device], request.heads[i].device, link, upper, request.heads[i].revision)
    ensures var r := link.digest.record;
            && link.id in request.approved && link.id in units && units[link.id] == r && r.id == link.id && link.id in listed && listed[link.id] == r
            && UnitOf(r) == request.approved[link.id] && r.device == request.heads[i].device
            && Sound(units, request.role, r) && Sound(listed, request.role, r) && r.payload.upperSeq == upper
            && (forall id <- r.payload.preferences :: id in listed && id in units && id in request.approved && request.approved[id] == UnitOf(units[id]))
            && (forall ref <- r.payload.attachments ::
                  ref.unit in units && ref.unit in request.approved && request.approved[ref.unit] == UnitOf(units[ref.unit]))
  {
    var h, r := request.heads[i], link.digest.record;
    RestStep(listed, request.role, bases[h.device], h.device, link, upper, h.revision);
    SoundGrows(listed, units, request.role, r);
    hide Chain, Covers, Provides, Records, Rest;
    assert h in request.heads;
    forall id | Cites(listed, r, id)
      ensures id in units && id in request.approved && request.approved[id] == UnitOf(units[id])
    {
    }
  }

  /** No record is met twice. */
  lemma NotBehind(request: Request, bases: map<Device, nat>, listed: Units, store: Store, cp: Checkpoint, visited: set<Id>, i: nat, link: Link)
    requires ProgressInv(request, bases, listed, store, cp, visited) && DistinctDevices(request.heads) && i < |request.heads|
    requires request.heads[i].id !in cp.doneHeads
    requires link.id in listed && listed[link.id] == link.digest.record && listed[link.id].device == request.heads[i].device
    requires cp.current.Some? ==> cp.current.value.next == Some(link)
    ensures link.id !in visited
  {
    hide HeadRestored, Walking;
    forall k | 0 <= k < |request.heads|
      ensures !Behind(request, listed, cp, k, link.id)
    {
    }
  }

  lemma Advanced(request: Request, bases: map<Device, nat>, listed: Units, store: Store, cp: Checkpoint, visited: set<Id>, i: nat, link: Link, upper: nat, imported: nat)
    requires ProgressInv(request, bases, listed, store, cp, visited) && DistinctDevices(request.heads) && i < |request.heads|
    requires request.heads[i].id !in cp.doneHeads && forall j :: 0 <= j < i ==> request.heads[j].id in cp.doneHeads
    requires cp.current.None? || cp.current == Some(Position(request.heads[i].id, Some(link), upper))
    requires Walking(request, bases, listed, request.heads[i], Some(link), upper, store)
    requires link.id in request.approved && link.id !in visited && Restored(listed, request.chatOnly, link.digest.record, store)
    ensures var p := link.digest.record.payload;
            var after := cp.(current := Some(Position(request.heads[i].id, p.previous, p.afterSeq)), count := cp.count + 1, imported := imported);
            && ProgressInv(request, bases, listed, store, after, visited + {link.id}) && cp.count + 1 <= |request.approved|
            && Walking(request, bases, listed, request.heads[i], p.previous, p.afterSeq, store)
  {
    var h, r := request.heads[i], link.digest.record;
    var after := cp.(current := Some(Position(h.id, r.payload.previous, r.payload.afterSeq)), count := cp.count + 1, imported := imported);
    WalksOn(request, bases, listed, h, link, upper, store);
    hide HeadRestored, Walking, Restored;
    assert Behind(request, listed, after, i, link.id);
    SmallerSet(visited + {link.id}, request.approved.Keys);
    hide Behind;
    forall id <- visited
      ensures exists k :: 0 <= k < |request.heads| && Behind(request, listed, after, k, id)
    {
      var k :| 0 <= k < |request.heads| && Behind(request, listed, cp, k, id);
      StillBehind(request, listed, cp, after, i, k, id, link);
    }
  }

  lemma WalksOn(request: Request, bases: map<Device, nat>, listed: Units, h: Head, link: Link, upper: nat, store: Store)
    requires Walking(request, bases, listed, h, Some(link), upper, store) && Restored(listed, request.chatOnly, link.digest.record, store)
    ensures var r := link.digest.record;
            && r.payload.Messages? && Walking(request, bases, listed, h, r.payload.previous, r.payload.afterSeq, store)
            && link.id in listed && listed[link.id] == r && r.device == h.device
            && (r.payload.previous.Some? ==> r.payload.previous.value.digest.record.revision < r.revision)
  {
    var r := link.digest.record;
    RestStep(listed, request.role, bases[h.device], h.device, link, upper, h.revision);
    if r.payload.previous.Some? {
      ChainGrows(listed, listed, request.role, bases[h.device], h.device, r.payload.previous.value, r.payload.afterSeq, r.revision - 1, h.revision);
      RestStep(listed, request.role, bases[h.device], h.device, r.payload.previous.value, r.payload.afterSeq, r.revision - 1);
    }
    hide Chain, Records, Sound, Restored, Covers;
  }

  lemma StillWalking(request: Request, bases: map<Device, nat>, listed: Units, h: Head, next: Option<Link>, upper: nat, store: Store, more: Store)
    requires Walking(request, bases, listed, h, next, upper, store) && Within(store, more)
    ensures Walking(request, bases, listed, h, next, upper, more)
  {
    hide Restored, Rest, Within, Records;
    forall r: Record | Restored(listed, request.chatOnly, r, store)
      ensures Restored(listed, request.chatOnly, r, more)
    {
      RestoredStays(listed, request.chatOnly, r, store, more);
    }
  }

  lemma RestoredAsListed(listed: Units, units: Units, request: Request, r: Record, store: Store)
    requires Restored(units, request.chatOnly, r, store) && Grows(listed, units) && Sound(listed, request.role, r)
    ensures Restored(listed, request.chatOnly, r, store)
  {
    hide Covers, HasMedia, Provides;
    forall i | 0 <= i < |r.payload.preferences|
      ensures HasMarks(listed, store, request.chatOnly, r.payload.preferences[i])
    {
      assert Cites(listed, r, r.payload.preferences[i]);
    }
  }

  lemma RecordsStep(link: Link)
    requires link.digest.record.payload.Messages?
    ensures |Records(link.digest.record.payload.previous)| < |Records(Some(link))|
  {
  }

  /** The record that the walk comes to: approved, stored, sound, and not met before. */
  lemma WalkedRecord(request: Request, bases: map<Device, nat>, listed: Units, units: Units, store: Store, cp: Checkpoint, visited: set<Id>,
                     i: nat, link: Link, upper: nat)
    requires Asked(request, bases, listed, units) && i < |request.heads| && ProgressInv(request, bases, listed, store, cp, visited)
    requires request.heads[i].id !in cp.doneHeads && (cp.current.Some? ==> cp.current.value.next == Some(link))
    requires Walking(request, bases, listed, request.heads[i], Some(link), upper, store)
    ensures var r := link.digest.record;
            && link.id in request.approved && link.id in units && units[link.id] == r && r.id == link.id && UnitOf(r) == request.approved[link.id]
            && r.device == request.heads[i].device && r.payload.Messages? && r.payload.upperSeq == upper && (r.payload.omitted != [] ==> request.role == Joiner)
            && Sound(units, request.role, r) && Sound(listed, request.role, r)
            && (forall id <- r.payload.preferences :: id in units && id in request.approved && request.approved[id] == UnitOf(units[id]))
            && (forall ref <- r.payload.attachments ::
                  ref.unit in units && ref.unit in request.approved && request.approved[ref.unit] == UnitOf(units[ref.unit]))
    ensures link.id !in visited && Grows(listed, units) && DistinctDevices(request.heads) && |request.approved| <= request.unitCount
  {
    assert Chain(listed, request.role, bases[request.heads[i].device], request.heads[i].device, link, upper, request.heads[i].revision);
    NextRecord(request, bases, listed, units, i, link, upper);
    hide Chain, Walking, ProgressInv, Covers, Provides;
    NotBehind(request, bases, listed, store, cp, visited, i, link);
  }

  lemma WalkStarts(request: Request, bases: map<Device, nat>, listed: Units, units: Units, store: Store, cp: Checkpoint, visited: set<Id>, i: nat)
    requires Asked(request, bases, listed, units) && i < |request.heads| && ProgressInv(request, bases, listed, store, cp, visited)
    requires request.heads[i].id !in cp.doneHeads && forall j :: 0 <= j < i ==> request.heads[j].id in cp.doneHeads
    ensures match cp.current
            case None => Walking(request, bases, listed, request.heads[i], Some(LinkOf(request.heads[i])), request.heads[i].upperSeq, store)
            case Some(p) => p.headId == request.heads[i].id && Walking(request, bases, listed, request.heads[i], p.next, p.upper, store)
  {
    assert request.heads[i] in request.heads;
    hide Chain, HeadRestored, Behind, Records, Restored;
    if cp.current.Some? {
      hide Walking;
      var k :| 0 <= k < |request.heads| && request.heads[k].id == cp.current.value.headId
            && cp.current.value.headId !in cp.doneHeads && (forall j :: 0 <= j < k ==> request.heads[j].id in cp.doneHeads)
            && Walking(request, bases, listed, request.heads[k], cp.current.value.next, cp.current.value.upper, store);
      assert k == i;
    }
  }

  lemma FreshProgress(request: Request, bases: map<Device, nat>, listed: Units, store: Store)
    ensures ProgressInv(request, bases, listed, store, FRESH, {})
  {
  }

  lemma AllHeadsRestored(request: Request, bases: map<Device, nat>, listed: Units, store: Store, cp: Checkpoint, visited: set<Id>)
    requires ProgressInv(request, bases, listed, store, cp, visited)
    requires forall j :: 0 <= j < |request.heads| ==> request.heads[j].id in cp.doneHeads
    ensures forall j :: 0 <= j < |request.heads| ==> HeadRestored(listed, request.chatOnly, request.heads[j], store)
  {
    assert forall j :: 0 <= j < |request.heads| ==> request.heads[j] in request.heads;
    hide HeadRestored, Walking;
  }

  lemma StillBehind(request: Request, listed: Units, cp: Checkpoint, after: Checkpoint, i: nat, k: nat, id: Id, link: Link)
    requires i < |request.heads| && k < |request.heads| && Behind(request, listed, cp, k, id)
    requires cp.doneHeads == after.doneHeads && after.current.Some? && after.current.value.headId == request.heads[i].id
    requires cp.current.Some? ==> cp.current.value.headId == request.heads[i].id && cp.current.value.next == Some(link)
    requires after.current.value.next.Some? ==> after.current.value.next.value.digest.record.revision < link.digest.record.revision
    ensures Behind(request, listed, after, k, id)
  {
  }

  lemma HeadDone(request: Request, bases: map<Device, nat>, listed: Units, store: Store, cp: Checkpoint, visited: set<Id>, i: nat, upper: nat)
    requires ProgressInv(request, bases, listed, store, cp, visited) && i < |request.heads| && DistinctHeads(request.heads)
    requires cp.current == Some(Position(request.heads[i].id, None, upper)) && Walking(request, bases, listed, request.heads[i], None, upper, store)
    ensures ProgressInv(request, bases, listed, store, cp.(doneHeads := cp.doneHeads + [request.heads[i].id], current := None), visited)
  {
    hide Restored, Rest;
    var after := cp.(doneHeads := cp.doneHeads + [request.heads[i].id], current := None);
    assert HeadRestored(listed, request.chatOnly, request.heads[i], store);
    forall id <- visited
      ensures exists k :: 0 <= k < |request.heads| && Behind(request, listed, after, k, id)
    {
      var k :| 0 <= k < |request.heads| && Behind(request, listed, cp, k, id);
      assert Behind(request, listed, after, k, id);
    }
  }

  predicate DistinctHeads(heads: seq<Head>) {
    forall i, j :: 0 <= i < j < |heads| ==> heads[i].id != heads[j].id
  }

  lemma HeadsAreDistinct(request: Request, bases: map<Device, nat>, listed: Units, units: Units)
    requires Asked(request, bases, listed, units)
    ensures DistinctHeads(request.heads)
  {
    hide Sound;
    forall i, j | 0 <= i < j < |request.heads|
      ensures request.heads[i].id != request.heads[j].id
    {
      assert request.heads[i] in request.heads && request.heads[j] in request.heads;
    }
  }

  datatype Opened = Dead | Wrong | Found(record: Record)

  datatype Step = Went | Died | TooMany | Failure

  datatype Ending = Done(imported: nat) | Interrupted | Failed

  class Recovery {
    const request: Request
    const units: Units
    ghost const bases: map<Device, nat>
    ghost const listed: Units

    /** Durable. */
    var store: Store
    var progress: Option<Checkpoint>

    /** The records behind the checkpoint, and how many awaits remain before the program dies. */
    ghost var visited: set<Id>
    var lifetime: nat

    /** The number of rows when this recovery began, of those at the last checkpoint, and of those that
        dead processes have stored without counting them. */
    ghost var origin: nat
    ghost var atCheckpoint: nat
    ghost var missed: nat

    ghost predicate Valid()
      reads this
    {
      && Asked(request, bases, listed, units)
      && (if progress.Some? then progress.value.imported else 0) + missed + origin == atCheckpoint <= |store.rows|
      && (progress.None? ==> visited == {})
      && (progress.Some? ==> ProgressInv(request, bases, listed, store, progress.value, visited))
    }

    /** A process that starts, with what an earlier one has left on disk. */
    constructor (request: Request, units: Units, store: Store, lifetime: nat, ghost bases: map<Device, nat>, ghost listed: Units)
      requires Asked(request, bases, listed, units)
      ensures Valid() && this.request == request && this.units == units && this.store == store && progress.None?
      ensures this.bases == bases && this.lifetime == lifetime
      ensures origin == |store.rows| && Uncounted() == 0
    {
      this.request, this.units, this.store, this.lifetime, this.bases, this.listed := request, units, store, lifetime, bases, listed;
      progress, visited := None, {};
      origin, atCheckpoint, missed := |store.rows|, |store.rows|, 0;
    }

    /** The rows that no later process will count: those missed before, and those that this one has stored
        since the last checkpoint and cannot count if it is dead. */
    ghost function Uncounted(): nat
      requires atCheckpoint <= |store.rows|
      reads this
    {
      missed + (|store.rows| - atCheckpoint)
    }

    /** A crash forgets everything but the disk; a later process has its own time. */
    method Restart(newLifetime: nat)
      requires Valid()
      modifies this`lifetime
      ensures Valid() && lifetime == newLifetime && Uncounted() == old(Uncounted())
    {
      lifetime := newLifetime;
    }

    method Await() returns (alive: bool)
      modifies this`lifetime
      ensures lifetime <= old(lifetime) && (!alive ==> lifetime == 0)
    {
      alive := lifetime > 0;
      lifetime := if alive then lifetime - 1 else 0;
    }

    /** Fetches a unit that was approved, and checks that it is the one that was listed. */
    method Open(id: Id) returns (found: Opened)
      modifies this`lifetime
      ensures lifetime <= old(lifetime) && (found.Dead? ==> lifetime == 0)
      ensures !found.Dead? ==>
                found == if id in request.approved && id in units && UnitOf(units[id]) == request.approved[id] && units[id].id == id
                          then Found(units[id]) else Wrong
    {
      var alive := Await();
      if !alive {
        return Dead;
      }
      if id !in request.approved || id !in units {
        return Wrong;
      }
      var record := units[id];
      if record.id != id || record.revision != request.approved[id].revision || UnitOf(record) != request.approved[id] {
        return Wrong;
      }
      return Found(record);
    }

    /** The marks of one cited unit. */
    method MergeMarks(r: Record, id: Id) returns (step: Step)
      requires Cites(units, r, id) && units[id].payload.Preferences? && (request.role == Joiner ==> units[id].payload.gallery == [])
      requires id in request.approved && request.approved[id] == UnitOf(units[id])
      modifies this`store, this`lifetime
      ensures lifetime <= old(lifetime) && (step == Died ==> lifetime == 0) && Within(old(store), store) && store.rows == old(store).rows
      ensures store.hidden <= old(store).hidden + AllMarks(units)
      ensures step == Went ==> HasMarks(units, store, request.chatOnly, id)
      ensures step != Failure && (step == TooMany ==> |old(store).hidden + AllMarks(units)| > MAX_MARKS)
    {
      var found := Open(id);
      if found.Dead? {
        return Died;
      }
      var marks := found.record.payload;
      var hidden := store.hidden + (set mark | mark in marks.hidden);
      MarksAreKnown(units, id);
      SmallerSet(hidden, store.hidden + AllMarks(units));
      if |hidden| > MAX_MARKS {
        return TooMany;
      }
      store := store.(hidden := hidden);
      if !request.chatOnly {
        store := store.(gallery := store.gallery + (set mark | mark in marks.gallery));
      }
      return Went;
    }

    lemma MarksAreKnown(units: Units, id: Id)
      requires id in units && units[id].payload.Preferences?
      ensures forall mark <- units[id].payload.hidden :: mark in AllMarks(units)
    {
    }

    /** A record that needs nothing but itself. */
    ghost predicate TextOnly(r: Record) {
      r.payload.Messages? && r.payload.preferences == [] && forall row <- r.payload.rows :: row.manifests == []
    }

    /** The units that a record cites were asked for. */
    ghost predicate CitedApproved(r: Record) {
      && r.payload.Messages?
      && (forall id <- r.payload.preferences :: id in units && id in request.approved && request.approved[id] == UnitOf(units[id]))
      && (forall ref <- r.payload.attachments :: ref.unit in units && ref.unit in request.approved && request.approved[ref.unit] == UnitOf(units[ref.unit]))
    }

    /** All marks that a record cites. */
    method RestoreMarks(r: Record) returns (step: Step)
      requires Sound(units, request.role, r)
      requires CitedApproved(r)
      modifies this`store, this`lifetime
      ensures lifetime <= old(lifetime) && (step == Died ==> lifetime == 0) && Within(old(store), store) && store.rows == old(store).rows
      ensures store.hidden <= old(store).hidden + AllMarks(units)
      ensures step == Went ==> forall i :: 0 <= i < |r.payload.preferences| ==>
                HasMarks(units, store, request.chatOnly, r.payload.preferences[i])
      ensures step != Failure && (step == TooMany ==> |old(store).hidden + AllMarks(units)| > MAX_MARKS)
      ensures r.payload.preferences == [] ==> step == Went
    {
      hide Covers, Provides, AllMarks, HasMarks;
      for k := 0 to |r.payload.preferences|
        invariant lifetime <= old(lifetime) && Within(old(store), store) && store.rows == old(store).rows
        invariant store.hidden <= old(store).hidden + AllMarks(units)
        invariant forall i :: 0 <= i < k ==> HasMarks(units, store, request.chatOnly, r.payload.preferences[i])
      {
        ghost var before := store;
        var id := r.payload.preferences[k];
        assert id in r.payload.preferences;
        step := MergeMarks(r, id);
        SmallerSet(before.hidden + AllMarks(units), old(store).hidden + AllMarks(units));
        forall i | 0 <= i < k
          ensures HasMarks(units, store, request.chatOnly, r.payload.preferences[i])
        {
          MarksStay(units, before, store, request.chatOnly, r.payload.preferences[i]);
        }
        if step != Went {
          return;
        }
      }
      return Went;
    }

    /** Two passes over one manifest: the first checks every part, the second keeps them. */
    method RestoreManifest(r: Record, m: Manifest) returns (step: Step)
      requires Sound(units, request.role, r) && CitedApproved(r)
      requires forall i :: 0 <= i < |m.parts| ==> Provides(units, r.payload.attachments, Chunk(m.blob, i, m.parts[i]))
      modifies this`store, this`lifetime
      ensures lifetime <= old(lifetime) && (step == Died ==> lifetime == 0) && (step == Went || step == Died)
      ensures Within(old(store), store) && store.rows == old(store).rows && store.hidden == old(store).hidden
      ensures step == Went ==> HasParts(store, m)
    {
      hide Covers;
      for pass := 0 to 2
        invariant lifetime <= old(lifetime) && Within(old(store), store) && store.rows == old(store).rows && store.hidden == old(store).hidden
        invariant pass == 2 ==> HasParts(store, m)
      {
        for i := 0 to |m.parts|
          invariant lifetime <= old(lifetime) && Within(old(store), store) && store.rows == old(store).rows && store.hidden == old(store).hidden
          invariant pass == 1 ==> forall j :: 0 <= j < i ==> Chunk(m.blob, j, m.parts[j]) in store.parts
        {
          assert Provides(units, r.payload.attachments, Chunk(m.blob, i, m.parts[i]));
          var unit := FindUnit(r.payload.attachments, m.blob, i);
          var found := Open(unit.value);
          if found.Dead? {
            return Died;
          }
          var part := found.record.payload;
          assert part == Attachment(m.blob, i, m.parts[i]);
          if pass == 1 {
            store := store.(parts := store.parts + {Chunk(part.blob, part.index, part.bytes)});
          }
        }
      }
      return Went;
    }

    /** All media of one row. */
    method RestoreMedia(r: Record, row: Message) returns (step: Step)
      requires Sound(units, request.role, r) && CitedApproved(r) && row in r.payload.rows
      modifies this`store, this`lifetime
      ensures lifetime <= old(lifetime) && (step == Died ==> lifetime == 0) && (step == Went || step == Died)
      ensures Within(old(store), store) && store.rows == old(store).rows && store.hidden == old(store).hidden
      ensures step == Went ==> HasMedia(store, row)
      ensures row.manifests == [] ==> step == Went
    {
      hide Covers, HasParts, Provides, Cites;
      for j := 0 to |row.manifests|
        invariant lifetime <= old(lifetime) && Within(old(store), store) && store.rows == old(store).rows && store.hidden == old(store).hidden
        invariant forall k :: 0 <= k < j ==> HasParts(store, row.manifests[k])
      {
        ghost var before := store;
        assert row.manifests[j] in row.manifests;
        step := RestoreManifest(r, row.manifests[j]);
        forall k | 0 <= k < j
          ensures HasParts(store, row.manifests[k])
        {
          PartsStay(before, store, row.manifests[k]);
        }
        if step != Went {
          return;
        }
      }
      return Went;
    }

    /** One record: its marks, its media, and then its rows. */
    method RestoreRecord(r: Record) returns (step: Step, imported: nat)
      requires Sound(units, request.role, r) && CitedApproved(r)
      modifies this`store, this`lifetime
      ensures lifetime <= old(lifetime) && (step == Died ==> lifetime == 0) && Within(old(store), store)
      ensures store.hidden <= old(store).hidden + AllMarks(units)
      ensures step == Went ==> Restored(units, request.chatOnly, r, store) && |store.rows| == |old(store).rows| + imported
      ensures step != Went ==> store.rows == old(store).rows
      ensures TextOnly(r) ==> step == Went
      ensures step != Failure && (step == TooMany ==> |old(store).hidden + AllMarks(units)| > MAX_MARKS)
    {
      hide Covers, HasMedia, HasMarks, Provides, Cites, AllMarks;
      imported := 0;
      step := RestoreMarks(r);
      if step != Went {
        return;
      }
      for k := 0 to |r.payload.rows|
        invariant lifetime <= old(lifetime) && Within(old(store), store) && store.rows == old(store).rows
        invariant store.hidden <= old(store).hidden + AllMarks(units)
        invariant forall i :: 0 <= i < k && InScope(request.chatOnly, r.payload.rows[i]) ==> HasMedia(store, r.payload.rows[i])
        invariant forall i :: 0 <= i < |r.payload.preferences| ==> HasMarks(units, store, request.chatOnly, r.payload.preferences[i])
      {
        ghost var before := store;
        if InScope(request.chatOnly, r.payload.rows[k]) {
          assert r.payload.rows[k] in r.payload.rows;
          step := RestoreMedia(r, r.payload.rows[k]);
          AllStay(before, store, r);
          if step != Went {
            return;
          }
        }
      }
      ghost var before := store;
      var missing := set row | row in r.payload.rows && InScope(request.chatOnly, row) && row !in store.rows;
      store := store.(rows := store.rows + missing);
      AllStay(before, store, r);
      imported := |missing|;
      step := Went;
    }

    /** One record of a chain: fetched, checked, restored, and saved behind the checkpoint. */
    method StepBack(i: nat, link: Link, from: nat, start: Checkpoint, before: set<Id>)
        returns (step: Step, next: Option<Link>, upper: nat, cp: Checkpoint, seen: set<Id>)
      requires Valid() && i < |request.heads| && ProgressInv(request, bases, listed, store, start, visited) && before <= visited
      requires request.heads[i].id !in start.doneHeads && forall j :: 0 <= j < i ==> request.heads[j].id in start.doneHeads
      requires start.current.None? || start.current == Some(Position(request.heads[i].id, Some(link), from))
      requires Walking(request, bases, listed, request.heads[i], Some(link), from, store)
      requires start.imported + missed + origin == |store.rows|
      modifies this`store, this`progress, this`visited, this`lifetime, this`atCheckpoint
      ensures Valid() && lifetime <= old(lifetime) && (step == Died ==> lifetime == 0) && Within(old(store), store)
      ensures store.hidden <= old(store).hidden + AllMarks(units)
      ensures step != Failure && (step == TooMany ==> |old(store).hidden + AllMarks(units)| > MAX_MARKS)
      ensures step == Went ==>
                && ProgressInv(request, bases, listed, store, cp, visited) && seen <= visited && cp.doneHeads == start.doneHeads
                && cp.current == Some(Position(request.heads[i].id, next, upper)) && Walking(request, bases, listed, request.heads[i], next, upper, store)
                && |Records(next)| < |Records(Some(link))| && cp.imported + |old(store).rows| == start.imported + |store.rows|
    {
      hide ProgressInv, Walking, Chain, AllMarks, Restored, Sound, Asked;
      next, upper, cp, seen := Some(link), from, start, before;
      WalkedRecord(request, bases, listed, units, store, start, visited, i, link, from);
      if link.id in seen {
        return Failure, next, upper, cp, seen;
      }
      seen := seen + {link.id};
      var record;
      step, record := Fetch(i, link, from);
      if step != Went {
        return;
      }
      var imported;
      ghost var earlier := store;
      step, imported := RestoreRecord(record);
      ValidStays(earlier, store, start);
      if step != Went {
        return;
      }
      StillWalking(request, bases, listed, request.heads[i], Some(link), from, earlier, store);
      RestoredAsListed(listed, units, request, record, store);
      Advanced(request, bases, listed, store, start, visited, i, link, from, start.imported + imported);
      RecordsStep(link);
      if start.count + 1 > request.unitCount {
        return Failure, next, upper, cp, seen;
      }
      next, upper := record.payload.previous, record.payload.afterSeq;
      cp := start.(current := Some(Position(request.heads[i].id, next, upper)), count := start.count + 1, imported := start.imported + imported);
      var saved := SaveProgress(cp, visited + {link.id});
      step := if saved then Went else Died;
    }

    /** Fetches the record that a link names; anything but that record is a failure. */
    method Fetch(i: nat, link: Link, upper: nat) returns (step: Step, record: Record)
      requires i < |request.heads|
      requires var r := link.digest.record;
               && link.id in request.approved && link.id in units && units[link.id] == r && r.id == link.id && UnitOf(r) == request.approved[link.id]
               && r.device == request.heads[i].device && r.payload.Messages? && r.payload.upperSeq == upper && (r.payload.omitted != [] ==> request.role == Joiner)
      modifies this`lifetime
      ensures lifetime <= old(lifetime) && (step == Went || (step == Died && lifetime == 0))
      ensures step == Went ==> record == link.digest.record
    {
      record := link.digest.record;
      var found := Open(link.id);
      if found.Dead? {
        return Died, record;
      }
      if found.Wrong? {
        return Failure, record;
      }
      record := found.record;
      var payload := record.payload;
      if Hash(record) != link.digest || !payload.Messages? || payload.upperSeq != upper || record.device != request.heads[i].device
         || (payload.omitted != [] && request.role != Joiner) {
        return Failure, record;
      }
      return Went, record;
    }

    method SaveProgress(cp: Checkpoint, ghost behind: set<Id>) returns (saved: bool)
      requires Valid() && ProgressInv(request, bases, listed, store, cp, behind)
      requires cp.imported + missed + origin == |store.rows|
      modifies this`progress, this`visited, this`lifetime, this`atCheckpoint
      ensures Valid() && lifetime <= old(lifetime) && (!saved ==> lifetime == 0) && (saved ==> visited == behind && progress == Some(cp))
      ensures saved ==> atCheckpoint == |store.rows|
    {
      hide ProgressInv, Asked;
      saved := Await();
      if saved {
        progress, visited, atCheckpoint := Some(cp), behind, |store.rows|;
      }
    }

    /** What is restored stays restored, so no checkpoint is spoilt. */
    lemma ValidStays(earlier: Store, later: Store, cp: Checkpoint)
      requires Within(earlier, later)
      ensures ProgressInv(request, bases, listed, earlier, cp, visited) ==> ProgressInv(request, bases, listed, later, cp, visited)
      ensures progress.Some? && ProgressInv(request, bases, listed, earlier, progress.value, visited) ==>
                ProgressInv(request, bases, listed, later, progress.value, visited)
    {
      hide Within, ProgressInv;
      if ProgressInv(request, bases, listed, earlier, cp, visited) {
        ProgressStays(request, bases, listed, earlier, later, cp, visited);
      }
      if progress.Some? && ProgressInv(request, bases, listed, earlier, progress.value, visited) {
        ProgressStays(request, bases, listed, earlier, later, progress.value, visited);
      }
    }

    /** Follows one head's chain from where the checkpoint stands, or from the head. */
    method Follow(i: nat, start: Checkpoint, before: set<Id>) returns (step: Step, cp: Checkpoint, seen: set<Id>)
      requires Valid() && i < |request.heads| && ProgressInv(request, bases, listed, store, start, visited) && before <= visited
      requires request.heads[i].id !in start.doneHeads && forall j :: 0 <= j < i ==> request.heads[j].id in start.doneHeads
      requires start.imported + missed + origin == |store.rows|
      modifies this`store, this`progress, this`visited, this`lifetime, this`atCheckpoint
      ensures Valid() && lifetime <= old(lifetime) && (step == Died ==> lifetime == 0) && Within(old(store), store)
      ensures store.hidden <= old(store).hidden + AllMarks(units)
      ensures step != Failure && (step == TooMany ==> |old(store).hidden + AllMarks(units)| > MAX_MARKS)
      ensures step == Went ==>
                && ProgressInv(request, bases, listed, store, cp, visited) && seen <= visited && cp.doneHeads == start.doneHeads
                && cp.current.Some? && cp.current.value.headId == request.heads[i].id && cp.current.value.next.None?
                && Walking(request, bases, listed, request.heads[i], None, cp.current.value.upper, store)
                && cp.imported + |old(store).rows| == start.imported + |store.rows|
    {
      hide ProgressInv, Walking, Chain, Asked, AllMarks, Restored, Sound, CitedApproved;
      var head := request.heads[i];
      cp, seen := start, before;
      var resumed := start.current.Some? && start.current.value.headId == head.id;
      var next := if resumed then start.current.value.next else Some(LinkOf(head));
      var upper: nat := if resumed then start.current.value.upper else head.upperSeq;
      WalkStarts(request, bases, listed, units, store, start, visited, i);
      while next.Some?
        invariant Valid() && lifetime <= old(lifetime) && Within(old(store), store)
        invariant store.hidden <= old(store).hidden + AllMarks(units)
        invariant ProgressInv(request, bases, listed, store, cp, visited) && seen <= visited && cp.doneHeads == start.doneHeads
        invariant Walking(request, bases, listed, head, next, upper, store)
        invariant cp.current == Some(Position(head.id, next, upper)) || (cp.current.None? && next.Some?)
        invariant cp.imported + |old(store).rows| == start.imported + |store.rows|
        decreases |Records(next)|
      {
        ghost var from := store;
        var link := next.value;
        step, next, upper, cp, seen := StepBack(i, link, upper, cp, seen);
        SmallerSet(from.hidden + AllMarks(units), old(store).hidden + AllMarks(units));
        if step != Went {
          return;
        }
      }
      step := Went;
    }

    /** The whole recovery. It fails only when there are more marks than it may keep; a crash at any
        await leaves a checkpoint from which a later process goes on; otherwise it restores the
        chains of all heads to their ends. The count that it then reports is that of all rows stored
        since the recovery began, except exactly the uncounted ones. */
    method Complete() returns (ending: Ending)
      requires Valid()
      modifies this`store, this`progress, this`visited, this`lifetime, this`origin, this`missed, this`atCheckpoint
      ensures Valid() && lifetime <= old(lifetime) && Within(old(store), store) && store.hidden <= old(store).hidden + AllMarks(units)
      ensures ending.Interrupted? ==> lifetime == 0
      ensures ending.Failed? ==> |old(store).hidden + AllMarks(units)| > MAX_MARKS
      ensures ending.Done? ==> progress.None? && forall i :: 0 <= i < |request.heads| ==>
                HeadRestored(listed, request.chatOnly, request.heads[i], store)
      ensures ending.Done? ==>
                ending.imported + |old(store).rows| == |store.rows| + if old(progress).Some? then old(progress).value.imported else 0
      ensures ending.Done? ==> ending.imported + old(Uncounted()) + old(origin) == |store.rows|
      ensures ending.Done? ==> Uncounted() == 0 && origin == |store.rows|
      ensures !ending.Done? ==> origin == old(origin) && missed == old(Uncounted())
    {
      hide ProgressInv, Walking, Chain, AllMarks, Asked, HeadRestored;
      HeadsAreDistinct(request, bases, listed, units);
      FreshProgress(request, bases, listed, store);
      missed, atCheckpoint := Uncounted(), |store.rows|;
      assert missed == old(Uncounted());
      var cp := if progress.Some? then progress.value else FRESH;
      var seen: set<Id> := {};
      for i := 0 to |request.heads|
        invariant Valid() && lifetime <= old(lifetime) && Within(old(store), store)
        invariant store.hidden <= old(store).hidden + AllMarks(units)
        invariant ProgressInv(request, bases, listed, store, cp, visited) && seen <= visited
        invariant forall j :: 0 <= j < i ==> request.heads[j].id in cp.doneHeads
        invariant cp.imported + |old(store).rows| == |store.rows| + if old(progress).Some? then old(progress).value.imported else 0
        invariant cp.imported + missed + origin == |store.rows| && missed == old(Uncounted()) && origin == old(origin)
      {
        var head := request.heads[i];
        if head.id in cp.doneHeads {
          continue;
        }
        ghost var before := store;
        var step;
        step, cp, seen := Follow(i, cp, seen);
        SmallerSet(before.hidden + AllMarks(units), old(store).hidden + AllMarks(units));
        if step != Went {
          return if step == Died then Interrupted else Failed;
        }
        HeadDone(request, bases, listed, store, cp, visited, i, cp.current.value.upper);
        cp := cp.(doneHeads := cp.doneHeads + [head.id], current := None);
        var saved := SaveProgress(cp, visited);
        if !saved {
          return Interrupted;
        }
      }
      AllHeadsRestored(request, bases, listed, store, cp, visited);
      var alive := Await();
      if !alive {
        return Interrupted;
      }
      progress, visited := None, {};
      origin, atCheckpoint, missed := |store.rows|, |store.rows|, 0;
      return Done(cp.imported);
    }

    lemma AllStay(before: Store, after: Store, r: Record)
      requires Within(before, after) && r.payload.Messages?
      ensures forall i :: 0 <= i < |r.payload.rows| && HasMedia(before, r.payload.rows[i]) ==> HasMedia(after, r.payload.rows[i])
      ensures forall i :: 0 <= i < |r.payload.preferences| && HasMarks(units, before, request.chatOnly, r.payload.preferences[i]) ==>
                HasMarks(units, after, request.chatOnly, r.payload.preferences[i])
    {
    }
  }

  /** A process that dies between storing the rows of a record and saving the checkpoint behind it:
      whichever process completes the recovery later, its count is short by exactly those rows. */
  method DyingBeforeCheckpoint(recovery: Recovery, record: Record, later: nat) returns (lost: nat, ending: Ending)
    requires recovery.Valid() && recovery.progress.None? && recovery.Uncounted() == 0
    requires Sound(recovery.units, recovery.request.role, record) && recovery.CitedApproved(record) && recovery.TextOnly(record)
    requires exists row :: row in record.payload.rows && InScope(recovery.request.chatOnly, row) && row !in recovery.store.rows
    modifies recovery
    ensures lost > 0
    ensures ending.Done? ==> ending.imported + lost == |recovery.store.rows| - |old(recovery.store.rows)|
  {
    hide Asked, ProgressInv, Sound, Covers, HeadRestored, AllMarks;
    ghost var before := recovery.store;
    var step;
    step, lost := recovery.RestoreRecord(record);
    ghost var row :| row in record.payload.rows && InScope(recovery.request.chatOnly, row) && row !in before.rows;
    SmallerSet(before.rows + {row}, recovery.store.rows);
    recovery.Restart(later);
    ending := recovery.Complete();
  }

  lemma PartsStay(store: Store, more: Store, m: Manifest)
    requires Within(store, more)
    ensures HasParts(store, m) ==> HasParts(more, m)
  {
  }

  lemma MarksStay(units: Units, store: Store, more: Store, chatOnly: bool, unit: Id)
    requires Within(store, more)
    ensures HasMarks(units, store, chatOnly, unit) ==> HasMarks(units, more, chatOnly, unit)
  {
  }

  /** The main result: once recovery is done, every number from the base to a head is accounted for
      by a record of its chain, and whatever row that record has in scope is on disk, with every
      part of its media. */
  lemma RecoveryIsComplete(request: Request, bases: map<Device, nat>, listed: Units, units: Units, store: Store, i: nat, n: nat)
    requires Asked(request, bases, listed, units) && i < |request.heads| && HeadRestored(listed, request.chatOnly, request.heads[i], store)
    requires request.heads[i].device in bases && bases[request.heads[i].device] < n <= request.heads[i].upperSeq
    ensures exists r :: r in Records(Some(LinkOf(request.heads[i]))) && r.payload.Messages?
              && (n in r.payload.omitted
                  || exists k :: 0 <= k < |r.payload.rows| && r.payload.rows[k].number == n
                       && (InScope(request.chatOnly, r.payload.rows[k]) ==>
                             r.payload.rows[k] in store.rows && HasMedia(store, r.payload.rows[k])))
  {
    var h := request.heads[i];
    assert h in request.heads;
    ChainCovers(listed, request.role, bases[h.device], h.device, Some(LinkOf(h)), h.upperSeq, h.revision, n);
    hide Chain, Records, HasMedia;
    var r :| r in Records(Some(LinkOf(h))) && Accounts(r, n);
    if n in Numbers(r.payload.rows) {
      var k :| 0 <= k < |r.payload.rows| && Numbers(r.payload.rows)[k] == n;
      assert r.payload.rows[k].number == n;
    }
  }

  /** Heads that the writer has published can be recovered, whatever run led to them. */
  lemma PublishedHeadsCanBeAsked(w: World, run: seq<(Device, Act)>, log: seq<Record>, heads: seq<Head>, chatOnly: bool)
    requires Start(w) && DistinctDevices(heads)
    requires forall h <- heads :: h in RunFrom(w, run).server.published
    requires forall id <- RunFrom(w, run).server.units :: RunFrom(w, run).server.units[id] in log
    requires forall r :: r in log ==> r.id in RunFrom(w, run).server.units && RunFrom(w, run).server.units[r.id] == r
    ensures var bases := map d | d in w.devices :: w.devices[d].base;
            var units := Selected(log, heads);
            Asked(Request(chatOnly, w.role, heads, Approved(units), |units|), bases, RunFrom(w, run).server.units, RunFrom(w, run).server.units)
  {
    var bases := map d | d in w.devices :: w.devices[d].base;
    UnitsAreNamed(w, run);
    hide Chain, RunFrom, Start, Selected, Approved, Asked;
    forall h <- heads
      ensures h.device in bases && Chain(RunFrom(w, run).server.units, w.role, bases[h.device], h.device, LinkOf(h), h.upperSeq, h.revision)
    {
      PublishedHeadsAreChained(w, run, h);
    }
    SelectionIsEnough(log, RunFrom(w, run).server.units, heads, bases, w.role, chatOnly);
  }
}
