/** The two-pass restore of src/lib/cloud-backup.ts and its audit in src/lib/history-restore-audit.ts. The
    first pass counts what is missing and looks for conflicts, the second imports, and the audit reads the
    result back. The server's answers, failing transactions and rows that arrive meanwhile are arbitrary. */
module HistoryRestore {
  import opened CloudArchive
  import opened Wrappers

  const MAX_WANTED := 20
  const MAX_CACHE := 8 * 1024 * 1024
  const DELETES_PAGE := 100
  const AUDIT_PAGE := 200

  /** One cited part with the archive it is fetched from. */
  datatype Source = Source(archiveId: nat, roomId: nat, part: Part)

  datatype Reply = Reply(id: nat, contents: Sealed)

  // ------------------------------------------------------------ the local history

  type History = map<nat, Message>

  predicate InScope(m: Message, creator: bool) {
    creator || !(m.kind.GalleryImage? || m.kind.GalleryFile?)
  }

  /** A record of the device never differs from an archived one of the same number. */
  predicate Agrees(m: Message, history: History) {
    m.number in history ==> history[m.number] == m
  }

  predicate IsMissing(m: Message, history: History, creator: bool) {
    InScope(m, creator) && m.number !in history
  }

  function Missing(messages: seq<Message>, history: History, creator: bool): seq<Message> {
    if messages == [] then []
    else
      var front, last := messages[..|messages| - 1], messages[|messages| - 1];
      Missing(front, history, creator) + (if IsMissing(last, history, creator) then [last] else [])
  }

  lemma {:induction false} MissingOnes(messages: seq<Message>, history: History, creator: bool)
    ensures forall m :: m in Missing(messages, history, creator) <==> m in messages && IsMissing(m, history, creator)
  {
    if messages != [] {
      MissingOnes(messages[..|messages| - 1], history, creator);
      assert messages == messages[..|messages| - 1] + [messages[|messages| - 1]];
    }
  }

  /** The store after the records are put in order; a later one replaces an earlier one of its number. */
  function Written(history: History, messages: seq<Message>): History {
    if messages == [] then history
    else Written(history, messages[..|messages| - 1])[messages[|messages| - 1].number := messages[|messages| - 1]]
  }

  ghost predicate Extends(before: History, after: History) {
    forall n :: n in before ==> n in after && after[n] == before[n]
  }

  ghost predicate SameByNumber(messages: seq<Message>) {
    forall m, n :: m in messages && n in messages && m.number == n.number ==> m == n
  }

  lemma {:induction false} WrittenOnes(history: History, messages: seq<Message>)
    requires SameByNumber(messages) && forall m :: m in messages ==> m.number !in history
    ensures Extends(history, Written(history, messages))
    ensures forall m :: m in messages ==> m.number in Written(history, messages) && Written(history, messages)[m.number] == m
    ensures forall n :: n in Written(history, messages) ==>
              n in history || exists m :: m in messages && m.number == n && Written(history, messages)[n] == m
  {
    if messages != [] {
      var front, last := messages[..|messages| - 1], messages[|messages| - 1];
      assert messages == front + [last];
      WrittenOnes(history, front);
    }
  }

  // ------------------------------------------------------------ what the first pass finds

  datatype Seen = Seen(message: Message, chat: bool, gallery: bool)

  datatype Plan = Plan(message: Message, chat: bool, gallery: bool, missing: bool)

  /** Total, and how much of it the device had. */
  datatype Count = Count(backup: nat, existing: nat)

  datatype Found = Found(seen: map<nat, Seen>, ids: map<nat, nat>, deletes: seq<Message>, expected: map<nat, Plan>,
                         chatTotal: nat, galleryTotal: nat, chatCount: Count, galleryCount: Count)

  function Chats(seen: map<nat, Seen>): set<nat> {
    set n | n in seen && seen[n].chat
  }

  function Galleries(seen: map<nat, Seen>): set<nat> {
    set n | n in seen && seen[n].gallery
  }

  function Planned(expected: map<nat, Plan>, gallery: bool): set<nat> {
    set n | n in expected && (if gallery then expected[n].gallery else expected[n].chat)
  }

  function Existing(expected: map<nat, Plan>, gallery: bool): set<nat> {
    set n | n in expected && (if gallery then expected[n].gallery else expected[n].chat) && !expected[n].missing
  }

  predicate Conflict(m: Message, n: Message) {
    (m.number == n.number && m != n) || (m.clientMsgId == n.clientMsgId && m.number != n.number)
  }

  ghost predicate ConflictFree(messages: set<Message>) {
    forall m, n :: m in messages && n in messages ==> !Conflict(m, n)
  }

  ghost predicate SeenOk(seen: map<nat, Seen>, scanned: set<Message>) {
    && (forall m :: m in scanned ==> m.number in seen && seen[m.number].message == m)
    && (forall n :: n in seen ==> seen[n].message in scanned && seen[n].message.number == n)
  }

  ghost predicate IdsOk(ids: map<nat, nat>, scanned: set<Message>) {
    && (forall m :: m in scanned ==> m.clientMsgId in ids && ids[m.clientMsgId] == m.number)
    && (forall k :: k in ids ==> exists m :: m in scanned && m.clientMsgId == k && m.number == ids[k])
  }

  ghost predicate DeletesOk(deletes: seq<Message>, scanned: set<Message>) {
    forall m :: m in deletes <==> m in scanned && m.kind.MessageDelete?
  }

  ghost predicate ExpectedOk(expected: map<nat, Plan>, seen: map<nat, Seen>, creator: bool) {
    && (forall n :: n in expected <==> n in seen && InScope(seen[n].message, creator))
    && (forall n :: n in expected ==>
          var m := seen[n].message;
          expected[n] == Plan(m, IsChat(m.kind), creator && IsGallery(m.kind), expected[n].missing))
  }

  /** The tables agree with what was scanned. */
  ghost predicate TablesOk(f: Found, scanned: set<Message>, creator: bool) {
    && SeenOk(f.seen, scanned) && IdsOk(f.ids, scanned) && DeletesOk(f.deletes, scanned)
    && ExpectedOk(f.expected, f.seen, creator)
  }

  /** The counters count the tables. */
  predicate CountsOk(f: Found) {
    && f.chatTotal == |Chats(f.seen)| && f.galleryTotal == |Galleries(f.seen)|
    && f.chatCount == Count(|Planned(f.expected, false)|, |Existing(f.expected, false)|)
    && f.galleryCount == Count(|Planned(f.expected, true)|, |Existing(f.expected, true)|)
  }

  function Bump(c: Count, counts: bool, missing: bool): Count {
    if !counts then c else Count(c.backup + 1, if missing then c.existing else c.existing + 1)
  }

  /** One message of the first pass; None when it contradicts an earlier one. */
  function Scan(f: Found, m: Message, missing: bool, creator: bool): Option<Found> {
    if m.number in f.seen && f.seen[m.number].message != m then None
    else if m.clientMsgId in f.ids && f.ids[m.clientMsgId] != m.number then None
    else if m.number in f.seen then Some(f)
    else
      var chat, gallery := missing && IsChat(m.kind), missing && creator && IsGallery(m.kind);
      var plan := Plan(m, IsChat(m.kind), creator && IsGallery(m.kind), missing);
      var planned := InScope(m, creator);
      Some(Found(f.seen[m.number := Seen(m, chat, gallery)], f.ids[m.clientMsgId := m.number],
                 if m.kind.MessageDelete? then f.deletes + [m] else f.deletes,
                 if planned then f.expected[m.number := plan] else f.expected,
                 f.chatTotal + (if chat then 1 else 0), f.galleryTotal + (if gallery then 1 else 0),
                 Bump(f.chatCount, planned && plan.chat, missing), Bump(f.galleryCount, planned && plan.gallery, missing)))
  }

  lemma NewSeen(seen: map<nat, Seen>, scanned: set<Message>, s: Seen)
    requires SeenOk(seen, scanned) && s.message.number !in seen
    ensures SeenOk(seen[s.message.number := s], scanned + {s.message})
  {
  }

  lemma NewId(ids: map<nat, nat>, scanned: set<Message>, m: Message)
    requires IdsOk(ids, scanned) && (m.clientMsgId in ids ==> ids[m.clientMsgId] == m.number)
    ensures IdsOk(ids[m.clientMsgId := m.number], scanned + {m})
  {
    var after := ids[m.clientMsgId := m.number];
    forall k | k in after
      ensures exists n :: n in scanned + {m} && n.clientMsgId == k && n.number == after[k]
    {
      if k == m.clientMsgId {
        assert m in scanned + {m};
      } else {
        var n :| n in scanned && n.clientMsgId == k && n.number == ids[k];
        assert n in scanned + {m};
      }
    }
  }

  lemma NewExpected(expected: map<nat, Plan>, seen: map<nat, Seen>, s: Seen, missing: bool, creator: bool)
    requires ExpectedOk(expected, seen, creator) && s.message.number !in seen
    ensures var m := s.message;
            ExpectedOk(if InScope(m, creator) then expected[m.number := Plan(m, IsChat(m.kind), creator && IsGallery(m.kind), missing)] else expected,
                       seen[m.number := s], creator)
  {
    hide InScope, IsChat, IsGallery;
  }

  lemma ScanKeepsTables(f: Found, scanned: set<Message>, m: Message, missing: bool, creator: bool)
    requires TablesOk(f, scanned, creator) && Scan(f, m, missing, creator).Some?
    ensures TablesOk(Scan(f, m, missing, creator).value, scanned + {m}, creator)
  {
    if m.number in f.seen {
      assert m in scanned && scanned + {m} == scanned;
    } else {
      NewSeen(f.seen, scanned, Seen(m, missing && IsChat(m.kind), missing && creator && IsGallery(m.kind)));
      NewId(f.ids, scanned, m);
      NewExpected(f.expected, f.seen, Seen(m, missing && IsChat(m.kind), missing && creator && IsGallery(m.kind)), missing, creator);
      hide SeenOk, IdsOk, ExpectedOk, InScope, IsChat, IsGallery;
    }
  }

  lemma CountsOneMore(s: set<nat>, t: set<nat>, n: nat, counts: bool)
    requires n !in s && forall k :: k in t <==> k in s || (counts && k == n)
    ensures |t| == |s| + (if counts then 1 else 0)
  {
    if counts {
      assert t == s + {n};
    } else {
      assert t == s;
    }
  }

  lemma PlannedGrows(e: map<nat, Plan>, n: nat, p: Plan, gallery: bool)
    requires n !in e
    ensures var counts := if gallery then p.gallery else p.chat;
            && |Planned(e[n := p], gallery)| == |Planned(e, gallery)| + (if counts then 1 else 0)
            && |Existing(e[n := p], gallery)| == |Existing(e, gallery)| + (if counts && !p.missing then 1 else 0)
  {
    var counts := if gallery then p.gallery else p.chat;
    CountsOneMore(Planned(e, gallery), Planned(e[n := p], gallery), n, counts);
    CountsOneMore(Existing(e, gallery), Existing(e[n := p], gallery), n, counts && !p.missing);
  }

  lemma SeenGrows(seen: map<nat, Seen>, n: nat, s: Seen)
    requires n !in seen
    ensures |Chats(seen[n := s])| == |Chats(seen)| + (if s.chat then 1 else 0)
    ensures |Galleries(seen[n := s])| == |Galleries(seen)| + (if s.gallery then 1 else 0)
  {
    CountsOneMore(Chats(seen), Chats(seen[n := s]), n, s.chat);
    CountsOneMore(Galleries(seen), Galleries(seen[n := s]), n, s.gallery);
  }

  lemma ScanKeepsCounts(f: Found, scanned: set<Message>, m: Message, missing: bool, creator: bool)
    requires TablesOk(f, scanned, creator) && CountsOk(f) && Scan(f, m, missing, creator).Some?
    ensures CountsOk(Scan(f, m, missing, creator).value)
  {
    if m.number !in f.seen {
      assert m.number !in f.expected;
      hide TablesOk, Chats, Galleries, Planned, Existing, InScope, IsChat, IsGallery;
      var plan := Plan(m, IsChat(m.kind), creator && IsGallery(m.kind), missing);
      SeenGrows(f.seen, m.number, Seen(m, missing && IsChat(m.kind), missing && creator && IsGallery(m.kind)));
      PlannedGrows(f.expected, m.number, plan, false);
      PlannedGrows(f.expected, m.number, plan, true);
    }
  }

  /** The first pass stops exactly at a message that contradicts one before it. */
  lemma ScanStopsExactly(f: Found, scanned: set<Message>, m: Message, missing: bool, creator: bool)
    requires TablesOk(f, scanned, creator)
    ensures Scan(f, m, missing, creator).None? <==> exists n :: n in scanned && Conflict(m, n)
  {
  }

  // ------------------------------------------------------------ what is cited

  function MessagesAt(sources: seq<Source>, i: nat): seq<Message>
    requires i < |sources|
  {
    sources[i].part.digest.contents.messages
  }

  function Cited(sources: seq<Source>, n: nat): set<Message>
    requires n <= |sources|
  {
    set i: nat, m | i < n && m in MessagesAt(sources, i) :: m
  }

  predicate CitesNumber(sources: seq<Source>, i: nat, n: nat)
    requires i < |sources|
  {
    exists m :: m in MessagesAt(sources, i) && m.number == n
  }

  /** The device holds every message of the part that its participant may restore. */
  predicate Present(messages: seq<Message>, history: History, creator: bool) {
    forall m :: m in messages && InScope(m, creator) ==> m.number in history && history[m.number] == m
  }

  lemma PresentGrows(messages: seq<Message>, before: History, after: History, creator: bool)
    requires Present(messages, before, creator) && Extends(before, after)
    ensures Present(messages, after, creator)
  {
  }

  /** What an import adds: the records that were missing, under their numbers, and nothing else. */
  ghost predicate Adds(before: History, missing: seq<Message>, after: History) {
    && Extends(before, after)
    && (forall m :: m in missing ==> m.number !in before)
    && (forall n :: n in after ==> n in before || exists m :: m in missing && m.number == n && after[n] == m)
  }

  lemma AddsNumbers(before: History, missing: seq<Message>, after: History)
    requires Adds(before, missing, after) && forall m :: m in missing ==> m.number in after
    ensures Numbers(missing) == after.Keys - before.Keys
  {
  }

  lemma AddsExtends(before: History, missing: seq<Message>, after: History)
    requires Adds(before, missing, after)
    ensures Extends(before, after)
  {
  }

  lemma ImportingAddsNumbers(messages: seq<Message>, history: History, creator: bool)
    requires SameByNumber(messages) && forall m :: m in messages && InScope(m, creator) ==> Agrees(m, history)
    ensures var missing := Missing(messages, history, creator);
            Numbers(missing) == Written(history, missing).Keys - history.Keys
  {
    var missing := Missing(messages, history, creator);
    MissingOnes(messages, history, creator);
    WrittenOnes(history, missing);
    ImportingMakesPresent(messages, history, creator);
    hide Missing, Written;
    AddsNumbers(history, missing, Written(history, missing));
  }

  lemma AscendingIsSameByNumber(messages: seq<Message>)
    requires Ascending(messages)
    ensures SameByNumber(messages)
  {
    forall m, n | m in messages && n in messages && m.number == n.number
      ensures m == n
    {
      var i, j :| 0 <= i < |messages| && 0 <= j < |messages| && messages[i] == m && messages[j] == n;
    }
  }

  /** A part that is not missing anything is present; importing what is missing makes it so. */
  lemma ImportingMakesPresent(messages: seq<Message>, history: History, creator: bool)
    requires SameByNumber(messages) && forall m :: m in messages && InScope(m, creator) ==> Agrees(m, history)
    ensures var missing := Missing(messages, history, creator);
            Adds(history, missing, Written(history, missing)) && Present(messages, Written(history, missing), creator)
  {
    var missing := Missing(messages, history, creator);
    MissingOnes(messages, history, creator);
    WrittenOnes(history, missing);
    hide Missing, Written;
  }

  // ------------------------------------------------------------ when nothing goes wrong

  /** Whatever the device holds agrees with what is cited. */
  ghost predicate AllAgree(cited: set<Message>, history: History, creator: bool) {
    forall m :: m in cited && InScope(m, creator) ==> Agrees(m, history)
  }

  /** Neither the archives nor the device contradict what is cited. */
  ghost predicate Harmony(cited: set<Message>, history: History, creator: bool) {
    ConflictFree(cited) && AllAgree(cited, history, creator)
  }

  lemma LiveKeepsHarmony(cited: set<Message>, history: History, rows: History, creator: bool)
    requires Harmony(cited, history, creator) && AllAgree(cited, rows, creator)
    ensures Harmony(cited, rows + history, creator)
  {
    hide InScope;
  }

  lemma ImportKeepsHarmony(cited: set<Message>, before: History, missing: seq<Message>, after: History, creator: bool)
    requires Harmony(cited, before, creator) && Adds(before, missing, after) && forall m :: m in missing ==> m in cited
    ensures Harmony(cited, after, creator)
  {
    hide InScope;
    forall m | m in cited && InScope(m, creator)
      ensures Agrees(m, after)
    {
      if m.number in after && m.number !in before {
        var n :| n in missing && n.number == m.number && after[m.number] == n;
        assert !Conflict(m, n);
      }
    }
  }

  lemma FewerInHarmony(cited: set<Message>, few: set<Message>, history: History, creator: bool)
    requires Harmony(cited, history, creator) && few <= cited
    ensures Harmony(few, history, creator)
  {
    hide InScope, Agrees;
  }

  /** A server that answers each request with the cited parts, in order, at least one of them. */
  ghost predicate Honest(answers: (nat, nat, seq<nat>) -> Option<seq<Reply>>, sources: seq<Source>) {
    forall k: nat, archiveId: nat, ids: seq<nat> :: |ids| > 0 && (forall id <- ids :: IsCited(sources, archiveId, id)) ==>
      answers(k, archiveId, ids).Some? && Answers(answers(k, archiveId, ids).value, ids, archiveId, sources)
  }

  ghost predicate IsCited(sources: seq<Source>, archiveId: nat, id: nat) {
    exists i: nat :: i < |sources| && sources[i].archiveId == archiveId && sources[i].part.id == id
  }

  ghost predicate Answers(replies: seq<Reply>, ids: seq<nat>, archiveId: nat, sources: seq<Source>) {
    && 0 < |replies| <= |ids|
    && forall j: nat :: j < |replies| ==> replies[j].id == ids[j] && IsGenuine(replies[j].contents, archiveId, ids[j], sources)
  }

  ghost predicate IsGenuine(contents: Sealed, archiveId: nat, id: nat, sources: seq<Source>) {
    forall i: nat :: i < |sources| && sources[i].archiveId == archiveId && sources[i].part.id == id ==>
      Digest(contents) == sources[i].part.digest
  }

  /** Only the parts that were cited are held. */
  ghost predicate Genuine(held: map<nat, Sealed>, sources: seq<Source>) {
    forall i :: i in held && i < |sources| ==> Digest(held[i]) == sources[i].part.digest
  }

  /** Every part fits its entry in the index. */
  ghost predicate AllFit(sources: seq<Source>) {
    forall i: nat :: i < |sources| ==> Fits(sources[i].part.digest.contents, sources[i].roomId, sources[i].part)
  }

  /** The server is honest and the archives are sound, and neither they, nor the device, nor what arrives
      meanwhile contradict one another. */
  ghost predicate Calm(answers: (nat, nat, seq<nat>) -> Option<seq<Reply>>, live: nat -> History, sources: seq<Source>,
                       history: History, batch: map<nat, Sealed>, creator: bool) {
    && Honest(answers, sources) && Genuine(batch, sources) && AllFit(sources)
    && Harmony(Cited(sources, |sources|), history, creator)
    && forall k: nat :: AllAgree(Cited(sources, |sources|), live(k), creator)
  }

  lemma CalmLive(answers: (nat, nat, seq<nat>) -> Option<seq<Reply>>, live: nat -> History, sources: seq<Source>,
                 history: History, batch: map<nat, Sealed>, creator: bool, k: nat)
    requires Calm(answers, live, sources, history, batch, creator)
    ensures Calm(answers, live, sources, live(k) + history, batch, creator)
  {
    hide Honest, Genuine, AllFit, Harmony, AllAgree, Cited;
    LiveKeepsHarmony(Cited(sources, |sources|), history, live(k), creator);
  }

  lemma CalmPart(answers: (nat, nat, seq<nat>) -> Option<seq<Reply>>, live: nat -> History, sources: seq<Source>,
                 history: History, batch: map<nat, Sealed>, creator: bool, index: nat)
    requires Calm(answers, live, sources, history, batch, creator) && index < |sources|
    ensures Honest(answers, sources) && Genuine(batch, sources) && AllFit(sources)
    ensures ConflictFree(Cited(sources, index) + Set(MessagesAt(sources, index)))
    ensures forall m :: m in MessagesAt(sources, index) && InScope(m, creator) ==> Agrees(m, history)
  {
    CitedUpTo(sources, index);
    FewerInHarmony(Cited(sources, |sources|), Cited(sources, index) + Set(MessagesAt(sources, index)), history, creator);
    hide Honest, Genuine, AllFit, ConflictFree, Cited, InScope, Agrees;
    forall m | m in MessagesAt(sources, index) && InScope(m, creator)
      ensures Agrees(m, history)
    {
      assert m in Cited(sources, index) + Set(MessagesAt(sources, index));
    }
  }

  /** Reading and importing cited messages leave everything calm. */
  lemma CalmAgain(answers: (nat, nat, seq<nat>) -> Option<seq<Reply>>, live: nat -> History, sources: seq<Source>, before: History,
                  batch: map<nat, Sealed>, missing: seq<Message>, after: History, now: map<nat, Sealed>, creator: bool)
    requires Calm(answers, live, sources, before, batch, creator) && Genuine(now, sources)
    requires Adds(before, missing, after) && forall m :: m in missing ==> m in Cited(sources, |sources|)
    ensures Calm(answers, live, sources, after, now, creator)
  {
    hide Honest, Genuine, AllFit, Harmony, AllAgree, Cited, Adds;
    ImportKeepsHarmony(Cited(sources, |sources|), before, missing, after, creator);
  }

  lemma HarmonyAgrees(cited: set<Message>, messages: seq<Message>, i: nat, j: nat, history: History, creator: bool)
    requires Harmony(cited, history, creator) && Set(messages) <= cited && i <= j <= |messages|
    ensures forall m :: m in messages[i..j] && InScope(m, creator) ==> Agrees(m, history)
  {
    hide InScope, Agrees, ConflictFree;
    forall m | m in messages[i..j]
      ensures m in Set(messages)
    {
    }
  }

  lemma NewKeys(a: History, b: History, c: History)
    requires Extends(a, b) && Extends(b, c)
    ensures (b.Keys - a.Keys) + (c.Keys - b.Keys) == c.Keys - a.Keys
  {
  }

  /** Only what was imported is counted so; when nothing else arrives, everything new was imported. */
  ghost predicate Imported(imported: set<nat>, before: History, after: History, live: nat -> History) {
    && imported <= after.Keys - before.Keys && Extends(before, after)
    && ((forall k: nat :: live(k) == map[]) ==> imported == after.Keys - before.Keys)
  }

  lemma NothingImported(history: History, live: nat -> History)
    ensures Imported({}, history, history, live)
  {
  }

  lemma ImportedLater(imported: set<nat>, before: History, after: History, later: History, live: nat -> History, k: nat)
    requires Imported(imported, before, after, live) && later == live(k) + after
    ensures Imported(imported, before, later, live)
  {
  }

  lemma ImportedMore(imported: set<nat>, before: History, after: History, more: set<nat>, later: History, live: nat -> History)
    requires Imported(imported, before, after, live) && Extends(after, later) && more == later.Keys - after.Keys
    ensures Imported(imported + more, before, later, live)
  {
    NewKeys(before, after, later);
  }

  lemma ImportedBoth(deleted: set<nat>, discovered: History, purged: History, parts: set<nat>, after: History, live: nat -> History)
    requires Extends(discovered, purged) && deleted == purged.Keys - discovered.Keys && Imported(parts, purged, after, live)
    ensures (deleted + parts) !! discovered.Keys
    ensures (forall k: nat :: live(k) == map[]) ==> deleted + parts == after.Keys - discovered.Keys
  {
    NewKeys(discovered, purged, after);
  }

  lemma CalmDeletes(answers: (nat, nat, seq<nat>) -> Option<seq<Reply>>, live: nat -> History, sources: seq<Source>,
                    history: History, batch: map<nat, Sealed>, creator: bool, f: Found)
    requires Calm(answers, live, sources, history, batch, creator) && TablesOk(f, Cited(sources, |sources|), creator)
    ensures Harmony(Cited(sources, |sources|), history, creator) && Set(f.deletes) <= Cited(sources, |sources|)
  {
    hide Honest, Genuine, AllFit, Harmony, AllAgree, Cited, SeenOk, IdsOk, ExpectedOk;
  }

  lemma CalmLater(answers: (nat, nat, seq<nat>) -> Option<seq<Reply>>, live: nat -> History, liveLater: nat -> History, sources: seq<Source>,
                  before: History, history: History, batch: map<nat, Sealed>, creator: bool)
    requires Calm(answers, live, sources, before, batch, creator) && Harmony(Cited(sources, |sources|), history, creator)
    requires forall k: nat :: AllAgree(Cited(sources, |sources|), liveLater(k), creator)
    ensures Calm(answers, liveLater, sources, history, batch, creator)
  {
    hide Honest, Genuine, AllFit, Harmony, AllAgree, Cited;
  }

  lemma NothingAdded(history: History)
    ensures Adds(history, [], history)
  {
  }

  lemma CitedUpTo(sources: seq<Source>, n: nat)
    requires n < |sources|
    ensures Cited(sources, n) + Set(MessagesAt(sources, n)) <= Cited(sources, |sources|)
    ensures Set(MessagesAt(sources, n)) <= Cited(sources, |sources|)
  {
  }

  // ------------------------------------------------------------ bounded caching

  /** What the ciphertexts kept across the two passes take. */
  function Retained(cache: map<nat, Sealed>, size: Sealed -> nat, n: nat): nat {
    if n == 0 then 0 else Retained(cache, size, n - 1) + (if n - 1 in cache then 2 * size(cache[n - 1]) else 0)
  }

  lemma {:induction false} RetainedKept(cache: map<nat, Sealed>, size: Sealed -> nat, k: nat, s: Sealed, n: nat)
    requires k !in cache
    ensures Retained(cache[k := s], size, n) == Retained(cache, size, n) + (if k < n then 2 * size(s) else 0)
  {
    if n > 0 {
      RetainedKept(cache, size, k, s, n - 1);
    }
  }

  lemma {:induction false} RetainedDropped(cache: map<nat, Sealed>, size: Sealed -> nat, k: nat, n: nat)
    ensures Retained(cache - {k}, size, n) <= Retained(cache, size, n)
  {
    if n > 0 {
      RetainedDropped(cache, size, k, n - 1);
    }
  }

  lemma {:induction false} NothingRetained(size: Sealed -> nat, n: nat)
    ensures Retained(map[], size, n) == 0
  {
    if n > 0 {
      NothingRetained(size, n - 1);
    }
  }

  // ------------------------------------------------------------ the audit's counters

  datatype Row = Row(backup: nat, existing: nat, imported: nat, visible: nat, hidden: nat, available: nat)

  function Tally(r: Row, missing: bool, imported: bool, visible: bool): Row {
    Row(r.backup + 1, if missing then r.existing else r.existing + 1,
        if imported then r.imported + 1 else r.imported,
        if imported && visible then r.visible + 1 else r.visible,
        if imported && !visible then r.hidden + 1 else r.hidden,
        if visible then r.available + 1 else r.available)
  }

  /** The numbers whose records the participant gets to see. */
  function Shown(expected: map<nat, Plan>, gallery: bool, visible: (Message, bool) -> bool): set<nat> {
    set n | n in expected && visible(expected[n].message, gallery)
  }

  /** A row counts the verified records of its kind: all, those found on the device, those imported, the
      imported ones that are visible and those that are not, and all that are visible. */
  predicate Tallied(r: Row, verified: set<nat>, expected: map<nat, Plan>, gallery: bool, imported: set<nat>, visible: (Message, bool) -> bool) {
    var planned, shown := Planned(expected, gallery), Shown(expected, gallery, visible);
    && r.backup == |verified * planned|
    && r.existing == |verified * Existing(expected, gallery)|
    && r.imported == |verified * (planned * imported)|
    && r.visible == |verified * (planned * imported * shown)|
    && r.hidden == |verified * (planned * imported - shown)|
    && r.available == |verified * (planned * shown)|
  }

  lemma OneMoreVerified(verified: set<nat>, s: set<nat>, n: nat)
    requires n !in verified
    ensures |(verified + {n}) * s| == |verified * s| + (if n in s then 1 else 0)
  {
    CountsOneMore(verified * s, (verified + {n}) * s, n, n in s);
  }

  lemma TallyStep(r: Row, verified: set<nat>, expected: map<nat, Plan>, gallery: bool, imported: set<nat>, n: nat,
                  visible: (Message, bool) -> bool)
    requires Tallied(r, verified, expected, gallery, imported, visible) && n !in verified && n in expected
    ensures var counts := if gallery then expected[n].gallery else expected[n].chat;
            Tallied(if counts then Tally(r, expected[n].missing, n in imported, visible(expected[n].message, gallery)) else r,
                    verified + {n}, expected, gallery, imported, visible)
  {
    var planned, existing, shown := Planned(expected, gallery), Existing(expected, gallery), Shown(expected, gallery, visible);
    OneMoreVerified(verified, planned, n);
    OneMoreVerified(verified, existing, n);
    OneMoreVerified(verified, planned * imported, n);
    OneMoreVerified(verified, planned * imported * shown, n);
    OneMoreVerified(verified, planned * imported - shown, n);
    OneMoreVerified(verified, planned * shown, n);
    assert n in planned <==> if gallery then expected[n].gallery else expected[n].chat;
    assert n in existing <==> n in planned && !expected[n].missing;
    assert n in shown <==> visible(expected[n].message, gallery);
    hide Planned, Existing, Shown;
  }

  // ------------------------------------------------------------ the first pass

  function Set(messages: seq<Message>): set<Message> {
    set m | m in messages
  }

  lemma SetGrows(scanned: set<Message>, messages: seq<Message>, i: nat)
    requires i < |messages|
    ensures scanned + Set(messages[..i]) + {messages[i]} == scanned + Set(messages[..i + 1])
    ensures scanned + Set(messages[..i + 1]) <= scanned + Set(messages)
  {
    assert messages[..i + 1] == messages[..i] + [messages[i]];
  }

  lemma TablesAreConflictFree(f: Found, scanned: set<Message>, creator: bool)
    requires TablesOk(f, scanned, creator)
    ensures ConflictFree(scanned)
  {
  }

  lemma ScanAddsOne(f: Found, m: Message, missing: bool, creator: bool)
    requires Scan(f, m, missing, creator).Some?
    ensures var g := Scan(f, m, missing, creator).value;
            forall n :: n in g.seen ==>
              (n in f.seen && g.seen[n] == f.seen[n])
              || g.seen[n] == Seen(m, missing && IsChat(m.kind), missing && creator && IsGallery(m.kind))
  {
  }

  /** A message is marked as chat or gallery content to be restored when it is missing and of that kind. */
  predicate IsMarked(s: Seen, missing: seq<Message>, creator: bool) {
    s == Seen(s.message, s.message in missing && IsChat(s.message.kind), s.message in missing && creator && IsGallery(s.message.kind))
  }

  /** The marks between two states of the device: what is marked was lacking at first, and what is lacking
      in the end is marked. */
  ghost predicate Marked(seen: map<nat, Seen>, before: History, after: History, creator: bool) {
    forall n :: n in seen ==> MarkFits(seen[n], n, before, after, creator)
  }

  ghost predicate MarkFits(s: Seen, n: nat, before: History, after: History, creator: bool) {
    && (s.chat || s.gallery ==> n !in before && InScope(s.message, creator))
    && (s.chat ==> IsChat(s.message.kind)) && (s.gallery ==> creator && IsGallery(s.message.kind))
    && (InScope(s.message, creator) && n !in after ==>
          s.chat == IsChat(s.message.kind) && s.gallery == (creator && IsGallery(s.message.kind)))
  }

  lemma NothingMarked(history: History, creator: bool)
    ensures Marked(map[], history, history, creator)
  {
  }

  lemma MarkedLater(seen: map<nat, Seen>, before: History, after: History, later: History, creator: bool)
    requires Marked(seen, before, after, creator) && Extends(after, later)
    ensures Marked(seen, before, later, creator)
  {
    hide InScope, IsChat, IsGallery;
  }

  lemma MarkedOneMore(seen: map<nat, Seen>, before: History, history: History, more: map<nat, Seen>, messages: seq<Message>,
                      missing: seq<Message>, creator: bool)
    requires Marked(seen, before, history, creator) && Extends(before, history) && missing == Missing(messages, history, creator)
    requires forall k :: k in more ==> more[k].message.number == k
    requires forall k :: k in more ==>
               (k in seen && more[k] == seen[k]) || (more[k].message in messages && IsMarked(more[k], missing, creator))
    ensures Marked(more, before, history, creator)
  {
    MissingOnes(messages, history, creator);
    hide InScope, IsChat, IsGallery, Missing;
    forall k | k in more
      ensures MarkFits(more[k], k, before, history, creator)
    {
      if !(k in seen && more[k] == seen[k]) {
        var m := more[k].message;
        assert m in missing <==> IsMissing(m, history, creator);
        assert k in before ==> k in history;
      }
    }
  }

  datatype Discovery = Discovery(found: Found, missingParts: set<nat>)

  /** After n parts: the tables and counters are those of what they cite; a part that is not to be read
      again is present already; and whatever is counted as missing comes in a part that will be. */
  ghost predicate Discovered(d: Discovery, sources: seq<Source>, n: nat, history: History, creator: bool) {
    && n <= |sources|
    && TablesOk(d.found, Cited(sources, n), creator) && CountsOk(d.found)
    && (forall i: nat :: i < n ==> Fits(sources[i].part.digest.contents, sources[i].roomId, sources[i].part))
    && (forall i: nat :: i < n && i !in d.missingParts ==> Present(MessagesAt(sources, i), history, creator))
    && CountedAreCited(d.found.seen, d.missingParts, sources, n)
  }

  ghost predicate CountedAreCited(seen: map<nat, Seen>, parts: set<nat>, sources: seq<Source>, n: nat)
    requires n <= |sources|
  {
    forall k :: k in seen && (seen[k].chat || seen[k].gallery) ==> exists i: nat :: i in parts && i < n && CitesNumber(sources, i, k)
  }

  lemma CountedOneMore(seen: map<nat, Seen>, parts: set<nat>, sources: seq<Source>, n: nat, after: map<nat, Seen>, missing: seq<Message>)
    requires n < |sources| && CountedAreCited(seen, parts, sources, n)
    requires forall k :: k in after ==> after[k].message.number == k
    requires forall k :: k in after ==>
               (k in seen && after[k] == seen[k])
               || (after[k].message in MessagesAt(sources, n) && (after[k].chat || after[k].gallery ==> after[k].message in missing))
    ensures CountedAreCited(after, if missing != [] then parts + {n} else parts, sources, n + 1)
  {
    var now := if missing != [] then parts + {n} else parts;
    forall k | k in after && (after[k].chat || after[k].gallery)
      ensures exists i: nat :: i in now && i < n + 1 && CitesNumber(sources, i, k)
    {
      if k in seen && after[k] == seen[k] {
        var i: nat :| i in parts && i < n && CitesNumber(sources, i, k);
        assert i in now;
      } else {
        assert CitesNumber(sources, n, k);
        assert n in now;
      }
    }
  }

  lemma NothingDiscovered(sources: seq<Source>, history: History, creator: bool)
    ensures Discovered(Discovery(Found(map[], map[], [], map[], 0, 0, Count(0, 0), Count(0, 0)), {}), sources, 0, history, creator)
  {
    assert Cited(sources, 0) == {};
  }

  lemma ExtendsSelf(history: History)
    ensures Extends(history, history)
  {
  }

  lemma ExtendsChain(a: History, b: History, c: History)
    requires Extends(a, b) && Extends(b, c)
    ensures Extends(a, c)
  {
  }

  lemma DiscoveredLater(d: Discovery, sources: seq<Source>, n: nat, before: History, after: History, creator: bool)
    requires Discovered(d, sources, n, before, creator) && Extends(before, after)
    ensures Discovered(d, sources, n, after, creator)
  {
    hide TablesOk, CountsOk, Fits, CitesNumber;
    forall i: nat | i < n && i !in d.missingParts
      ensures Present(MessagesAt(sources, i), after, creator)
    {
      PresentGrows(MessagesAt(sources, i), before, after, creator);
    }
    hide Present;
  }

  lemma DiscoveredTables(d: Discovery, sources: seq<Source>, n: nat, history: History, creator: bool)
    requires Discovered(d, sources, n, history, creator)
    ensures n <= |sources| && TablesOk(d.found, Cited(sources, n), creator) && CountsOk(d.found)
  {
    hide TablesOk, CountsOk, Fits, Present, CountedAreCited, Cited;
  }

  lemma CitedOneMore(sources: seq<Source>, n: nat)
    requires n < |sources|
    ensures Cited(sources, n + 1) == Cited(sources, n) + Set(MessagesAt(sources, n))
  {
  }

  lemma NothingMissingIsPresent(messages: seq<Message>, history: History, creator: bool)
    requires Missing(messages, history, creator) == []
    requires forall m :: m in messages && InScope(m, creator) ==> Agrees(m, history)
    ensures Present(messages, history, creator)
  {
    MissingOnes(messages, history, creator);
    hide Missing;
    forall m | m in messages && InScope(m, creator)
      ensures m.number in history
    {
      assert !IsMissing(m, history, creator);
    }
  }

  lemma DiscoveredOneMore(d: Discovery, sources: seq<Source>, n: nat, history: History, creator: bool, missing: seq<Message>, found: Found)
    requires n < |sources| && Discovered(d, sources, n, history, creator)
    requires Fits(sources[n].part.digest.contents, sources[n].roomId, sources[n].part)
    requires missing == Missing(MessagesAt(sources, n), history, creator)
    requires forall m :: m in MessagesAt(sources, n) && InScope(m, creator) ==> Agrees(m, history)
    requires TablesOk(found, Cited(sources, n) + Set(MessagesAt(sources, n)), creator) && CountsOk(found)
    requires forall k :: k in found.seen ==>
               (k in d.found.seen && found.seen[k] == d.found.seen[k])
               || (found.seen[k].message in MessagesAt(sources, n) && IsMarked(found.seen[k], missing, creator))
    ensures Discovered(Discovery(found, if missing != [] then d.missingParts + {n} else d.missingParts), sources, n + 1, history, creator)
  {
    hide TablesOk, CountsOk, Fits, Missing, Agrees, InScope, Cited, Set, Present, CountedAreCited;
    CitedOneMore(sources, n);
    if missing == [] {
      NothingMissingIsPresent(MessagesAt(sources, n), history, creator);
    }
    SeenAreNumbered(found, Cited(sources, n + 1), creator);
    CountedOneMore(d.found.seen, d.missingParts, sources, n, found.seen, missing);
  }

  lemma SeenAreNumbered(f: Found, scanned: set<Message>, creator: bool)
    requires TablesOk(f, scanned, creator)
    ensures forall n :: n in f.seen ==> f.seen[n].message.number == n && f.seen[n].message in scanned
    ensures forall m :: m in scanned ==> m.number in f.seen
  {
  }

  // ------------------------------------------------------------ the second pass

  function Numbers(messages: seq<Message>): set<nat> {
    set m | m in messages :: m.number
  }

  lemma NumbersGrow(processed: set<nat>, messages: seq<Message>, i: nat)
    requires i < |messages|
    ensures processed + Numbers(messages[..i + 1]) == processed + Numbers(messages[..i]) + {messages[i].number}
  {
    assert messages[..i + 1] == messages[..i] + [messages[i]];
  }

  lemma NoNumbers(processed: set<nat>, messages: seq<Message>)
    ensures processed + Numbers(messages[..0]) == processed
  {
  }

  lemma NothingProcessed(seen: map<nat, Seen>)
    ensures |{} * Chats(seen)| == 0 && |{} * Galleries(seen)| == 0
  {
  }

  /** A number processed for the first time counts where it was found to be missing. */
  lemma CountsWhenNew(processed: set<nat>, seen: map<nat, Seen>, n: nat)
    requires n in seen && n !in processed
    ensures |(processed + {n}) * Chats(seen)| == |processed * Chats(seen)| + (if seen[n].chat then 1 else 0)
    ensures |(processed + {n}) * Galleries(seen)| == |processed * Galleries(seen)| + (if seen[n].gallery then 1 else 0)
  {
    OneMoreVerified(processed, Chats(seen), n);
    OneMoreVerified(processed, Galleries(seen), n);
  }

  lemma NothingToBePresent(history: History, creator: bool)
    ensures Present([], history, creator)
  {
  }

  lemma PresentJoins(messages: seq<Message>, i: nat, j: nat, history: History, creator: bool)
    requires i <= j <= |messages| && Present(messages[..i], history, creator) && Present(messages[i..j], history, creator)
    ensures Present(messages[..j], history, creator)
  {
    assert messages[..j] == messages[..i] + messages[i..j];
  }

  lemma SliceIsSameByNumber(messages: seq<Message>, i: nat, j: nat)
    requires i <= j <= |messages| && ConflictFree(Set(messages))
    ensures SameByNumber(messages[i..j])
  {
    forall m, n | m in messages[i..j] && n in messages[i..j] && m.number == n.number
      ensures m == n
    {
      assert m in Set(messages) && n in Set(messages) && !Conflict(m, n);
    }
  }

  /** The second pass before part n: deletions are in, and so is every part before it. */
  ghost predicate Restored(d: Discovery, sources: seq<Source>, n: nat, history: History, creator: bool) {
    && n <= |sources|
    && Discovered(d, sources, |sources|, history, creator) && Present(d.found.deletes, history, creator)
    && forall i: nat :: i < n ==> Present(MessagesAt(sources, i), history, creator)
  }

  lemma RestoredLater(d: Discovery, sources: seq<Source>, n: nat, before: History, after: History, creator: bool)
    requires Restored(d, sources, n, before, creator) && Extends(before, after)
    ensures Restored(d, sources, n, after, creator)
  {
    hide Discovered;
    DiscoveredLater(d, sources, |sources|, before, after, creator);
    PresentGrows(d.found.deletes, before, after, creator);
    forall i: nat | i < n
      ensures Present(MessagesAt(sources, i), after, creator)
    {
      PresentGrows(MessagesAt(sources, i), before, after, creator);
    }
  }

  lemma RestoredOneMore(d: Discovery, sources: seq<Source>, n: nat, history: History, creator: bool)
    requires n < |sources| && Restored(d, sources, n, history, creator)
    requires n !in d.missingParts || Present(MessagesAt(sources, n), history, creator)
    ensures Restored(d, sources, n + 1, history, creator)
  {
    if n !in d.missingParts {
      SkippedIsPresent(d, sources, n, history, creator);
    }
    hide Discovered, Present;
  }

  lemma SkippedIsPresent(d: Discovery, sources: seq<Source>, i: nat, history: History, creator: bool)
    requires i < |sources| && Discovered(d, sources, |sources|, history, creator) && i !in d.missingParts
    ensures Present(MessagesAt(sources, i), history, creator)
  {
    hide TablesOk, CountsOk, Fits, Present, CountedAreCited, Cited;
  }

  lemma PartIsReadable(d: Discovery, sources: seq<Source>, i: nat, history: History, creator: bool)
    requires i < |sources| && Discovered(d, sources, |sources|, history, creator)
    ensures SameByNumber(MessagesAt(sources, i))
    ensures forall m :: m in MessagesAt(sources, i) ==> m.number in d.found.seen
  {
    AscendingIsSameByNumber(MessagesAt(sources, i));
    SeenAreNumbered(d.found, Cited(sources, |sources|), creator);
    forall m | m in MessagesAt(sources, i)
      ensures m in Cited(sources, |sources|)
    {
    }
  }

  lemma RestoredParts(d: Discovery, sources: seq<Source>, n: nat, history: History, creator: bool)
    requires Restored(d, sources, n, history, creator)
    ensures Discovered(d, sources, |sources|, history, creator) && Present(d.found.deletes, history, creator)
    ensures n <= |sources| && forall i: nat :: i < n ==> Present(MessagesAt(sources, i), history, creator)
  {
    hide Discovered, Present;
  }

  ghost predicate Processed(sources: seq<Source>, parts: set<nat>, n: nat, processed: set<nat>)
    requires n <= |sources|
  {
    forall i: nat :: i < n && i in parts ==> Numbers(MessagesAt(sources, i)) <= processed
  }

  lemma ProcessedOneMore(sources: seq<Source>, parts: set<nat>, n: nat, before: set<nat>, after: set<nat>)
    requires n < |sources| && Processed(sources, parts, n, before) && before <= after
    requires n in parts ==> Numbers(MessagesAt(sources, n)) <= after
    ensures Processed(sources, parts, n + 1, after)
  {
  }

  /** A joiner may restore everything but what only the gallery shows. */
  predicate IsRestorable(m: Message, creator: bool) {
    creator || (!m.kind.GalleryImage? && !m.kind.GalleryFile?)
  }

  predicate IsRestorableContent(m: Message, creator: bool) {
    !m.kind.MessageDelete? && IsRestorable(m, creator)
  }

  ghost predicate NoDeletesSince(before: seq<seq<Message>>, after: seq<seq<Message>>, creator: bool) {
    before <= after && forall i: nat, m :: |before| <= i < |after| && m in after[i] ==> IsRestorableContent(m, creator)
  }

  lemma NoDeletesChain(a: seq<seq<Message>>, b: seq<seq<Message>>, c: seq<seq<Message>>, creator: bool)
    requires NoDeletesSince(a, b, creator) && NoDeletesSince(b, c, creator)
    ensures NoDeletesSince(a, c, creator)
  {
  }

  /** Once the deletions are in, a part has none to import. */
  lemma NoDeleteIsMissing(d: Discovery, sources: seq<Source>, i: nat, history: History, creator: bool, missing: seq<Message>)
    requires i < |sources| && Discovered(d, sources, |sources|, history, creator) && Present(d.found.deletes, history, creator)
    requires forall m :: m in missing ==> m in MessagesAt(sources, i) && IsMissing(m, history, creator)
    ensures forall m :: m in missing ==> IsRestorableContent(m, creator)
  {
    hide CountsOk, Fits, CountedAreCited, SeenOk, IdsOk, ExpectedOk;
    forall m | m in missing
      ensures m.kind.MessageDelete? ==> m in d.found.deletes
    {
      assert m in Cited(sources, |sources|);
    }
  }

  lemma EverythingCounted(d: Discovery, sources: seq<Source>, history: History, creator: bool, processed: set<nat>)
    requires Discovered(d, sources, |sources|, history, creator)
    requires Processed(sources, d.missingParts, |sources|, processed)
    ensures |processed * Chats(d.found.seen)| == d.found.chatTotal && |processed * Galleries(d.found.seen)| == d.found.galleryTotal
  {
    hide TablesOk, Fits, Present, Cited;
    forall k | k in d.found.seen && (d.found.seen[k].chat || d.found.seen[k].gallery)
      ensures k in processed
    {
      var i: nat :| i in d.missingParts && i < |sources| && CitesNumber(sources, i, k);
      assert k in Numbers(MessagesAt(sources, i));
    }
    assert processed * Chats(d.found.seen) == Chats(d.found.seen) && processed * Galleries(d.found.seen) == Galleries(d.found.seen);
  }

  /** The second pass so far: the numbers processed, how many of them counted, and what was imported. */
  datatype Progress = Progress(processed: set<nat>, chat: nat, gallery: nat, imported: set<nat>)

  ghost predicate InStep(p: Progress, d: Discovery, sources: seq<Source>, n: nat, start: History, history: History, live: nat -> History,
                         creator: bool)
  {
    && Restored(d, sources, n, history, creator) && Processed(sources, d.missingParts, n, p.processed)
    && p.chat == |p.processed * Chats(d.found.seen)| && p.gallery == |p.processed * Galleries(d.found.seen)|
    && Imported(p.imported, start, history, live)
  }

  lemma FirstStep(d: Discovery, sources: seq<Source>, history: History, live: nat -> History, creator: bool)
    requires Discovered(d, sources, |sources|, history, creator) && Present(d.found.deletes, history, creator)
    ensures InStep(Progress({}, 0, 0, {}), d, sources, 0, history, history, live, creator)
  {
    hide Discovered, Present;
    NothingProcessed(d.found.seen);
    NothingImported(history, live);
  }

  lemma StepLater(p: Progress, d: Discovery, sources: seq<Source>, n: nat, start: History, before: History, history: History,
                  live: nat -> History, creator: bool)
    requires InStep(p, d, sources, n, start, before, live, creator) && history == live(n) + before && Extends(before, history)
    ensures InStep(p, d, sources, n, start, history, live, creator)
  {
    hide Restored, Processed, Imported, Extends, Chats, Galleries;
    RestoredLater(d, sources, n, before, history, creator);
    ImportedLater(p.imported, start, before, history, live, n);
  }

  lemma StepSkips(p: Progress, d: Discovery, sources: seq<Source>, n: nat, start: History, history: History, live: nat -> History, creator: bool)
    requires n < |sources| && InStep(p, d, sources, n, start, history, live, creator) && n !in d.missingParts
    ensures InStep(p, d, sources, n + 1, start, history, live, creator)
  {
    hide Restored, Processed, Imported, Chats, Galleries;
    ProcessedOneMore(sources, d.missingParts, n, p.processed, p.processed);
    RestoredOneMore(d, sources, n, history, creator);
  }

  lemma LastStep(p: Progress, d: Discovery, sources: seq<Source>, start: History, history: History, live: nat -> History, creator: bool)
    requires InStep(p, d, sources, |sources|, start, history, live, creator)
    ensures p.chat == d.found.chatTotal && p.gallery == d.found.galleryTotal
    ensures Discovered(d, sources, |sources|, history, creator) && Imported(p.imported, start, history, live)
    ensures forall i: nat :: i < |sources| ==> Present(MessagesAt(sources, i), history, creator)
  {
    hide Restored, Processed, Imported, Chats, Galleries, Discovered;
    RestoredParts(d, sources, |sources|, history, creator);
    EverythingCounted(d, sources, history, creator, p.processed);
  }

  // ------------------------------------------------------------ the audit

  /** The device holds every expected record as it was archived. */
  predicate AsArchived(expected: map<nat, Plan>, history: History) {
    forall n :: n in expected ==> n in history && history[n] == expected[n].message
  }

  /** A page of numbers above `after`: ascending, and without a gap. */
  predicate IsPage(page: seq<nat>, history: History, after: nat) {
    && (forall i: nat :: i < |page| ==> page[i] in history && page[i] > after)
    && (forall i: nat, j: nat :: i < j < |page| ==> page[i] < page[j])
    && (forall n :: n in history && n > after && (page == [] || n <= page[|page| - 1]) ==> n in page)
  }

  /** What the audit has found up to a number: the expected records held so far, all as archived. */
  ghost predicate Verified(verified: set<nat>, expected: map<nat, Plan>, history: History, upto: nat) {
    && (forall n :: n in verified <==> n in expected && n in history && n <= upto)
    && (forall n :: n in verified ==> history[n] == expected[n].message)
  }

  /** The audit so far: its two rows and the numbers it has verified. */
  datatype Audit = Audit(chat: Row, gallery: Row, verified: set<nat>)

  const NO_ROW := Row(0, 0, 0, 0, 0, 0)

  ghost predicate AuditOk(a: Audit, expected: map<nat, Plan>, history: History, upto: nat, imported: set<nat>, visible: (Message, bool) -> bool) {
    && Verified(a.verified, expected, history, upto)
    && Tallied(a.chat, a.verified, expected, false, imported, visible) && Tallied(a.gallery, a.verified, expected, true, imported, visible)
  }

  lemma NothingAudited(expected: map<nat, Plan>, history: History, upto: nat, imported: set<nat>, visible: (Message, bool) -> bool)
    requires forall n :: n in expected ==> n > upto
    ensures AuditOk(Audit(NO_ROW, NO_ROW, {}), expected, history, upto, imported, visible)
  {
    
  }

  /** Nothing expected is left above, so the count says whether every expected record was verified. */
  lemma AllVerifiedExactly(a: Audit, expected: map<nat, Plan>, history: History, upto: nat, imported: set<nat>, visible: (Message, bool) -> bool)
    requires AuditOk(a, expected, history, upto, imported, visible)
    requires IsPage([], history, upto) || forall n :: n in expected ==> n <= upto
    ensures |a.verified| == |expected| <==> AsArchived(expected, history)
    ensures |a.verified| == |expected| ==> Tallied(a.chat, expected.Keys, expected, false, imported, visible)
    ensures |a.verified| == |expected| ==> Tallied(a.gallery, expected.Keys, expected, true, imported, visible)
  {
    hide Tallied;
    SmallerIsProper(a.verified, expected.Keys);
  }

  /** One number below and the greatest of the expected numbers. */
  method Bounds(expected: map<nat, Plan>) returns (first: nat, last: nat)
    requires forall n :: n in expected ==> n >= 1
    ensures first >= 1 && forall n :: n in expected ==> first <= n <= last
  {
    first, last := 0x1f_ffff_ffff_ffff, 0;
    var left := expected.Keys;
    while left != {}
      invariant left <= expected.Keys && first >= 1
      invariant forall n :: n in expected && n !in left ==> first <= n <= last
      decreases |left|
    {
      var n :| n in left;
      left := left - {n};
      first := if n < first then n else first;
      last := if n > last then n else last;
    }
  }

  lemma SmallerIsProper(a: set<nat>, b: set<nat>)
    requires a <= b
    ensures |a| <= |b| && (|a| == |b| <==> a == b)
    decreases |b|
  {
    if a != b {
      var k :| k in b && k !in a;
      assert a <= b - {k};
      SmallerIsProper(a, b - {k});
    }
  }

  // ------------------------------------------------------------ the restore

  datatype Status = Status(chatRestored: nat, galleryRestored: nat, found: Found, chat: Row, gallery: Row)

  /** What was found missing was restored, and the audit saw the inventory of the first pass. */
  predicate Conserved(s: Status) {
    && s.chatRestored == s.found.chatTotal && s.galleryRestored == s.found.galleryTotal
    && Count(s.chat.backup, s.chat.existing) == s.found.chatCount
    && Count(s.gallery.backup, s.gallery.existing) == s.found.galleryCount
    && s.chat.visible + s.chat.hidden == s.chat.imported && s.gallery.visible + s.gallery.hidden == s.gallery.imported
  }

  ghost predicate DeletesBefore(imports: seq<seq<Message>>, k: nat, creator: bool) {
    && k <= |imports|
    && (forall i: nat, m :: i < k && m in imports[i] ==> m.kind.MessageDelete?)
    && (forall i: nat, m :: k <= i < |imports| && m in imports[i] ==> IsRestorableContent(m, creator))
  }

  /** From some point on no deletion is imported, and before it nothing else is. */
  ghost predicate DeletesComeFirst(imports: seq<seq<Message>>, creator: bool) {
    exists k: nat :: DeletesBefore(imports, k, creator)
  }

  /** All cited messages, part after part. */
  function AllCited(sources: seq<Source>, n: nat): seq<Message>
    requires n <= |sources|
  {
    if n == 0 then [] else AllCited(sources, n - 1) + MessagesAt(sources, n - 1)
  }

  lemma {:induction false} AllArePresentUpTo(sources: seq<Source>, n: nat, history: History, creator: bool)
    requires n <= |sources| && forall i: nat :: i < n ==> Present(MessagesAt(sources, i), history, creator)
    ensures Present(AllCited(sources, n), history, creator)
  {
    if n > 0 {
      AllArePresentUpTo(sources, n - 1, history, creator);
    }
  }

  lemma AllArePresent(sources: seq<Source>, history: History, creator: bool)
    requires forall i: nat :: i < |sources| ==> Present(MessagesAt(sources, i), history, creator)
    ensures Present(AllCited(sources, |sources|), history, creator)
  {
    AllArePresentUpTo(sources, |sources|, history, creator);
  }

  /** Whatever the role, everything that is not only for the gallery is on the device as it was archived; a
      creator has the rest, too. */
  ghost predicate AllHeld(sources: seq<Source>, history: History, creator: bool) {
    forall i: nat, m :: i < |sources| && m in sources[i].part.digest.contents.messages && IsRestorable(m, creator) ==>
      m.number in history && history[m.number] == m
  }

  lemma AllAreHeld(sources: seq<Source>, history: History, creator: bool)
    requires forall i: nat :: i < |sources| ==> Present(MessagesAt(sources, i), history, creator)
    ensures AllHeld(sources, history, creator)
  {
    forall i: nat, m | i < |sources| && m in sources[i].part.digest.contents.messages && IsRestorable(m, creator)
      ensures m.number in history && history[m.number] == m
    {
      assert m in MessagesAt(sources, i) && Present(MessagesAt(sources, i), history, creator);
    }
  }

  lemma NoImports(imports: seq<seq<Message>>, creator: bool)
    ensures DeletesComeFirst(imports[|imports|..], creator)
  {
    assert DeletesBefore(imports[|imports|..], 0, creator);
  }

  lemma OnlyDeletes(before: seq<seq<Message>>, after: seq<seq<Message>>, creator: bool)
    requires before <= after && forall i: nat, m :: |before| <= i < |after| && m in after[i] ==> m.kind.MessageDelete?
    ensures DeletesComeFirst(after[|before|..], creator)
  {
    var imports := after[|before|..];
    assert forall i: nat :: i < |imports| ==> imports[i] == after[|before| + i];
    assert DeletesBefore(imports, |imports|, creator);
  }

  lemma DeletesThenContent(before: seq<seq<Message>>, between: seq<seq<Message>>, after: seq<seq<Message>>, creator: bool)
    requires before <= between && forall i: nat, m :: |before| <= i < |between| && m in between[i] ==> m.kind.MessageDelete?
    requires NoDeletesSince(between, after, creator)
    ensures before <= after && DeletesComeFirst(after[|before|..], creator)
  {
    var imports, k := after[|before|..], |between| - |before|;
    assert forall i: nat :: i < |imports| ==> imports[i] == after[|before| + i];
    assert forall i: nat :: i < k ==> imports[i] == between[|before| + i];
    assert DeletesBefore(imports, k, creator);
  }

  lemma DiscoveryIsSound(d: Discovery, sources: seq<Source>, history: History, creator: bool)
    requires Discovered(d, sources, |sources|, history, creator)
    ensures ConflictFree(Cited(sources, |sources|)) && ConflictFree(Set(d.found.deletes))
    ensures forall m :: m in d.found.deletes ==> m.kind.MessageDelete?
    ensures forall n :: n in d.found.expected ==> n >= 1
    ensures TablesOk(d.found, Cited(sources, |sources|), creator) && CountsOk(d.found)
  {
    TablesAreConflictFree(d.found, Cited(sources, |sources|), creator);
    SeenAreNumbered(d.found, Cited(sources, |sources|), creator);
    hide CountsOk, CountedAreCited, Present, InScope;
    forall m | m in Cited(sources, |sources|)
      ensures m.number >= 1
    {
      var i := CitedSomewhere(sources, m);
      var s := MessagesAt(sources, i);
      assert Fits(sources[i].part.digest.contents, sources[i].roomId, sources[i].part);
      var j :| 0 <= j < |s| && s[j] == m;
    }
  }

  /** After the second pass the audit has nothing to object to. */
  lemma AuditPasses(d: Discovery, sources: seq<Source>, history: History, creator: bool)
    requires Discovered(d, sources, |sources|, history, creator)
    requires forall i: nat :: i < |sources| ==> Present(MessagesAt(sources, i), history, creator)
    ensures AsArchived(d.found.expected, history)
  {
    ExpectedAreCited(d.found, Cited(sources, |sources|), creator);
    hide Discovered, TablesOk, InScope, Cited;
    forall n | n in d.found.expected
      ensures n in history && history[n] == d.found.expected[n].message
    {
      var i := CitedSomewhere(sources, d.found.expected[n].message);
      assert Present(MessagesAt(sources, i), history, creator);
    }
  }

  lemma ExpectedAreCited(f: Found, scanned: set<Message>, creator: bool)
    requires TablesOk(f, scanned, creator)
    ensures forall n :: n in f.expected ==>
              var m := f.expected[n].message; m in scanned && m.number == n && InScope(m, creator)
  {
    hide IdsOk, DeletesOk, InScope, IsChat, IsGallery;
  }

  lemma CitedSomewhere(sources: seq<Source>, m: Message) returns (i: nat)
    requires m in Cited(sources, |sources|)
    ensures i < |sources| && m in MessagesAt(sources, i)
  {
    i :| i < |sources| && m in MessagesAt(sources, i);
  }

  lemma SplitCount(a: set<nat>, b: set<nat>)
    ensures |a * b| + |a - b| == |a|
  {
    assert a == a * b + (a - b);
  }

  lemma PartOf(all: set<nat>, s: set<nat>)
    requires s <= all
    ensures all * s == s
  {
  }

  lemma AllCounted(r: Row, expected: map<nat, Plan>, gallery: bool, imported: set<nat>, visible: (Message, bool) -> bool)
    requires Tallied(r, expected.Keys, expected, gallery, imported, visible)
    ensures var planned, shown := Planned(expected, gallery), Shown(expected, gallery, visible);
            && r.backup == |planned| && r.existing == |Existing(expected, gallery)| && r.available == |planned * shown|
            && r.imported == |planned * imported| && r.visible == |planned * imported * shown| && r.visible + r.hidden == r.imported
  {
    var planned, shown := Planned(expected, gallery), Shown(expected, gallery, visible);
    PartOf(expected.Keys, planned);
    PartOf(expected.Keys, Existing(expected, gallery));
    hide Planned, Existing, Shown;
    PartOf(expected.Keys, planned * imported);
    PartOf(expected.Keys, planned * shown);
    PartOf(expected.Keys, planned * imported * shown);
    PartOf(expected.Keys, planned * imported - shown);
    SplitCount(planned * imported, shown);
  }

  /** An imported record of a kind was marked as missing, since it was not there when the first pass ended. */
  lemma OnlyMarkedCount(f: Found, imported: set<nat>, before: History, discovered: History, scanned: set<Message>, creator: bool)
    requires TablesOk(f, scanned, creator) && Marked(f.seen, before, discovered, creator) && imported !! discovered.Keys
    ensures Planned(f.expected, false) * imported <= Chats(f.seen) && Planned(f.expected, true) * imported <= Galleries(f.seen)
  {
    hide InScope, IsChat, IsGallery, SeenOk, IdsOk, DeletesOk;
    forall n | n in f.expected && n in imported
      ensures n in f.seen && MarkFits(f.seen[n], n, before, discovered, creator)
    {
    }
  }

  /** When everything new was imported, whatever was marked was. */
  lemma AllMarkedCount(f: Found, imported: set<nat>, before: History, after: History, scanned: set<Message>, creator: bool)
    requires TablesOk(f, scanned, creator) && Marked(f.seen, before, before, creator) && AsArchived(f.expected, after)
    requires imported == after.Keys - before.Keys
    ensures Planned(f.expected, false) * imported == Chats(f.seen) && Planned(f.expected, true) * imported == Galleries(f.seen)
  {
    OnlyMarkedCount(f, imported, before, before, scanned, creator);
    hide InScope, IsChat, IsGallery, SeenOk, IdsOk, DeletesOk;
    forall n | n in f.seen && (f.seen[n].chat || f.seen[n].gallery)
      ensures n in f.expected && n in imported && MarkFits(f.seen[n], n, before, before, creator)
    {
    }
  }

  /** No more is audited as imported than was found missing, and what is available are the visible ones of
      all that is archived. */
  predicate Audited(s: Status, visible: (Message, bool) -> bool) {
    var e := s.found.expected;
    && s.chat.imported <= s.found.chatTotal && s.gallery.imported <= s.found.galleryTotal
    && s.chat.available == |Planned(e, false) * Shown(e, false, visible)|
    && s.gallery.available == |Planned(e, true) * Shown(e, true, visible)|
  }

  /** Everything that was found missing is audited as imported, by whether it is visible. */
  predicate FullyAudited(s: Status, visible: (Message, bool) -> bool) {
    var e, seen := s.found.expected, s.found.seen;
    && s.chat.imported == s.found.chatTotal && s.gallery.imported == s.found.galleryTotal
    && s.chat.visible == |Chats(seen) * Shown(e, false, visible)|
    && s.gallery.visible == |Galleries(seen) * Shown(e, true, visible)|
  }

  lemma ImportedCounts(s: Status, imported: set<nat>, visible: (Message, bool) -> bool, before: History, discovered: History, after: History,
                       scanned: set<Message>, creator: bool)
    requires var f := s.found;
             && TablesOk(f, scanned, creator) && CountsOk(f) && Marked(f.seen, before, discovered, creator) && imported !! discovered.Keys
             && AsArchived(f.expected, after)
             && Tallied(s.chat, f.expected.Keys, f.expected, false, imported, visible)
             && Tallied(s.gallery, f.expected.Keys, f.expected, true, imported, visible)
    ensures Audited(s, visible)
    ensures before == discovered && imported == after.Keys - before.Keys ==> FullyAudited(s, visible)
  {
    var f := s.found;
    hide TablesOk, Tallied, Planned, Existing, Chats, Galleries, Shown, Marked, AsArchived;
    AllCounted(s.chat, f.expected, false, imported, visible);
    AllCounted(s.gallery, f.expected, true, imported, visible);
    OnlyMarkedCount(f, imported, before, discovered, scanned, creator);
    SmallerIsProper(Planned(f.expected, false) * imported, Chats(f.seen));
    SmallerIsProper(Planned(f.expected, true) * imported, Galleries(f.seen));
    if before == discovered && imported == after.Keys - before.Keys {
      AllMarkedCount(f, imported, before, after, scanned, creator);
    }
  }

  lemma CountsAgree(f: Found, s: Status, imported: set<nat>, visible: (Message, bool) -> bool, scanned: set<Message>, creator: bool)
    requires TablesOk(f, scanned, creator) && CountsOk(f) && s.found == f
    requires s.chatRestored == f.chatTotal && s.galleryRestored == f.galleryTotal
    requires Tallied(s.chat, f.expected.Keys, f.expected, false, imported, visible) && Tallied(s.gallery, f.expected.Keys, f.expected, true, imported, visible)
    ensures Conserved(s)
  {
    hide TablesOk, Tallied, Planned, Existing, Chats, Galleries, Shown;
    AllCounted(s.chat, f.expected, false, imported, visible);
    AllCounted(s.gallery, f.expected, true, imported, visible);
  }

  class HistoryRestore {
    const sources: seq<Source>
    const creator: bool
    const size: Sealed -> nat
    var history: History
    var cache: map<nat, Sealed>
    var batchCache: map<nat, Sealed>
    var cacheSize: nat
    var requests: nat
    /** What each committed import put into the history, in order. */
    ghost var imports: seq<seq<Message>>

    /** The retained ciphertexts are those of cited parts, and stay within their budget. */
    ghost predicate Valid()
      reads this
    {
      Retained(cache, size, |sources|) <= cacheSize <= MAX_CACHE && Genuine(cache, sources)
    }

    constructor (sources: seq<Source>, creator: bool, size: Sealed -> nat, history: History)
      ensures Valid() && this.sources == sources && this.creator == creator && this.size == size && this.history == history
      ensures imports == []
    {
      this.sources, this.creator, this.size, this.history := sources, creator, size, history;
      cache, batchCache, cacheSize, requests, imports := map[], map[], 0, 0, [];
      new;
      NothingRetained(size, |sources|);
    }

    /** Rows that arrive from the room meanwhile take numbers the device does not hold. */
    method Live(rows: History)
      modifies this`history
      ensures Extends(old(history), history) && history == rows + old(history)
      ensures rows == map[] ==> history == old(history)
    {
      history := rows + history;
    }

    /** From one part to another all belong to one archive. */
    predicate SameArchive(index: nat, j: nat)
      requires index < |sources|
    {
      index <= j < |sources| && forall k: nat :: index <= k <= j ==> sources[k].archiveId == sources[index].archiveId
    }

    predicate IsWanted(wanted: seq<nat>, id: nat) {
      exists k: nat :: k < |wanted| && wanted[k] < |sources| && sources[wanted[k]].part.id == id
    }

    /** The parts asked for with part `index`: up to twenty of the same archive, from it on, not yet held. */
    method Wanted(index: nat) returns (wanted: seq<nat>)
      requires index < |sources| && index !in cache
      ensures 0 < |wanted| <= MAX_WANTED && wanted[0] == index
      ensures forall k: nat :: k < |wanted| ==> index <= wanted[k] < |sources| && sources[wanted[k]].archiveId == sources[index].archiveId
      ensures forall j: nat, k: nat :: j < k < |wanted| ==>
                wanted[j] < wanted[k] && sources[wanted[j]].part.id != sources[wanted[k]].part.id
      ensures |wanted| < MAX_WANTED ==> forall j: nat :: SameArchive(index, j) && j !in cache ==> IsWanted(wanted, sources[j].part.id)
    {
      wanted := [index];
      var next := index + 1;
      while next < |sources| && |wanted| < MAX_WANTED
        invariant index < next <= |sources| && 0 < |wanted| <= MAX_WANTED && wanted[0] == index
        invariant forall k: nat :: k < |wanted| ==> index <= wanted[k] < next && sources[wanted[k]].archiveId == sources[index].archiveId
        invariant forall j: nat, k: nat :: j < k < |wanted| ==>
                    wanted[j] < wanted[k] && sources[wanted[j]].part.id != sources[wanted[k]].part.id
        invariant forall j: nat :: index <= j < next && j !in cache ==> IsWanted(wanted, sources[j].part.id)
      {
        ghost var before := wanted;
        if sources[next].archiveId != sources[index].archiveId {
          return;
        }
        if next !in cache && forall k :: 0 <= k < |wanted| ==> sources[wanted[k]].part.id != sources[next].part.id {
          wanted := wanted + [next];
          assert wanted[|before|] == next;
        }
        forall j: nat | index <= j <= next && j !in cache
          ensures IsWanted(wanted, sources[j].part.id)
        {
          if IsWanted(before, sources[j].part.id) {
            var k: nat :| k < |before| && before[k] < |sources| && sources[before[k]].part.id == sources[j].part.id;
            assert wanted[k] == before[k];
          }
        }
        next := next + 1;
      }
    }

    /** Asks for a batch; an answer must be a non-empty run of what was asked for. */
    method FetchBatch(index: nat, answers: (nat, nat, seq<nat>) -> Option<seq<Reply>>) returns (ok: bool)
      requires Valid() && index < |sources| && index !in cache
      modifies this`batchCache, this`requests
      ensures ok ==> index in batchCache
      ensures Honest(answers, sources) ==> ok && Genuine(batchCache, sources)
    {
      batchCache := map[];
      var wanted := Wanted(index);
      var ids := seq(|wanted|, (k: nat) requires k < |wanted| => sources[wanted[k]].part.id);
      assert forall id <- ids :: IsCited(sources, sources[index].archiveId, id) by {
        forall k: nat | k < |ids|
          ensures IsCited(sources, sources[index].archiveId, ids[k])
        {
          assert sources[wanted[k]].part.id == ids[k];
        }
      }
      var answer := answers(requests, sources[index].archiveId, ids);
      requests := requests + 1;
      if answer.None? || |answer.value| == 0 || |answer.value| > |wanted| {
        return false;
      }
      if exists k :: 0 <= k < |answer.value| && answer.value[k].id != ids[k] {
        return false;
      }
      var k := 0;
      while k < |answer.value|
        invariant k <= |answer.value| && (k > 0 ==> index in batchCache)
        invariant Honest(answers, sources) ==> Genuine(batchCache, sources)
      {
        batchCache := batchCache[wanted[k] := answer.value[k].contents];
        k := k + 1;
      }
      return true;
    }

    /** Whatever was cached, batched or answered, a part that is read is the part that was cited. */
    method Read(index: nat, answers: (nat, nat, seq<nat>) -> Option<seq<Reply>>) returns (r: Result<seq<Message>>)
      requires Valid() && index < |sources|
      modifies this`cache, this`batchCache, this`cacheSize, this`requests
      ensures Valid()
      ensures r.Ok? ==> r.value == MessagesAt(sources, index)
      ensures r.Ok? ==> Fits(sources[index].part.digest.contents, sources[index].roomId, sources[index].part)
      ensures r.Ok? && index !in old(cache) ==>
                if old(cacheSize) + 2 * size(sources[index].part.digest.contents) <= MAX_CACHE
                then cache == old(cache)[index := sources[index].part.digest.contents]
                     && cacheSize == old(cacheSize) + 2 * size(sources[index].part.digest.contents)
                else cache == old(cache) && cacheSize == old(cacheSize)
      ensures r.Ok? ==> index !in batchCache
      ensures r.Err? || index in old(cache) ==> cache == old(cache) && cacheSize == old(cacheSize)
      ensures Honest(answers, sources) && Genuine(old(batchCache), sources) ==> Genuine(batchCache, sources)
      ensures Honest(answers, sources) && Genuine(old(batchCache), sources) && AllFit(sources) ==> r.Ok?
    {
      hide Honest, Fits;
      if index !in cache && index !in batchCache {
        var ok := FetchBatch(index, answers);
        if !ok {
          return Err;
        }
      }
      var contents := if index in cache then cache[index] else batchCache[index];
      batchCache := batchCache - {index};
      var source := sources[index];
      if Digest(contents) != source.part.digest {
        return Err;
      }
      r := ValidateArchivePart(contents, source.roomId, source.part);
      if r.Ok? && index !in cache && cacheSize + 2 * size(contents) <= MAX_CACHE {
        RetainedKept(cache, size, index, contents, |sources|);
        cache := cache[index := contents];
        cacheSize := cacheSize + 2 * size(contents);
      }
    }

    method Drop(index: nat)
      requires Valid()
      modifies this`cache
      ensures Valid() && cache == old(cache) - {index}
    {
      RetainedDropped(cache, size, index, |sources|);
      cache := cache - {index};
    }

    /** The messages the device lacks; none of those it has may differ. */
    method FindMissing(messages: seq<Message>) returns (r: Result<seq<Message>>)
      ensures r.Ok? <==> forall m :: m in messages && InScope(m, creator) ==> Agrees(m, history)
      ensures r.Ok? ==> r.value == Missing(messages, history, creator)
    {
      var missing := [];
      var i := 0;
      while i < |messages|
        invariant i <= |messages| && missing == Missing(messages[..i], history, creator)
        invariant forall m :: m in messages[..i] && InScope(m, creator) ==> Agrees(m, history)
      {
        var m := messages[i];
        assert messages[..i + 1] == messages[..i] + [m] && messages[..i + 1][..i] == messages[..i];
        if InScope(m, creator) {
          if m.number in history && history[m.number] != m {
            assert m in messages;
            return Err;
          }
          if m.number !in history {
            missing := missing + [m];
          }
        }
        i := i + 1;
      }
      assert messages[..i] == messages;
      return Ok(missing);
    }

    /** One transaction: everything missing is put, or nothing is. */
    method Import(messages: seq<Message>, commits: bool) returns (r: Result<seq<Message>>)
      requires SameByNumber(messages)
      modifies this`history, this`imports
      ensures Extends(old(history), history)
      ensures r.Err? ==> history == old(history) && imports == old(imports)
      ensures r.Ok? ==> Present(messages, history, creator) && imports == old(imports) + [r.value]
      ensures r.Ok? ==> forall m :: m in r.value <==> m in messages && IsMissing(m, old(history), creator)
      ensures r.Ok? ==> Adds(old(history), r.value, history) && Numbers(r.value) == history.Keys - old(history).Keys
      ensures (forall m :: m in messages && InScope(m, creator) ==> Agrees(m, old(history))) && commits ==> r.Ok?
    {
      r := FindMissing(messages);
      assert Extends(history, history);
      if r.Err? || !commits {
        return Err;
      }
      var missing := r.value;
      ImportingMakesPresent(messages, history, creator);
      MissingOnes(messages, history, creator);
      ImportingAddsNumbers(messages, history, creator);
      hide Missing, Written, Present, Extends, SameByNumber, IsMissing, Agrees, InScope, Adds, Numbers;
      AddsExtends(history, missing, Written(history, missing));
      Put(missing);
      imports := imports + [missing];
    }

    method Put(messages: seq<Message>)
      modifies this`history
      ensures history == Written(old(history), messages)
    {
      var i := 0;
      while i < |messages|
        invariant i <= |messages| && history == Written(old(history), messages[..i])
      {
        assert messages[..i + 1][..i] == messages[..i];
        history := history[messages[i].number := messages[i]];
        i := i + 1;
      }
      assert messages[..i] == messages;
    }

    // ---------------------------------------------------------- first pass

    /** Scans one part; None exactly when it brings a contradiction. */
    method ScanPart(messages: seq<Message>, missing: seq<Message>, f: Found, ghost scanned: set<Message>) returns (r: Option<Found>)
      requires TablesOk(f, scanned, creator) && CountsOk(f)
      ensures r.Some? ==> TablesOk(r.value, scanned + Set(messages), creator) && CountsOk(r.value)
      ensures r.Some? ==> forall n :: n in r.value.seen ==>
                (n in f.seen && r.value.seen[n] == f.seen[n])
                || (r.value.seen[n].message in messages && IsMarked(r.value.seen[n], missing, creator))
      ensures r.None? <==> !ConflictFree(scanned + Set(messages))
    {
      hide CountsOk, TablesOk, Scan;
      var found := f;
      var i := 0;
      TablesAreConflictFree(f, scanned, creator);
      assert scanned + Set(messages[..0]) == scanned;
      while i < |messages|
        invariant i <= |messages|
        invariant TablesOk(found, scanned + Set(messages[..i]), creator) && CountsOk(found)
        invariant forall n :: n in found.seen ==>
                    (n in f.seen && found.seen[n] == f.seen[n])
                    || (found.seen[n].message in messages && IsMarked(found.seen[n], missing, creator))
      {
        var m := messages[i];
        ghost var before := scanned + Set(messages[..i]);
        SetGrows(scanned, messages, i);
        ScanStopsExactly(found, before, m, m in missing, creator);
        var next := Scan(found, m, m in missing, creator);
        if next.None? {
          return None;
        }
        ScanKeepsTables(found, before, m, m in missing, creator);
        ScanKeepsCounts(found, before, m, m in missing, creator);
        ScanAddsOne(found, m, m in missing, creator);
        found := next.value;
        i := i + 1;
      }
      assert messages[..i] == messages;
      TablesAreConflictFree(found, scanned + Set(messages), creator);
      return Some(found);
    }

    /** Reads every part once. Nothing is imported, and a contradiction between any two parts stops it. */
    method Discover(answers: (nat, nat, seq<nat>) -> Option<seq<Reply>>, live: nat -> History) returns (r: Option<Discovery>)
      requires Valid()
      modifies this`history, this`cache, this`batchCache, this`cacheSize, this`requests
      ensures Valid() && Extends(old(history), history)
      ensures r.Some? ==> Discovered(r.value, sources, |sources|, history, creator)
      ensures r.Some? ==> Marked(r.value.found.seen, old(history), history, creator)
      ensures (forall k: nat :: live(k) == map[]) ==> history == old(history)
      ensures Calm(answers, live, sources, old(history), old(batchCache), creator) ==>
                r.Some? && Calm(answers, live, sources, history, batchCache, creator)
    {
      hide TablesOk, CountsOk, Fits, Extends, Present, Calm, Honest, Genuine, AllFit, Marked, IsMarked, Agrees, InScope, ConflictFree,
           Retained, Discovered, Cited, Set, MessagesAt;
      ghost var calm := Calm(answers, live, sources, history, batchCache, creator);
      var d := Discovery(Found(map[], map[], [], map[], 0, 0, Count(0, 0), Count(0, 0)), {});
      var index := 0;
      NothingDiscovered(sources, history, creator);
      NothingMarked(history, creator);
      ExtendsSelf(history);
      while index < |sources|
        invariant index <= |sources| && Valid() && Extends(old(history), history)
        invariant Discovered(d, sources, index, history, creator) && Marked(d.found.seen, old(history), history, creator)
        invariant (forall k: nat :: live(k) == map[]) ==> history == old(history)
        invariant calm ==> Calm(answers, live, sources, history, batchCache, creator)
      {
        ghost var before := history;
        if calm {
          CalmLive(answers, live, sources, history, batchCache, creator, index);
          CalmPart(answers, live, sources, live(index) + history, batchCache, creator, index);
        }
        Live(live(index));
        DiscoveredLater(d, sources, index, before, history, creator);
        MarkedLater(d.found.seen, old(history), before, history, creator);
        ExtendsChain(old(history), before, history);
        ghost var batch := batchCache;
        var messages := Read(index, answers);
        if messages.Err? {
          return None;
        }
        var missing := FindMissing(messages.value);
        if missing.Err? {
          return None;
        }
        DiscoveredTables(d, sources, index, history, creator);
        var found := ScanPart(messages.value, missing.value, d.found, Cited(sources, index));
        if found.None? {
          return None;
        }
        DiscoveredOneMore(d, sources, index, history, creator, missing.value, found.value);
        SeenAreNumbered(found.value, Cited(sources, index) + Set(messages.value), creator);
        MarkedOneMore(d.found.seen, old(history), history, found.value.seen, messages.value, missing.value, creator);
        if calm {
          NothingAdded(history);
          CalmAgain(answers, live, sources, history, batch, [], history, batchCache, creator);
        }
        d := Discovery(found.value, if missing.value != [] then d.missingParts + {index} else d.missingParts);
        index := index + 1;
      }
      return Some(d);
    }

    // ---------------------------------------------------------- second pass

    /** The deletions are committed, a hundred at a time, before any content. */
    method ImportDeletes(deletes: seq<Message>, commits: nat -> bool, ghost cited: set<Message>) returns (r: Option<set<nat>>)
      requires ConflictFree(Set(deletes)) && forall m :: m in deletes ==> m.kind.MessageDelete?
      modifies this`history, this`imports
      ensures Extends(old(history), history) && old(imports) <= imports
      ensures forall i: nat, m :: |old(imports)| <= i < |imports| && m in imports[i] ==> m.kind.MessageDelete?
      ensures r.Some? ==> Present(deletes, history, creator) && r.value == history.Keys - old(history).Keys
      ensures Harmony(cited, old(history), creator) && Set(deletes) <= cited && (forall k :: commits(k)) ==>
                r.Some? && Harmony(cited, history, creator)
    {
      hide Extends, Present, ConflictFree, Harmony, Adds, Agrees, InScope, Numbers;
      var imported: set<nat> := {};
      var index := 0;
      ExtendsSelf(history);
      NothingToBePresent(history, creator);
      while index < |deletes|
        invariant index <= |deletes| && Extends(old(history), history) && old(imports) <= imports
        invariant forall i: nat, m :: |old(imports)| <= i < |imports| && m in imports[i] ==> m.kind.MessageDelete?
        invariant Present(deletes[..index], history, creator) && imported == history.Keys - old(history).Keys
        invariant Harmony(cited, old(history), creator) && Set(deletes) <= cited && (forall k :: commits(k)) ==> Harmony(cited, history, creator)
      {
        var next := if index + DELETES_PAGE < |deletes| then index + DELETES_PAGE else |deletes|;
        ghost var before := history;
        SliceIsSameByNumber(deletes, index, next);
        if Harmony(cited, history, creator) && Set(deletes) <= cited {
          HarmonyAgrees(cited, deletes, index, next, history, creator);
        }
        var page := Import(deletes[index..next], commits(index));
        ExtendsChain(old(history), before, history);
        if page.Err? {
          return None;
        }
        NewKeys(old(history), before, history);
        if Harmony(cited, before, creator) && Set(deletes) <= cited {
          assert forall m :: m in page.value ==> m in Set(deletes);
          ImportKeepsHarmony(cited, before, page.value, history, creator);
        }
        PresentGrows(deletes[..index], before, history, creator);
        PresentJoins(deletes, index, next, history, creator);
        imported := imported + Numbers(page.value);
        index := next;
      }
      assert deletes[..index] == deletes;
      return Some(imported);
    }

    /** Counts the restored messages of one part, each number once. */
    method CountPart(messages: seq<Message>, seen: map<nat, Seen>, processed: set<nat>, chat: nat, gallery: nat)
      returns (all: set<nat>, chatRestored: nat, galleryRestored: nat)
      requires forall m :: m in messages ==> m.number in seen
      requires chat == |processed * Chats(seen)| && gallery == |processed * Galleries(seen)|
      ensures all == processed + Numbers(messages)
      ensures chatRestored == |all * Chats(seen)| && galleryRestored == |all * Galleries(seen)|
    {
      hide Chats, Galleries, Numbers;
      all, chatRestored, galleryRestored := processed, chat, gallery;
      var i := 0;
      NoNumbers(processed, messages);
      while i < |messages|
        invariant i <= |messages| && all == processed + Numbers(messages[..i])
        invariant chatRestored == |all * Chats(seen)| && galleryRestored == |all * Galleries(seen)|
      {
        var n := messages[i].number;
        NumbersGrow(processed, messages, i);
        assert messages[i] in messages;
        if n !in all {
          CountsWhenNew(all, seen, n);
          all := all + {n};
          if seen[n].chat {
            chatRestored := chatRestored + 1;
          }
          if seen[n].gallery {
            galleryRestored := galleryRestored + 1;
          }
        }
        i := i + 1;
      }
      assert messages[..i] == messages;
    }

    /** Reads a part again and imports what it lacks, which is no deletion any more. */
    method RestorePart(d: Discovery, index: nat, answers: (nat, nat, seq<nat>) -> Option<seq<Reply>>, commits: bool, ghost live: nat -> History)
      returns (r: Option<(seq<Message>, set<nat>)>)
      requires Valid() && index < |sources|
      requires Discovered(d, sources, |sources|, history, creator) && Present(d.found.deletes, history, creator)
      modifies this`history, this`cache, this`batchCache, this`cacheSize, this`requests, this`imports
      ensures Valid() && Extends(old(history), history)
      ensures NoDeletesSince(old(imports), imports, creator)
      ensures r.Some? ==> r.value.0 == MessagesAt(sources, index) && Present(MessagesAt(sources, index), history, creator)
      ensures r.Some? ==> forall m :: m in r.value.0 ==> m.number in d.found.seen
      ensures r.Some? ==> r.value.1 == history.Keys - old(history).Keys
      ensures Calm(answers, live, sources, old(history), old(batchCache), creator) && commits ==>
                r.Some? && Calm(answers, live, sources, history, batchCache, creator)
    {
      hide TablesOk, CountsOk, Fits, Extends, Present, CountedAreCited, Cited, Discovered, IsMissing, Calm, Honest, Genuine, AllFit, Adds, Agrees,
           InScope, ConflictFree, Numbers;
      ghost var calm, batch := Calm(answers, live, sources, history, batchCache, creator), batchCache;
      if calm {
        CalmPart(answers, live, sources, history, batchCache, creator, index);
      }
      ExtendsSelf(history);
      var messages := Read(index, answers);
      if messages.Err? {
        return None;
      }
      PartIsReadable(d, sources, index, history, creator);
      ghost var before := history;
      var missing := Import(messages.value, commits);
      if missing.Err? {
        return None;
      }
      NoDeleteIsMissing(d, sources, index, before, creator, missing.value);
      if calm {
        CitedUpTo(sources, index);
        assert forall m :: m in missing.value ==> m in Set(MessagesAt(sources, index));
        CalmAgain(answers, live, sources, before, batch, missing.value, history, batchCache, creator);
      }
      return Some((messages.value, Numbers(missing.value)));
    }

    /** Restores one part, and counts what it restored. */
    method RestoreNext(d: Discovery, p: Progress, index: nat, answers: (nat, nat, seq<nat>) -> Option<seq<Reply>>, commits: bool,
                       ghost start: History, ghost live: nat -> History) returns (r: Option<Progress>)
      requires Valid() && index < |sources| && InStep(p, d, sources, index, start, history, live, creator)
      modifies this`history, this`cache, this`batchCache, this`cacheSize, this`requests, this`imports
      ensures Valid() && Extends(old(history), history) && NoDeletesSince(old(imports), imports, creator)
      ensures r.Some? ==> InStep(r.value, d, sources, index + 1, start, history, live, creator)
      ensures Calm(answers, live, sources, old(history), old(batchCache), creator) && commits ==>
                r.Some? && Calm(answers, live, sources, history, batchCache, creator)
    {
      hide Extends, Present, Cited, Discovered, Numbers, Calm, Imported, Retained, Genuine, Chats, Galleries, Restored, Processed, NoDeletesSince,
           MessagesAt;
      RestoredParts(d, sources, index, history, creator);
      var part := RestorePart(d, index, answers, commits, live);
      if part.None? {
        return None;
      }
      RestoredLater(d, sources, index, old(history), history, creator);
      RestoredOneMore(d, sources, index, history, creator);
      ImportedMore(p.imported, start, old(history), part.value.1, history, live);
      var processed, chat, gallery := CountPart(part.value.0, d.found.seen, p.processed, p.chat, p.gallery);
      ProcessedOneMore(sources, d.missingParts, index, p.processed, processed);
      return Some(Progress(processed, chat, gallery, p.imported + part.value.1));
    }

    /** Reads again and imports each part that lacked something. Everything counted as missing is counted
        as restored, exactly once, and no deletion is left to be imported here. */
    method RestoreParts(d: Discovery, answers: (nat, nat, seq<nat>) -> Option<seq<Reply>>, live: nat -> History, commits: nat -> bool)
      returns (r: Option<(nat, nat, set<nat>)>)
      requires Valid() && Discovered(d, sources, |sources|, history, creator) && Present(d.found.deletes, history, creator)
      modifies this`history, this`cache, this`batchCache, this`cacheSize, this`requests, this`imports
      ensures Valid() && Extends(old(history), history)
      ensures NoDeletesSince(old(imports), imports, creator)
      ensures r.Some? ==> r.value.0 == d.found.chatTotal && r.value.1 == d.found.galleryTotal
      ensures r.Some? ==> forall i: nat :: i < |sources| ==> Present(MessagesAt(sources, i), history, creator)
      ensures r.Some? ==> Imported(r.value.2, old(history), history, live) && Discovered(d, sources, |sources|, history, creator)
      ensures Calm(answers, live, sources, old(history), old(batchCache), creator) && (forall k :: commits(k)) ==> r.Some?
    {
      hide Extends, Present, Discovered, Calm, Imported, Retained, Genuine, InStep;
      ghost var calm := Calm(answers, live, sources, history, batchCache, creator) && forall k :: commits(k);
      var p := Progress({}, 0, 0, {});
      var index := 0;
      FirstStep(d, sources, history, live, creator);
      ExtendsSelf(history);
      assert NoDeletesSince(imports, imports, creator);
      hide NoDeletesSince, MessagesAt;
      while index < |sources|
        invariant index <= |sources| && Valid() && Extends(old(history), history) && NoDeletesSince(old(imports), imports, creator)
        invariant InStep(p, d, sources, index, old(history), history, live, creator)
        invariant calm ==> Calm(answers, live, sources, history, batchCache, creator)
      {
        ghost var before := history;
        if calm {
          CalmLive(answers, live, sources, history, batchCache, creator, index);
        }
        Live(live(index));
        StepLater(p, d, sources, index, old(history), before, history, live, creator);
        ExtendsChain(old(history), before, history);
        if index in d.missingParts {
          ghost var lived, earlier := history, imports;
          var next := RestoreNext(d, p, index, answers, commits(index), old(history), live);
          ExtendsChain(old(history), lived, history);
          NoDeletesChain(old(imports), earlier, imports, creator);
          if next.None? {
            return None;
          }
          p := next.value;
        } else {
          StepSkips(p, d, sources, index, old(history), history, live, creator);
        }
        Drop(index);
        index := index + 1;
      }
      LastStep(p, d, sources, old(history), history, live, creator);
      return Some((p.chat, p.gallery, p.imported));
    }

    // ---------------------------------------------------------- reading back

    /** The next number held above `after`, if any. */
    method NextNumber(after: nat) returns (next: Option<nat>)
      ensures next.None? ==> forall n :: n in history ==> n <= after
      ensures next.Some? ==> next.value in history && next.value > after
      ensures next.Some? ==> forall n :: n in history && n > after ==> n >= next.value
    {
      next := None;
      var left := history.Keys;
      while left != {}
        invariant left <= history.Keys
        invariant next.Some? ==> next.value in history && next.value > after
        invariant forall n :: n in history && n !in left && n > after ==> next.Some? && n >= next.value
        decreases |left|
      {
        var n :| n in left;
        left := left - {n};
        if n > after && (next.None? || n < next.value) {
          next := Some(n);
        }
      }
    }

    method LoadPage(after: nat) returns (page: seq<nat>)
      ensures IsPage(page, history, after)
    {
      page := [];
      var at := after;
      while |page| < AUDIT_PAGE
        invariant |page| <= AUDIT_PAGE && at == (if page == [] then after else page[|page| - 1])
        invariant forall i: nat :: i < |page| ==> page[i] in history && after < page[i] <= at
        invariant forall i: nat, j: nat :: i < j < |page| ==> page[i] < page[j]
        invariant forall n :: n in history && after < n <= at ==> n in page
      {
        var next := NextNumber(at);
        if next.None? {
          return;
        }
        page := page + [next.value];
        at := next.value;
      }
    }

    /** The audit passes exactly when the device holds every expected record as it was archived; its two
        rows then count the expected records of their kind. */
    method AuditRestored(expected: map<nat, Plan>, imported: set<nat>, visible: (Message, bool) -> bool) returns (r: Result<(Row, Row)>)
      requires forall n :: n in expected ==> n >= 1
      ensures r.Ok? <==> AsArchived(expected, history)
      ensures r.Ok? ==> Tallied(r.value.0, expected.Keys, expected, false, imported, visible)
      ensures r.Ok? ==> Tallied(r.value.1, expected.Keys, expected, true, imported, visible)
    {
      var first, last := Bounds(expected);
      hide Tallied, AuditOk, AsArchived, IsPage;
      var a, after: nat := Audit(NO_ROW, NO_ROW, {}), first - 1;
      NothingAudited(expected, history, after, imported, visible);
      while after < last
        invariant AuditOk(a, expected, history, after, imported, visible)
        invariant after >= last ==> forall n :: n in expected ==> n <= after
        decreases last - after
      {
        var page := LoadPage(after);
        if page == [] {
          r := Concluded(a, expected, after, imported, visible);
          return;
        }
        var next := AuditPage(page, after, expected, imported, visible, a);
        if next.None? {
          return Err;
        }
        a, after := next.value, page[|page| - 1];
      }
      r := Concluded(a, expected, after, imported, visible);
    }

    /** Every expected record must have been read back. */
    method Concluded(a: Audit, expected: map<nat, Plan>, ghost upto: nat, ghost imported: set<nat>, ghost visible: (Message, bool) -> bool) returns (r: Result<(Row, Row)>)
      requires AuditOk(a, expected, history, upto, imported, visible)
      requires IsPage([], history, upto) || forall n :: n in expected ==> n <= upto
      ensures r.Ok? <==> AsArchived(expected, history)
      ensures r.Ok? ==> Tallied(r.value.0, expected.Keys, expected, false, imported, visible)
      ensures r.Ok? ==> Tallied(r.value.1, expected.Keys, expected, true, imported, visible)
    {
      AllVerifiedExactly(a, expected, history, upto, imported, visible);
      hide Tallied, AuditOk, AsArchived, IsPage;
      return if |a.verified| == |expected| then Ok((a.chat, a.gallery)) else Err;
    }

    /** Verifies the expected records of one page; None when one of them differs. */
    method AuditPage(page: seq<nat>, after: nat, expected: map<nat, Plan>, imported: set<nat>, visible: (Message, bool) -> bool, a: Audit)
      returns (r: Option<Audit>)
      requires IsPage(page, history, after) && |page| > 0 && AuditOk(a, expected, history, after, imported, visible)
      ensures page[|page| - 1] > after
      ensures r.None? ==> !AsArchived(expected, history)
      ensures r.Some? ==> AuditOk(r.value, expected, history, page[|page| - 1], imported, visible)
    {
      hide Tallied;
      var chat, gallery, all := a.chat, a.gallery, a.verified;
      var i := 0;
      while i < |page|
        invariant i <= |page|
        invariant forall n :: n in all <==> n in a.verified || (n in page[..i] && n in expected)
        invariant forall n :: n in all ==> n in expected && n in history && history[n] == expected[n].message
        invariant Tallied(chat, all, expected, false, imported, visible) && Tallied(gallery, all, expected, true, imported, visible)
      {
        var n := page[i];
        assert n in page && page[..i + 1] == page[..i] + [n];
        if n in expected {
          var plan := expected[n];
          if history[n] != plan.message {
            return None;
          }
          TallyStep(chat, all, expected, false, imported, n, visible);
          TallyStep(gallery, all, expected, true, imported, n, visible);
          if plan.chat {
            chat := Tally(chat, plan.missing, n in imported, visible(plan.message, false));
          }
          if plan.gallery {
            gallery := Tally(gallery, plan.missing, n in imported, visible(plan.message, true));
          }
          all := all + {n};
        }
        i := i + 1;
      }
      assert page[..i] == page;
      return Some(Audit(chat, gallery, all));
    }

    // ---------------------------------------------------------- the whole restore

    /** The deletions, and then every part that lacked something. */
    method SecondPass(d: Discovery, answers: (nat, nat, seq<nat>) -> Option<seq<Reply>>, live: nat -> History,
                      deleteCommits: nat -> bool, partCommits: nat -> bool, ghost earlier: nat -> History)
      returns (r: Option<(nat, nat, set<nat>)>)
      requires Valid() && Discovered(d, sources, |sources|, history, creator)
      modifies this`history, this`cache, this`batchCache, this`cacheSize, this`requests, this`imports
      ensures Valid() && Extends(old(history), history) && old(imports) <= imports && DeletesComeFirst(imports[|old(imports)|..], creator)
      ensures r.Some? ==> r.value.0 == d.found.chatTotal && r.value.1 == d.found.galleryTotal
      ensures r.Some? ==> Discovered(d, sources, |sources|, history, creator)
      ensures r.Some? ==> forall i: nat :: i < |sources| ==> Present(MessagesAt(sources, i), history, creator)
      ensures r.Some? ==> r.value.2 !! old(history).Keys
      ensures r.Some? && (forall k: nat :: live(k) == map[]) ==> r.value.2 == history.Keys - old(history).Keys
      ensures Calm(answers, earlier, sources, old(history), old(batchCache), creator)
              && (forall k: nat :: AllAgree(Cited(sources, |sources|), live(k), creator) && deleteCommits(k) && partCommits(k)) ==>
                r.Some?
    {
      hide TablesOk, CountsOk, Fits, Extends, Present, CountedAreCited, Cited, Discovered, ConflictFree, NoDeletesSince,
           Calm, AllAgree, Imported, Chats, Galleries, DeletesComeFirst, Harmony, MessagesAt, Set;
      ghost var cited := Cited(sources, |sources|);
      DiscoveryIsSound(d, sources, history, creator);
      if Calm(answers, earlier, sources, history, batchCache, creator) {
        CalmDeletes(answers, earlier, sources, history, batchCache, creator, d.found);
      }
      var deleted := ImportDeletes(d.found.deletes, deleteCommits, cited);
      if deleted.None? {
        OnlyDeletes(old(imports), imports, creator);
        return None;
      }
      ghost var deletions, purged := imports, history;
      DiscoveredLater(d, sources, |sources|, old(history), history, creator);
      if Calm(answers, earlier, sources, old(history), batchCache, creator) && Harmony(cited, history, creator)
         && forall k: nat :: AllAgree(cited, live(k), creator) {
        CalmLater(answers, earlier, live, sources, old(history), history, batchCache, creator);
      }
      var parts := RestoreParts(d, answers, live, partCommits);
      ExtendsChain(old(history), purged, history);
      DeletesThenContent(old(imports), deletions, imports, creator);
      if parts.None? {
        return None;
      }
      ImportedBoth(deleted.value, old(history), purged, parts.value.2, history, live);
      return Some((parts.value.0, parts.value.1, deleted.value + parts.value.2));
    }

    /** Any contradiction between the archives stops the restore before anything is imported. When it
        completes, everything the participant may restore is on the device as it was archived; the restored
        counts are the totals of the first pass, and the audited rows its inventory; and every deletion was
        committed before any content. It does complete when the server is honest, nothing contradicts and
        every transaction commits; and unless rows arrive meanwhile, the audit counts everything that was
        found missing as imported. */
    method RestoreUnifiedHistory(answers: (nat, nat, seq<nat>) -> Option<seq<Reply>>, live: nat -> History, liveLater: nat -> History,
                                 deleteCommits: nat -> bool, partCommits: nat -> bool, visible: (Message, bool) -> bool)
      returns (r: Result<Status>)
      modifies this`history, this`cache, this`batchCache, this`cacheSize, this`requests, this`imports
      ensures Valid() && Extends(old(history), history) && old(imports) <= imports
      ensures !ConflictFree(Cited(sources, |sources|)) ==> r.Err? && imports == old(imports)
      ensures DeletesComeFirst(imports[|old(imports)|..], creator)
      ensures r.Ok? ==> Present(AllCited(sources, |sources|), history, creator) && AllHeld(sources, history, creator)
      ensures r.Ok? ==> Conserved(r.value) && Audited(r.value, visible)
      ensures r.Ok? && (forall k: nat :: live(k) == map[] && liveLater(k) == map[]) ==> FullyAudited(r.value, visible)
      ensures Calm(answers, live, sources, old(history), map[], creator)
              && (forall k: nat :: AllAgree(Cited(sources, |sources|), liveLater(k), creator) && deleteCommits(k) && partCommits(k)) ==>
                r.Ok?
    {
      hide TablesOk, CountsOk, Fits, Extends, Present, CountedAreCited, Cited, Discovered, ConflictFree, NoDeletesSince, Tallied,
           Calm, AllAgree, Marked, Imported, Audited, FullyAudited, AsArchived, Chats, Galleries,
           DeletesComeFirst, Conserved, Harmony, AllCited, MessagesAt, Planned, Existing, Shown, Set, AllHeld;
      cache, batchCache, cacheSize := map[], map[], 0;
      NothingRetained(size, |sources|);
      ExtendsSelf(history);
      var found := Discover(answers, live);
      ghost var discovered := history;
      if found.None? {
        NoImports(imports, creator);
        return Err;
      }
      var d := found.value;
      DiscoveryIsSound(d, sources, history, creator);
      var restored := SecondPass(d, answers, liveLater, deleteCommits, partCommits, live);
      ExtendsChain(old(history), discovered, history);
      if restored.None? {
        return Err;
      }
      AuditPasses(d, sources, history, creator);
      var audit := AuditRestored(d.found.expected, restored.value.2, visible);
      AllArePresent(sources, history, creator);
      AllAreHeld(sources, history, creator);
      r := Ok(Status(restored.value.0, restored.value.1, d.found, audit.value.0, audit.value.1));
      CountsAgree(d.found, r.value, restored.value.2, visible, Cited(sources, |sources|), creator);
      ImportedCounts(r.value, restored.value.2, visible, old(history), discovered, history, Cited(sources, |sources|), creator);
    }
  }
}
