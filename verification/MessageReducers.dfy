/** The reducers that fold a message history into read marks, tombstones and reactions
    (src/lib/message-read.ts, message-deletions.ts and reactions.ts), and why they are local:
    each of their facts depends on one target group only, unless an event id spans two groups. */
module MessageReducers {
  import opened Wrappers

  type Id = string

  const UNNUMBERED: nat := 9_007_199_254_740_991

  datatype Role = Creator | Joiner

  type Roles = map<Id, Role>

  datatype Target = Target(serverSeq: nat, clientMsgId: Id, senderId: Id)

  datatype Status = Sent | Pending | Stored | Delivered | Failed

  /** Contents are texts, images, albums, audio and files; `media` marks what needs to be revealed.
      An emoji outside the palette of `EMOJIS` entries is not valid. */
  datatype Payload =
    | Content(media: bool)
    | Reaction(target: Target, emoji: Option<nat>)
    | MessageDelete(target: Target)
    | MessageRead(target: Target)
    | MediaRead(target: Target)
    | Other

  datatype Message = Message(number: nat, clientMsgId: Id, senderId: Id, status: Status, acceptedAt: int, payload: Payload)

  const EMOJIS := 6

  predicate Confirmed(m: Message) {
    m.status != Pending && m.status != Failed && 0 < m.number < UNNUMBERED
  }

  predicate Optimistic(m: Message) {
    m.number == UNNUMBERED && (m.status == Pending || m.status == Stored)
  }

  predicate ChatContent(m: Message) {
    Confirmed(m) && m.payload.Content?
  }

  /** The sequence number that a message is grouped under: an event's target, a content's own. */
  function Bucket(m: Message): Option<nat> {
    match m.payload
    case Content(_) => Some(m.number)
    case Other => None
    case _ => Some(m.payload.target.serverSeq)
  }

  function InBucket(messages: seq<Message>, b: nat): seq<Message> {
    if messages == [] then []
    else
      var front, last := messages[..|messages| - 1], messages[|messages| - 1];
      if Bucket(last) == Some(b) then InBucket(front, b) + [last] else InBucket(front, b)
  }

  /** No event id is used in two groups. */
  ghost predicate NoCollision(messages: seq<Message>) {
    forall m, n :: m in messages && n in messages && Bucket(m).Some? && Bucket(n).Some? && m.clientMsgId == n.clientMsgId ==> Bucket(m) == Bucket(n)
  }

  // ------------------------------------------------------------------- targets

  /** The last confirmed content with this sequence number. */
  function Last(messages: seq<Message>, number: nat): (r: Option<Message>)
    ensures r.Some? ==> r.value in messages && ChatContent(r.value) && r.value.number == number
  {
    if messages == [] then None
    else
      var last := messages[|messages| - 1];
      if ChatContent(last) && last.number == number then Some(last) else Last(messages[..|messages| - 1], number)
  }

  /** Two contents that differ in id or sender claim this sequence number. */
  predicate Ambiguous(messages: seq<Message>, number: nat) {
    messages != []
    && var front, last := messages[..|messages| - 1], messages[|messages| - 1];
       || Ambiguous(front, number)
       || (ChatContent(last) && last.number == number && Last(front, number).Some?
           && (Last(front, number).value.clientMsgId != last.clientMsgId || Last(front, number).value.senderId != last.senderId))
  }

  predicate Names(messages: seq<Message>, target: Target) {
    var original := Last(messages, target.serverSeq);
    original.Some? && original.value.clientMsgId == target.clientMsgId && original.value.senderId == target.senderId
  }

  // --------------------------------------------------------------------- reads

  predicate Reads(messages: seq<Message>, roles: Roles, e: Message) {
    && Confirmed(e) && (e.payload.MessageRead? || e.payload.MediaRead?)
    && var target := e.payload.target;
       && Names(messages, target) && !Ambiguous(messages, target.serverSeq)
       && e.senderId in roles && target.senderId in roles && roles[e.senderId] != roles[target.senderId]
       && e.number > target.serverSeq
       && e.payload.MediaRead? == Last(messages, target.serverSeq).value.payload.media
  }

  function ReadIds(messages: seq<Message>, roles: Roles): set<Id> {
    set e | e in messages && Reads(messages, roles, e) :: e.payload.target.clientMsgId
  }

  // -------------------------------------------------------------------- events

  datatype Kind = Deletions | Reactions

  predicate IsEvent(kind: Kind, m: Message) {
    && (if kind == Deletions then m.payload.MessageDelete? else m.payload.Reaction?)
    && m.status != Failed && (Confirmed(m) || Optimistic(m))
  }

  function Without(events: seq<Message>, id: Id): seq<Message> {
    if events == [] then []
    else
      var front, last := events[..|events| - 1], events[|events| - 1];
      if last.clientMsgId == id then Without(front, id) else Without(front, id) + [last]
  }

  predicate HasConfirmed(events: seq<Message>, id: Id) {
    exists e :: e in events && e.clientMsgId == id && Confirmed(e)
  }

  /** One event for each id, by position: its first confirmed copy, or else its last copy. */
  function Kept(kind: Kind, messages: seq<Message>): seq<Message> {
    if messages == [] then []
    else
      var kept, last := Kept(kind, messages[..|messages| - 1]), messages[|messages| - 1];
      if !IsEvent(kind, last) || HasConfirmed(kept, last.clientMsgId) then kept else Without(kept, last.clientMsgId) + [last]
  }

  /** Confirmed events by server order, then the optimistic ones; equal ones stay in position. */
  predicate NotAfter(kind: Kind, a: Message, b: Message) {
    if Confirmed(a) != Confirmed(b) then Confirmed(a)
    else if Confirmed(a) then a.number <= b.number
    else kind == Deletions || a.acceptedAt <= b.acceptedAt
  }

  function Insert(kind: Kind, sorted: seq<Message>, e: Message): seq<Message> {
    if sorted == [] || NotAfter(kind, sorted[|sorted| - 1], e) then sorted + [e]
    else Insert(kind, sorted[..|sorted| - 1], e) + [sorted[|sorted| - 1]]
  }

  function Sort(kind: Kind, events: seq<Message>): seq<Message> {
    if events == [] then [] else Insert(kind, Sort(kind, events[..|events| - 1]), events[|events| - 1])
  }

  function Ordered(kind: Kind, messages: seq<Message>): seq<Message> {
    Sort(kind, Kept(kind, messages))
  }

  // ----------------------------------------------------------------- deletions

  datatype Tombstone = Tombstone(target: Target, role: Role, senderId: Id, clientMsgId: Id, serverSeq: Option<nat>)

  predicate Deletes(messages: seq<Message>, roles: Roles, e: Message) {
    && e.payload.MessageDelete?
    && var target := e.payload.target;
       && e.senderId in roles && target.senderId in roles && roles[e.senderId] == roles[target.senderId]
       && Names(messages, target) && !Ambiguous(messages, target.serverSeq)
       && (Confirmed(e) ==> e.number > target.serverSeq)
  }

  /** A tombstone without a sequence number is pending; it gives way to a confirmed one. */
  function Tombstones(events: seq<Message>, messages: seq<Message>, roles: Roles): map<Id, Tombstone> {
    if events == [] then map[]
    else
      var before, e := Tombstones(events[..|events| - 1], messages, roles), events[|events| - 1];
      if !Deletes(messages, roles, e) then before
      else
        var target := e.payload.target;
        var previous := if target.clientMsgId in before then Some(before[target.clientMsgId]) else None;
        if previous.Some? && (previous.value.serverSeq.Some? || !Confirmed(e)) then before
        else
          before[target.clientMsgId := Tombstone(target, roles[e.senderId], e.senderId, e.clientMsgId, if Confirmed(e) then Some(e.number) else None)]
  }

  function Deleted(messages: seq<Message>, roles: Roles): map<Id, Tombstone> {
    Tombstones(Ordered(Deletions, messages), messages, roles)
  }

  // ----------------------------------------------------------------- reactions

  datatype Badge = Badge(role: Role, senderId: Id, emoji: nat, clientMsgId: Id, pending: bool)

  predicate Reacts(messages: seq<Message>, roles: Roles, e: Message) {
    && e.payload.Reaction?
    && e.senderId in roles && Names(messages, e.payload.target)
    && (Confirmed(e) ==> e.number > e.payload.target.serverSeq)
    && (e.payload.emoji.Some? ==> e.payload.emoji.value < EMOJIS)
  }

  /** The current badge of each role on each target. */
  function ByTarget(events: seq<Message>, messages: seq<Message>, roles: Roles): map<Id, map<Role, Badge>> {
    if events == [] then map[]
    else
      var before, e := ByTarget(events[..|events| - 1], messages, roles), events[|events| - 1];
      if !Reacts(messages, roles, e) then before
      else
        var id, role := e.payload.target.clientMsgId, roles[e.senderId];
        var badges: map<Role, Badge> := if id in before then before[id] else map[];
        before[id := if e.payload.emoji.None? then badges - {role}
                     else badges[role := Badge(role, e.senderId, e.payload.emoji.value, e.clientMsgId, !Confirmed(e))]]
  }

  function BadgesInOrder(badges: map<Role, Badge>): seq<Badge> {
    (if Creator in badges then [badges[Creator]] else []) + if Joiner in badges then [badges[Joiner]] else []
  }

  function Reacted(messages: seq<Message>, roles: Roles): map<Id, seq<Badge>> {
    var byTarget := ByTarget(Ordered(Reactions, messages), messages, roles);
    map id | id in byTarget && BadgesInOrder(byTarget[id]) != [] :: BadgesInOrder(byTarget[id])
  }

  // ------------------------------------------------------------ the projection

  /** The three collections as one: which fact holds of which message. */
  datatype Key = ReadKey(id: Id) | DeletedKey(id: Id) | ReactionKey(id: Id)

  datatype Fact = IsRead | IsDeleted(tombstone: Tombstone) | HasBadges(badges: seq<Badge>)

  type Projection = map<Key, Fact>

  function FactOf(messages: seq<Message>, readable: seq<Message>, roles: Roles, key: Key): Option<Fact> {
    match key
    case ReadKey(id) => if id in ReadIds(readable, roles) then Some(IsRead) else None
    case DeletedKey(id) => if id in Deleted(messages, roles) then Some(IsDeleted(Deleted(messages, roles)[id])) else None
    case ReactionKey(id) => if id in Reacted(messages, roles) then Some(HasBadges(Reacted(messages, roles)[id])) else None
  }

  /** What the three reducers say; only `readable` is considered for read marks. */
  function Reduced(messages: seq<Message>, readable: seq<Message>, roles: Roles): Projection {
    (map id | id in ReadIds(readable, roles) :: ReadKey(id) := IsRead)
    + (map id | id in Deleted(messages, roles) :: DeletedKey(id) := IsDeleted(Deleted(messages, roles)[id]))
    + (map id | id in Reacted(messages, roles) :: ReactionKey(id) := HasBadges(Reacted(messages, roles)[id]))
  }

  function Find<K, V>(m: map<K, V>, k: K): Option<V> {
    if k in m then Some(m[k]) else None
  }

  lemma ReducedFacts(messages: seq<Message>, readable: seq<Message>, roles: Roles, key: Key)
    ensures Find(Reduced(messages, readable, roles), key) == FactOf(messages, readable, roles, key)
  {
    hide ReadIds, Deleted, Reacted;
  }

  // -------------------------------------------------------- grouping by target

  lemma {:induction false} InBucketElements(messages: seq<Message>, b: nat)
    ensures forall e :: e in InBucket(messages, b) <==> e in messages && Bucket(e) == Some(b)
  {
    if messages != [] {
      var front, last := messages[..|messages| - 1], messages[|messages| - 1];
      InBucketElements(front, b);
      assert messages == front + [last];
    }
  }

  lemma InBucketAppend(messages: seq<Message>, last: Message, b: nat)
    ensures InBucket(messages + [last], b) == if Bucket(last) == Some(b) then InBucket(messages, b) + [last] else InBucket(messages, b)
  {
    assert (messages + [last])[..|messages|] == messages;
  }

  lemma LastAppend(messages: seq<Message>, last: Message, number: nat)
    ensures Last(messages + [last], number) == if ChatContent(last) && last.number == number then Some(last) else Last(messages, number)
    ensures Ambiguous(messages + [last], number)
         == (Ambiguous(messages, number)
             || (ChatContent(last) && last.number == number && Last(messages, number).Some?
                 && (Last(messages, number).value.clientMsgId != last.clientMsgId || Last(messages, number).value.senderId != last.senderId)))
  {
    assert (messages + [last])[..|messages|] == messages;
  }

  lemma {:induction false} LastIsLocal(messages: seq<Message>, b: nat)
    ensures Last(InBucket(messages, b), b) == Last(messages, b)
    ensures Ambiguous(InBucket(messages, b), b) == Ambiguous(messages, b)
  {
    if messages != [] {
      var front, last := messages[..|messages| - 1], messages[|messages| - 1];
      LastIsLocal(front, b);
      assert messages == front + [last];
      hide InBucket, Last, Ambiguous;
      InBucketAppend(front, last, b);
      LastAppend(front, last, b);
      LastAppend(InBucket(front, b), last, b);
    }
  }

  // ------------------------------------------------------- events by group

  lemma {:induction false} WithoutElements(events: seq<Message>, id: Id)
    ensures forall e :: e in Without(events, id) <==> e in events && e.clientMsgId != id
  {
    if events != [] {
      var front, last := events[..|events| - 1], events[|events| - 1];
      WithoutElements(front, id);
      assert events == front + [last];
    }
  }

  lemma {:induction false} WithoutInBucket(events: seq<Message>, id: Id, b: nat)
    ensures InBucket(Without(events, id), b) == Without(InBucket(events, b), id)
  {
    if events != [] {
      var front, last := events[..|events| - 1], events[|events| - 1];
      assert events == front + [last];
      WithoutInBucket(front, id, b);
      hide InBucket, Without;
      WithoutAppend(front, last, id);
      WithoutAppend(InBucket(front, b), last, id);
      InBucketAppend(front, last, b);
      InBucketAppend(Without(front, id), last, b);
    }
  }

  lemma WithoutAppend(events: seq<Message>, last: Message, id: Id)
    ensures Without(events + [last], id) == if last.clientMsgId == id then Without(events, id) else Without(events, id) + [last]
  {
    assert (events + [last])[..|events|] == events;
  }

  lemma {:induction false} WithoutNone(events: seq<Message>, id: Id)
    requires forall e :: e in events ==> e.clientMsgId != id
    ensures Without(events, id) == events
  {
    if events != [] {
      var front, last := events[..|events| - 1], events[|events| - 1];
      assert events == front + [last];
      assert last in events;
      WithoutNone(front, id);
    }
  }

  lemma {:induction false} KeptElements(kind: Kind, messages: seq<Message>)
    ensures forall e :: e in Kept(kind, messages) ==> e in messages && IsEvent(kind, e)
  {
    if messages != [] {
      var front, last := messages[..|messages| - 1], messages[|messages| - 1];
      KeptElements(kind, front);
      WithoutElements(Kept(kind, front), last.clientMsgId);
      assert messages == front + [last];
    }
  }

  lemma KeptAppend(kind: Kind, messages: seq<Message>, last: Message)
    ensures Kept(kind, messages + [last])
         == if !IsEvent(kind, last) || HasConfirmed(Kept(kind, messages), last.clientMsgId) then Kept(kind, messages)
            else Without(Kept(kind, messages), last.clientMsgId) + [last]
  {
    assert (messages + [last])[..|messages|] == messages;
  }

  lemma {:induction false} KeptInBucket(kind: Kind, messages: seq<Message>, b: nat)
    requires NoCollision(messages)
    ensures InBucket(Kept(kind, messages), b) == Kept(kind, InBucket(messages, b))
  {
    if messages != [] {
      var front, last := messages[..|messages| - 1], messages[|messages| - 1];
      assert messages == front + [last];
      FrontElements(messages);
      KeptInBucket(kind, front, b);
      KeptElements(kind, front);
      hide Kept, InBucket, NoCollision;
      InBucketAppend(front, last, b);
      KeptAppend(kind, front, last);
      if IsEvent(kind, last) {
        KeptAppend(kind, InBucket(front, b), last);
        KeptStep(kind, messages, Kept(kind, front), last, b);
      } else if Bucket(last) == Some(b) {
        KeptAppend(kind, InBucket(front, b), last);
      }
    }
  }

  lemma FrontElements(messages: seq<Message>)
    requires messages != []
    ensures forall e :: e in messages[..|messages| - 1] ==> e in messages
    ensures messages[|messages| - 1] in messages
    ensures NoCollision(messages) ==> NoCollision(messages[..|messages| - 1])
  {
  }

  /** Keeping an event of another group leaves a group alone; one of its own is kept within it. */
  lemma KeptStep(kind: Kind, messages: seq<Message>, kept: seq<Message>, last: Message, b: nat)
    requires NoCollision(messages) && last in messages && IsEvent(kind, last)
    requires forall e :: e in kept ==> e in messages && IsEvent(kind, e)
    ensures Bucket(last) == Some(b) ==> HasConfirmed(InBucket(kept, b), last.clientMsgId) == HasConfirmed(kept, last.clientMsgId)
    ensures InBucket(Without(kept, last.clientMsgId) + [last], b)
         == if Bucket(last) == Some(b) then Without(InBucket(kept, b), last.clientMsgId) + [last] else InBucket(kept, b)
  {
    InBucketElements(kept, b);
    hide InBucket, Without;
    var id := last.clientMsgId;
    WithoutInBucket(kept, id, b);
    InBucketAppend(Without(kept, id), last, b);
    if Bucket(last) != Some(b) {
      WithoutNone(InBucket(kept, b), id);
    }
  }

  predicate Sorted(kind: Kind, events: seq<Message>) {
    forall i, j :: 0 <= i < j < |events| ==> NotAfter(kind, events[i], events[j])
  }

  lemma {:induction false} InsertSorts(kind: Kind, sorted: seq<Message>, e: Message)
    requires Sorted(kind, sorted)
    ensures Sorted(kind, Insert(kind, sorted, e))
    ensures forall x :: x in Insert(kind, sorted, e) <==> x in sorted || x == e
  {
    if sorted != [] && !NotAfter(kind, sorted[|sorted| - 1], e) {
      var front, last := sorted[..|sorted| - 1], sorted[|sorted| - 1];
      assert sorted == front + [last];
      InsertSorts(kind, front, e);
      assert forall x :: x in Insert(kind, front, e) ==> NotAfter(kind, x, last);
    }
  }

  lemma {:induction false} SortSorts(kind: Kind, events: seq<Message>)
    ensures Sorted(kind, Sort(kind, events))
    ensures forall x :: x in Sort(kind, events) <==> x in events
  {
    if events != [] {
      var front, last := events[..|events| - 1], events[|events| - 1];
      SortSorts(kind, front);
      InsertSorts(kind, Sort(kind, front), last);
      assert events == front + [last];
    }
  }

  lemma InsertAppend(kind: Kind, sorted: seq<Message>, last: Message, e: Message)
    ensures Insert(kind, sorted + [last], e)
         == if NotAfter(kind, last, e) then sorted + [last] + [e] else Insert(kind, sorted, e) + [last]
  {
    assert (sorted + [last])[..|sorted|] == sorted;
  }

  lemma {:induction false} InsertInBucket(kind: Kind, sorted: seq<Message>, e: Message, b: nat)
    requires Sorted(kind, sorted)
    ensures InBucket(Insert(kind, sorted, e), b)
         == if Bucket(e) == Some(b) then Insert(kind, InBucket(sorted, b), e) else InBucket(sorted, b)
  {
    if sorted == [] {
      InBucketAppend([], e, b);
    } else {
      var front, last := sorted[..|sorted| - 1], sorted[|sorted| - 1];
      assert sorted == front + [last];
      if !NotAfter(kind, last, e) {
        InsertInBucket(kind, front, e, b);
      }
      hide InBucket, Insert, NotAfter;
      InBucketAppend(front, last, b);
      InsertAppend(kind, front, last, e);
      InsertAppend(kind, InBucket(front, b), last, e);
      if NotAfter(kind, last, e) {
        InBucketAppend(sorted, e, b);
        if Bucket(last) != Some(b) {
          InsertLast(kind, front, last, e, b);
        }
      } else {
        InBucketAppend(Insert(kind, front, e), last, b);
        if Bucket(e) == Some(b) == Bucket(last) {
          InsertAppend(kind, InBucket(front, b), last, e);
        }
      }
    }
  }

  lemma InsertLast(kind: Kind, front: seq<Message>, last: Message, e: Message, b: nat)
    requires Sorted(kind, front + [last]) && NotAfter(kind, last, e)
    ensures Insert(kind, InBucket(front, b), e) == InBucket(front, b) + [e]
  {
    var group := InBucket(front, b);
    InBucketElements(front, b);
    if group != [] {
      assert group[|group| - 1] in group;
      var i :| 0 <= i < |front| && front[i] == group[|group| - 1];
      assert NotAfter(kind, (front + [last])[i], (front + [last])[|front|]);
    }
  }

  lemma {:induction false} SortInBucket(kind: Kind, events: seq<Message>, b: nat)
    ensures InBucket(Sort(kind, events), b) == Sort(kind, InBucket(events, b))
  {
    if events != [] {
      var front, last := events[..|events| - 1], events[|events| - 1];
      assert events == front + [last];
      SortInBucket(kind, front, b);
      SortSorts(kind, front);
      hide InBucket, Sort, Insert, Sorted;
      SortAppend(kind, front, last);
      InBucketAppend(front, last, b);
      InsertInBucket(kind, Sort(kind, front), last, b);
      SortAppend(kind, InBucket(front, b), last);
    }
  }

  lemma SortAppend(kind: Kind, events: seq<Message>, last: Message)
    ensures Sort(kind, events + [last]) == Insert(kind, Sort(kind, events), last)
  {
    assert (events + [last])[..|events|] == events;
  }

  lemma OrderedInBucket(kind: Kind, messages: seq<Message>, b: nat)
    requires NoCollision(messages)
    ensures InBucket(Ordered(kind, messages), b) == Ordered(kind, InBucket(messages, b))
    ensures forall e :: e in Ordered(kind, messages) ==> e in messages && IsEvent(kind, e)
  {
    hide Kept, Sort, InBucket;
    KeptInBucket(kind, messages, b);
    SortInBucket(kind, Kept(kind, messages), b);
    SortSorts(kind, Kept(kind, messages));
    KeptElements(kind, messages);
  }

  // --------------------------------------------------------- facts by group

  /** A confirmed content of group `b` has this id. */
  ghost predicate Owns(messages: seq<Message>, b: nat, id: Id) {
    exists m :: m in messages && ChatContent(m) && m.number == b && m.clientMsgId == id
  }

  lemma NamedIsOwned(messages: seq<Message>, target: Target)
    requires Names(messages, target)
    ensures Owns(messages, target.serverSeq, target.clientMsgId)
  {
  }

  lemma OwnerIsUnique(messages: seq<Message>, b: nat, c: nat, id: Id)
    requires NoCollision(messages) && Owns(messages, b, id) && Owns(messages, c, id)
    ensures b == c
  {
  }

  lemma OwnsInBucket(messages: seq<Message>, b: nat, c: nat, id: Id)
    ensures Owns(InBucket(messages, b), c, id) <==> b == c && Owns(messages, b, id)
  {
    InBucketElements(messages, b);
  }

  lemma NamesIsLocal(messages: seq<Message>, target: Target)
    ensures Names(InBucket(messages, target.serverSeq), target) == Names(messages, target)
    ensures Ambiguous(InBucket(messages, target.serverSeq), target.serverSeq) == Ambiguous(messages, target.serverSeq)
    ensures Last(InBucket(messages, target.serverSeq), target.serverSeq) == Last(messages, target.serverSeq)
  {
    LastIsLocal(messages, target.serverSeq);
  }

  lemma ReadIsOwned(messages: seq<Message>, roles: Roles, id: Id) returns (b: nat)
    requires id in ReadIds(messages, roles)
    ensures Owns(messages, b, id)
  {
    var e :| e in messages && Reads(messages, roles, e) && e.payload.target.clientMsgId == id;
    b := e.payload.target.serverSeq;
    NamedIsOwned(messages, e.payload.target);
  }

  lemma ReadsIsLocal(messages: seq<Message>, roles: Roles, b: nat, id: Id)
    requires NoCollision(messages) && Owns(messages, b, id)
    ensures id in ReadIds(InBucket(messages, b), roles) <==> id in ReadIds(messages, roles)
  {
    InBucketElements(messages, b);
    forall e | e in messages && (e.payload.MessageRead? || e.payload.MediaRead?)
      ensures Bucket(e) == Some(b) ==> Reads(InBucket(messages, b), roles, e) == Reads(messages, roles, e)
      ensures Reads(messages, roles, e) && e.payload.target.clientMsgId == id ==> Bucket(e) == Some(b)
    {
      NamesIsLocal(messages, e.payload.target);
      if Reads(messages, roles, e) && e.payload.target.clientMsgId == id {
        NamedIsOwned(messages, e.payload.target);
        OwnerIsUnique(messages, b, e.payload.target.serverSeq, id);
      }
    }
  }

  /** Events that count for `id` in the whole history are in its group, and count there too. */
  lemma DeletesIsLocal(messages: seq<Message>, roles: Roles, b: nat, id: Id, e: Message)
    requires NoCollision(messages) && Owns(messages, b, id)
    ensures Bucket(e) == Some(b) ==> Deletes(InBucket(messages, b), roles, e) == Deletes(messages, roles, e)
    ensures Bucket(e) == Some(b) ==> Reacts(InBucket(messages, b), roles, e) == Reacts(messages, roles, e)
    ensures (Deletes(messages, roles, e) || Reacts(messages, roles, e)) && e.payload.target.clientMsgId == id ==> Bucket(e) == Some(b)
  {
    if e.payload.MessageDelete? || e.payload.Reaction? {
      NamesIsLocal(messages, e.payload.target);
      if Names(messages, e.payload.target) && e.payload.target.clientMsgId == id {
        NamedIsOwned(messages, e.payload.target);
        OwnerIsUnique(messages, b, e.payload.target.serverSeq, id);
      }
    }
  }

  lemma TombstonesAppend(events: seq<Message>, e: Message, messages: seq<Message>, roles: Roles, id: Id)
    ensures var before := Find(Tombstones(events, messages, roles), id);
            Find(Tombstones(events + [e], messages, roles), id)
            == if !Deletes(messages, roles, e) || e.payload.target.clientMsgId != id then before
               else if before.Some? && (before.value.serverSeq.Some? || !Confirmed(e)) then before
               else Some(Tombstone(e.payload.target, roles[e.senderId], e.senderId, e.clientMsgId, if Confirmed(e) then Some(e.number) else None))
  {
    assert (events + [e])[..|events|] == events;
    hide Deletes;
    assert Deletes(messages, roles, e) ==> e.payload.MessageDelete? && e.senderId in roles by {
      DeletesForm(messages, roles, e);
    }
  }

  lemma DeletesForm(messages: seq<Message>, roles: Roles, e: Message)
    ensures Deletes(messages, roles, e) ==> e.payload.MessageDelete? && e.senderId in roles
    ensures Reacts(messages, roles, e) ==> e.payload.Reaction? && e.senderId in roles
  {
  }

  lemma {:induction false} TombstonesAreLocal(events: seq<Message>, messages: seq<Message>, roles: Roles, b: nat, id: Id)
    requires NoCollision(messages) && Owns(messages, b, id)
    ensures Find(Tombstones(InBucket(events, b), InBucket(messages, b), roles), id) == Find(Tombstones(events, messages, roles), id)
  {
    if events != [] {
      var front, e := events[..|events| - 1], events[|events| - 1];
      assert events == front + [e];
      TombstonesAreLocal(front, messages, roles, b, id);
      DeletesIsLocal(messages, roles, b, id, e);
      DeletesForm(messages, roles, e);
      hide InBucket, Tombstones, Deletes, Owns, NoCollision;
      InBucketAppend(front, e, b);
      TombstonesAppend(front, e, messages, roles, id);
      TombstonesAppend(InBucket(front, b), e, InBucket(messages, b), roles, id);
    }
  }

  lemma {:induction false} TombstoneIsOwned(events: seq<Message>, messages: seq<Message>, roles: Roles, id: Id) returns (b: nat)
    requires id in Tombstones(events, messages, roles)
    ensures Owns(messages, b, id)
  {
    var front, e := events[..|events| - 1], events[|events| - 1];
    if id in Tombstones(front, messages, roles) {
      b := TombstoneIsOwned(front, messages, roles, id);
    } else {
      b := e.payload.target.serverSeq;
      NamedIsOwned(messages, e.payload.target);
    }
  }

  lemma ByTargetAppend(events: seq<Message>, e: Message, messages: seq<Message>, roles: Roles, id: Id)
    ensures var before := Find(ByTarget(events, messages, roles), id);
            var badges := if before.Some? then before.value else map[];
            Find(ByTarget(events + [e], messages, roles), id)
            == if !Reacts(messages, roles, e) || e.payload.target.clientMsgId != id then before
               else if e.payload.emoji.None? then Some(badges - {roles[e.senderId]})
               else Some(badges[roles[e.senderId] := Badge(roles[e.senderId], e.senderId, e.payload.emoji.value, e.clientMsgId, !Confirmed(e))])
  {
    assert (events + [e])[..|events|] == events;
    hide Reacts;
    DeletesForm(messages, roles, e);
  }

  lemma {:induction false} ByTargetIsLocal(events: seq<Message>, messages: seq<Message>, roles: Roles, b: nat, id: Id)
    requires NoCollision(messages) && Owns(messages, b, id)
    ensures Find(ByTarget(InBucket(events, b), InBucket(messages, b), roles), id) == Find(ByTarget(events, messages, roles), id)
  {
    if events != [] {
      var front, e := events[..|events| - 1], events[|events| - 1];
      assert events == front + [e];
      ByTargetIsLocal(front, messages, roles, b, id);
      DeletesIsLocal(messages, roles, b, id, e);
      DeletesForm(messages, roles, e);
      hide InBucket, ByTarget, Reacts, Owns, NoCollision;
      InBucketAppend(front, e, b);
      ByTargetAppend(front, e, messages, roles, id);
      ByTargetAppend(InBucket(front, b), e, InBucket(messages, b), roles, id);
    }
  }

  lemma {:induction false} ReactionIsOwned(events: seq<Message>, messages: seq<Message>, roles: Roles, id: Id) returns (b: nat)
    requires id in ByTarget(events, messages, roles)
    ensures Owns(messages, b, id)
  {
    var front, e := events[..|events| - 1], events[|events| - 1];
    if id in ByTarget(front, messages, roles) {
      b := ReactionIsOwned(front, messages, roles, id);
    } else {
      b := e.payload.target.serverSeq;
      NamedIsOwned(messages, e.payload.target);
    }
  }

  // -------------------------------------------------------- the locality law

  predicate Prefix(readable: seq<Message>, messages: seq<Message>) {
    |readable| <= |messages| && readable == messages[..|readable|]
  }

  /** Every fact is about a message of some group. */
  lemma FactIsOwned(messages: seq<Message>, readable: seq<Message>, roles: Roles, key: Key) returns (b: nat)
    requires FactOf(messages, readable, roles, key).Some? && Prefix(readable, messages)
    ensures Owns(messages, b, key.id)
  {
    hide ReadIds, ByTarget, Tombstones, Ordered;
    match key {
      case ReadKey(id) =>
        b := ReadIsOwned(readable, roles, id);
        assert forall m :: m in readable ==> m in messages;
      case DeletedKey(id) =>
        b := TombstoneIsOwned(Ordered(Deletions, messages), messages, roles, id);
      case ReactionKey(id) =>
        b := ReactionIsOwned(Ordered(Reactions, messages), messages, roles, id);
    }
  }

  /** And it is what the reducers say of that group alone. */
  lemma FactIsLocal(messages: seq<Message>, readable: seq<Message>, roles: Roles, key: Key, b: nat)
    requires NoCollision(messages) && Prefix(readable, messages) && Owns(messages, b, key.id)
    ensures FactOf(InBucket(messages, b), InBucket(readable, b), roles, key) == FactOf(messages, readable, roles, key)
  {
    hide InBucket, ReadIds, ByTarget, Tombstones, Ordered;
    match key {
      case ReadKey(id) =>
        ReadFactIsLocal(messages, readable, roles, id, b);
      case DeletedKey(id) =>
        OrderedInBucket(Deletions, messages, b);
        TombstonesAreLocal(Ordered(Deletions, messages), messages, roles, b, id);
      case ReactionKey(id) =>
        OrderedInBucket(Reactions, messages, b);
        ByTargetIsLocal(Ordered(Reactions, messages), messages, roles, b, id);
    }
  }

  lemma ReadFactIsLocal(messages: seq<Message>, readable: seq<Message>, roles: Roles, id: Id, b: nat)
    requires NoCollision(messages) && Prefix(readable, messages) && Owns(messages, b, id)
    ensures id in ReadIds(InBucket(readable, b), roles) <==> id in ReadIds(readable, roles)
  {
    assert forall m :: m in readable ==> m in messages;
    if id in ReadIds(readable, roles) {
      var c := ReadIsOwned(readable, roles, id);
      OwnerIsUnique(messages, b, c, id);
      ReadsIsLocal(readable, roles, b, id);
    } else if id in ReadIds(InBucket(readable, b), roles) {
      var c := ReadIsOwned(InBucket(readable, b), roles, id);
      OwnsInBucket(readable, b, c, id);
      ReadsIsLocal(readable, roles, b, id);
    }
  }

  lemma {:induction false} InBucketPrefix(readable: seq<Message>, messages: seq<Message>, b: nat)
    requires Prefix(readable, messages)
    ensures Prefix(InBucket(readable, b), InBucket(messages, b))
  {
    if |readable| < |messages| {
      var front, last := messages[..|messages| - 1], messages[|messages| - 1];
      assert messages == front + [last];
      InBucketPrefix(readable, front, b);
      hide InBucket;
      InBucketAppend(front, last, b);
    } else {
      assert readable == messages;
    }
  }

  /** The law: unless an id spans two groups, the facts of the whole history are the disjoint union
      of the facts of its groups. */
  lemma FactsAreDisjointUnion(messages: seq<Message>, readable: seq<Message>, roles: Roles, key: Key, b: nat)
    requires NoCollision(messages) && Prefix(readable, messages)
    requires FactOf(InBucket(messages, b), InBucket(readable, b), roles, key).Some?
    ensures Owns(messages, b, key.id)
    ensures FactOf(messages, readable, roles, key) == FactOf(InBucket(messages, b), InBucket(readable, b), roles, key)
    ensures forall c: nat :: c != b ==> FactOf(InBucket(messages, c), InBucket(readable, c), roles, key).None?
  {
    hide FactOf, InBucket, Owns, NoCollision;
    InBucketPrefix(readable, messages, b);
    var owner := FactIsOwned(InBucket(messages, b), InBucket(readable, b), roles, key);
    OwnsInBucket(messages, b, owner, key.id);
    FactIsLocal(messages, readable, roles, key, b);
    forall c: nat | c != b
      ensures FactOf(InBucket(messages, c), InBucket(readable, c), roles, key).None?
    {
      if FactOf(InBucket(messages, c), InBucket(readable, c), roles, key).Some? {
        InBucketPrefix(readable, messages, c);
        var other := FactIsOwned(InBucket(messages, c), InBucket(readable, c), roles, key);
        OwnsInBucket(messages, c, other, key.id);
        OwnerIsUnique(messages, b, c, key.id);
      }
    }
  }

  /** A group without events has no facts. */
  lemma ContentHasNoFacts(messages: seq<Message>, readable: seq<Message>, roles: Roles)
    requires Prefix(readable, messages) && forall m :: m in messages ==> m.payload.Content?
    ensures Reduced(messages, readable, roles) == map[]
  {
    assert forall m :: m in readable ==> m in messages;
    assert ReadIds(readable, roles) == {};
    NoEvents(Deletions, messages);
    NoEvents(Reactions, messages);
    hide ReadIds, Ordered, Deletes, Reacts;
    assert Deleted(messages, roles) == map[] && Reacted(messages, roles) == map[];
    hide Deleted, Reacted;
    forall key: Key
      ensures key !in Reduced(messages, readable, roles)
    {
      ReducedFacts(messages, readable, roles, key);
    }
  }

  lemma {:induction false} NoEvents(kind: Kind, messages: seq<Message>)
    requires forall m :: m in messages ==> m.payload.Content?
    ensures Ordered(kind, messages) == []
  {
    if messages != [] {
      var front, last := messages[..|messages| - 1], messages[|messages| - 1];
      assert last in messages && forall m :: m in front ==> m in messages;
      NoEvents(kind, front);
      assert Kept(kind, messages) == Kept(kind, front);
    }
  }
}
