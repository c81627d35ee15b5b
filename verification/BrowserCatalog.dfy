/** The encrypted room catalog that one participant's devices share (src/lib/browser-access.ts): the
    merge of a local list into it, and the compare-and-swap loops that publish the result. */
module BrowserCatalog {
  import opened Wrappers

  const MAX_NAME := 40
  const MAX_DEVICES := 16
  const MAX_REMOVED := 16_384

  type RoomId = nat

  /** Values that have a format of their own carry whether they keep to it. */
  datatype Field = Field(content: nat, wellFormed: bool)

  /** A certificate comes with the members, sequence number, fingerprint and role that it certifies. */
  type Credentials = nat

  datatype Space = Space(roomId: RoomId, name: string, avatar: Option<Field>, createdAt: Option<Field>, deviceCount: Option<int>,
                         credentials: Option<Credentials>, waiting: bool, pendingManagement: Option<nat>)

  predicate Blank(name: string) {
    forall i :: 0 <= i < |name| ==> name[i] == ' '
  }

  predicate Formed(field: Option<Field>) {
    field.Some? ==> field.value.wellFormed
  }

  predicate Allowed(space: Space) {
    && !Blank(space.name) && |space.name| <= MAX_NAME && Formed(space.avatar) && Formed(space.createdAt)
    && (space.deviceCount.Some? ==> 0 <= space.deviceCount.value <= MAX_DEVICES)
  }

  // -------------------------------------------------------------- one room

  function Or<T>(first: Option<T>, second: Option<T>): Option<T> {
    if first.Some? then first else second
  }

  /** A local entry over what was known of the room. */
  function Over(previous: Option<Space>, s: Space): (r: Space)
    ensures r.roomId == s.roomId
  {
    var p := if previous.Some? then previous.value else Space(s.roomId, s.name, None, None, None, None, false, None);
    Space(s.roomId, s.name, Or(s.avatar, p.avatar), Or(s.createdAt, p.createdAt), Or(s.deviceCount, p.deviceCount),
          Or(s.credentials, p.credentials), s.waiting, if s.waiting then Or(s.pendingManagement, p.pendingManagement) else None)
  }

  /** All local entries of a room in turn. */
  function Layers(previous: Option<Space>, local: seq<Space>, room: RoomId): Option<Space> {
    if local == [] then previous
    else
      var below, last := Layers(previous, local[..|local| - 1], room), local[|local| - 1];
      if last.roomId == room then Some(Over(below, last)) else below
  }

  function LastAllowed(remote: seq<Space>, room: RoomId): Option<Space> {
    if remote == [] then None
    else
      var last := remote[|remote| - 1];
      if last.roomId == room && Allowed(last) then Some(last) else LastAllowed(remote[..|remote| - 1], room)
  }

  /** What the merge makes of a room, from the two lists alone. */
  function Resolved(remote: seq<Space>, local: seq<Space>, removed: set<RoomId>, room: RoomId): Option<Space> {
    if room in removed then None
    else
      var merged := Layers(LastAllowed(remote, room), local, room);
      if merged.Some? && Allowed(merged.value) then merged else None
  }

  // ---------------------------------------------------------------- the merge

  /** A JavaScript Map of rooms: its keys in the order of insertion, and its entries. */
  datatype ById = ById(order: seq<RoomId>, entries: map<RoomId, Space>)

  predicate DistinctRooms(order: seq<RoomId>) {
    forall i, j :: 0 <= i < j < |order| ==> order[i] != order[j]
  }

  predicate IsMap(m: ById) {
    && DistinctRooms(m.order)
    && (forall i :: 0 <= i < |m.order| ==> m.order[i] in m.entries)
    && (forall room <- m.entries :: room in m.order && m.entries[room].roomId == room)
  }

  function Put(m: ById, s: Space): ById {
    ById(if s.roomId in m.entries then m.order else m.order + [s.roomId], m.entries[s.roomId := s])
  }

  function Without(order: seq<RoomId>, room: RoomId): seq<RoomId> {
    if order == [] then []
    else
      var front, last := order[..|order| - 1], order[|order| - 1];
      if last == room then Without(front, room) else Without(front, room) + [last]
  }

  function Drop(m: ById, room: RoomId): ById {
    ById(Without(m.order, room), m.entries - {room})
  }

  function Find(entries: map<RoomId, Space>, room: RoomId): Option<Space> {
    if room in entries then Some(entries[room]) else None
  }

  function FromRemote(remote: seq<Space>, removed: set<RoomId>): ById {
    if remote == [] then ById([], map[])
    else
      var m, last := FromRemote(remote[..|remote| - 1], removed), remote[|remote| - 1];
      if last.roomId !in removed && Allowed(last) then Put(m, last) else m
  }

  function WithLocal(m: ById, local: seq<Space>, removed: set<RoomId>): ById {
    if local == [] then m
    else
      var below, last := WithLocal(m, local[..|local| - 1], removed), local[|local| - 1];
      if last.roomId in removed then Drop(below, last.roomId) else Put(below, Over(Find(below.entries, last.roomId), last))
  }

  /** The entries in order, of those that may be listed. */
  function Listed(m: ById, order: seq<RoomId>, removed: set<RoomId>): seq<Space>
    requires forall i :: 0 <= i < |order| ==> order[i] in m.entries
  {
    if order == [] then []
    else
      var front, s := Listed(m, order[..|order| - 1], removed), m.entries[order[|order| - 1]];
      if s.roomId !in removed && Allowed(s) then front + [s] else front
  }

  function Merged(remote: seq<Space>, local: seq<Space>, removed: set<RoomId>): seq<Space> {
    var m := WithLocal(FromRemote(remote, removed), local, removed);
    MergedIsMap(remote, local, removed);
    Listed(m, m.order, removed)
  }

  lemma PutIsMap(m: ById, s: Space)
    requires IsMap(m)
    ensures IsMap(Put(m, s))
  {
    assert forall room :: room in m.order ==> room in m.entries;
  }

  lemma {:induction false} WithoutElements(order: seq<RoomId>, gone: RoomId)
    requires DistinctRooms(order)
    ensures DistinctRooms(Without(order, gone)) && forall room :: room in Without(order, gone) <==> room in order && room != gone
  {
    if order != [] {
      var front, last := order[..|order| - 1], order[|order| - 1];
      assert order == front + [last];
      WithoutElements(front, gone);
      assert last !in front;
    }
  }

  lemma DropIsMap(m: ById, room: RoomId)
    requires IsMap(m)
    ensures IsMap(Drop(m, room))
  {
    WithoutElements(m.order, room);
    assert forall i :: 0 <= i < |Without(m.order, room)| ==> Without(m.order, room)[i] in Without(m.order, room);
    assert forall x :: x in m.order ==> x in m.entries;
  }

  lemma {:induction false} FromRemoteIsMap(remote: seq<Space>, removed: set<RoomId>)
    ensures IsMap(FromRemote(remote, removed))
  {
    if remote != [] {
      FromRemoteIsMap(remote[..|remote| - 1], removed);
      PutIsMap(FromRemote(remote[..|remote| - 1], removed), remote[|remote| - 1]);
    }
  }

  lemma {:induction false} WithLocalIsMap(m: ById, local: seq<Space>, removed: set<RoomId>)
    requires IsMap(m)
    ensures IsMap(WithLocal(m, local, removed))
  {
    if local != [] {
      var below, last := WithLocal(m, local[..|local| - 1], removed), local[|local| - 1];
      WithLocalIsMap(m, local[..|local| - 1], removed);
      DropIsMap(below, last.roomId);
      PutIsMap(below, Over(Find(below.entries, last.roomId), last));
    }
  }

  lemma MergedIsMap(remote: seq<Space>, local: seq<Space>, removed: set<RoomId>)
    ensures IsMap(WithLocal(FromRemote(remote, removed), local, removed))
  {
    FromRemoteIsMap(remote, removed);
    WithLocalIsMap(FromRemote(remote, removed), local, removed);
  }

  // ------------------------------------------------------- what the merge means

  function Rooms(spaces: seq<Space>): (rooms: seq<RoomId>)
    ensures |rooms| == |spaces| && forall i :: 0 <= i < |spaces| ==> rooms[i] == spaces[i].roomId
  {
    seq(|spaces|, i requires 0 <= i < |spaces| => spaces[i].roomId)
  }

  lemma {:induction false} RemoteEntry(remote: seq<Space>, removed: set<RoomId>, room: RoomId)
    ensures Find(FromRemote(remote, removed).entries, room) == if room in removed then None else LastAllowed(remote, room)
  {
    hide Allowed;
    if remote != [] {
      RemoteEntry(remote[..|remote| - 1], removed, room);
    }
  }

  lemma {:induction false} LocalEntry(m: ById, local: seq<Space>, removed: set<RoomId>, room: RoomId)
    requires room in removed ==> room !in m.entries
    ensures Find(WithLocal(m, local, removed).entries, room) == if room in removed then None else Layers(Find(m.entries, room), local, room)
  {
    hide Over;
    if local != [] {
      LocalEntry(m, local[..|local| - 1], removed, room);
    }
  }

  lemma {:induction false} ListedElements(m: ById, order: seq<RoomId>, removed: set<RoomId>)
    requires IsMap(m) && forall i :: 0 <= i < |order| ==> order[i] in m.entries
    ensures forall s :: s in Listed(m, order, removed) <==> s.roomId in order && m.entries[s.roomId] == s && s.roomId !in removed && Allowed(s)
  {
    hide Allowed;
    if order != [] {
      var front, last := order[..|order| - 1], order[|order| - 1];
      assert order == front + [last];
      ListedElements(m, front, removed);
    }
  }

  lemma {:induction false} ListedOnce(m: ById, order: seq<RoomId>, removed: set<RoomId>)
    requires IsMap(m) && DistinctRooms(order) && forall i :: 0 <= i < |order| ==> order[i] in m.entries
    ensures DistinctRooms(Rooms(Listed(m, order, removed)))
  {
    if order != [] {
      var front, last := order[..|order| - 1], order[|order| - 1];
      ListedOnce(m, front, removed);
      ListedElements(m, front, removed);
      hide Allowed, IsMap;
      var listed := Listed(m, front, removed);
      forall i | 0 <= i < |listed|
        ensures listed[i].roomId != last
      {
        assert listed[i] in listed;
      }
    }
  }

  /** The merge lists exactly what the two lists resolve to, each room once. */
  lemma MergedExactly(remote: seq<Space>, local: seq<Space>, removed: set<RoomId>)
    ensures forall s :: s in Merged(remote, local, removed) <==> Resolved(remote, local, removed, s.roomId) == Some(s)
    ensures DistinctRooms(Rooms(Merged(remote, local, removed)))
  {
    var m := WithLocal(FromRemote(remote, removed), local, removed);
    MergedIsMap(remote, local, removed);
    ListedElements(m, m.order, removed);
    ListedOnce(m, m.order, removed);
    hide FromRemote, WithLocal, Listed, Layers, LastAllowed, Allowed;
    forall s: Space
      ensures s in Listed(m, m.order, removed) <==> Resolved(remote, local, removed, s.roomId) == Some(s)
    {
      RemoteEntry(remote, removed, s.roomId);
      LocalEntry(FromRemote(remote, removed), local, removed, s.roomId);
    }
  }

  /** No removed room is listed. */
  lemma NoTombstoneIsListed(remote: seq<Space>, local: seq<Space>, removed: set<RoomId>)
    ensures forall s <- Merged(remote, local, removed) :: s.roomId !in removed
  {
    MergedExactly(remote, local, removed);
    hide Merged, Layers, LastAllowed;
  }

  predicate IsListed(spaces: seq<Space>, room: RoomId) {
    exists i :: 0 <= i < |spaces| && spaces[i].roomId == room
  }

  /** A live remote room is lost exactly when what the local entries make of it may not be listed,
      which takes a local entry with a name or field that may not. */
  lemma LiveRoomIsLostExactly(remote: seq<Space>, local: seq<Space>, removed: set<RoomId>, room: RoomId)
    requires LastAllowed(remote, room).Some? && room !in removed
    ensures Layers(LastAllowed(remote, room), local, room).Some?
    ensures !IsListed(Merged(remote, local, removed), room) <==> !Allowed(Layers(LastAllowed(remote, room), local, room).value)
    ensures (forall s <- local :: s.roomId == room ==> Allowed(s)) ==> IsListed(Merged(remote, local, removed), room)
  {
    MergedExactly(remote, local, removed);
    LastAllowedIs(remote, room);
    LayersKeep(LastAllowed(remote, room), local, room);
    hide Merged, LastAllowed, Layers, Allowed;
    var merged := Layers(LastAllowed(remote, room), local, room).value;
    if Allowed(merged) {
      assert Resolved(remote, local, removed, room) == Some(merged);
      assert merged.roomId == room;
      assert merged in Merged(remote, local, removed);
    }
  }

  /** So the merge relies on what it is given: an entry whose name is too long would take a live room
      off the list. The local directory never holds one. */
  lemma LongNameHidesRoom(live: Space, local: Space)
    requires Allowed(live) && local.roomId == live.roomId && |local.name| > MAX_NAME
    ensures !IsListed(Merged([live], [local], {}), live.roomId)
  {
    assert [live][..0] == [] && [local][..0] == [];
    assert LastAllowed([live], live.roomId) == Some(live);
    assert Layers(Some(live), [local], live.roomId) == Some(Over(Some(live), local));
    hide Merged;
    LiveRoomIsLostExactly([live], [local], {}, live.roomId);
  }

  lemma {:induction false} LastAllowedIs(remote: seq<Space>, room: RoomId)
    ensures var r := LastAllowed(remote, room); r.Some? ==> r.value.roomId == room && Allowed(r.value) && r.value in remote
  {
    hide Allowed;
    if remote != [] {
      LastAllowedIs(remote[..|remote| - 1], room);
    }
  }

  lemma {:induction false} LayersKeep(previous: Option<Space>, local: seq<Space>, room: RoomId)
    requires previous.Some? ==> previous.value.roomId == room
    ensures previous.Some? ==> Layers(previous, local, room).Some?
    ensures Layers(previous, local, room).Some? ==> Layers(previous, local, room).value.roomId == room
    ensures previous.Some? && Allowed(previous.value) && (forall s <- local :: s.roomId == room ==> Allowed(s)) ==>
              Allowed(Layers(previous, local, room).value)
  {
    hide Blank;
    if local != [] {
      var front, last := local[..|local| - 1], local[|local| - 1];
      assert last in local && forall s <- front :: s in local;
      LayersKeep(previous, front, room);
    }
  }

  // ------------------------------------------------------------- idempotence

  /** What all local entries of a room do to it, whatever it was: `pending` is `None` when they leave
      the pending management as it was. */
  datatype Patch = Patch(name: string, avatar: Option<Field>, createdAt: Option<Field>, deviceCount: Option<int>,
                         credentials: Option<Credentials>, waiting: bool, pending: Option<Option<nat>>)

  function Patched(patch: Patch, room: RoomId, previous: Option<Space>): Space {
    var p := if previous.Some? then previous.value else Space(room, patch.name, None, None, None, None, false, None);
    Space(room, patch.name, Or(patch.avatar, p.avatar), Or(patch.createdAt, p.createdAt), Or(patch.deviceCount, p.deviceCount),
          Or(patch.credentials, p.credentials), patch.waiting, if patch.pending.Some? then patch.pending.value else p.pendingManagement)
  }

  function PatchOf(local: seq<Space>, room: RoomId): Option<Patch> {
    if local == [] then None
    else
      var below, s := PatchOf(local[..|local| - 1], room), local[|local| - 1];
      if s.roomId != room then below
      else
        var b := if below.Some? then below.value else Patch(s.name, None, None, None, None, false, None);
        Some(Patch(s.name, Or(s.avatar, b.avatar), Or(s.createdAt, b.createdAt), Or(s.deviceCount, b.deviceCount), Or(s.credentials, b.credentials),
                   s.waiting, if !s.waiting then Some(None) else if s.pendingManagement.Some? then Some(s.pendingManagement) else b.pending))
  }

  lemma {:induction false} LayersArePatch(previous: Option<Space>, local: seq<Space>, room: RoomId)
    requires previous.Some? ==> previous.value.roomId == room
    ensures Layers(previous, local, room)
         == match PatchOf(local, room) case None => previous case Some(patch) => Some(Patched(patch, room, previous))
  {
    if local != [] {
      LayersArePatch(previous, local[..|local| - 1], room);
    }
  }

  predicate PatchAllowed(patch: Patch) {
    && !Blank(patch.name) && |patch.name| <= MAX_NAME && Formed(patch.avatar) && Formed(patch.createdAt)
    && (patch.deviceCount.Some? ==> 0 <= patch.deviceCount.value <= MAX_DEVICES)
  }

  /** Laying the same entries over the result again changes nothing. */
  lemma ResolvesAgain(remote: seq<Space>, local: seq<Space>, removed: set<RoomId>, room: RoomId)
    ensures Resolved(Merged(remote, local, removed), local, removed, room) == Resolved(remote, local, removed, room)
  {
    var first := Resolved(remote, local, removed, room);
    MergedExactly(remote, local, removed);
    LastAllowedIs(remote, room);
    LayersArePatch(LastAllowed(remote, room), local, room);
    var again := LastAllowed(Merged(remote, local, removed), room);
    ListedAgain(Merged(remote, local, removed), room, first);
    LayersArePatch(again, local, room);
    hide Merged, LastAllowed, Layers, PatchOf, Blank;
  }

  lemma OneEach(spaces: seq<Space>, a: Space, b: Space)
    requires DistinctRooms(Rooms(spaces)) && a in spaces && b in spaces && a.roomId == b.roomId
    ensures a == b
  {
    var i :| 0 <= i < |spaces| && spaces[i] == a;
    var j :| 0 <= j < |spaces| && spaces[j] == b;
    assert i == j by {
      assert Rooms(spaces)[i] == Rooms(spaces)[j];
    }
  }

  lemma {:induction false} ListedAgain(spaces: seq<Space>, room: RoomId, s: Option<Space>)
    requires DistinctRooms(Rooms(spaces)) && (s.Some? ==> s.value in spaces && s.value.roomId == room && Allowed(s.value))
    requires s.None? ==> forall x <- spaces :: x.roomId != room
    ensures LastAllowed(spaces, room) == s
  {
    hide Allowed;
    if spaces != [] {
      var front, last := spaces[..|spaces| - 1], spaces[|spaces| - 1];
      assert spaces == front + [last];
      assert Rooms(front) == Rooms(spaces)[..|spaces| - 1];
      if last.roomId == room {
        assert last in spaces;
        OneEach(spaces, s.value, last);
      } else {
        ListedAgain(front, room, s);
      }
    }
  }

  lemma LastRoomIsNew(spaces: seq<Space>)
    requires DistinctRooms(Rooms(spaces)) && spaces != []
    ensures var front, last := spaces[..|spaces| - 1], spaces[|spaces| - 1];
            Rooms(spaces) == Rooms(front) + [last.roomId] && DistinctRooms(Rooms(front)) && last.roomId !in Rooms(front)
  {
    var n := |spaces| - 1;
    assert forall i :: 0 <= i < n ==> Rooms(spaces)[i] == Rooms(spaces[..n])[i] && Rooms(spaces)[i] != Rooms(spaces)[n];
  }

  lemma {:induction false} FromListedOrder(spaces: seq<Space>, removed: set<RoomId>)
    requires DistinctRooms(Rooms(spaces)) && forall i :: 0 <= i < |spaces| ==> spaces[i].roomId !in removed && Allowed(spaces[i])
    ensures FromRemote(spaces, removed).order == Rooms(spaces)
    ensures forall room <- FromRemote(spaces, removed).entries :: room in Rooms(spaces)
  {
    if spaces != [] {
      var front, last := spaces[..|spaces| - 1], spaces[|spaces| - 1];
      LastRoomIsNew(spaces);
      FromListedOrder(front, removed);
      assert FromRemote(spaces, removed) == Put(FromRemote(front, removed), last);
      hide Allowed, FromRemote, DistinctRooms;
    }
  }

  lemma {:induction false} FromListedEntry(spaces: seq<Space>, removed: set<RoomId>, i: nat)
    requires DistinctRooms(Rooms(spaces)) && forall i :: 0 <= i < |spaces| ==> spaces[i].roomId !in removed && Allowed(spaces[i])
    requires i < |spaces|
    ensures Find(FromRemote(spaces, removed).entries, spaces[i].roomId) == Some(spaces[i])
  {
    var front, last := spaces[..|spaces| - 1], spaces[|spaces| - 1];
    LastRoomIsNew(spaces);
    if i < |front| {
      FromListedEntry(front, removed, i);
      assert Rooms(front)[i] == spaces[i].roomId;
    }
    assert FromRemote(spaces, removed) == Put(FromRemote(front, removed), last);
    hide Allowed, FromRemote, DistinctRooms;
  }

  /** Laying the local entries over a map adds new rooms behind the old ones. */
  lemma {:induction false} LocalOrder(m: ById, local: seq<Space>, removed: set<RoomId>)
    requires IsMap(m) && forall room <- m.entries :: room !in removed
    ensures |m.order| <= |WithLocal(m, local, removed).order| && WithLocal(m, local, removed).order[..|m.order|] == m.order
    ensures forall room <- WithLocal(m, local, removed).entries :: room !in removed
  {
    hide Over;
    if local != [] {
      var below, last := WithLocal(m, local[..|local| - 1], removed), local[|local| - 1];
      LocalOrder(m, local[..|local| - 1], removed);
      WithLocalIsMap(m, local[..|local| - 1], removed);
      if last.roomId in removed {
        NothingDropped(below, last.roomId);
      }
    }
  }

  lemma NothingDropped(m: ById, room: RoomId)
    requires IsMap(m) && room !in m.entries
    ensures Drop(m, room) == m
  {
    WithoutNone(m.order, room);
    assert m.entries - {room} == m.entries;
  }

  lemma {:induction false} WithoutNone(order: seq<RoomId>, room: RoomId)
    requires forall i :: 0 <= i < |order| ==> order[i] != room
    ensures Without(order, room) == order
  {
    if order != [] {
      WithoutNone(order[..|order| - 1], room);
    }
  }

  /** What is listed is listed in the order of the map, and the rest is skipped. */
  lemma {:induction false} ListedPrefix(m: ById, spaces: seq<Space>, order: seq<RoomId>, removed: set<RoomId>)
    requires IsMap(m) && |spaces| <= |order| && order[..|spaces|] == Rooms(spaces) && forall i :: 0 <= i < |order| ==> order[i] in m.entries
    requires forall i :: 0 <= i < |spaces| ==> m.entries[order[i]] == spaces[i] && spaces[i].roomId !in removed && Allowed(spaces[i])
    requires forall i :: |spaces| <= i < |order| ==> m.entries[order[i]].roomId in removed || !Allowed(m.entries[order[i]])
    ensures Listed(m, order, removed) == spaces
  {
    hide Allowed;
    if order != [] {
      var n := |order| - 1;
      if |spaces| == |order| {
        var front := spaces[..n];
        assert Rooms(front) == Rooms(spaces)[..n];
        ListedPrefix(m, front, order[..n], removed);
        assert spaces == front + [spaces[n]];
      } else {
        assert order[..n][..|spaces|] == order[..|spaces|];
        ListedPrefix(m, spaces, order[..n], removed);
      }
    }
  }

  /** Merging the same local list into the result again changes nothing, not even the order. */
  lemma MergeIsIdempotent(remote: seq<Space>, local: seq<Space>, removed: set<RoomId>)
    ensures Merged(Merged(remote, local, removed), local, removed) == Merged(remote, local, removed)
  {
    var spaces := Merged(remote, local, removed);
    var base := FromRemote(spaces, removed);
    var m := WithLocal(base, local, removed);
    MergedExactly(remote, local, removed);
    NoTombstoneIsListed(remote, local, removed);
    AllAllowed(remote, local, removed);
    FromListedOrder(spaces, removed);
    FromRemoteIsMap(spaces, removed);
    LocalOrder(base, local, removed);
    MergedIsMap(spaces, local, removed);
    hide FromRemote, WithLocal, Merged, Listed, Allowed, Resolved, Layers, LastAllowed;
    forall i | 0 <= i < |m.order|
      ensures if i < |spaces| then m.entries[m.order[i]] == spaces[i]
              else m.entries[m.order[i]].roomId in removed || !Allowed(m.entries[m.order[i]])
    {
      var room := m.order[i];
      MergedEntry(remote, local, removed, room);
      if i < |spaces| {
        assert base.order[i] == m.order[i] == Rooms(spaces)[i];
        assert spaces[i] in spaces;
        FromListedEntry(spaces, removed, i);
      } else {
        assert room !in Rooms(spaces) by {
          LaterRoom(m.order, |spaces|, i);
        }
        assert forall s <- spaces :: s.roomId in Rooms(spaces);
      }
    }
    ListedPrefix(m, spaces, m.order, removed);
    MergedIsListed(spaces, local, removed);
  }

  lemma LaterRoom(order: seq<RoomId>, n: nat, i: nat)
    requires DistinctRooms(order) && n <= i < |order|
    ensures order[i] !in order[..n]
  {
  }

  lemma MergedIsListed(remote: seq<Space>, local: seq<Space>, removed: set<RoomId>)
    ensures var m := WithLocal(FromRemote(remote, removed), local, removed); IsMap(m) && Merged(remote, local, removed) == Listed(m, m.order, removed)
  {
    MergedIsMap(remote, local, removed);
  }

  lemma AllAllowed(remote: seq<Space>, local: seq<Space>, removed: set<RoomId>)
    ensures forall s <- Merged(remote, local, removed) :: Allowed(s)
  {
    MergedExactly(remote, local, removed);
    hide Merged, Allowed, Layers, LastAllowed;
  }

  /** In the second merge, the entry of a room is what the first one resolved it to. */
  lemma MergedEntry(remote: seq<Space>, local: seq<Space>, removed: set<RoomId>, room: RoomId)
    ensures var spaces := Merged(remote, local, removed);
            var entry := Find(WithLocal(FromRemote(spaces, removed), local, removed).entries, room);
            var first := Resolved(remote, local, removed, room);
            && (first.Some? ==> entry == first)
            && (first.None? && entry.Some? ==> room in removed || !Allowed(entry.value))
  {
    var spaces := Merged(remote, local, removed);
    RemoteEntry(spaces, removed, room);
    LocalEntry(FromRemote(spaces, removed), local, removed, room);
    ResolvesAgain(remote, local, removed, room);
    hide FromRemote, WithLocal, Merged, LastAllowed, Layers, Allowed;
  }

  method MergeCatalogSpaces(remote: seq<Space>, local: seq<Space>, removed: set<RoomId>) returns (spaces: seq<Space>)
    ensures spaces == Merged(remote, local, removed)
  {
    hide FromRemote, WithLocal, Listed, Allowed;
    MergedIsListed(remote, local, removed);
    NothingMerged(removed);
    var byId := ById([], map[]);
    for i := 0 to |remote|
      invariant byId == FromRemote(remote[..i], removed)
    {
      RemoteStep(remote, i, removed);
      if remote[i].roomId !in removed && Allowed(remote[i]) {
        byId := Put(byId, remote[i]);
      }
    }
    assert remote[..|remote|] == remote;
    ghost var base := byId;
    LocalNone(base, removed);
    for i := 0 to |local|
      invariant byId == WithLocal(base, local[..i], removed)
    {
      LocalStep(base, local, i, removed);
      var s := local[i];
      if s.roomId in removed {
        byId := Drop(byId, s.roomId);
      } else {
        byId := Put(byId, Over(Find(byId.entries, s.roomId), s));
      }
    }
    assert local[..|local|] == local;
    spaces := [];
    ListedNone(byId, removed);
    for i := 0 to |byId.order|
      invariant spaces == Listed(byId, byId.order[..i], removed)
    {
      assert byId.order[..i + 1][..i] == byId.order[..i];
      ListedStep(byId, i, removed);
      var s := byId.entries[byId.order[i]];
      if s.roomId !in removed && Allowed(s) {
        spaces := spaces + [s];
      }
    }
    assert byId.order[..|byId.order|] == byId.order;
  }

  lemma NothingMerged(removed: set<RoomId>)
    ensures FromRemote([], removed) == ById([], map[])
  {
  }

  lemma LocalNone(m: ById, removed: set<RoomId>)
    ensures WithLocal(m, [], removed) == m
  {
  }

  lemma ListedNone(m: ById, removed: set<RoomId>)
    ensures Listed(m, [], removed) == []
  {
  }

  lemma RemoteStep(remote: seq<Space>, i: nat, removed: set<RoomId>)
    requires i < |remote|
    ensures FromRemote(remote[..i + 1], removed)
         == if remote[i].roomId !in removed && Allowed(remote[i]) then Put(FromRemote(remote[..i], removed), remote[i]) else FromRemote(remote[..i], removed)
  {
    assert remote[..i + 1][..i] == remote[..i];
  }

  lemma LocalStep(m: ById, local: seq<Space>, i: nat, removed: set<RoomId>)
    requires i < |local|
    ensures var below := WithLocal(m, local[..i], removed);
            WithLocal(m, local[..i + 1], removed)
            == if local[i].roomId in removed then Drop(below, local[i].roomId) else Put(below, Over(Find(below.entries, local[i].roomId), local[i]))
  {
    assert local[..i + 1][..i] == local[..i];
  }

  lemma ListedStep(m: ById, i: nat, removed: set<RoomId>)
    requires IsMap(m) && i < |m.order|
    ensures var s := m.entries[m.order[i]];
            Listed(m, m.order[..i + 1], removed)
            == if s.roomId !in removed && Allowed(s) then Listed(m, m.order[..i], removed) + [s] else Listed(m, m.order[..i], removed)
  {
    assert m.order[..i + 1][..i] == m.order[..i];
  }

  // ------------------------------------------------------------ compare and swap

  type Client = nat

  datatype Doc = Doc(revision: nat, spaces: seq<Space>, removed: set<RoomId>)

  /** `Publish` merges a device's list and its own tombstones; with `deleting` it also destroys that
      room. `Remove` takes a waiting room out of the list. */
  datatype Task = Publish(local: seq<Space>, removed: set<RoomId>, deleting: Option<RoomId>) | Remove(room: RoomId)

  datatype Attempt = Attempt(task: Task, read: Option<Doc>)

  datatype World = World(doc: Doc, clients: map<Client, Attempt>)

  datatype Act = Begin(task: Task) | Fetch | Write | Stop

  predicate IsWaiting(spaces: seq<Space>, room: RoomId) {
    exists i :: 0 <= i < |spaces| && spaces[i].roomId == room && spaces[i].waiting
  }

  function Remaining(spaces: seq<Space>, room: RoomId): seq<Space> {
    if spaces == [] then []
    else
      var front, last := spaces[..|spaces| - 1], spaces[|spaces| - 1];
      if last.roomId == room then Remaining(front, room) else Remaining(front, room) + [last]
  }

  /** The successor that a task computes from what it has read; `None` when it gives up. */
  function Successor(task: Task, read: Doc): Option<Doc> {
    match task
    case Publish(local, own, deleting) =>
      var removed := read.removed + own + (if deleting.Some? then {deleting.value} else {});
      if |removed| > MAX_REMOVED || (deleting.Some? && deleting.value in read.removed) then None
      else Some(Doc(read.revision + 1, Merged(read.spaces, local, removed), removed))
    case Remove(room) =>
      if room in read.removed || !IsWaiting(read.spaces, room) || |read.removed + {room}| > MAX_REMOVED then None
      else Some(Doc(read.revision + 1, Remaining(read.spaces, room), read.removed + {room}))
  }

  /** One request of one client. The server takes a write only as the successor of what it has. */
  function Do(w: World, c: Client, act: Act): World {
    match act
    case Begin(task) => w.(clients := w.clients[c := Attempt(task, None)])
    case Fetch => if c in w.clients then w.(clients := w.clients[c := w.clients[c].(read := Some(w.doc))]) else w
    case Write =>
      if c !in w.clients || w.clients[c].read.None? then w
      else
        var next := Successor(w.clients[c].task, w.clients[c].read.value);
        if next.Some? && next.value.revision == w.doc.revision + 1 then w.(doc := next.value) else w
    case Stop => w.(clients := w.clients - {c})
  }

  predicate DocInv(doc: Doc) {
    DistinctRooms(Rooms(doc.spaces)) && forall s <- doc.spaces :: s.roomId !in doc.removed && Allowed(s)
  }

  /** What a client has read is the document, or older. */
  predicate Inv(w: World) {
    && DocInv(w.doc)
    && forall c <- w.clients :: w.clients[c].read.Some? ==>
         w.clients[c].read.value.revision <= w.doc.revision && (w.clients[c].read.value.revision == w.doc.revision ==> w.clients[c].read.value == w.doc)
  }

  lemma {:induction false} RemainingElements(spaces: seq<Space>, room: RoomId)
    ensures forall s :: s in Remaining(spaces, room) <==> s in spaces && s.roomId != room
  {
    if spaces != [] {
      var front, last := spaces[..|spaces| - 1], spaces[|spaces| - 1];
      assert spaces == front + [last];
      RemainingElements(front, room);
    }
  }

  lemma {:induction false} RemainingOnce(spaces: seq<Space>, room: RoomId)
    requires DistinctRooms(Rooms(spaces))
    ensures DistinctRooms(Rooms(Remaining(spaces, room)))
  {
    if spaces != [] {
      var front, last := spaces[..|spaces| - 1], spaces[|spaces| - 1];
      LastRoomIsNew(spaces);
      RemainingOnce(front, room);
      RemainingElements(front, room);
      var remaining := Remaining(front, room);
      assert Remaining(spaces, room) == if last.roomId == room then remaining else remaining + [last];
      hide Remaining;
      forall i | 0 <= i < |remaining|
        ensures remaining[i].roomId != last.roomId
      {
        assert remaining[i] in front;
        var j :| 0 <= j < |front| && front[j] == remaining[i];
        assert Rooms(front)[j] in Rooms(front);
      }
    }
  }

  /** What a task makes of a document: tombstones are kept, none is listed, rooms are listed once. */
  lemma SuccessorIsSound(task: Task, doc: Doc)
    requires DocInv(doc) && Successor(task, doc).Some?
    ensures DocInv(Successor(task, doc).value) && doc.removed <= Successor(task, doc).value.removed
  {
    match task
    case Publish(local, own, deleting) =>
      var removed := doc.removed + own + (if deleting.Some? then {deleting.value} else {});
      MergedExactly(doc.spaces, local, removed);
      NoTombstoneIsListed(doc.spaces, local, removed);
      AllAllowed(doc.spaces, local, removed);
    case Remove(room) =>
      RemainingElements(doc.spaces, room);
      RemainingOnce(doc.spaces, room);
  }

  lemma StepKeepsInv(w: World, c: Client, act: Act)
    requires Inv(w)
    ensures Inv(Do(w, c, act)) && w.doc.removed <= Do(w, c, act).doc.removed
  {
    if act.Write? && c in w.clients && w.clients[c].read.Some? && w.clients[c].read.value == w.doc && Successor(w.clients[c].task, w.doc).Some? {
      SuccessorIsSound(w.clients[c].task, w.doc);
    }
    hide DocInv, Merged, Remaining, IsWaiting;
  }

  /** The list keeps only entries that may be listed. */
  predicate SoundTask(task: Task) {
    task.Publish? ==> forall s <- task.local :: Allowed(s)
  }

  /** While publications are sound a live room is never lost: after any step it is still listed, or it
      has been removed. */
  lemma NoLiveRoomIsLost(w: World, c: Client, act: Act, room: RoomId)
    requires Inv(w) && IsListed(w.doc.spaces, room)
    requires c in w.clients ==> SoundTask(w.clients[c].task)
    ensures IsListed(Do(w, c, act).doc.spaces, room) || room in Do(w, c, act).doc.removed
  {
    var after := Do(w, c, act);
    if after.doc != w.doc && room !in after.doc.removed {
      var task := w.clients[c].task;
      assert w.clients[c].read.value == w.doc;
      var i :| 0 <= i < |w.doc.spaces| && w.doc.spaces[i].roomId == room;
      match task
      case Publish(local, own, deleting) =>
        ListedAgain(w.doc.spaces, room, Some(w.doc.spaces[i]));
        LiveRoomIsLostExactly(w.doc.spaces, local, after.doc.removed, room);
      case Remove(gone) =>
        RemainingElements(w.doc.spaces, gone);
        assert w.doc.spaces[i] in after.doc.spaces;
    }
  }

  function Run(w: World, run: seq<(Client, Act)>): World {
    if run == [] then w else Do(Run(w, run[..|run| - 1]), run[|run| - 1].0, run[|run| - 1].1)
  }

  /** Over any run of any number of devices: the tombstones only grow, and a room that has been
      removed is never listed again. */
  lemma {:induction false} RemovedRoomsStayRemoved(w: World, run: seq<(Client, Act)>)
    requires Inv(w)
    ensures Inv(Run(w, run)) && w.doc.removed <= Run(w, run).doc.removed
    ensures forall room <- w.doc.removed :: !IsListed(Run(w, run).doc.spaces, room)
  {
    if run == [] {
    } else {
      RemovedRoomsStayRemoved(w, run[..|run| - 1]);
      StepKeepsInv(Run(w, run[..|run| - 1]), run[|run| - 1].0, run[|run| - 1].1);
    }
    hide Do, Run, Allowed;
    var after := Run(w, run).doc;
    assert DocInv(after);
    assert forall i :: 0 <= i < |after.spaces| ==> after.spaces[i] in after.spaces;
  }

  // ------------------------------------------------------------ what devices publish

  const MAX_DIRECTORY := 256

  /** The server admits at most three devices of one participant to a room, four where a room archive
      is being repaired (server/storage.mjs). */
  type DeviceCount = n: nat | n <= 4

  /** A date that the program has written itself. */
  type Date = f: Field | f.wellFormed witness Field(0, true)

  /** One room of a device's own directory (src/lib/spaces.ts). */
  datatype Entry = Entry(roomId: RoomId, name: string, avatar: Option<Field>, createdAt: Option<Field>, waiting: bool)

  predicate ValidEntry(e: Entry) {
    !Blank(e.name) && |e.name| <= MAX_NAME && Formed(e.avatar) && Formed(e.createdAt)
  }

  /** `validate`, which every read and every write of the directory goes through. */
  predicate ValidDirectory(directory: seq<Entry>) {
    && |directory| <= MAX_DIRECTORY && (forall e <- directory :: ValidEntry(e))
    && (forall i, j :: 0 <= i < j < |directory| ==> directory[i].roomId != directory[j].roomId)
  }

  /** A device: its directory, and the entries it has prepared for the catalog. */
  datatype Device = Device(directory: seq<Entry>, prepared: seq<Space>)

  predicate ValidPrepared(s: Space) {
    Formed(s.avatar) && Formed(s.createdAt) && s.deviceCount.None?
  }

  predicate ValidDevice(d: Device) {
    ValidDirectory(d.directory) && forall s <- d.prepared :: ValidPrepared(s)
  }

  function InDirectory(directory: seq<Entry>, room: RoomId): Option<Entry> {
    if directory == [] then None else if directory[0].roomId == room then Some(directory[0]) else InDirectory(directory[1..], room)
  }

  function Prepared(prepared: seq<Space>, room: RoomId): Option<Space> {
    if prepared == [] then None else if prepared[0].roomId == room then Some(prepared[0]) else Prepared(prepared[1..], room)
  }

  /** What a device publishes of a directory entry: approving a browser keeps a room marked as waiting
      once it was, and only a plain publication counts the devices of the room it is made from. */
  function EntryOf(d: Device, e: Entry, own: RoomId, devices: DeviceCount, approving: bool): Space {
    var prepared := Prepared(d.prepared, e.roomId);
    var base := if prepared.Some? then prepared.value else Space(e.roomId, e.name, None, None, None, None, false, None);
    Space(e.roomId, e.name, Or(e.avatar, base.avatar), Or(e.createdAt, base.createdAt),
          if !approving && e.roomId == own then Some(devices) else base.deviceCount, base.credentials,
          e.waiting || (approving && base.waiting), base.pendingManagement)
  }

  function Publication(d: Device, directory: seq<Entry>, present: set<RoomId>, own: RoomId, devices: DeviceCount, approving: bool): seq<Space> {
    if directory == [] then []
    else
      var front, e := Publication(d, directory[..|directory| - 1], present, own, devices, approving), directory[|directory| - 1];
      if e.roomId in present then front + [EntryOf(d, e, own, devices, approving)] else front
  }

  /** The entry that `prepareBrowserAccess` keeps for the room of the open session. */
  function PreparedFor(d: Device, room: RoomId, waiting: bool, date: Date, credentials: Credentials, management: nat): Space {
    var local := InDirectory(d.directory, room);
    Space(room, if local.Some? then local.value.name else "chamber", if local.Some? then local.value.avatar else None,
          if waiting then Some(date) else None, None, if waiting then None else Some(credentials), waiting,
          if waiting then Some(management) else None)
  }

  datatype Devices = Devices(catalog: World, devices: map<Client, Device>)

  /** `Remember` stands for every change of the directory, which is refused unless the result is valid.
      The rooms in `present` are those that the device still has and that are not excluded. */
  datatype Move =
    | Join
    | Remember(directory: seq<Entry>)
    | Prepare(room: RoomId, waiting: bool, date: Date, credentials: Credentials, management: nat)
    | Announce(present: set<RoomId>, own: RoomId, devices: DeviceCount, approving: bool, removed: set<RoomId>, deleting: Option<RoomId>)
    | TakeOff(room: RoomId)
    | Request(act: Act)

  /** A device's requests to the server are reads, writes and giving up; tasks begin from its own data. */
  function MoveOn(w: Devices, c: Client, move: Move): Devices {
    match move
    case Join => if c in w.devices then w else w.(devices := w.devices[c := Device([], [])])
    case Remember(directory) =>
      if c !in w.devices || !ValidDirectory(directory) then w else w.(devices := w.devices[c := w.devices[c].(directory := directory)])
    case Prepare(room, waiting, date, credentials, management) =>
      if c !in w.devices then w
      else
        var d := w.devices[c];
        w.(devices := w.devices[c := d.(prepared := Remaining(d.prepared, room) + [PreparedFor(d, room, waiting, date, credentials, management)])])
    case Announce(present, own, devices, approving, removed, deleting) =>
      if c !in w.devices then w
      else
        var local := Publication(w.devices[c], w.devices[c].directory, present, own, devices, approving);
        w.(catalog := Do(w.catalog, c, Begin(Publish(local, removed, deleting))))
    case TakeOff(room) => w.(catalog := Do(w.catalog, c, Begin(Remove(room))))
    case Request(act) => if act.Begin? then w else w.(catalog := Do(w.catalog, c, act))
  }

  ghost predicate DevicesInv(w: Devices) {
    && Inv(w.catalog)
    && (forall c <- w.devices :: ValidDevice(w.devices[c]))
    && (forall c <- w.catalog.clients :: SoundTask(w.catalog.clients[c].task))
  }

  lemma {:induction false} PreparedIsOne(prepared: seq<Space>, room: RoomId)
    ensures Prepared(prepared, room).Some? ==> Prepared(prepared, room).value in prepared
  {
    if prepared != [] {
      PreparedIsOne(prepared[1..], room);
    }
  }

  lemma {:induction false} DirectoryIsOne(directory: seq<Entry>, room: RoomId)
    ensures InDirectory(directory, room).Some? ==> InDirectory(directory, room).value in directory
  {
    if directory != [] {
      DirectoryIsOne(directory[1..], room);
    }
  }

  /** Whatever a device publishes may be listed. */
  lemma {:induction false} PublicationIsAllowed(d: Device, directory: seq<Entry>, present: set<RoomId>, own: RoomId, devices: DeviceCount, approving: bool)
    requires ValidDevice(d) && forall e <- directory :: ValidEntry(e)
    ensures forall s <- Publication(d, directory, present, own, devices, approving) :: Allowed(s)
  {
    if directory != [] {
      var front, e := directory[..|directory| - 1], directory[|directory| - 1];
      assert directory == front + [e];
      assert e in directory && forall f <- front :: f in directory;
      PublicationIsAllowed(d, front, present, own, devices, approving);
      PreparedIsOne(d.prepared, e.roomId);
      hide Blank, ValidDirectory;
      assert Allowed(EntryOf(d, e, own, devices, approving));
    }
  }

  lemma PreparingKeepsDevice(d: Device, room: RoomId, waiting: bool, date: Date, credentials: Credentials, management: nat)
    requires ValidDevice(d)
    ensures ValidDevice(d.(prepared := Remaining(d.prepared, room) + [PreparedFor(d, room, waiting, date, credentials, management)]))
  {
    DirectoryIsOne(d.directory, room);
    RemainingElements(d.prepared, room);
    hide Remaining, ValidDirectory, Blank;
    assert ValidPrepared(PreparedFor(d, room, waiting, date, credentials, management)) by {
      assert forall e <- d.directory :: ValidEntry(e) by {
        DirectoryEntries(d);
      }
    }
  }

  lemma DirectoryEntries(d: Device)
    requires ValidDevice(d)
    ensures forall e <- d.directory :: ValidEntry(e)
  {
  }

  lemma MoveKeepsInv(w: Devices, c: Client, move: Move)
    requires DevicesInv(w)
    ensures DevicesInv(MoveOn(w, c, move))
  {
    match move
    case Join =>
    case Remember(directory) =>
      hide Inv, Allowed;
    case Prepare(room, waiting, date, credentials, management) =>
      if c in w.devices {
        PreparingKeepsDevice(w.devices[c], room, waiting, date, credentials, management);
      }
      hide Inv, ValidDevice, Remaining, PreparedFor, Allowed;
    case Announce(present, own, devices, approving, removed, deleting) =>
      if c in w.devices {
        PublicationIsAllowed(w.devices[c], w.devices[c].directory, present, own, devices, approving);
      }
      hide ValidDevice, DocInv, Publication, Allowed;
    case TakeOff(room) =>
      hide ValidDevice, DocInv, Allowed;
    case Request(act) =>
      StepKeepsInv(w.catalog, c, act);
      hide ValidDevice, Inv, DocInv, Successor, Allowed;
  }

  function Moves(w: Devices, run: seq<(Client, Move)>): Devices {
    if run == [] then w else MoveOn(Moves(w, run[..|run| - 1]), run[|run| - 1].0, run[|run| - 1].1)
  }

  lemma {:induction false} MovesKeepInv(w: Devices, run: seq<(Client, Move)>)
    requires DevicesInv(w)
    ensures DevicesInv(Moves(w, run)) && w.catalog.doc.removed <= Moves(w, run).catalog.doc.removed
  {
    if run != [] {
      var before := Moves(w, run[..|run| - 1]);
      MovesKeepInv(w, run[..|run| - 1]);
      MoveKeepsInv(before, run[|run| - 1].0, run[|run| - 1].1);
      MoveGrowsTombstones(before, run[|run| - 1].0, run[|run| - 1].1);
      hide DevicesInv, MoveOn;
    }
  }

  lemma MoveGrowsTombstones(w: Devices, c: Client, move: Move)
    requires DevicesInv(w)
    ensures w.catalog.doc.removed <= MoveOn(w, c, move).catalog.doc.removed
  {
    hide ValidDirectory, Publication, PreparedFor, Remaining;
    if move.Request? {
      StepKeepsInv(w.catalog, c, move.act);
      hide Do;
    }
  }

  lemma MoveKeepsRoom(w: Devices, c: Client, move: Move, room: RoomId)
    requires DevicesInv(w) && IsListed(w.catalog.doc.spaces, room)
    ensures IsListed(MoveOn(w, c, move).catalog.doc.spaces, room) || room in MoveOn(w, c, move).catalog.doc.removed
  {
    hide ValidDirectory, Publication, PreparedFor, Remaining, IsListed;
    if move.Request? {
      NoLiveRoomIsLost(w.catalog, c, move.act, room);
      hide Do;
    }
  }

  /** Over any run of any number of devices, each publishing from its own validated directory: a listed
      room stays listed until it is removed, and is then never listed again. */
  lemma {:induction false} RoomsStayListed(w: Devices, run: seq<(Client, Move)>, room: RoomId)
    requires DevicesInv(w) && IsListed(w.catalog.doc.spaces, room)
    ensures IsListed(Moves(w, run).catalog.doc.spaces, room) <==> room !in Moves(w, run).catalog.doc.removed
  {
    MovesKeepInv(w, run);
    ListedIsLive(Moves(w, run), room);
    if run != [] {
      var before := Moves(w, run[..|run| - 1]);
      RoomsStayListed(w, run[..|run| - 1], room);
      MovesKeepInv(w, run[..|run| - 1]);
      MoveGrowsTombstones(before, run[|run| - 1].0, run[|run| - 1].1);
      hide DevicesInv, MoveOn, IsListed;
      if room !in before.catalog.doc.removed {
        MoveKeepsRoom(before, run[|run| - 1].0, run[|run| - 1].1, room);
      }
    }
  }

  lemma ListedIsLive(w: Devices, room: RoomId)
    requires DevicesInv(w)
    ensures IsListed(w.catalog.doc.spaces, room) ==> room !in w.catalog.doc.removed
  {
    var spaces := w.catalog.doc.spaces;
    forall i | 0 <= i < |spaces|
      ensures spaces[i].roomId !in w.catalog.doc.removed
    {
      assert spaces[i] in spaces;
    }
  }

  // ---------------------------------------------------- what an accepted write does

  /** The server takes a client's write. */
  predicate Accepted(w: World, c: Client) {
    Do(w, c, Write).doc.revision == w.doc.revision + 1
  }

  lemma AcceptedIsSuccessor(w: World, c: Client)
    requires Inv(w) && Accepted(w, c)
    ensures c in w.clients && w.clients[c].read == Some(w.doc) && Successor(w.clients[c].task, w.doc) == Some(Do(w, c, Write).doc)
  {
    hide DocInv, Merged, Remaining, IsWaiting;
  }

  /** A task gives up when its room is not there to be removed, when it has been removed already, or when
      there are too many tombstones. */
  predicate GivesUp(task: Task, doc: Doc) {
    match task
    case Publish(local, own, deleting) =>
      (deleting.Some? && deleting.value in doc.removed)
      || |doc.removed + own + (match deleting case None => {} case Some(room) => {room})| > MAX_REMOVED
    case Remove(room) =>
      room in doc.removed || |doc.removed + {room}| > MAX_REMOVED || forall s <- doc.spaces :: s.roomId == room ==> !s.waiting
  }

  /** A write is taken exactly when the client has read the document as it is and its task does not give up. */
  lemma AcceptedExactly(w: World, c: Client)
    requires Inv(w)
    ensures Accepted(w, c) <==> c in w.clients && w.clients[c].read == Some(w.doc) && !GivesUp(w.clients[c].task, w.doc)
    ensures !Accepted(w, c) ==> Do(w, c, Write).doc == w.doc
  {
    if c in w.clients && w.clients[c].read.Some? {
      var task := w.clients[c].task;
      match task
      case Publish(local, own, deleting) =>
        hide DocInv, Merged;
      case Remove(room) =>
        WaitingIs(w.doc.spaces, room);
        hide DocInv, Remaining, IsWaiting;
    }
  }

  lemma WaitingIs(spaces: seq<Space>, room: RoomId)
    ensures IsWaiting(spaces, room) <==> exists s :: s in spaces && s.roomId == room && s.waiting
  {
    if s :| s in spaces && s.roomId == room && s.waiting {
      var i :| 0 <= i < |spaces| && spaces[i] == s;
    }
  }

  lemma NotListed(spaces: seq<Space>, room: RoomId)
    requires forall s <- spaces :: s.roomId != room
    ensures !IsListed(spaces, room)
  {
  }

  /** An accepted removal: exactly that room leaves the list and gets a tombstone. */
  lemma RemovalTakesEffect(w: World, c: Client, room: RoomId)
    requires Inv(w) && Accepted(w, c) && w.clients[c].task == Remove(room)
    ensures var after := Do(w, c, Write).doc;
            && after.removed == w.doc.removed + {room} && room !in w.doc.removed && IsListed(w.doc.spaces, room) && !IsListed(after.spaces, room)
            && forall s :: s in after.spaces <==> s in w.doc.spaces && s.roomId != room
  {
    AcceptedIsSuccessor(w, c);
    RemainingElements(w.doc.spaces, room);
    NotListed(Do(w, c, Write).doc.spaces, room);
    hide Inv, Remaining, Merged;
  }

  /** An accepted publication adds exactly its own tombstones, and with a deletion that of the deleted room. */
  lemma DeletionTakesEffect(w: World, c: Client)
    requires Inv(w) && Accepted(w, c) && w.clients[c].task.Publish?
    ensures var after, task := Do(w, c, Write).doc, w.clients[c].task;
            && (forall room :: room in after.removed <==> room in w.doc.removed || room in task.removed || task.deleting == Some(room))
            && forall room <- after.removed :: !IsListed(after.spaces, room)
  {
    AcceptedIsSuccessor(w, c);
    var after, task := Do(w, c, Write).doc, w.clients[c].task;
    NoTombstoneIsListed(w.doc.spaces, task.local, after.removed);
    hide Inv, Merged, Do;
    forall room <- after.removed
      ensures !IsListed(after.spaces, room)
    {
      NotListed(after.spaces, room);
    }
  }

  /** What has been removed once is listed by no later document, whatever devices do. */
  lemma RemovedForGood(w: Devices, run: seq<(Client, Move)>, room: RoomId)
    requires DevicesInv(w) && room in w.catalog.doc.removed
    ensures room in Moves(w, run).catalog.doc.removed && !IsListed(Moves(w, run).catalog.doc.spaces, room)
  {
    MovesKeepInv(w, run);
    ListedIsLive(Moves(w, run), room);
  }

  /** A device that takes a waiting room off: once its write is accepted the room is gone for good. */
  lemma TakenOffForGood(w: Devices, c: Client, room: RoomId, run: seq<(Client, Move)>)
    requires DevicesInv(w) && Accepted(w.catalog, c) && w.catalog.clients[c].task == Remove(room)
    ensures var after := MoveOn(w, c, Request(Write));
            DevicesInv(after) && !IsListed(Moves(after, run).catalog.doc.spaces, room) && room in Moves(after, run).catalog.doc.removed
  {
    MoveKeepsInv(w, c, Request(Write));
    RemovalTakesEffect(w.catalog, c, room);
    hide Do, DevicesInv;
    RemovedForGood(MoveOn(w, c, Request(Write)), run, room);
  }

  /** And so it is with a room that is deleted. */
  lemma DeletedForGood(w: Devices, c: Client, room: RoomId, run: seq<(Client, Move)>)
    requires DevicesInv(w) && Accepted(w.catalog, c) && w.catalog.clients[c].task.Publish? && w.catalog.clients[c].task.deleting == Some(room)
    ensures var after := MoveOn(w, c, Request(Write));
            DevicesInv(after) && !IsListed(Moves(after, run).catalog.doc.spaces, room) && room in Moves(after, run).catalog.doc.removed
  {
    MoveKeepsInv(w, c, Request(Write));
    DeletionTakesEffect(w.catalog, c);
    hide Do, DevicesInv;
    RemovedForGood(MoveOn(w, c, Request(Write)), run, room);
  }

  // --------------------------------------------------- what a publication lists

  /** One entry over another: what the local one says counts, and what it does not say is kept; only a
      waiting room keeps its management. */
  predicate LaidOver(r: Space, s: Space, previous: Option<Space>) {
    && r.roomId == s.roomId && r.name == s.name && r.waiting == s.waiting
    && (s.avatar.Some? ==> r.avatar == s.avatar) && (s.createdAt.Some? ==> r.createdAt == s.createdAt)
    && (s.deviceCount.Some? ==> r.deviceCount == s.deviceCount) && (s.credentials.Some? ==> r.credentials == s.credentials)
    && (!s.waiting ==> r.pendingManagement.None?) && (s.waiting && s.pendingManagement.Some? ==> r.pendingManagement == s.pendingManagement)
    && match previous
       case None =>
         && (s.avatar.None? ==> r.avatar.None?) && (s.createdAt.None? ==> r.createdAt.None?)
         && (s.deviceCount.None? ==> r.deviceCount.None?) && (s.credentials.None? ==> r.credentials.None?)
         && (s.pendingManagement.None? ==> r.pendingManagement.None?)
       case Some(p) =>
         && (s.avatar.None? ==> r.avatar == p.avatar) && (s.createdAt.None? ==> r.createdAt == p.createdAt)
         && (s.deviceCount.None? ==> r.deviceCount == p.deviceCount) && (s.credentials.None? ==> r.credentials == p.credentials)
         && (s.waiting && s.pendingManagement.None? ==> r.pendingManagement == p.pendingManagement)
  }

  predicate OnlyEntry(local: seq<Space>, k: nat) {
    k < |local| && forall i :: 0 <= i < |local| && local[i].roomId == local[k].roomId ==> i == k
  }

  lemma {:induction false} NoLayers(previous: Option<Space>, local: seq<Space>, room: RoomId)
    requires forall i :: 0 <= i < |local| ==> local[i].roomId != room
    ensures Layers(previous, local, room) == previous
  {
    if local != [] {
      NoLayers(previous, local[..|local| - 1], room);
    }
  }

  lemma {:induction false} OneLayer(previous: Option<Space>, local: seq<Space>, k: nat)
    requires OnlyEntry(local, k)
    ensures Layers(previous, local, local[k].roomId) == Some(Over(previous, local[k]))
  {
    var front := local[..|local| - 1];
    if k == |local| - 1 {
      NoLayers(previous, front, local[k].roomId);
    } else {
      assert local[|local| - 1].roomId != local[k].roomId;
      OneLayer(previous, front, k);
    }
  }

  /** A local entry that may be listed is listed, over what the catalog had of its room. */
  lemma LocalEntryIsListed(remote: seq<Space>, local: seq<Space>, removed: set<RoomId>, k: nat) returns (r: Space)
    requires OnlyEntry(local, k) && Allowed(local[k]) && local[k].roomId !in removed && DistinctRooms(Rooms(remote))
    requires forall s <- remote :: Allowed(s)
    ensures r in Merged(remote, local, removed)
    ensures exists previous: Option<Space> :: LaidOver(r, local[k], previous) && IsEntry(remote, local[k].roomId, previous)
  {
    var room := local[k].roomId;
    var previous := LastAllowed(remote, room);
    OneLayer(previous, local, k);
    LastAllowedIs(remote, room);
    LastAllowedHas(remote, room);
    MergedExactly(remote, local, removed);
    r := Over(previous, local[k]);
    OverIsAllowed(previous, local[k]);
    hide Merged, Layers, LastAllowed, Allowed, Over;
    assert Resolved(remote, local, removed, room) == Some(r);
    OverLaysOver(previous, local[k]);
    assert LaidOver(r, local[k], previous) && IsEntry(remote, room, previous);
  }

  /** The entry of a room in a list, if there is one. */
  predicate IsEntry(spaces: seq<Space>, room: RoomId, entry: Option<Space>) {
    match entry
    case None => forall s <- spaces :: s.roomId != room
    case Some(s) => s in spaces && s.roomId == room
  }

  lemma {:induction false} LastAllowedHas(remote: seq<Space>, room: RoomId)
    requires forall s <- remote :: Allowed(s)
    ensures LastAllowed(remote, room).None? ==> forall s <- remote :: s.roomId != room
  {
    hide Allowed;
    if remote != [] {
      var front, last := remote[..|remote| - 1], remote[|remote| - 1];
      assert remote == front + [last] && last in remote;
      LastAllowedHas(front, room);
    }
  }

  lemma OverIsAllowed(previous: Option<Space>, s: Space)
    requires Allowed(s) && (previous.Some? ==> Allowed(previous.value))
    ensures Allowed(Over(previous, s))
  {
    hide Blank;
  }

  lemma OverLaysOver(previous: Option<Space>, s: Space)
    ensures LaidOver(Over(previous, s), s, previous)
  {
  }

  lemma {:induction false} PublicationHas(d: Device, directory: seq<Entry>, present: set<RoomId>, own: RoomId, devices: DeviceCount, approving: bool,
                                          e: Entry) returns (k: nat)
    requires e in directory && e.roomId in present
    requires forall i, j :: 0 <= i < j < |directory| ==> directory[i].roomId != directory[j].roomId
    ensures var local := Publication(d, directory, present, own, devices, approving);
            OnlyEntry(local, k) && local[k] == EntryOf(d, e, own, devices, approving)
  {
    var front, last := directory[..|directory| - 1], directory[|directory| - 1];
    assert directory == front + [last];
    hide EntryOf;
    PublicationRooms(d, front, present, own, devices, approving);
    EntryRoom(d, last, own, devices, approving);
    EntryRoom(d, e, own, devices, approving);
    if last == e {
      k := |Publication(d, front, present, own, devices, approving)|;
    } else {
      k := PublicationHas(d, front, present, own, devices, approving, e);
      var i :| 0 <= i < |front| && front[i] == e;
      assert last.roomId != e.roomId;
    }
  }

  lemma EntryRoom(d: Device, e: Entry, own: RoomId, devices: DeviceCount, approving: bool)
    ensures EntryOf(d, e, own, devices, approving).roomId == e.roomId
  {
  }

  lemma {:induction false} PublicationRooms(d: Device, directory: seq<Entry>, present: set<RoomId>, own: RoomId, devices: DeviceCount, approving: bool)
    ensures forall s <- Publication(d, directory, present, own, devices, approving) :: exists e :: e in directory && e.roomId == s.roomId
  {
    if directory != [] {
      var front, last := directory[..|directory| - 1], directory[|directory| - 1];
      assert directory == front + [last];
      PublicationRooms(d, front, present, own, devices, approving);
      EntryRoom(d, last, own, devices, approving);
      hide EntryOf;
      forall s <- Publication(d, directory, present, own, devices, approving)
        ensures exists e :: e in directory && e.roomId == s.roomId
      {
        if s in Publication(d, front, present, own, devices, approving) {
          var e :| e in front && e.roomId == s.roomId;
          assert e in directory;
        } else {
          assert last in directory;
        }
      }
    }
  }

  /** A listed entry shows what the device's directory says of the room. */
  predicate Shows(s: Space, e: Entry) {
    && s.roomId == e.roomId && s.name == e.name && (e.waiting ==> s.waiting)
    && (e.avatar.Some? ==> s.avatar == e.avatar) && (e.createdAt.Some? ==> s.createdAt == e.createdAt)
  }

  /** Once a device's announcement is accepted, every room of its directory that it still has is listed as
      the directory has it, or has been removed. */
  lemma AnnouncedRoomsAreListed(w: World, c: Client, d: Device, present: set<RoomId>, own: RoomId, devices: DeviceCount, approving: bool, e: Entry)
      returns (s: Space)
    requires Inv(w) && Accepted(w, c) && ValidDevice(d) && e in d.directory && e.roomId in present
    requires w.clients[c].task.Publish? && w.clients[c].task.local == Publication(d, d.directory, present, own, devices, approving)
    requires e.roomId !in Do(w, c, Write).doc.removed
    ensures s in Do(w, c, Write).doc.spaces && Shows(s, e) && (!approving ==> s.waiting == e.waiting)
    ensures !approving && e.roomId == own ==> s.deviceCount == Some(devices as int)
    ensures var prepared := Prepared(d.prepared, e.roomId);
            prepared.Some? ==>
              && (prepared.value.credentials.Some? ==> s.credentials == prepared.value.credentials)
              && (s.waiting && prepared.value.pendingManagement.Some? ==> s.pendingManagement == prepared.value.pendingManagement)
              && (approving ==> s.waiting == (e.waiting || prepared.value.waiting))
  {
    AcceptedIsSuccessor(w, c);
    var after, task := Do(w, c, Write).doc, w.clients[c].task;
    PublicationIsAllowed(d, d.directory, present, own, devices, approving);
    var k := PublicationHas(d, d.directory, present, own, devices, approving, e);
    assert task.local[k] in task.local;
    DocIsAllowed(w.doc);
    EntryRoom(d, e, own, devices, approving);
    hide Inv, Do, Publication, Merged, Allowed, ValidDirectory, DocInv, DistinctRooms;
    s := LocalEntryIsListed(w.doc.spaces, task.local, after.removed, k);
  }

  lemma DocIsAllowed(doc: Doc)
    requires DocInv(doc)
    ensures DistinctRooms(Rooms(doc.spaces)) && forall s <- doc.spaces :: Allowed(s)
  {
    hide Allowed;
  }
}
