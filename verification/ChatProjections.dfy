/** The incremental projection index of src/lib/chat-projections.ts, and when it agrees with the
    reducers run on the whole history. */
module ChatProjections {
  import opened MessageFacts
  import opened MessageReducers
  import opened Wrappers
  import Sorting

  datatype Entry = Entry(message: Message, read: bool)

  // --------------------------------------------------------------- whole lists

  function Messages(entries: seq<Entry>): seq<Message> {
    if entries == [] then [] else Messages(entries[..|entries| - 1]) + [entries[|entries| - 1].message]
  }

  function OnlyRead(entries: seq<Entry>): seq<Entry> {
    if entries == [] then []
    else
      var front, last := entries[..|entries| - 1], entries[|entries| - 1];
      if last.read then OnlyRead(front) + [last] else OnlyRead(front)
  }

  function Group(entries: seq<Entry>, b: nat): seq<Entry> {
    if entries == [] then []
    else
      var front, last := entries[..|entries| - 1], entries[|entries| - 1];
      if Bucket(last.message) == Some(b) then Group(front, b) + [last] else Group(front, b)
  }

  lemma MessagesAppend(entries: seq<Entry>, last: Entry)
    ensures Messages(entries + [last]) == Messages(entries) + [last.message]
  {
    assert (entries + [last])[..|entries|] == entries;
  }

  lemma OnlyReadAppend(entries: seq<Entry>, last: Entry)
    ensures OnlyRead(entries + [last]) == if last.read then OnlyRead(entries) + [last] else OnlyRead(entries)
  {
    assert (entries + [last])[..|entries|] == entries;
  }

  lemma GroupAppend(entries: seq<Entry>, last: Entry, b: nat)
    ensures Group(entries + [last], b) == if Bucket(last.message) == Some(b) then Group(entries, b) + [last] else Group(entries, b)
  {
    assert (entries + [last])[..|entries|] == entries;
  }

  lemma {:induction false} GroupMessages(entries: seq<Entry>, b: nat)
    ensures Messages(Group(entries, b)) == InBucket(Messages(entries), b)
    ensures Messages(OnlyRead(Group(entries, b))) == InBucket(Messages(OnlyRead(entries)), b)
  {
    if entries != [] {
      var front, last := entries[..|entries| - 1], entries[|entries| - 1];
      assert entries == front + [last];
      GroupMessages(front, b);
      hide Messages, OnlyRead, Group, InBucket;
      MessagesAppend(front, last);
      OnlyReadAppend(front, last);
      GroupAppend(front, last, b);
      InBucketAppend(Messages(front), last.message, b);
      MessagesAppend(Group(front, b), last);
      OnlyReadAppend(Group(front, b), last);
      MessagesAppend(OnlyRead(Group(front, b)), last);
      MessagesAppend(OnlyRead(front), last);
      InBucketAppend(Messages(OnlyRead(front)), last.message, b);
    }
  }

  lemma {:induction false} MessagesAt(entries: seq<Entry>)
    ensures |Messages(entries)| == |entries| && forall i :: 0 <= i < |entries| ==> Messages(entries)[i] == entries[i].message
  {
    if entries != [] {
      MessagesAt(entries[..|entries| - 1]);
    }
  }

  /** Exactly the entries before `readCount` may have been read. */
  predicate Flagged(entries: seq<Entry>, readCount: nat) {
    forall i :: 0 <= i < |entries| ==> entries[i].read == (i < readCount)
  }

  lemma {:induction false} ReadableIsPrefix(entries: seq<Entry>, readCount: nat)
    requires Flagged(entries, readCount)
    ensures OnlyRead(entries) == entries[..if readCount < |entries| then readCount else |entries|]
    ensures Prefix(Messages(OnlyRead(entries)), Messages(entries))
  {
    var count := if readCount < |entries| then readCount else |entries|;
    if entries != [] {
      var front, last := entries[..|entries| - 1], entries[|entries| - 1];
      ReadableIsPrefix(front, readCount);
      assert if last.read then entries[..count] == front + [last] && front == front[..|front|] else entries[..count] == front[..count];
    }
    assert OnlyRead(entries) == entries[..count];
    hide OnlyRead;
    MessagesOfPrefix(entries, count);
  }

  lemma MessagesOfPrefix(entries: seq<Entry>, count: nat)
    requires count <= |entries|
    ensures Prefix(Messages(entries[..count]), Messages(entries))
  {
    MessagesAt(entries);
    MessagesAt(entries[..count]);
    hide Messages;
  }

  /** What the reducers say of the whole list: the specification. */
  function Batch(entries: seq<Entry>, roles: Roles): Projection {
    Reduced(Messages(entries), Messages(OnlyRead(entries)), roles)
  }

  /** What they say of one group. */
  function Fresh(entries: seq<Entry>, roles: Roles, b: nat): Projection {
    Reduced(InBucket(Messages(entries), b), InBucket(Messages(OnlyRead(entries)), b), roles)
  }

  ghost predicate Consistent(entries: seq<Entry>) {
    NoCollision(Messages(entries)) && Prefix(Messages(OnlyRead(entries)), Messages(entries))
  }

  lemma FreshIsBatch(entries: seq<Entry>, roles: Roles, b: nat, key: Key)
    requires Consistent(entries) && key in Fresh(entries, roles, b)
    ensures Find(Batch(entries, roles), key) == Some(Fresh(entries, roles, b)[key])
    ensures forall c: nat :: c != b ==> key !in Fresh(entries, roles, c)
  {
    var messages, readable := Messages(entries), Messages(OnlyRead(entries));
    hide InBucket, FactOf, NoCollision, Reduced, Messages, OnlyRead;
    ReducedFacts(InBucket(messages, b), InBucket(readable, b), roles, key);
    FactsAreDisjointUnion(messages, readable, roles, key, b);
    ReducedFacts(messages, readable, roles, key);
    forall c: nat | c != b
      ensures key !in Fresh(entries, roles, c)
    {
      ReducedFacts(InBucket(messages, c), InBucket(readable, c), roles, key);
    }
  }

  lemma BatchIsFresh(entries: seq<Entry>, roles: Roles, key: Key) returns (b: nat)
    requires Consistent(entries) && key in Batch(entries, roles)
    ensures Find(Fresh(entries, roles, b), key) == Some(Batch(entries, roles)[key])
  {
    var messages, readable := Messages(entries), Messages(OnlyRead(entries));
    hide InBucket, FactOf, NoCollision, Reduced, Messages, OnlyRead;
    ReducedFacts(messages, readable, roles, key);
    b := FactIsOwned(messages, readable, roles, key);
    FactIsLocal(messages, readable, roles, key, b);
    ReducedFacts(InBucket(messages, b), InBucket(readable, b), roles, key);
  }

  // ------------------------------------------------------------------ refolding

  type Results = map<nat, Projection>

  function Of(results: Results, b: nat): Projection {
    if b in results then results[b] else map[]
  }

  /** The groups of `order` in turn give up their old facts and contribute their fresh ones. */
  function Refolded(base: Projection, order: seq<nat>, stale: Results, entries: seq<Entry>, roles: Roles): Projection {
    if order == [] then base
    else
      var b := order[|order| - 1];
      Refolded(base, order[..|order| - 1], stale, entries, roles) - Of(stale, b).Keys + Fresh(entries, roles, b)
  }

  predicate DistinctKeys(order: seq<nat>) {
    forall i, j :: 0 <= i < j < |order| ==> order[i] != order[j]
  }

  /** A fact that a group has just contributed is taken back by a later group, which had it before. */
  ghost predicate Stolen(order: seq<nat>, stale: Results, entries: seq<Entry>, roles: Roles, key: Key) {
    exists i, j :: 0 <= i < j < |order| && key in Fresh(entries, roles, order[i]) && key in Of(stale, order[j])
  }

  ghost predicate NothingStolen(order: seq<nat>, stale: Results, entries: seq<Entry>, roles: Roles) {
    forall key :: !Stolen(order, stale, entries, roles, key)
  }

  ghost predicate TakenBack(order: seq<nat>, from: nat, stale: Results, key: Key) {
    exists j :: from <= j < |order| && key in Of(stale, order[j])
  }

  lemma TakenBackAppend(order: seq<nat>, b: nat, from: nat, stale: Results, key: Key)
    requires from <= |order|
    ensures TakenBack(order + [b], from, stale, key) <==> TakenBack(order, from, stale, key) || key in Of(stale, b)
  {
    var all := order + [b];
    if TakenBack(order, from, stale, key) {
      var j :| from <= j < |order| && key in Of(stale, order[j]);
      assert all[j] == order[j];
    }
    if key in Of(stale, b) {
      assert all[|order|] == b;
    }
  }

  /** One more group: its fresh fact replaces whatever there was, and its stale fact is taken back. */
  lemma RefoldedAppend(base: Projection, order: seq<nat>, b: nat, stale: Results, entries: seq<Entry>, roles: Roles, key: Key)
    ensures Find(Refolded(base, order + [b], stale, entries, roles), key)
         == if key in Fresh(entries, roles, b) then Some(Fresh(entries, roles, b)[key])
            else if key in Of(stale, b) then None
            else Find(Refolded(base, order, stale, entries, roles), key)
  {
    hide Fresh, Of;
    assert (order + [b])[..|order|] == order;
    var before := Refolded(base, order, stale, entries, roles);
    assert Refolded(base, order + [b], stale, entries, roles) == before - Of(stale, b).Keys + Fresh(entries, roles, b);
  }

  /** A fact that no refolded group has is gone if one of them had it. */
  lemma {:induction false} Forgotten(base: Projection, order: seq<nat>, stale: Results, entries: seq<Entry>, roles: Roles, key: Key)
    requires forall i :: 0 <= i < |order| ==> key !in Fresh(entries, roles, order[i])
    ensures Find(Refolded(base, order, stale, entries, roles), key) == if TakenBack(order, 0, stale, key) then None else Find(base, key)
  {
    if order != [] {
      var front, b := order[..|order| - 1], order[|order| - 1];
      Forgotten(base, front, stale, entries, roles, key);
      assert order == front + [b];
      hide Fresh, Refolded, TakenBack;
      TakenBackAppend(front, b, 0, stale, key);
      RefoldedAppend(base, front, b, stale, entries, roles, key);
    } else {
      assert !TakenBack(order, 0, stale, key);
    }
  }

  /** A fact of the group at position `p` alone stays unless it is taken back. */
  lemma {:induction false} Contributed(base: Projection, order: seq<nat>, stale: Results, entries: seq<Entry>, roles: Roles, key: Key, p: nat)
    requires p < |order| && key in Fresh(entries, roles, order[p])
    requires forall i :: 0 <= i < |order| && i != p ==> key !in Fresh(entries, roles, order[i])
    ensures Find(Refolded(base, order, stale, entries, roles), key)
         == if TakenBack(order, p + 1, stale, key) then None else Some(Fresh(entries, roles, order[p])[key])
  {
    hide Fresh, Refolded;
    var front, b := order[..|order| - 1], order[|order| - 1];
    assert order == front + [b];
    RefoldedAppend(base, front, b, stale, entries, roles, key);
    if p < |front| {
      Contributed(base, front, stale, entries, roles, key, p);
      TakenBackAppend(front, b, p + 1, stale, key);
    }
  }

  /** What the base of a refold must be: it lacks nothing that is not refolded, and has nothing
      that will not be taken back. */
  ghost predicate SoundBase(base: Projection, order: seq<nat>, stale: Results, entries: seq<Entry>, roles: Roles) {
    && (forall key :: key in base && key !in Batch(entries, roles) ==> TakenBack(order, 0, stale, key))
    && (forall b: nat, key :: b !in order && key in Fresh(entries, roles, b) ==>
          Find(base, key) == Some(Fresh(entries, roles, b)[key]) && !TakenBack(order, 0, stale, key))
  }

  /** Refolding yields the batch result exactly when no fact is stolen. */
  lemma RefoldIsExact(base: Projection, order: seq<nat>, stale: Results, entries: seq<Entry>, roles: Roles)
    requires Consistent(entries) && DistinctKeys(order) && SoundBase(base, order, stale, entries, roles)
    ensures Refolded(base, order, stale, entries, roles) == Batch(entries, roles)
       <==> NothingStolen(order, stale, entries, roles)
  {
    hide Refolded, Batch, Fresh, Consistent, SoundBase;
    var folded := Refolded(base, order, stale, entries, roles);
    forall key: Key
      ensures Find(folded, key) == Find(Batch(entries, roles), key) <==> !Stolen(order, stale, entries, roles, key)
    {
      RefoldedFact(base, order, stale, entries, roles, key);
    }
    assert folded == Batch(entries, roles) <==> forall key :: Find(folded, key) == Find(Batch(entries, roles), key) by {
      EqualMaps(folded, Batch(entries, roles));
    }
  }

  lemma EqualMaps(a: Projection, b: Projection)
    ensures a == b <==> forall key :: Find(a, key) == Find(b, key)
  {
    if forall key :: Find(a, key) == Find(b, key) {
      assert forall key :: key in a ==> Find(b, key) == Some(a[key]);
      assert forall key :: key in b ==> Find(a, key) == Some(b[key]);
    }
  }

  lemma RefoldedFact(base: Projection, order: seq<nat>, stale: Results, entries: seq<Entry>, roles: Roles, key: Key)
    requires Consistent(entries) && DistinctKeys(order) && SoundBase(base, order, stale, entries, roles)
    ensures Find(Refolded(base, order, stale, entries, roles), key) == Find(Batch(entries, roles), key)
       <==> !Stolen(order, stale, entries, roles, key)
  {
    hide Refolded, Batch, Fresh, Consistent;
    if key !in Batch(entries, roles) {
      forall b: nat
        ensures key !in Fresh(entries, roles, b)
      {
        if key in Fresh(entries, roles, b) {
          FreshIsBatch(entries, roles, b, key);
        }
      }
      Forgotten(base, order, stale, entries, roles, key);
    } else {
      var b := BatchIsFresh(entries, roles, key);
      FreshIsBatch(entries, roles, b, key);
      if b in order {
        var p :| 0 <= p < |order| && order[p] == b;
        Contributed(base, order, stale, entries, roles, key, p);
        assert Stolen(order, stale, entries, roles, key) <==> TakenBack(order, p + 1, stale, key);
      } else {
        Forgotten(base, order, stale, entries, roles, key);
      }
    }
  }

  // -------------------------------------------------------------- target groups

  type Groups = map<nat, map<nat, Entry>>

  function GroupOf(groups: Groups, b: nat): map<nat, Entry> {
    if b in groups then groups[b] else map[]
  }

  ghost function Slice(live: map<nat, Entry>, b: nat): map<nat, Entry> {
    map i | i in live && Bucket(live[i].message) == Some(b) :: live[i]
  }

  /** The groups hold exactly the entries of `live` that have a bucket, and none is empty. */
  ghost predicate GroupsMatch(groups: Groups, live: map<nat, Entry>) {
    && (forall b <- groups :: groups[b] != map[])
    && (forall b: nat :: GroupOf(groups, b) == Slice(live, b))
  }

  /** The entries while positions before `k` have been updated and the others have not. */
  ghost function Live(before: seq<Entry>, after: seq<Entry>, k: nat): map<nat, Entry> {
    map i: nat | i < |before| + |after| && (if i < k then i < |after| else i < |before|) :: if i < k then after[i] else before[i]
  }

  function RemoveFrom(groups: Groups, b: nat, i: nat): Groups
    requires b in groups
  {
    var group := groups[b] - {i};
    if group == map[] then groups - {b} else groups[b := group]
  }

  function AddTo(groups: Groups, b: nat, i: nat, entry: Entry): Groups {
    groups[b := (if b in groups then groups[b] else map[])[i := entry]]
  }

  lemma Removed(groups: Groups, live: map<nat, Entry>, i: nat)
    requires GroupsMatch(groups, live) && i in live
    ensures match Bucket(live[i].message)
            case None => GroupsMatch(groups, live - {i})
            case Some(b) => b in groups && GroupsMatch(RemoveFrom(groups, b, i), live - {i})
  {
    forall b: nat
      ensures Slice(live - {i}, b) == if Bucket(live[i].message) == Some(b) then Slice(live, b) - {i} else Slice(live, b)
    {
    }
    var b := Bucket(live[i].message);
    if b.Some? {
      assert i in GroupOf(groups, b.value);
      var after := RemoveFrom(groups, b.value, i);
      hide Slice, Bucket;
      assert forall c: nat :: GroupOf(after, c) == if c == b.value then GroupOf(groups, c) - {i} else GroupOf(groups, c);
      assert forall c <- after :: after[c] != map[];
    }
  }

  lemma Added(groups: Groups, live: map<nat, Entry>, i: nat, entry: Entry)
    requires GroupsMatch(groups, live) && i !in live
    ensures match Bucket(entry.message)
            case None => GroupsMatch(groups, live[i := entry])
            case Some(b) => GroupsMatch(AddTo(groups, b, i, entry), live[i := entry])
  {
    forall b: nat
      ensures Slice(live[i := entry], b) == if Bucket(entry.message) == Some(b) then Slice(live, b)[i := entry] else Slice(live, b)
    {
    }
    var b := Bucket(entry.message);
    if b.Some? {
      var after := AddTo(groups, b.value, i, entry);
      hide Slice, Bucket;
      assert i in after[b.value];
      assert forall c: nat :: GroupOf(after, c) == if c == b.value then GroupOf(groups, c)[i := entry] else GroupOf(groups, c);
      assert forall c <- after :: after[c] != map[];
    }
  }

  /** Group `b` as the positions of its entries. */
  ghost predicate Lists(keys: seq<nat>, entries: seq<Entry>, b: nat) {
    && Sorting.Ascending(keys)
    && forall i: nat :: i in keys <==> i < |entries| && Bucket(entries[i].message) == Some(b)
  }

  lemma {:induction false} ListedGroup(keys: seq<nat>, entries: seq<Entry>, b: nat)
    requires Lists(keys, entries, b)
    ensures |Group(entries, b)| == |keys|
    ensures forall k :: 0 <= k < |keys| ==> keys[k] < |entries| && Group(entries, b)[k] == entries[keys[k]]
  {
    assert keys != [] ==> keys[0] in keys;
    if entries != [] {
      var n := |entries| - 1;
      var front, last := entries[..n], entries[n];
      assert entries == front + [last];
      if Bucket(last.message) == Some(b) {
        assert n in keys;
        LastKey(keys, n);
        ListedGroup(keys[..|keys| - 1], front, b);
      } else {
        ListedGroup(keys, front, b);
      }
      hide Group, Lists;
      GroupAppend(front, last, b);
    }
  }

  lemma LastKey(keys: seq<nat>, n: nat)
    requires Sorting.Ascending(keys) && n in keys && forall k <- keys :: k <= n
    ensures keys != [] && keys[|keys| - 1] == n
    ensures forall i: nat :: i in keys[..|keys| - 1] <==> i in keys && i != n
    ensures Sorting.Ascending(keys[..|keys| - 1])
  {
    var p :| 0 <= p < |keys| && keys[p] == n;
    assert keys[|keys| - 1] in keys;
    assert keys == keys[..|keys| - 1] + [keys[|keys| - 1]];
  }

  /** Sorting a group by position lists its entries in order. */
  method InOrder(group: map<nat, Entry>, ghost entries: seq<Entry>, ghost b: nat) returns (r: seq<Entry>)
    requires group == Slice(Live(entries, entries, 0), b)
    ensures r == Group(entries, b)
  {
    var keys := Sorting.Sorted(group.Keys);
    assert Lists(keys, entries, b);
    ListedGroup(keys, entries, b);
    assert forall k :: 0 <= k < |keys| ==> keys[k] in keys;
    r := seq(|keys|, k requires 0 <= k < |keys| && keys[k] in group => group[keys[k]]);
  }

  // ---------------------------------------------------------------- the index

  function Bucketed(dirty: seq<nat>, entry: Entry): seq<nat> {
    match Bucket(entry.message)
    case None => dirty
    case Some(b) => if b in dirty then dirty else dirty + [b]
  }

  /** Whatever differs between the lists before position `k` belongs to a dirty group. */
  ghost predicate Covers(dirty: seq<nat>, before: seq<Entry>, after: seq<Entry>, k: nat) {
    && DistinctKeys(dirty)
    && forall i: nat :: i < k && i < |before| + |after| ==>
         || (i < |before| && i < |after| && before[i] == after[i])
         || ((i < |before| && Bucket(before[i].message).Some? ==> Bucket(before[i].message).value in dirty)
             && (i < |after| && Bucket(after[i].message).Some? ==> Bucket(after[i].message).value in dirty))
  }

  /** The groups that become dirty, in that order, while the positions before `k` are compared. */
  function Dirty(before: seq<Entry>, after: seq<Entry>, k: nat): seq<nat> {
    if k == 0 then []
    else
      var dirty, i := Dirty(before, after, k - 1), k - 1;
      if i < |before| && i < |after| && before[i] == after[i] then dirty
      else
        var removed := if i < |before| then Bucketed(dirty, before[i]) else dirty;
        if i < |after| then Bucketed(removed, after[i]) else removed
  }

  function DirtyGroups(before: seq<Entry>, after: seq<Entry>): seq<nat> {
    Dirty(before, after, if |before| < |after| then |after| else |before|)
  }

  lemma {:induction false} DirtyCovers(before: seq<Entry>, after: seq<Entry>, k: nat)
    requires k <= |before| + |after|
    ensures Covers(Dirty(before, after, k), before, after, k)
  {
    hide Bucketed;
    if k > 0 {
      DirtyCovers(before, after, k - 1);
      CoversMore(Dirty(before, after, k - 1), before, after, k - 1);
    }
  }

  lemma {:induction false} NothingDirty(entries: seq<Entry>, k: nat)
    requires k <= |entries|
    ensures Dirty(entries, entries, k) == []
  {
    if k > 0 {
      NothingDirty(entries, k - 1);
    }
  }

  lemma DirtyGroupsCover(before: seq<Entry>, after: seq<Entry>)
    ensures Covers(DirtyGroups(before, after), before, after, |before| + |after|)
  {
    DirtyCovers(before, after, if |before| < |after| then |after| else |before|);
    hide Dirty;
  }

  lemma CoversMore(dirty: seq<nat>, before: seq<Entry>, after: seq<Entry>, k: nat)
    requires Covers(dirty, before, after, k) && k < |before| + |after|
    ensures k < |before| && k < |after| && before[k] == after[k] ==> Covers(dirty, before, after, k + 1)
    ensures var removed := if k < |before| then Bucketed(dirty, before[k]) else dirty;
            Covers(if k < |after| then Bucketed(removed, after[k]) else removed, before, after, k + 1)
  {
    var removed := if k < |before| then Bucketed(dirty, before[k]) else dirty;
    var added := if k < |after| then Bucketed(removed, after[k]) else removed;
    assert forall b <- dirty :: b in removed;
    assert forall b <- removed :: b in added;
  }

  /** A group that is not dirty has not changed. */
  lemma {:induction false} CleanGroup(dirty: seq<nat>, before: seq<Entry>, after: seq<Entry>, k: nat, b: nat)
    requires Covers(dirty, before, after, k) && b !in dirty && k <= |before| + |after|
    ensures Group(before[..if k < |before| then k else |before|], b) == Group(after[..if k < |after| then k else |after|], b)
  {
    if k > 0 {
      CleanGroup(dirty, before, after, k - 1, b);
      hide Group;
      if k <= |before| {
        assert before[..k] == before[..k - 1] + [before[k - 1]];
        GroupAppend(before[..k - 1], before[k - 1], b);
      }
      if k <= |after| {
        assert after[..k] == after[..k - 1] + [after[k - 1]];
        GroupAppend(after[..k - 1], after[k - 1], b);
      }
    }
  }

  function Entries(messages: seq<Message>, readCount: nat): (entries: seq<Entry>)
    ensures |entries| == |messages| && Flagged(entries, readCount)
  {
    seq(|messages|, i requires 0 <= i < |messages| => Entry(messages[i], i < readCount))
  }

  /** Where each confirmed chat message stands in the server's order, once and for all. */
  type Home = Id -> nat

  ghost predicate AtHome(home: Home, messages: seq<Message>) {
    forall m :: m in messages && ChatContent(m) ==> home(m.clientMsgId) == m.number
  }

  ghost predicate ResultsAtHome(home: Home, results: Results) {
    forall b: nat, key :: key in Of(results, b) ==> home(key.id) == b
  }

  lemma FreshAtHome(home: Home, entries: seq<Entry>, roles: Roles, b: nat, key: Key)
    requires Consistent(entries) && AtHome(home, Messages(entries)) && key in Fresh(entries, roles, b)
    ensures home(key.id) == b
  {
    var messages, readable := Messages(entries), Messages(OnlyRead(entries));
    hide InBucket, FactOf, NoCollision, Reduced, Messages, OnlyRead;
    ReducedFacts(InBucket(messages, b), InBucket(readable, b), roles, key);
    FactsAreDisjointUnion(messages, readable, roles, key, b);
  }

  /** While every message stays in its place, no fact is ever stolen. */
  lemma NothingStolenAtHome(home: Home, order: seq<nat>, stale: Results, entries: seq<Entry>, roles: Roles, key: Key)
    requires Consistent(entries) && AtHome(home, Messages(entries)) && ResultsAtHome(home, stale) && DistinctKeys(order)
    ensures !Stolen(order, stale, entries, roles, key)
  {
    hide Fresh, Consistent, AtHome;
    forall i, j | 0 <= i < j < |order| && key in Fresh(entries, roles, order[i])
      ensures key !in Of(stale, order[j])
    {
      FreshAtHome(home, entries, roles, order[i], key);
    }
  }

  /** The old result is a sound base, if a group that is not refolded is as it was. */
  lemma CarriedBase(before: seq<Entry>, rolesBefore: Roles, entries: seq<Entry>, roles: Roles, order: seq<nat>, stale: Results)
    requires Consistent(before) && Consistent(entries)
    requires forall b: nat :: Of(stale, b) == Fresh(before, rolesBefore, b)
    requires CleanKept(stale, entries, roles, order)
    ensures SoundBase(Batch(before, rolesBefore), order, stale, entries, roles)
  {
    hide Fresh, Batch, Consistent, Of;
    var base := Batch(before, rolesBefore);
    forall key | key in base && key !in Batch(entries, roles)
      ensures TakenBack(order, 0, stale, key)
    {
      var c := BatchIsFresh(before, rolesBefore, key);
      if c !in order {
        FreshIsBatch(entries, roles, c, key);
      }
    }
    forall b: nat, key | b !in order && key in Fresh(entries, roles, b)
      ensures Find(base, key) == Some(Fresh(entries, roles, b)[key]) && !TakenBack(order, 0, stale, key)
    {
      FreshIsBatch(before, rolesBefore, b, key);
    }
  }

  lemma FreshOfGroup(before: seq<Entry>, entries: seq<Entry>, roles: Roles, b: nat)
    requires Group(before, b) == Group(entries, b)
    ensures Fresh(before, roles, b) == Fresh(entries, roles, b)
  {
    GroupMessages(before, b);
    GroupMessages(entries, b);
    hide Group, InBucket, Messages, OnlyRead, Reduced;
  }

  lemma FreshOfNothing(entries: seq<Entry>, roles: Roles, b: nat)
    requires forall e <- Group(entries, b) :: e.message.payload.Content?
    requires Prefix(Messages(OnlyRead(entries)), Messages(entries))
    ensures Fresh(entries, roles, b) == map[]
  {
    GroupMessages(entries, b);
    InBucketPrefix(Messages(OnlyRead(entries)), Messages(entries), b);
    MessagesAt(Group(entries, b));
    hide Group, InBucket, Messages, OnlyRead, Reduced;
    ContentHasNoFacts(InBucket(Messages(entries), b), InBucket(Messages(OnlyRead(entries)), b), roles);
  }

  lemma NothingRefolded(base: Projection, stale: Results, entries: seq<Entry>, roles: Roles)
    ensures Refolded(base, [], stale, entries, roles) == base
  {
  }

  lemma NothingStolenYet(stale: Results, entries: seq<Entry>, roles: Roles)
    ensures NothingStolen([], stale, entries, roles)
  {
  }

  lemma RefoldStep(base: Projection, order: seq<nat>, k: nat, stale: Results, entries: seq<Entry>, roles: Roles)
    requires k < |order|
    ensures Refolded(base, order[..k + 1], stale, entries, roles)
         == Refolded(base, order[..k], stale, entries, roles) - Of(stale, order[k]).Keys + Fresh(entries, roles, order[k])
    ensures forall b :: b in order[..k + 1] <==> b in order[..k] || b == order[k]
  {
    hide Fresh, Of;
    assert order[..k + 1][..k] == order[..k];
    assert order[..k + 1] == order[..k] + [order[k]];
  }

  function Place(results: Results, b: nat, result: Option<Projection>): Results {
    if result.Some? then results[b := result.value] else results - {b}
  }

  lemma Placed(results: Results, b: nat, result: Option<Projection>, c: nat)
    ensures Of(Place(results, b, result), c) == if c != b then Of(results, c) else if result.Some? then result.value else map[]
  {
  }

  lemma {:induction false} EntriesAre(messages: seq<Message>, readCount: nat)
    ensures Messages(Entries(messages, readCount)) == messages
    ensures Prefix(Messages(OnlyRead(Entries(messages, readCount))), Messages(Entries(messages, readCount)))
  {
    ReadableIsPrefix(Entries(messages, readCount), readCount);
    MessagesAt(Entries(messages, readCount));
  }

  method Extend(dirty: seq<nat>, keys: set<nat>) returns (r: seq<nat>)
    requires DistinctKeys(dirty)
    ensures DistinctKeys(r) && forall b: nat :: b in r <==> b in dirty || b in keys
  {
    r := dirty;
    var rest := keys;
    while rest != {}
      invariant rest <= keys && DistinctKeys(r) && forall b: nat :: b in r <==> b in dirty || (b in keys && b !in rest)
      decreases |rest|
    {
      var b :| b in rest;
      rest := rest - {b};
      r := if b in r then r else r + [b];
    }
  }

  lemma StaysAtHome(home: Home, order: seq<nat>, stale: Results, results: Results, entries: seq<Entry>, roles: Roles)
    requires Consistent(entries) && AtHome(home, Messages(entries)) && ResultsAtHome(home, stale) && DistinctKeys(order)
    requires forall b: nat :: Of(results, b) == if b in order then Fresh(entries, roles, b) else Of(stale, b)
    ensures ResultsAtHome(home, results) && NothingStolen(order, stale, entries, roles)
  {
    hide Fresh, Consistent, AtHome, Stolen;
    forall key: Key
      ensures !Stolen(order, stale, entries, roles, key)
    {
      NothingStolenAtHome(home, order, stale, entries, roles, key);
    }
    forall b: nat, key | key in Of(results, b)
      ensures home(key.id) == b
    {
      if b in order {
        FreshAtHome(home, entries, roles, b, key);
      }
    }
  }

  /** Every group that is not refolded has kept its result. */
  ghost predicate CleanKept(stale: Results, entries: seq<Entry>, roles: Roles, order: seq<nat>) {
    forall b: nat :: b !in order ==> Of(stale, b) == Fresh(entries, roles, b)
  }

  /** When all groups, old and new, are refolded. */
  lemma AllRefolded(groups: Groups, stale: Results, entries: seq<Entry>, roles: Roles, order: seq<nat>)
    requires GroupsMatch(groups, Live(entries, entries, 0)) && Prefix(Messages(OnlyRead(entries)), Messages(entries))
    requires forall b: nat :: b in groups || b in stale ==> b in order
    ensures CleanKept(stale, entries, roles, order)
    ensures SoundBase(map[], order, stale, entries, roles)
  {
    hide Fresh, Messages, OnlyRead, Batch;
    forall b: nat | b !in order
      ensures Fresh(entries, roles, b) == map[]
    {
      NoGroup(groups, entries, b);
      FreshOfNothing(entries, roles, b);
    }
  }

  lemma NoGroup(groups: Groups, entries: seq<Entry>, b: nat)
    requires GroupsMatch(groups, Live(entries, entries, 0)) && b !in groups
    ensures Group(entries, b) == []
  {
    assert GroupOf(groups, b) == Slice(Live(entries, entries, 0), b) == map[];
    forall i: nat | i < |entries|
      ensures Bucket(entries[i].message) != Some(b)
    {
      assert i in Slice(Live(entries, entries, 0), b) <==> Bucket(entries[i].message) == Some(b);
    }
    assert Lists([], entries, b);
    ListedGroup([], entries, b);
  }

  /** When only the groups that the comparison found dirty are. */
  lemma DirtyRefolded(before: seq<Entry>, entries: seq<Entry>, roles: Roles, stale: Results, dirty: seq<nat>)
    requires Covers(dirty, before, entries, |before| + |entries|)
    requires forall b: nat :: Of(stale, b) == Fresh(before, roles, b)
    ensures CleanKept(stale, entries, roles, dirty)
  {
    hide Fresh, Group, Covers;
    forall b: nat | b !in dirty
      ensures Fresh(before, roles, b) == Fresh(entries, roles, b)
    {
      CleanGroup(dirty, before, entries, |before| + |entries|, b);
      assert before[..|before|] == before && entries[..|entries|] == entries;
      FreshOfGroup(before, entries, roles, b);
    }
  }

  lemma NothingYet()
    ensures GroupsMatch(map[], Live([], [], 0)) && Consistent([]) && Batch([], map[]) == map[]
    ensures forall b: nat :: Fresh([], map[], b) == map[]
  {
    hide Reduced;
    ContentHasNoFacts([], [], map[]);
    forall b: nat
      ensures Fresh([], map[], b) == map[]
    {
      FreshOfNothing([], map[], b);
    }
  }

  /** Only these may carry read events. */
  function Readable(messages: seq<Message>, readCount: nat): seq<Message> {
    messages[..if readCount < |messages| then readCount else |messages|]
  }

  /** The specification, said of the messages themselves. */
  lemma BatchMeans(messages: seq<Message>, readCount: nat, roles: Roles)
    ensures MeansAll(Batch(Entries(messages, readCount), roles), messages, Readable(messages, readCount), roles)
  {
    var entries, count := Entries(messages, readCount), if readCount < |messages| then readCount else |messages|;
    EntriesAre(messages, readCount);
    ReadableIsPrefix(entries, readCount);
    MessagesAt(entries);
    MessagesAt(entries[..count]);
    hide Messages, OnlyRead, Means, Reduced, Entries;
    assert Messages(entries) == messages && Messages(OnlyRead(entries)) == messages[..count];
    forall id
      ensures Means(Batch(entries, roles), messages, messages[..count], roles, id)
    {
      ReducedMeans(messages, messages[..count], roles, id);
    }
  }

  class ChatProjections {
    var entries: seq<Entry>
    var groups: Groups
    var results: Results
    var roles: Option<Roles>
    var projection: Projection
    var fallback: bool

    ghost function CurrentRoles(): Roles
      reads this
    {
      if roles.Some? then roles.value else map[]
    }

    /** Outside the fallback, every group's kept result is what the reducers say of it. */
    ghost predicate Valid()
      reads this
    {
      && GroupsMatch(groups, Live(entries, entries, 0))
      && Prefix(Messages(OnlyRead(entries)), Messages(entries))
      && (!fallback ==> NoCollision(Messages(entries)) && forall b: nat :: Of(results, b) == Fresh(entries, CurrentRoles(), b))
    }

    ghost predicate Exact()
      reads this
    {
      projection == Batch(entries, CurrentRoles())
    }

    constructor ()
      ensures Valid() && Exact() && results == map[]
    {
      entries, groups, results, roles, projection, fallback := [], map[], map[], None, map[], false;
      NothingYet();
      hide Fresh, Batch, GroupsMatch, Live, Messages, OnlyRead, NoCollision;
    }

    /** The first loop: brings the entries and the groups up to date. */
    method Compare(messages: seq<Message>, readCount: nat) returns (changed: bool, dirty: seq<nat>)
      requires GroupsMatch(groups, Live(entries, entries, 0))
      modifies this`entries, this`groups
      ensures entries == Entries(messages, readCount) && GroupsMatch(groups, Live(entries, entries, 0))
      ensures dirty == DirtyGroups(old(entries), entries)
      ensures !changed ==> entries == old(entries) && groups == old(groups)
    {
      hide GroupsMatch, Live, Slice, Dirty, Bucketed;
      var before, after := entries, Entries(messages, readCount);
      changed, dirty := false, [];
      var length := if |messages| < |entries| then |entries| else |messages|;
      LiveEnds(before, after, 0);
      DirtyStep(before, after, 0);
      for index := 0 to length
        invariant entries == before
        invariant GroupsMatch(groups, Live(before, after, index)) && dirty == Dirty(before, after, index)
        invariant !changed ==> groups == old(groups) && index <= |before| && index <= |after| && before[..index] == after[..index]
      {
        LiveStep(before, after, index);
        DirtyStep(before, after, index);
        if index < |messages| && index < |before| && before[index] == Entry(messages[index], index < readCount) {
          continue;
        }
        changed := true;
        if index < |before| {
          Removed(groups, Live(before, after, index), index);
          var b := Bucket(before[index].message);
          if b.Some? {
            groups := RemoveFrom(groups, b.value, index);
          }
          dirty := Bucketed(dirty, before[index]);
        }
        if index < |messages| {
          Added(groups, Live(before, after, index) - {index}, index, after[index]);
          var b := Bucket(after[index].message);
          if b.Some? {
            groups := AddTo(groups, b.value, index, after[index]);
          }
          dirty := Bucketed(dirty, after[index]);
        }
      }
      LiveEnds(before, after, length);
      entries := after;
    }

    /** Is an event id used in two groups? */
    method Collides() returns (collision: bool)
      ensures collision == !NoCollision(Messages(entries))
    {
      MessagesAt(entries);
      hide Messages;
      ghost var messages := Messages(entries);
      var eventTargets: map<Id, nat> := map[];
      collision := false;
      for i := 0 to |entries|
        invariant collision ==> !NoCollision(messages)
        invariant forall id <- eventTargets ::
                    exists j :: 0 <= j < i && messages[j].clientMsgId == id && Bucket(messages[j]) == Some(eventTargets[id])
        invariant !collision ==> forall j :: 0 <= j < i && Bucket(messages[j]).Some? ==>
                    messages[j].clientMsgId in eventTargets && Bucket(messages[j]) == Some(eventTargets[messages[j].clientMsgId])
      {
        var message := entries[i].message;
        var b := Bucket(message);
        if b.Some? {
          var prior := Find(eventTargets, message.clientMsgId);
          if prior.Some? && prior != b {
            collision := true;
          }
          eventTargets := eventTargets[message.clientMsgId := b.value];
        }
      }
    }

    /** The last loop: folds the dirty groups again, in the order in which they became dirty. */
    method Refold(base: Projection, order: seq<nat>, newRoles: Roles) returns (next: Projection)
      requires GroupsMatch(groups, Live(entries, entries, 0)) && Consistent(entries) && DistinctKeys(order)
      modifies this`results
      ensures next == Refolded(base, order, old(results), entries, newRoles)
      ensures forall b: nat :: Of(results, b) == if b in order then Fresh(entries, newRoles, b) else Of(old(results), b)
    {
      hide Refolded, Fresh, Consistent, GroupsMatch, Live, Of, Place;
      next := base;
      NothingRefolded(base, results, entries, newRoles);
      for k := 0 to |order|
        invariant next == Refolded(base, order[..k], old(results), entries, newRoles)
        invariant forall b: nat :: Of(results, b) == if b in order[..k] then Fresh(entries, newRoles, b) else Of(old(results), b)
      {
        var b := order[k];
        assert b !in order[..k];
        RefoldStep(base, order, k, old(results), entries, newRoles);
        next := next - Of(results, b).Keys;
        var result := FoldGroup(b, newRoles);
        assert next + map[] == next;
        next := if result.Some? then next + result.value else next;
        forall c: nat {
          Placed(results, b, result, c);
        }
        results := Place(results, b, result);
      }
      assert order[..|order|] == order;
    }

    /** The reducers' result for one group, unless it has no events. */
    method FoldGroup(b: nat, newRoles: Roles) returns (result: Option<Projection>)
      requires GroupsMatch(groups, Live(entries, entries, 0)) && Consistent(entries)
      ensures Fresh(entries, newRoles, b) == if result.Some? then result.value else map[]
    {
      hide Group, Messages, OnlyRead, InBucket, Reduced, NoCollision, Live;
      var group := InOrder(GroupOf(groups, b), entries, b);
      if forall e <- group :: e.message.payload.Content? {
        FreshOfNothing(entries, newRoles, b);
        return None;
      }
      GroupMessages(entries, b);
      result := Some(Reduced(Messages(group), Messages(OnlyRead(group)), newRoles));
    }

    /** Folds what is dirty, or everything when nothing kept can be trusted. */
    method Fold(dirty: seq<nat>, roleChanged: bool, newRoles: Roles, ghost before: seq<Entry>, ghost rolesBefore: Roles)
        returns (next: Projection, ghost order: seq<nat>)
      requires GroupsMatch(groups, Live(entries, entries, 0)) && Consistent(entries) && dirty == DirtyGroups(before, entries)
      requires !fallback ==> Consistent(before) && forall b: nat :: Of(results, b) == Fresh(before, rolesBefore, b)
      requires !roleChanged ==> newRoles == rolesBefore
      modifies this`results, this`fallback
      ensures !fallback && DistinctKeys(order) && (!roleChanged && !old(fallback) ==> order == dirty)
      ensures forall b: nat :: Of(results, b) == Fresh(entries, newRoles, b)
      ensures forall b: nat :: Of(results, b) == if b in order then Fresh(entries, newRoles, b) else Of(old(results), b)
      ensures old(fallback) || projection == Batch(before, rolesBefore) ==>
                (next == Batch(entries, newRoles) <==> NothingStolen(order, old(results), entries, newRoles))
    {
      hide Batch, Fresh, GroupsMatch, Live, Of, NoCollision, Prefix, Covers, DirtyGroups, SoundBase, Stolen, Refolded;
      DirtyGroupsCover(before, entries);
      CoversDistinct(dirty, before, entries);
      var base := if fallback then map[] else projection;
      var all := dirty;
      if roleChanged || fallback {
        all := Extend(all, groups.Keys);
        all := Extend(all, results.Keys);
        AllRefolded(groups, results, entries, newRoles, all);
      } else {
        DirtyRefolded(before, entries, newRoles, results, all);
      }
      if !fallback && projection == Batch(before, rolesBefore) {
        CarriedBase(before, rolesBefore, entries, newRoles, all, results);
      }
      order := all;
      ghost var sound := fallback || projection == Batch(before, rolesBefore);
      ghost var stale := results;
      fallback := false;
      next := Refold(base, all, newRoles);
      if sound {
        RefoldIsExact(base, all, stale, entries, newRoles);
      }
    }

    method Update(messages: seq<Message>, newRoles: Roles, readCount: nat, ghost home: Home) returns (r: Projection, ghost order: seq<nat>)
      requires Valid()
      modifies this
      ensures Valid() && r == projection && entries == Entries(messages, readCount) && roles == Some(newRoles) && DistinctKeys(order)
      ensures old(roles) == roles && !old(fallback) && !fallback ==> order == DirtyGroups(old(entries), entries)
      ensures old(Exact()) ==> (Exact() <==> NothingStolen(order, old(results), entries, newRoles))
      ensures AtHome(home, messages) && ResultsAtHome(home, old(results)) ==>
                ResultsAtHome(home, results) && (old(Exact()) ==> Exact())
      ensures Exact() ==> MeansAll(r, messages, Readable(messages, readCount), newRoles)
    {
      hide Batch, Fresh, GroupsMatch, Live, Of, NoCollision, Stolen, AtHome, Messages, OnlyRead, Dirty, Prefix, ResultsAtHome, NothingStolen,
           MeansAll;
      BatchMeans(messages, readCount, newRoles);
      ghost var before, rolesBefore, stale := entries, CurrentRoles(), results;
      var roleChanged := roles != Some(newRoles);
      roles := Some(newRoles);
      var changed, dirty := Compare(messages, readCount);
      EntriesAre(messages, readCount);
      NothingStolenYet(stale, entries, newRoles);
      NothingDirty(entries, |entries|);
      if !changed && !roleChanged {
        return projection, [];
      }
      var collision := Collides();
      if collision {
        fallback := true;
        projection := Batch(entries, newRoles);
        return projection, [];
      }
      r, order := Fold(dirty, roleChanged, newRoles, before, rolesBefore);
      projection := r;
      if AtHome(home, messages) && ResultsAtHome(home, stale) {
        StaysAtHome(home, order, stale, results, entries, newRoles);
      }
    }
  }

  lemma CoversDistinct(dirty: seq<nat>, before: seq<Entry>, after: seq<Entry>)
    requires Covers(dirty, before, after, |before| + |after|)
    ensures DistinctKeys(dirty)
  {
  }

  lemma DirtyStep(before: seq<Entry>, after: seq<Entry>, k: nat)
    ensures Dirty(before, after, 0) == []
    ensures Dirty(before, after, k + 1)
         == if k < |before| && k < |after| && before[k] == after[k] then Dirty(before, after, k)
            else
              var removed := if k < |before| then Bucketed(Dirty(before, after, k), before[k]) else Dirty(before, after, k);
              if k < |after| then Bucketed(removed, after[k]) else removed
  {
  }

  lemma LiveEnds(before: seq<Entry>, after: seq<Entry>, k: nat)
    ensures Live(before, after, 0) == Live(before, before, 0)
    ensures k >= |before| && k >= |after| ==> Live(before, after, k) == Live(after, after, 0)
  {
  }

  lemma LiveStep(before: seq<Entry>, after: seq<Entry>, k: nat)
    ensures k < |before| ==> k in Live(before, after, k) && Live(before, after, k)[k] == before[k]
    ensures k >= |before| ==> k !in Live(before, after, k) && Live(before, after, k) == Live(before, after, k) - {k}
    ensures Live(before, after, k + 1) == if k < |after| then (Live(before, after, k) - {k})[k := after[k]] else Live(before, after, k) - {k}
    ensures k < |before| && k < |after| && before[k] == after[k] ==> Live(before, after, k + 1) == Live(before, after, k)
  {
  }

  // ------------------------------------------------- a message that moves

  datatype Cast = Cast(author: Id, text: Id, deletion: Id, filler: Id)

  function Text(cast: Cast, number: nat): Message {
    Message(number, cast.text, cast.author, Stored, 0, Content(false))
  }

  function Deletion(cast: Cast, number: nat): Message {
    Message(9, cast.deletion, cast.author, Stored, 0, MessageDelete(Target(number, cast.text, cast.author)))
  }

  function Filler(cast: Cast): Message {
    Message(2, cast.filler, cast.author, Stored, 0, Other)
  }

  function FillerFirst(cast: Cast, number: nat): seq<Message> {
    [Filler(cast), Text(cast, number), Deletion(cast, number)]
  }

  function FillerLast(cast: Cast, number: nat): seq<Message> {
    [Text(cast, number), Deletion(cast, number), Filler(cast)]
  }

  lemma DeletedText(text: Message, deletion: Message, roles: Roles)
    requires ChatContent(text) && Confirmed(deletion) && deletion.number > text.number
    requires deletion.payload == MessageDelete(Target(text.number, text.clientMsgId, text.senderId))
    requires deletion.senderId in roles && text.senderId in roles && roles[deletion.senderId] == roles[text.senderId]
    ensures DeletedKey(text.clientMsgId) in Reduced([text, deletion], [text, deletion], roles)
  {
    var messages := [text, deletion];
    OneEvent(text, deletion);
    LastAppend([], text, text.number);
    LastAppend([text], deletion, text.number);
    assert [] + [text] == [text] && [text] + [deletion] == messages;
    hide Last, Ambiguous, Ordered;
    assert Deletes(messages, roles, deletion);
    TombstonesAppend([], deletion, messages, roles, text.clientMsgId);
    assert [] + [deletion] == [deletion];
    ReducedFacts(messages, messages, roles, DeletedKey(text.clientMsgId));
  }

  lemma OneEvent(text: Message, deletion: Message)
    requires text.payload.Content? && IsEvent(Deletions, deletion)
    ensures Ordered(Deletions, [text, deletion]) == [deletion]
  {
    assert [text, deletion][..1] == [text];
    assert Kept(Deletions, [text]) == [] && [deletion][..0] == [];
    assert Kept(Deletions, [text, deletion]) == [deletion];
    assert Sort(Deletions, [deletion][..0]) == [] && Insert(Deletions, [], deletion) == [deletion];
  }

  /** A history in which a text and its deletion are the only group. */
  lemma OneGroup(entries: seq<Entry>, messages: seq<Message>, text: Message, deletion: Message, filler: Message, roles: Roles)
    requires messages == [filler, text, deletion] || messages == [text, deletion, filler]
    requires entries == Entries(messages, 3) && Bucket(filler) == None && Bucket(text) == Bucket(deletion) == Some(text.number)
    ensures Consistent(entries) && Fresh(entries, roles, text.number) == Reduced([text, deletion], [text, deletion], roles)
  {
    EntriesAre(messages, 3);
    ReadableIsPrefix(entries, 3);
    OneBucket(messages, text.number);
    GroupIs(messages, filler, text, deletion, text.number);
    hide Reduced, InBucket, Messages, OnlyRead, NoCollision, Entries;
    assert entries[..3] == entries;
  }

  lemma OneBucket(messages: seq<Message>, number: nat)
    requires forall m <- messages :: Bucket(m) == None || Bucket(m) == Some(number)
    ensures NoCollision(messages)
  {
  }

  lemma GroupIs(messages: seq<Message>, filler: Message, text: Message, deletion: Message, number: nat)
    requires messages == [filler, text, deletion] || messages == [text, deletion, filler]
    requires Bucket(filler) == None && Bucket(text) == Bucket(deletion) == Some(number)
    ensures InBucket(messages, number) == [text, deletion]
  {
    hide Bucket;
    assert messages[..2][..1] == messages[..1] && messages[..1][..0] == [];
    assert InBucket([], number) == [];
    if messages[0] == filler {
      assert InBucket(messages[..1], number) == [];
      assert InBucket(messages[..2], number) == [text];
    } else {
      assert InBucket(messages[..1], number) == [text];
      assert InBucket(messages[..2], number) == [text, deletion];
    }
  }

  lemma DirtyInOrder(cast: Cast)
    ensures DirtyGroups(Entries(FillerFirst(cast, 1), 3), Entries(FillerLast(cast, 5), 3)) == [5, 1]
  {
    var before, after := Entries(FillerFirst(cast, 1), 3), Entries(FillerLast(cast, 5), 3);
    DirtyStep(before, after, 0);
    DirtyStep(before, after, 1);
    DirtyStep(before, after, 2);
  }

  /** The condition on the order of groups cannot be dropped. Here a deleted message comes back
      under another number, in a list that is shifted by one: its new group is folded first, and its
      old group then takes the fact back. The tombstone is lost, though the reducers report it. */
  lemma MovedMessageLosesItsTombstone(cast: Cast, stale: Results)
    requires forall b: nat :: Of(stale, b) == Fresh(Entries(FillerFirst(cast, 1), 3), map[cast.author := Creator], b)
    ensures var roles, before, after := map[cast.author := Creator], Entries(FillerFirst(cast, 1), 3), Entries(FillerLast(cast, 5), 3);
            && Consistent(before) && Consistent(after)
            && DeletedKey(cast.text) in Batch(after, roles)
            && DeletedKey(cast.text) !in Refolded(Batch(before, roles), DirtyGroups(before, after), stale, after, roles)
  {
    hide Entries, Fresh, Reduced, Batch, Refolded, Consistent, DirtyGroups, Of;
    var roles: Roles := map[cast.author := Creator];
    var before, after := Entries(FillerFirst(cast, 1), 3), Entries(FillerLast(cast, 5), 3);
    OneGroup(before, FillerFirst(cast, 1), Text(cast, 1), Deletion(cast, 1), Filler(cast), roles);
    OneGroup(after, FillerLast(cast, 5), Text(cast, 5), Deletion(cast, 5), Filler(cast), roles);
    DeletedText(Text(cast, 1), Deletion(cast, 1), roles);
    DeletedText(Text(cast, 5), Deletion(cast, 5), roles);
    DirtyInOrder(cast);
    TakenBackByTheNext(Batch(before, roles), 5, 1, stale, after, roles, DeletedKey(cast.text));
  }

  lemma TakenBackByTheNext(base: Projection, b: nat, c: nat, stale: Results, entries: seq<Entry>, roles: Roles, key: Key)
    requires b != c && Consistent(entries) && key in Fresh(entries, roles, b) && key in Of(stale, c)
    ensures key in Batch(entries, roles) && key !in Refolded(base, [b, c], stale, entries, roles)
  {
    hide Fresh, Batch, Refolded, Consistent, Of;
    FreshIsBatch(entries, roles, b, key);
    var order := [b, c];
    Contributed(base, order, stale, entries, roles, key, 0);
    assert key in Of(stale, order[1]);
    assert TakenBack(order, 1, stale, key);
  }
}
