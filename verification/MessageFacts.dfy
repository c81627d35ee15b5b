/** What the three reducers of src/lib/message-read.ts, message-deletions.ts and reactions.ts report, said
    of messages, their positions and roles alone: which events count, and which of them decides. */
module MessageFacts {
  import opened MessageReducers
  import opened Wrappers

  // -------------------------------------------------------------- what is certain

  /** A message is confirmed when the server has given it a number; one that only this device knows, or that
      the server has stored without its number having arrived, carries the largest number instead. */
  lemma StatusDecides(m: Message)
    ensures Confirmed(m) <==> m.status in {Sent, Stored, Delivered} && 1 <= m.number <= 9_007_199_254_740_990
    ensures Optimistic(m) <==> m.status in {Pending, Stored} && m.number == 9_007_199_254_740_991
    ensures ChatContent(m) <==> Confirmed(m) && m.payload.Content?
    ensures forall kind: Kind :: IsEvent(kind, m) <==>
              (Confirmed(m) || Optimistic(m)) && (if kind == Deletions then m.payload.MessageDelete? else m.payload.Reaction?)
  {
  }

  // ------------------------------------------------------------------- targets

  predicate IsContentAt(messages: seq<Message>, i: nat, number: nat) {
    i < |messages| && ChatContent(messages[i]) && messages[i].number == number
  }

  /** All contents that claim the number have one id and one sender. */
  ghost predicate Unambiguous(messages: seq<Message>, number: nat) {
    forall i: nat, j: nat :: IsContentAt(messages, i, number) && IsContentAt(messages, j, number) ==>
      messages[i].clientMsgId == messages[j].clientMsgId && messages[i].senderId == messages[j].senderId
  }

  /** The last content under the target's number, which has its id and its sender. */
  ghost predicate IsTargetAt(messages: seq<Message>, i: nat, target: Target) {
    && IsContentAt(messages, i, target.serverSeq)
    && messages[i].clientMsgId == target.clientMsgId && messages[i].senderId == target.senderId
    && forall j: nat :: IsContentAt(messages, j, target.serverSeq) ==> j <= i
  }

  lemma {:induction false} LastAt(messages: seq<Message>, number: nat)
    ensures match Last(messages, number)
            case None => forall i: nat :: !IsContentAt(messages, i, number)
            case Some(m) => exists i: nat ::
              IsContentAt(messages, i, number) && messages[i] == m && forall j: nat :: IsContentAt(messages, j, number) ==> j <= i
  {
    if messages != [] {
      var front, n := messages[..|messages| - 1], |messages| - 1;
      LastAt(front, number);
      assert messages == front + [messages[n]];
      LastAppend(front, messages[n], number);
      hide Last, ChatContent, Ambiguous;
      assert forall j: nat :: j < n ==> IsContentAt(front, j, number) == IsContentAt(messages, j, number);
      if !IsContentAt(messages, n, number) && Last(front, number).Some? {
        var i: nat :| IsContentAt(front, i, number) && front[i] == Last(front, number).value
                      && forall j: nat :: IsContentAt(front, j, number) ==> j <= i;
        assert IsContentAt(messages, i, number);
      }
    }
  }

  lemma {:induction false} AmbiguousAt(messages: seq<Message>, number: nat)
    ensures Ambiguous(messages, number) <==> !Unambiguous(messages, number)
  {
    if messages != [] {
      var front, n := messages[..|messages| - 1], |messages| - 1;
      AmbiguousAt(front, number);
      LastAt(front, number);
      assert forall j: nat :: j < n ==> IsContentAt(front, j, number) == IsContentAt(messages, j, number);
      hide Last, Ambiguous;
      LastAppend(front, messages[n], number);
      assert messages == front + [messages[n]];
      AmbiguousStep(messages, number);
    }
  }

  lemma AmbiguousStep(messages: seq<Message>, number: nat)
    requires messages != []
    ensures var front, n := messages[..|messages| - 1], |messages| - 1;
            Unambiguous(messages, number)
            <==> Unambiguous(front, number)
                 && (IsContentAt(messages, n, number) && Last(front, number).Some? ==>
                       Last(front, number).value.clientMsgId == messages[n].clientMsgId && Last(front, number).value.senderId == messages[n].senderId)
  {
    var front, n := messages[..|messages| - 1], |messages| - 1;
    LastAt(front, number);
    hide Last, ChatContent;
    assert forall j: nat :: j < n ==> IsContentAt(front, j, number) == IsContentAt(messages, j, number);
    if Last(front, number).Some? {
      var l: nat :| IsContentAt(front, l, number) && front[l] == Last(front, number).value;
      assert IsContentAt(messages, l, number);
    }
  }

  lemma NamesAt(messages: seq<Message>, target: Target)
    ensures Names(messages, target) <==> exists i: nat :: IsTargetAt(messages, i, target)
    ensures forall i: nat :: IsTargetAt(messages, i, target) ==> Last(messages, target.serverSeq) == Some(messages[i])
  {
    LastAt(messages, target.serverSeq);
    hide Last;
    var original := Last(messages, target.serverSeq);
    if original.Some? {
      var i: nat :| IsContentAt(messages, i, target.serverSeq) && messages[i] == original.value
                    && forall j: nat :: IsContentAt(messages, j, target.serverSeq) ==> j <= i;
      forall k: nat | IsTargetAt(messages, k, target)
        ensures k == i
      {
      }
      if Names(messages, target) {
        assert IsTargetAt(messages, i, target);
      }
    }
  }

  // --------------------------------------------------------------------- reads

  predicate OppositeRoles(roles: Roles, a: Id, b: Id) {
    a in roles && b in roles && ((roles[a] == Creator && roles[b] == Joiner) || (roles[a] == Joiner && roles[b] == Creator))
  }

  predicate SameRole(roles: Roles, a: Id, b: Id) {
    a in roles && b in roles && (roles[a] == Creator <==> roles[b] == Creator)
  }

  /** A device of the role that did not write the message confirms, under a later number, that it has shown
      this very message: media by an event of their own, anything else by the common one. */
  ghost predicate ShowsRead(messages: seq<Message>, roles: Roles, e: Message, i: nat, id: Id) {
    && Confirmed(e) && (e.payload.MessageRead? || e.payload.MediaRead?)
    && e.payload.target.clientMsgId == id && IsTargetAt(messages, i, e.payload.target)
    && Unambiguous(messages, e.payload.target.serverSeq)
    && OppositeRoles(roles, e.senderId, messages[i].senderId) && messages[i].number < e.number
    && (match messages[i].payload case Content(media) => media == e.payload.MediaRead? case _ => false)
  }

  ghost predicate IsReadBy(messages: seq<Message>, roles: Roles, id: Id) {
    exists e, i: nat :: e in messages && ShowsRead(messages, roles, e, i, id)
  }

  lemma ReadsAt(messages: seq<Message>, roles: Roles, e: Message, id: Id)
    ensures Reads(messages, roles, e) && e.payload.target.clientMsgId == id <==> exists i: nat :: ShowsRead(messages, roles, e, i, id)
  {
    if e.payload.MessageRead? || e.payload.MediaRead? {
      var target := e.payload.target;
      NamesAt(messages, target);
      AmbiguousAt(messages, target.serverSeq);
      hide Last, Ambiguous, Names, Unambiguous;
      if Reads(messages, roles, e) && target.clientMsgId == id {
        var i: nat :| IsTargetAt(messages, i, target);
        assert ShowsRead(messages, roles, e, i, id);
      }
    }
  }

  /** A message is marked as read exactly when such an event is there. */
  lemma ReadsExactly(messages: seq<Message>, roles: Roles, id: Id)
    ensures id in ReadIds(messages, roles) <==> IsReadBy(messages, roles, id)
  {
    hide ShowsRead, Names, Last, Ambiguous;
    if id in ReadIds(messages, roles) {
      var e :| e in messages && Reads(messages, roles, e) && e.payload.target.clientMsgId == id;
      ReadsAt(messages, roles, e, id);
      var i: nat :| ShowsRead(messages, roles, e, i, id);
    }
    forall e, i: nat | e in messages && ShowsRead(messages, roles, e, i, id)
      ensures id in ReadIds(messages, roles)
    {
      ReadsAt(messages, roles, e, id);
    }
  }

  /** The read events that a device sends about messages of its own role. */
  predicate IsOwnRead(roles: Roles, e: Message) {
    (e.payload.MessageRead? || e.payload.MediaRead?) && SameRole(roles, e.senderId, e.payload.target.senderId)
  }

  function WithoutOwnReads(messages: seq<Message>, roles: Roles): seq<Message> {
    if messages == [] then []
    else
      var front, last := WithoutOwnReads(messages[..|messages| - 1], roles), messages[|messages| - 1];
      if IsOwnRead(roles, last) then front else front + [last]
  }

  lemma {:induction false} OwnReadsNameNothing(messages: seq<Message>, roles: Roles, number: nat)
    ensures Last(WithoutOwnReads(messages, roles), number) == Last(messages, number)
    ensures Ambiguous(WithoutOwnReads(messages, roles), number) == Ambiguous(messages, number)
    ensures forall e :: e in WithoutOwnReads(messages, roles) <==> e in messages && !IsOwnRead(roles, e)
  {
    if messages != [] {
      var front, last := messages[..|messages| - 1], messages[|messages| - 1];
      assert messages == front + [last];
      OwnReadsNameNothing(front, roles, number);
      LastAppend(front, last, number);
      LastAppend(WithoutOwnReads(front, roles), last, number);
      hide Last, Ambiguous, SameRole;
    }
  }

  /** What a role says about its own messages marks nothing. */
  lemma OwnReadsMarkNothing(messages: seq<Message>, roles: Roles)
    ensures ReadIds(WithoutOwnReads(messages, roles), roles) == ReadIds(messages, roles)
  {
    var others := WithoutOwnReads(messages, roles);
    OwnReadsNameNothing(messages, roles, 0);
    forall e: Message | e.payload.MessageRead? || e.payload.MediaRead?
      ensures Reads(others, roles, e) == Reads(messages, roles, e) && (Reads(messages, roles, e) ==> !IsOwnRead(roles, e))
    {
      OwnReadsNameNothing(messages, roles, e.payload.target.serverSeq);
      hide Last, Ambiguous, WithoutOwnReads;
    }
    hide WithoutOwnReads, Last, Ambiguous, Names;
  }

  // ------------------------------------------------------------- which events count

  predicate IsRival(kind: Kind, messages: seq<Message>, i: nat, j: nat)
    requires i < |messages|
  {
    j < |messages| && IsEvent(kind, messages[j]) && messages[j].clientMsgId == messages[i].clientMsgId
  }

  /** Of the copies of one event the first confirmed one counts; while there is none, the last one. */
  ghost predicate Counts(kind: Kind, messages: seq<Message>, i: nat) {
    && i < |messages| && IsEvent(kind, messages[i])
    && if Confirmed(messages[i]) then forall j: nat :: j < i && IsRival(kind, messages, i, j) ==> !Confirmed(messages[j])
       else forall j: nat :: IsRival(kind, messages, i, j) ==> !Confirmed(messages[j]) && j <= i
  }

  /** Confirmed events come first, in the order of the server; then the others, reactions in the order of
      their time. Otherwise the position decides. */
  predicate Before(kind: Kind, messages: seq<Message>, i: nat, j: nat)
    requires i < |messages| && j < |messages|
  {
    var a, b := messages[i], messages[j];
    if Confirmed(a) && Confirmed(b) then a.number < b.number || (a.number == b.number && i < j)
    else if Confirmed(a) then true
    else if Confirmed(b) then false
    else if kind == Reactions && a.acceptedAt != b.acceptedAt then a.acceptedAt < b.acceptedAt
    else i < j
  }

  predicate Positions(messages: seq<Message>, at: seq<nat>) {
    forall k :: 0 <= k < |at| ==> at[k] < |messages|
  }

  function At(messages: seq<Message>, at: seq<nat>): seq<Message>
    requires Positions(messages, at)
  {
    seq(|at|, k requires 0 <= k < |at| => messages[at[k]])
  }

  predicate Rising(at: seq<nat>) {
    forall j, k :: 0 <= j < k < |at| ==> at[j] < at[k]
  }

  function WithoutAt(messages: seq<Message>, at: seq<nat>, id: Id): (rest: seq<nat>)
    requires Positions(messages, at)
    ensures Positions(messages, rest) && forall i :: i in rest <==> i in at && messages[i].clientMsgId != id
  {
    if at == [] then []
    else
      var front, last := at[..|at| - 1], at[|at| - 1];
      assert at == front + [last];
      var rest := WithoutAt(messages, front, id);
      if messages[last].clientMsgId == id then rest else rest + [last]
  }

  lemma AtAppend(messages: seq<Message>, at: seq<nat>, i: nat)
    requires Positions(messages, at) && i < |messages|
    ensures Positions(messages, at + [i]) && At(messages, at + [i]) == At(messages, at) + [messages[i]]
  {
  }

  lemma {:induction false} WithoutAtIs(messages: seq<Message>, at: seq<nat>, id: Id)
    requires Positions(messages, at)
    ensures Without(At(messages, at), id) == At(messages, WithoutAt(messages, at, id))
  {
    if at != [] {
      var front, last := at[..|at| - 1], at[|at| - 1];
      assert at == front + [last];
      WithoutAtIs(messages, front, id);
      AtAppend(messages, front, last);
      AtAppend(messages, WithoutAt(messages, front, id), last);
      hide Without, At;
      WithoutAppend(At(messages, front), messages[last], id);
    }
  }

  lemma {:induction false} WithoutAtRises(messages: seq<Message>, at: seq<nat>, id: Id)
    requires Positions(messages, at) && Rising(at)
    ensures Rising(WithoutAt(messages, at, id))
  {
    if at != [] {
      var front, last := at[..|at| - 1], at[|at| - 1];
      assert at == front + [last];
      WithoutAtRises(messages, front, id);
      var rest := WithoutAt(messages, front, id);
      forall k | 0 <= k < |rest|
        ensures rest[k] < last
      {
        assert rest[k] in rest;
        var j :| 0 <= j < |front| && front[j] == rest[k];
        assert at[j] < at[|front|];
      }
    }
  }

  lemma AtOfFront(messages: seq<Message>, n: nat, at: seq<nat>)
    requires n <= |messages| && Positions(messages[..n], at)
    ensures Positions(messages, at) && At(messages[..n], at) == At(messages, at)
  {
  }

  /** The first confirmed copy counts. */
  lemma {:induction false} FirstConfirmed(kind: Kind, messages: seq<Message>, j: nat) returns (i: nat)
    requires j < |messages| && IsEvent(kind, messages[j]) && Confirmed(messages[j])
    ensures i <= j && Counts(kind, messages, i) && Confirmed(messages[i]) && messages[i].clientMsgId == messages[j].clientMsgId
    decreases j
  {
    i := j;
    if !Counts(kind, messages, j) {
      var k: nat :| k < j && IsRival(kind, messages, j, k) && Confirmed(messages[k]);
      i := FirstConfirmed(kind, messages, k);
    }
  }

  /** A new message takes the place of an unconfirmed copy. */
  lemma CountsStep(kind: Kind, messages: seq<Message>, i: nat)
    requires i < |messages|
    ensures var n := |messages| - 1;
            Counts(kind, messages, i)
            <==> if i == n then IsEvent(kind, messages[n]) && forall j: nat :: j < n && IsRival(kind, messages, n, j) ==> !Confirmed(messages[j])
                 else Counts(kind, messages[..n], i) && (IsRival(kind, messages, i, n) ==> Confirmed(messages[i]))
  {
    var front, n := messages[..|messages| - 1], |messages| - 1;
    hide IsEvent, Confirmed;
    assert i < n ==> forall j: nat :: j < n ==> IsRival(kind, front, i, j) == IsRival(kind, messages, i, j);
  }

  /** The reducers keep exactly the events that count, in position. */
  lemma {:induction false} KeptAt(kind: Kind, messages: seq<Message>) returns (at: seq<nat>)
    ensures Positions(messages, at) && Rising(at) && Kept(kind, messages) == At(messages, at)
    ensures forall i: nat :: i in at <==> Counts(kind, messages, i)
  {
    at := [];
    if messages != [] {
      var front, n := messages[..|messages| - 1], |messages| - 1;
      var before := KeptAt(kind, front);
      KeptHasConfirmed(kind, front, before, messages[n]);
      hide IsEvent, Confirmed, HasConfirmed, Counts;
      at := KeptOneMore(kind, messages, before);
      var stays := !IsEvent(kind, messages[n]) || HasConfirmed(Kept(kind, front), messages[n].clientMsgId);
      forall i: nat
        ensures i in at <==> Counts(kind, messages, i)
      {
        CountsInside(kind, messages, i);
        if i < |messages| {
          CountsStep(kind, messages, i);
          KeptStepAt(kind, messages, before, stays, i);
        }
      }
    }
  }

  lemma CountsInside(kind: Kind, messages: seq<Message>, i: nat)
    ensures Counts(kind, messages, i) ==> i < |messages|
  {
  }

  lemma KeptOneMore(kind: Kind, messages: seq<Message>, before: seq<nat>) returns (at: seq<nat>)
    requires messages != []
    requires var front := messages[..|messages| - 1]; Positions(front, before) && Rising(before) && Kept(kind, front) == At(front, before)
    ensures Positions(messages, at) && Rising(at) && Kept(kind, messages) == At(messages, at)
    ensures var front, n := messages[..|messages| - 1], |messages| - 1;
            var stays := !IsEvent(kind, messages[n]) || HasConfirmed(Kept(kind, front), messages[n].clientMsgId);
            at == if stays then before else WithoutAt(front, before, messages[n].clientMsgId) + [n]
  {
    var front, n := messages[..|messages| - 1], |messages| - 1;
    var id := messages[n].clientMsgId;
    assert messages == front + [messages[n]];
    KeptAppend(kind, front, messages[n]);
    hide Kept, Without, WithoutAt, IsEvent, HasConfirmed, At, Rising;
    if !IsEvent(kind, messages[n]) || HasConfirmed(Kept(kind, front), id) {
      at := before;
      AtOfFront(messages, n, before);
    } else {
      var rest := WithoutAt(front, before, id);
      WithoutAtIs(front, before, id);
      WithoutAtRises(front, before, id);
      AtOfFront(messages, n, rest);
      AtAppend(messages, rest, n);
      RisesTo(front, rest, n);
      at := rest + [n];
    }
  }

  lemma RisesTo(messages: seq<Message>, at: seq<nat>, n: nat)
    requires Positions(messages, at) && Rising(at) && n == |messages|
    ensures Rising(at + [n])
  {
  }

  lemma KeptHasConfirmed(kind: Kind, messages: seq<Message>, at: seq<nat>, e: Message)
    requires Positions(messages, at) && Kept(kind, messages) == At(messages, at) && forall i: nat :: i in at <==> Counts(kind, messages, i)
    ensures HasConfirmed(Kept(kind, messages), e.clientMsgId)
            <==> exists j: nat :: j < |messages| && IsEvent(kind, messages[j]) && messages[j].clientMsgId == e.clientMsgId && Confirmed(messages[j])
  {
    hide Kept, IsEvent, Confirmed;
    if HasConfirmed(At(messages, at), e.clientMsgId) {
      var x :| x in At(messages, at) && x.clientMsgId == e.clientMsgId && Confirmed(x);
      var k :| 0 <= k < |at| && At(messages, at)[k] == x;
      assert at[k] in at && Counts(kind, messages, at[k]);
    }
    forall j: nat | j < |messages| && IsEvent(kind, messages[j]) && messages[j].clientMsgId == e.clientMsgId && Confirmed(messages[j])
      ensures HasConfirmed(At(messages, at), e.clientMsgId)
    {
      var i := FirstConfirmed(kind, messages, j);
      var k :| 0 <= k < |at| && at[k] == i;
      assert At(messages, at)[k] == messages[i];
    }
  }

  lemma KeptStepAt(kind: Kind, messages: seq<Message>, before: seq<nat>, stays: bool, i: nat)
    requires messages != [] && i < |messages|
    requires var front, n := messages[..|messages| - 1], |messages| - 1;
             && Positions(front, before) && (forall i: nat :: i in before <==> Counts(kind, front, i))
             && (stays <==> (!IsEvent(kind, messages[n])
                             || exists j: nat :: j < n && IsEvent(kind, front[j]) && front[j].clientMsgId == messages[n].clientMsgId && Confirmed(front[j])))
    requires var n := |messages| - 1;
             Counts(kind, messages, i)
             <==> if i == n then IsEvent(kind, messages[n]) && forall j: nat :: j < n && IsRival(kind, messages, n, j) ==> !Confirmed(messages[j])
                  else Counts(kind, messages[..n], i) && (IsRival(kind, messages, i, n) ==> Confirmed(messages[i]))
    ensures var front, n := messages[..|messages| - 1], |messages| - 1;
            i in (if stays then before else WithoutAt(front, before, messages[n].clientMsgId) + [n]) <==> Counts(kind, messages, i)
  {
    var front, n := messages[..|messages| - 1], |messages| - 1;
    hide IsEvent, Confirmed, WithoutAt;
    assert forall j: nat :: j < n ==> front[j] == messages[j];
    if i == n {
      if exists j: nat :: j < n && IsEvent(kind, front[j]) && front[j].clientMsgId == messages[n].clientMsgId && Confirmed(front[j]) {
        var j: nat :| j < n && IsEvent(kind, front[j]) && front[j].clientMsgId == messages[n].clientMsgId && Confirmed(front[j]);
        assert IsRival(kind, messages, n, j);
      }
    } else if Counts(kind, front, i) && IsRival(kind, messages, i, n) {
      if stays {
        var j: nat :| j < n && IsEvent(kind, front[j]) && front[j].clientMsgId == messages[n].clientMsgId && Confirmed(front[j]);
        assert IsRival(kind, front, i, j);
      } else {
        assert !Confirmed(front[i]);
      }
    }
  }

  predicate InReducerOrder(kind: Kind, messages: seq<Message>, at: seq<nat>)
    requires Positions(messages, at)
  {
    forall j, k :: 0 <= j < k < |at| ==> Before(kind, messages, at[j], at[k])
  }

  /** Inserting a later position keeps the order. */
  lemma {:induction false} InsertAt(kind: Kind, messages: seq<Message>, at: seq<nat>, i: nat) returns (more: seq<nat>)
    requires Positions(messages, at) && InReducerOrder(kind, messages, at) && i < |messages| && forall p :: p in at ==> p < i
    ensures Positions(messages, more) && InReducerOrder(kind, messages, more) && Insert(kind, At(messages, at), messages[i]) == At(messages, more)
    ensures forall p :: p in more <==> p in at || p == i
  {
    more := at + [i];
    if at != [] {
      var front, last := at[..|at| - 1], at[|at| - 1];
      assert at == front + [last] && last in at && forall p :: p in front ==> p in at;
      AtAppend(messages, front, last);
      InsertAppend(kind, At(messages, front), messages[last], messages[i]);
      if NotAfter(kind, messages[last], messages[i]) {
        AtAppend(messages, at, i);
        LastIsLatest(kind, messages, front, last, i);
      } else {
        FrontInOrder(kind, messages, front, last);
        var rest := InsertAt(kind, messages, front, i);
        hide Insert, At;
        more := rest + [last];
        AtAppend(messages, rest, last);
        InsertedBefore(kind, messages, front, last, rest, i);
      }
    }
  }

  lemma FrontInOrder(kind: Kind, messages: seq<Message>, front: seq<nat>, last: nat)
    requires last < |messages| && Positions(messages, front) && Positions(messages, front + [last]) && InReducerOrder(kind, messages, front + [last])
    ensures Positions(messages, front) && InReducerOrder(kind, messages, front)
    ensures forall j :: 0 <= j < |front| ==> Before(kind, messages, front[j], last)
  {
    var at := front + [last];
    hide Before;
    assert forall j :: 0 <= j < |front| ==> at[j] == front[j];
    forall j | 0 <= j < |front|
      ensures Before(kind, messages, front[j], last)
    {
      assert Before(kind, messages, at[j], at[|front|]);
    }
  }

  lemma InsertedBefore(kind: Kind, messages: seq<Message>, front: seq<nat>, last: nat, rest: seq<nat>, i: nat)
    requires Positions(messages, front) && Positions(messages, front + [last]) && InReducerOrder(kind, messages, front + [last]) && Positions(messages, rest) && InReducerOrder(kind, messages, rest)
    requires (forall p :: p in rest <==> p in front || p == i) && last < i < |messages| && !NotAfter(kind, messages[last], messages[i])
    ensures InReducerOrder(kind, messages, rest + [last])
  {
    FrontInOrder(kind, messages, front, last);
    assert Before(kind, messages, i, last);
    hide Before;
    forall k | 0 <= k < |rest|
      ensures Before(kind, messages, rest[k], last)
    {
      assert rest[k] in rest;
      if rest[k] != i {
        var j :| 0 <= j < |front| && front[j] == rest[k];
      }
    }
  }

  lemma LastIsLatest(kind: Kind, messages: seq<Message>, front: seq<nat>, last: nat, i: nat)
    requires Positions(messages, front) && Positions(messages, front + [last]) && InReducerOrder(kind, messages, front + [last])
    requires last < i < |messages| && NotAfter(kind, messages[last], messages[i])
    requires forall p :: p in front ==> p < i
    ensures InReducerOrder(kind, messages, front + [last] + [i])
  {
    FrontInOrder(kind, messages, front, last);
    var at := front + [last] + [i];
    forall j | 0 <= j < |front|
      ensures Before(kind, messages, front[j], i)
    {
      assert front[j] in front;
    }
    hide Before;
  }

  lemma {:induction false} SortAt(kind: Kind, messages: seq<Message>, kept: seq<nat>) returns (at: seq<nat>)
    requires Positions(messages, kept) && Rising(kept)
    ensures Positions(messages, at) && InReducerOrder(kind, messages, at) && Sort(kind, At(messages, kept)) == At(messages, at)
    ensures forall p :: p in at <==> p in kept
  {
    at := [];
    if kept != [] {
      var front, last := kept[..|kept| - 1], kept[|kept| - 1];
      assert kept == front + [last];
      var before := SortAt(kind, messages, front);
      AtAppend(messages, front, last);
      SortAppend(kind, At(messages, front), messages[last]);
      hide Sort, Insert, Before, At;
      forall p | p in before
        ensures p < last
      {
        var k :| 0 <= k < |front| && front[k] == p;
        assert kept[k] < kept[|front|];
      }
      at := InsertAt(kind, messages, before, last);
    }
  }

  /** The reducers fold the events that count, one after the other in that order. */
  lemma OrderedAt(kind: Kind, messages: seq<Message>) returns (at: seq<nat>)
    ensures Positions(messages, at) && InReducerOrder(kind, messages, at) && Ordered(kind, messages) == At(messages, at)
    ensures forall i: nat :: i in at <==> Counts(kind, messages, i)
  {
    hide Kept, Sort, Before, Counts;
    var kept := KeptAt(kind, messages);
    at := SortAt(kind, messages, kept);
  }

  // ----------------------------------------------------------------- deletions

  /** A device of the author's own role deletes this very message, under a later number once it has one. */
  ghost predicate Erases(messages: seq<Message>, roles: Roles, e: Message, id: Id) {
    && e.payload.MessageDelete? && e.payload.target.clientMsgId == id
    && SameRole(roles, e.senderId, e.payload.target.senderId)
    && (exists i: nat :: IsTargetAt(messages, i, e.payload.target)) && Unambiguous(messages, e.payload.target.serverSeq)
    && (Confirmed(e) ==> e.payload.target.serverSeq < e.number)
  }

  function TombstoneBy(roles: Roles, e: Message): Tombstone
    requires e.payload.MessageDelete? && e.senderId in roles
  {
    Tombstone(e.payload.target, roles[e.senderId], e.senderId, e.clientMsgId, if Confirmed(e) then Some(e.number) else None)
  }

  ghost predicate IsFirstErasure(messages: seq<Message>, roles: Roles, id: Id, i: nat) {
    && Counts(Deletions, messages, i) && Erases(messages, roles, messages[i], id)
    && forall j: nat :: Counts(Deletions, messages, j) && Erases(messages, roles, messages[j], id) && j != i ==> Before(Deletions, messages, i, j)
  }

  /** The first deletion that counts decides; without one there is no tombstone. */
  ghost predicate IsTombstone(messages: seq<Message>, roles: Roles, id: Id, t: Option<Tombstone>) {
    match t
    case None => forall i: nat :: Counts(Deletions, messages, i) ==> !Erases(messages, roles, messages[i], id)
    case Some(x) => exists i: nat :: IsFirstErasure(messages, roles, id, i) && x == TombstoneBy(roles, messages[i])
  }

  lemma ErasesIs(messages: seq<Message>, roles: Roles, e: Message, id: Id)
    ensures Erases(messages, roles, e, id) <==> Deletes(messages, roles, e) && e.payload.target.clientMsgId == id
  {
    if e.payload.MessageDelete? {
      NamesAt(messages, e.payload.target);
      AmbiguousAt(messages, e.payload.target.serverSeq);
      hide Names, Ambiguous, Unambiguous, IsTargetAt, Last;
    }
  }

  ghost predicate FirstErasing(messages: seq<Message>, roles: Roles, at: seq<nat>, id: Id, k: nat)
    requires Positions(messages, at)
  {
    k < |at| && Erases(messages, roles, messages[at[k]], id) && forall j :: 0 <= j < k ==> !Erases(messages, roles, messages[at[j]], id)
  }

  ghost predicate NoneErasing(messages: seq<Message>, roles: Roles, at: seq<nat>, id: Id)
    requires Positions(messages, at)
  {
    forall k :: 0 <= k < |at| ==> !Erases(messages, roles, messages[at[k]], id)
  }

  lemma ErasingAppend(messages: seq<Message>, roles: Roles, front: seq<nat>, last: nat, id: Id)
    requires Positions(messages, front) && last < |messages| && Positions(messages, front + [last])
    ensures forall k: nat :: FirstErasing(messages, roles, front, id, k) ==>
              FirstErasing(messages, roles, front + [last], id, k) && (front + [last])[k] == front[k]
    ensures NoneErasing(messages, roles, front, id) ==>
              if Erases(messages, roles, messages[last], id)
              then FirstErasing(messages, roles, front + [last], id, |front|) && (front + [last])[|front|] == last
              else NoneErasing(messages, roles, front + [last], id)
  {
    var at := front + [last];
    hide Erases;
    assert at[|front|] == last && forall j :: 0 <= j < |front| ==> at[j] == front[j];
  }

  lemma {:induction false} TombstoneFold(messages: seq<Message>, roles: Roles, at: seq<nat>, id: Id)
    requires Positions(messages, at) && InReducerOrder(Deletions, messages, at)
    ensures match Find(Tombstones(At(messages, at), messages, roles), id)
            case None => NoneErasing(messages, roles, at, id)
            case Some(x) => exists k: nat :: FirstErasing(messages, roles, at, id, k) && x == TombstoneBy(roles, messages[at[k]])
  {
    if at != [] {
      var front, last := at[..|at| - 1], at[|at| - 1];
      assert at == front + [last];
      FrontInOrder(Deletions, messages, front, last);
      TombstoneFold(messages, roles, front, id);
      AtAppend(messages, front, last);
      ErasingAppend(messages, roles, front, last, id);
      hide Tombstones, Deletes, At, Erases, NoneErasing, InReducerOrder;
      var e := messages[last];
      TombstonesAppend(At(messages, front), e, messages, roles, id);
      DeletesForm(messages, roles, e);
      ErasesIs(messages, roles, e, id);
      var before := Find(Tombstones(At(messages, front), messages, roles), id);
      if before.Some? {
        var k: nat :| FirstErasing(messages, roles, front, id, k) && before.value == TombstoneBy(roles, messages[front[k]]);
        assert Before(Deletions, messages, front[k], last);
        hide FirstErasing;
        assert before.value.serverSeq.Some? || !Confirmed(e);
      }
    }
  }

  lemma FirstInOrder(messages: seq<Message>, roles: Roles, at: seq<nat>, id: Id, k: nat)
    requires Positions(messages, at) && InReducerOrder(Deletions, messages, at) && (forall i: nat :: i in at <==> Counts(Deletions, messages, i))
    requires FirstErasing(messages, roles, at, id, k)
    ensures IsFirstErasure(messages, roles, id, at[k])
  {
    hide Erases, Counts, Before;
    assert at[k] in at;
    forall j: nat | Counts(Deletions, messages, j) && Erases(messages, roles, messages[j], id) && j != at[k]
      ensures Before(Deletions, messages, at[k], j)
    {
      var l: nat :| l < |at| && at[l] == j;
    }
  }

  lemma NoneCounts(messages: seq<Message>, roles: Roles, at: seq<nat>, id: Id, i: nat)
    requires Positions(messages, at) && (forall i: nat :: i in at <==> Counts(Deletions, messages, i))
    requires NoneErasing(messages, roles, at, id) && Counts(Deletions, messages, i)
    ensures !Erases(messages, roles, messages[i], id)
  {
    hide Erases, Counts;
    var l: nat :| l < |at| && at[l] == i;
  }

  /** Every tombstone, and every lack of one, is explained by the messages and the roles. */
  lemma TombstonesExactly(messages: seq<Message>, roles: Roles, id: Id)
    ensures IsTombstone(messages, roles, id, Find(Deleted(messages, roles), id))
  {
    var at := OrderedAt(Deletions, messages);
    TombstoneFold(messages, roles, at, id);
    hide Tombstones, Erases, Ordered, Counts, InReducerOrder, NoneErasing, FirstErasing, IsFirstErasure, At;
    var t := Find(Deleted(messages, roles), id);
    if t.Some? {
      var k: nat :| FirstErasing(messages, roles, at, id, k) && t.value == TombstoneBy(roles, messages[at[k]]);
      FirstInOrder(messages, roles, at, id, k);
    } else {
      forall i: nat | Counts(Deletions, messages, i)
        ensures !Erases(messages, roles, messages[i], id)
      {
        NoneCounts(messages, roles, at, id, i);
      }
    }
  }

  // ----------------------------------------------------------------- reactions

  /** A device of the role reacts to this very message, under a later number once it has one. */
  ghost predicate ReactsTo(messages: seq<Message>, roles: Roles, e: Message, id: Id, role: Role) {
    && e.payload.Reaction? && e.payload.target.clientMsgId == id
    && e.senderId in roles && roles[e.senderId] == role
    && (exists i: nat :: IsTargetAt(messages, i, e.payload.target))
    && (Confirmed(e) ==> e.payload.target.serverSeq < e.number)
    && (match e.payload.emoji case None => true case Some(emoji) => emoji < EMOJIS)
  }

  /** An event without an emoji takes the badge off. */
  function BadgeBy(role: Role, e: Message): Option<Badge>
    requires e.payload.Reaction?
  {
    match e.payload.emoji
    case None => None
    case Some(emoji) => Some(Badge(role, e.senderId, emoji, e.clientMsgId, !Confirmed(e)))
  }

  ghost predicate IsLastReaction(messages: seq<Message>, roles: Roles, id: Id, role: Role, i: nat) {
    && Counts(Reactions, messages, i) && ReactsTo(messages, roles, messages[i], id, role)
    && forall j: nat :: Counts(Reactions, messages, j) && ReactsTo(messages, roles, messages[j], id, role) && j != i ==> Before(Reactions, messages, j, i)
  }

  /** The role's last reaction that counts decides; without one there is no badge. */
  ghost predicate IsBadge(messages: seq<Message>, roles: Roles, id: Id, role: Role, b: Option<Badge>) {
    || (b.None? && forall i: nat :: Counts(Reactions, messages, i) ==> !ReactsTo(messages, roles, messages[i], id, role))
    || exists i: nat :: IsLastReaction(messages, roles, id, role, i) && b == BadgeBy(role, messages[i])
  }

  lemma ReactsToIs(messages: seq<Message>, roles: Roles, e: Message, id: Id, role: Role)
    ensures ReactsTo(messages, roles, e, id, role)
            <==> Reacts(messages, roles, e) && e.payload.target.clientMsgId == id && roles[e.senderId] == role
  {
    if e.payload.Reaction? {
      NamesAt(messages, e.payload.target);
      hide Names, IsTargetAt, Last;
    }
  }

  function BadgeOf(badges: Option<map<Role, Badge>>, role: Role): Option<Badge> {
    if badges.None? then None else Find(badges.value, role)
  }

  lemma {:induction false} BadgeFold(messages: seq<Message>, roles: Roles, at: seq<nat>, id: Id, role: Role)
    requires Positions(messages, at)
    ensures var b := BadgeOf(Find(ByTarget(At(messages, at), messages, roles), id), role);
            || (b.None? && forall k :: 0 <= k < |at| ==> !ReactsTo(messages, roles, messages[at[k]], id, role))
            || exists k :: 0 <= k < |at| && ReactsTo(messages, roles, messages[at[k]], id, role) && b == BadgeBy(role, messages[at[k]])
                 && forall j :: k < j < |at| ==> !ReactsTo(messages, roles, messages[at[j]], id, role)
  {
    if at != [] {
      var front, last := at[..|at| - 1], at[|at| - 1];
      assert at == front + [last];
      BadgeFold(messages, roles, front, id, role);
      AtAppend(messages, front, last);
      hide ByTarget, Reacts, At, ReactsTo;
      var e := messages[last];
      ByTargetAppend(At(messages, front), e, messages, roles, id);
      DeletesForm(messages, roles, e);
      ReactsToIs(messages, roles, e, id, role);
      assert at[|front|] == last && forall j :: 0 <= j < |front| ==> at[j] == front[j];
      if !ReactsTo(messages, roles, e, id, role) {
        var b := BadgeOf(Find(ByTarget(At(messages, front), messages, roles), id), role);
        assert b == BadgeOf(Find(ByTarget(At(messages, at), messages, roles), id), role);
      } else {
        assert BadgeOf(Find(ByTarget(At(messages, at), messages, roles), id), role) == BadgeBy(role, messages[at[|front|]]);
      }
    }
  }

  lemma BadgesExactly(messages: seq<Message>, roles: Roles, id: Id, role: Role)
    ensures IsBadge(messages, roles, id, role, BadgeOf(Find(ByTarget(Ordered(Reactions, messages), messages, roles), id), role))
  {
    var at := OrderedAt(Reactions, messages);
    BadgeFold(messages, roles, at, id, role);
    hide ByTarget, ReactsTo, Ordered, Counts, Before;
    var b := BadgeOf(Find(ByTarget(At(messages, at), messages, roles), id), role);
    if k :| 0 <= k < |at| && ReactsTo(messages, roles, messages[at[k]], id, role) && b == BadgeBy(role, messages[at[k]])
            && forall j :: k < j < |at| ==> !ReactsTo(messages, roles, messages[at[j]], id, role) {
      assert at[k] in at;
      forall j: nat | Counts(Reactions, messages, j) && ReactsTo(messages, roles, messages[j], id, role) && j != at[k]
        ensures Before(Reactions, messages, j, at[k])
      {
        var l :| 0 <= l < |at| && at[l] == j;
      }
      assert IsLastReaction(messages, roles, id, role, at[k]);
    } else {
      forall i: nat | Counts(Reactions, messages, i)
        ensures !ReactsTo(messages, roles, messages[i], id, role)
      {
        var l :| 0 <= l < |at| && at[l] == i;
      }
    }
  }

  // ------------------------------------------------------------ the projection

  function TombstoneIn(p: Projection, id: Id): Option<Tombstone> {
    if DeletedKey(id) in p && p[DeletedKey(id)].IsDeleted? then Some(p[DeletedKey(id)].tombstone) else None
  }

  function BadgesIn(p: Projection, id: Id): seq<Badge> {
    if ReactionKey(id) in p && p[ReactionKey(id)].HasBadges? then p[ReactionKey(id)].badges else []
  }

  function Shown(creator: Option<Badge>, joiner: Option<Badge>): seq<Badge> {
    (if creator.Some? then [creator.value] else []) + (if joiner.Some? then [joiner.value] else [])
  }

  ghost predicate BadgesMean(badges: seq<Badge>, messages: seq<Message>, roles: Roles, id: Id) {
    exists creator, joiner :: IsBadge(messages, roles, id, Creator, creator) && IsBadge(messages, roles, id, Joiner, joiner) && badges == Shown(creator, joiner)
  }

  /** What a projection says of one message is what the messages and roles mean. */
  ghost predicate Means(p: Projection, messages: seq<Message>, readable: seq<Message>, roles: Roles, id: Id) {
    && (ReadKey(id) in p <==> IsReadBy(readable, roles, id))
    && IsTombstone(messages, roles, id, TombstoneIn(p, id)) && (DeletedKey(id) in p <==> TombstoneIn(p, id).Some?)
    && BadgesMean(BadgesIn(p, id), messages, roles, id) && (ReactionKey(id) in p <==> BadgesIn(p, id) != [])
  }

  ghost predicate MeansAll(p: Projection, messages: seq<Message>, readable: seq<Message>, roles: Roles) {
    forall id :: Means(p, messages, readable, roles, id)
  }

  /** The reducers report exactly that. */
  lemma ReducedMeans(messages: seq<Message>, readable: seq<Message>, roles: Roles, id: Id)
    ensures Means(Reduced(messages, readable, roles), messages, readable, roles, id)
  {
    var p := Reduced(messages, readable, roles);
    ReducedFacts(messages, readable, roles, ReadKey(id));
    ReducedFacts(messages, readable, roles, DeletedKey(id));
    ReducedFacts(messages, readable, roles, ReactionKey(id));
    ReadsExactly(readable, roles, id);
    TombstonesExactly(messages, roles, id);
    BadgesExactly(messages, roles, id, Creator);
    BadgesExactly(messages, roles, id, Joiner);
    hide Reduced, ReadIds, Tombstones, ByTarget, Ordered, IsReadBy, IsTombstone, IsBadge;
    var badges := Find(ByTarget(Ordered(Reactions, messages), messages, roles), id);
    assert BadgesIn(p, id) == Shown(BadgeOf(badges, Creator), BadgeOf(badges, Joiner));
  }
}
