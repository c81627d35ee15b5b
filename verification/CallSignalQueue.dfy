/** The retry queue of src/lib/call-signal-queue.ts: signed call signals are written again until they
    are acknowledged, rejected, cancelled or too old. Time is a parameter of every operation, and
    `link` says which writes of a flush the socket takes. */
module CallSignalQueue {
  const MAX_PENDING := 256
  const MAX_CONFIRMED := 512
  const LIFETIME := 30_000
  const TICK := 250
  const RETRY := 2000

  type Promise = nat

  datatype Key = Key(callId: nat, eventId: nat)

  datatype Envelope = Envelope(key: Key, expiresAt: nat, ciphertext: nat)

  datatype Pending = Pending(envelope: Envelope, promise: Promise, attempts: nat, nextAt: nat, deadline: nat)

  datatype Confirmed = Confirmed(key: Key, expiry: nat)

  datatype Outcome = Resolved | Refused | TimedOut | Cancelled

  datatype Answer = AlreadyConfirmed | Overloaded | Promised(promise: Promise)

  datatype Code = PeerReconnecting | Backpressure | RateLimited | OtherCode

  datatype Submission = Submission(envelope: Envelope, at: nat)

  datatype Write = Write(promise: Promise, envelope: Envelope)

  /** What callers and the socket have seen: promise number n was handed out for `issued[n]`. */
  datatype Log = Log(issued: seq<Submission>, settled: map<Promise, Outcome>, written: seq<Write>)

  // ------------------------------------------------------------ the two tables

  function Min(a: int, b: int): int {
    if a < b then a else b
  }

  function Deadline(s: Submission): nat {
    Min(s.envelope.expiresAt, s.at + LIFETIME)
  }

  predicate HasKey(pending: seq<Pending>, key: Key) {
    exists p :: p in pending && p.envelope.key == key
  }

  predicate IsConfirmed(confirmed: seq<Confirmed>, key: Key) {
    exists c :: c in confirmed && c.key == key
  }

  predicate DistinctPending(pending: seq<Pending>) {
    forall i: nat, j: nat :: i < j < |pending| ==>
      pending[i].envelope.key != pending[j].envelope.key && pending[i].promise != pending[j].promise
  }

  predicate DistinctConfirmed(confirmed: seq<Confirmed>) {
    forall i: nat, j: nat :: i < j < |confirmed| ==> confirmed[i].key != confirmed[j].key
  }

  function Promises(pending: seq<Pending>): set<Promise> {
    set p | p in pending :: p.promise
  }

  /** Every promise handed out is either settled or owed by exactly one entry, which still holds the
      envelope it was handed out for; the socket saw nothing but such envelopes. */
  predicate Book(pending: seq<Pending>, log: Log) {
    && DistinctPending(pending)
    && (forall p :: p in pending ==>
          && p.promise < |log.issued| && p.promise !in log.settled
          && p.envelope == log.issued[p.promise].envelope && p.deadline == Deadline(log.issued[p.promise]))
    && (forall n: nat :: n < |log.issued| ==> n in log.settled || n in Promises(pending))
    && (forall n :: n in log.settled ==> n < |log.issued|)
    && (forall w :: w in log.written ==> w.promise < |log.issued| && w.envelope == log.issued[w.promise].envelope)
  }

  predicate Tables(pending: seq<Pending>, confirmed: seq<Confirmed>) {
    && |pending| <= MAX_PENDING && |confirmed| <= MAX_CONFIRMED && DistinctConfirmed(confirmed)
    && (forall c :: c in confirmed ==> !HasKey(pending, c.key))
  }

  // ------------------------------------------------------------ settling

  function Settle(settled: map<Promise, Outcome>, gone: set<Promise>, outcome: Outcome): map<Promise, Outcome> {
    settled + (map n | n in gone :: outcome)
  }

  /** `kept` is what is left of `pending` when the entries owing `gone` leave; attempts and retry times may move. */
  predicate Leaves(pending: seq<Pending>, kept: seq<Pending>, gone: set<Promise>) {
    && DistinctPending(kept) && |kept| <= |pending|
    && gone <= Promises(pending) && Promises(kept) == Promises(pending) - gone
    && (forall k :: k in kept ==> exists p :: p in pending && p == k.(attempts := p.attempts, nextAt := p.nextAt))
  }

  /** Entries that leave with an outcome, and writes for entries that were owed, keep the book. */
  lemma LeavingKeepsBook(pending: seq<Pending>, kept: seq<Pending>, gone: set<Promise>, outcome: Outcome, log: Log, writes: seq<Write>)
    requires Book(pending, log) && Leaves(pending, kept, gone)
    requires forall w :: w in writes ==> exists p :: p in pending && p.promise == w.promise && p.envelope == w.envelope
    ensures Book(kept, log.(settled := Settle(log.settled, gone, outcome), written := log.written + writes))
    ensures gone !! log.settled.Keys
  {
    forall k | k in kept
      ensures k.promise < |log.issued| && k.promise !in log.settled && k.promise !in gone
      ensures k.envelope == log.issued[k.promise].envelope && k.deadline == Deadline(log.issued[k.promise])
    {
      var p :| p in pending && p == k.(attempts := p.attempts, nextAt := p.nextAt);
      assert k.promise in Promises(kept);
    }
  }

  lemma LeavingKeepsTables(pending: seq<Pending>, kept: seq<Pending>, gone: set<Promise>, confirmed: seq<Confirmed>)
    requires Tables(pending, confirmed) && Leaves(pending, kept, gone)
    ensures Tables(kept, confirmed)
  {
    forall k | k in kept
      ensures HasKey(pending, k.envelope.key)
    {
      var p :| p in pending && p == k.(attempts := p.attempts, nextAt := p.nextAt);
      assert p.envelope.key == k.envelope.key;
    }
  }

  lemma PromiseNamesOne(pending: seq<Pending>, p: Pending, q: Pending)
    requires DistinctPending(pending) && p in pending && q in pending && p.promise == q.promise
    ensures p == q
  {
    var i: nat, j: nat :| i < |pending| && j < |pending| && pending[i] == p && pending[j] == q;
  }

  function Without(pending: seq<Pending>, i: nat): seq<Pending>
    requires i < |pending|
  {
    pending[..i] + pending[i + 1..]
  }

  lemma WithoutLeaves(pending: seq<Pending>, i: nat)
    requires i < |pending| && DistinctPending(pending)
    ensures Leaves(pending, Without(pending, i), {pending[i].promise})
    ensures !HasKey(Without(pending, i), pending[i].envelope.key)
  {
    var kept, p := Without(pending, i), pending[i];
    assert pending == pending[..i] + [p] + pending[i + 1..];
    forall k | k in kept
      ensures k in pending && k.promise != p.promise && k.envelope.key != p.envelope.key
    {
      var j :| 0 <= j < |kept| && kept[j] == k;
      assert k == pending[if j < i then j else j + 1];
    }
    forall q | q in pending && q != p
      ensures q in kept
    {
    }
    forall k | k in kept
      ensures k == k.(attempts := k.attempts, nextAt := k.nextAt)
    {
    }
    assert forall n :: n in Promises(kept) <==> n in Promises(pending) && n != p.promise;
  }

  // ------------------------------------------------------------ one flush

  function Power2(n: nat): nat {
    if n == 0 then 1 else 2 * Power2(n - 1)
  }

  /** How long a written signal waits for its answer before it is written again. */
  function Backoff(attempts: nat): nat
    requires attempts > 0
  {
    Min(1000 * Power2(Min(3, attempts - 1)), 8000)
  }

  predicate Due(p: Pending, reconnected: bool, now: nat) {
    now < p.deadline && (reconnected || now >= p.nextAt)
  }

  function Retried(p: Pending, reconnected: bool, now: nat, link: Promise -> bool): Pending {
    if !Due(p, reconnected, now) then p
    else if link(p.promise) then p.(attempts := p.attempts + 1, nextAt := now + Backoff(p.attempts + 1))
    else p.(nextAt := now + TICK)
  }

  function Flushed(pending: seq<Pending>, reconnected: bool, now: nat, link: Promise -> bool): seq<Pending> {
    if pending == [] then []
    else
      var front, last := pending[..|pending| - 1], pending[|pending| - 1];
      Flushed(front, reconnected, now, link) + (if now >= last.deadline then [] else [Retried(last, reconnected, now, link)])
  }

  function Writes(pending: seq<Pending>, reconnected: bool, now: nat): seq<Write> {
    if pending == [] then []
    else
      var front, last := pending[..|pending| - 1], pending[|pending| - 1];
      Writes(front, reconnected, now) + (if Due(last, reconnected, now) then [Write(last.promise, last.envelope)] else [])
  }

  function Expired(pending: seq<Pending>, now: nat): set<Promise> {
    set p | p in pending && now >= p.deadline :: p.promise
  }

  lemma {:induction false} FlushedOnes(pending: seq<Pending>, reconnected: bool, now: nat, link: Promise -> bool)
    ensures |Flushed(pending, reconnected, now, link)| <= |pending|
    ensures forall k :: k in Flushed(pending, reconnected, now, link) <==>
                          exists p :: p in pending && now < p.deadline && k == Retried(p, reconnected, now, link)
    ensures forall w :: w in Writes(pending, reconnected, now) <==>
                          exists p :: p in pending && Due(p, reconnected, now) && w == Write(p.promise, p.envelope)
  {
    if pending != [] {
      var front, last := pending[..|pending| - 1], pending[|pending| - 1];
      FlushedOnes(front, reconnected, now, link);
      assert forall p :: p in pending <==> p in front || p == last;
    }
  }

  lemma {:induction false} FlushedAreDistinct(pending: seq<Pending>, reconnected: bool, now: nat, link: Promise -> bool)
    requires DistinctPending(pending)
    ensures DistinctPending(Flushed(pending, reconnected, now, link))
  {
    if pending != [] {
      var front, last := pending[..|pending| - 1], pending[|pending| - 1];
      FlushedAreDistinct(front, reconnected, now, link);
      FlushedOnes(front, reconnected, now, link);
      var kept := Flushed(front, reconnected, now, link);
      forall i: nat | i < |kept|
        ensures kept[i].envelope.key != last.envelope.key && kept[i].promise != last.promise
      {
        assert kept[i] in kept;
        var p :| p in front && now < p.deadline && kept[i] == Retried(p, reconnected, now, link);
        var j: nat :| j < |front| && front[j] == p;
        assert pending[j] == p;
      }
    }
  }

  /** What a flush keeps is what it does not let expire. */
  lemma FlushedPromises(pending: seq<Pending>, reconnected: bool, now: nat, link: Promise -> bool)
    requires DistinctPending(pending)
    ensures Promises(Flushed(pending, reconnected, now, link)) == Promises(pending) - Expired(pending, now)
  {
    var kept := Flushed(pending, reconnected, now, link);
    FlushedOnes(pending, reconnected, now, link);
    hide Flushed, Backoff, DistinctPending, Due;
    forall p | p in pending && now < p.deadline
      ensures p.promise !in Expired(pending, now)
    {
      forall q | q in pending && q.promise == p.promise
        ensures q == p
      {
        PromiseNamesOne(pending, p, q);
      }
    }
    forall n | n in Promises(pending) && n !in Expired(pending, now)
      ensures n in Promises(kept)
    {
      var p :| p in pending && p.promise == n;
      assert Retried(p, reconnected, now, link) in kept;
    }
  }

  lemma FlushedLeaves(pending: seq<Pending>, reconnected: bool, now: nat, link: Promise -> bool)
    requires DistinctPending(pending)
    ensures Leaves(pending, Flushed(pending, reconnected, now, link), Expired(pending, now))
  {
    var kept := Flushed(pending, reconnected, now, link);
    FlushedPromises(pending, reconnected, now, link);
    FlushedOnes(pending, reconnected, now, link);
    FlushedAreDistinct(pending, reconnected, now, link);
    hide Flushed, Backoff, DistinctPending, Due;
    forall k | k in kept
      ensures exists p :: p in pending && p == k.(attempts := p.attempts, nextAt := p.nextAt)
    {
      var p :| p in pending && now < p.deadline && k == Retried(p, reconnected, now, link);
      assert p == k.(attempts := p.attempts, nextAt := p.nextAt);
    }
  }

  // ------------------------------------------------------------ the other removals

  /** The confirmations that have not expired. */
  function Fresh(confirmed: seq<Confirmed>, now: nat): seq<Confirmed> {
    if confirmed == [] then []
    else
      var front, last := confirmed[..|confirmed| - 1], confirmed[|confirmed| - 1];
      Fresh(front, now) + (if last.expiry <= now then [] else [last])
  }

  lemma {:induction false} FreshOnes(confirmed: seq<Confirmed>, now: nat)
    ensures |Fresh(confirmed, now)| <= |confirmed|
    ensures forall c :: c in Fresh(confirmed, now) <==> c in confirmed && c.expiry > now
    ensures DistinctConfirmed(confirmed) ==> DistinctConfirmed(Fresh(confirmed, now))
  {
    if confirmed != [] {
      var front, last := confirmed[..|confirmed| - 1], confirmed[|confirmed| - 1];
      assert confirmed == front + [last];
      FreshOnes(front, now);
      var kept := Fresh(front, now);
      forall i: nat | i < |kept| && DistinctConfirmed(confirmed)
        ensures kept[i].key != last.key
      {
        assert kept[i] in front;
        var k: nat :| k < |front| && front[k] == kept[i];
        assert confirmed[k] == kept[i];
      }
    }
  }

  /** The signals of other calls. */
  function Others(pending: seq<Pending>, callId: nat): seq<Pending> {
    if pending == [] then []
    else
      var front, last := pending[..|pending| - 1], pending[|pending| - 1];
      Others(front, callId) + (if last.envelope.key.callId == callId then [] else [last])
  }

  function OfCall(pending: seq<Pending>, callId: nat): set<Promise> {
    set p | p in pending && p.envelope.key.callId == callId :: p.promise
  }

  lemma {:induction false} OthersOnes(pending: seq<Pending>, callId: nat)
    ensures |Others(pending, callId)| <= |pending|
    ensures forall p :: p in Others(pending, callId) <==> p in pending && p.envelope.key.callId != callId
  {
    if pending != [] {
      var front, last := pending[..|pending| - 1], pending[|pending| - 1];
      assert pending == front + [last];
      OthersOnes(front, callId);
    }
  }

  lemma {:induction false} OthersAreDistinct(pending: seq<Pending>, callId: nat)
    requires DistinctPending(pending)
    ensures DistinctPending(Others(pending, callId))
  {
    if pending != [] {
      var front, last := pending[..|pending| - 1], pending[|pending| - 1];
      OthersAreDistinct(front, callId);
      OthersOnes(front, callId);
      var kept := Others(front, callId);
      forall i: nat | i < |kept|
        ensures kept[i].envelope.key != last.envelope.key && kept[i].promise != last.promise
      {
        assert kept[i] in kept;
        var k: nat :| k < |front| && front[k] == kept[i];
        assert pending[k] == kept[i];
      }
    }
  }

  lemma OthersLeave(pending: seq<Pending>, callId: nat)
    requires DistinctPending(pending)
    ensures Leaves(pending, Others(pending, callId), OfCall(pending, callId))
  {
    OthersOnes(pending, callId);
    OthersAreDistinct(pending, callId);
    hide Others;
    var kept := Others(pending, callId);
    forall k | k in kept
      ensures exists p :: p in pending && p == k.(attempts := p.attempts, nextAt := p.nextAt)
    {
      assert k == k.(attempts := k.attempts, nextAt := k.nextAt);
    }
    forall n | n in Promises(kept)
      ensures n in Promises(pending) && n !in OfCall(pending, callId)
    {
      var k :| k in kept && k.promise == n;
      forall p | p in pending && p.promise == n
        ensures p == k
      {
        PromiseNamesOne(pending, p, k);
      }
    }
    forall n | n in Promises(pending) && n !in OfCall(pending, callId)
      ensures n in Promises(kept)
    {
      var p :| p in pending && p.promise == n;
      assert p in kept;
    }
  }

  // ------------------------------------------------------------ a new signal

  predicate NewEntry(pending: seq<Pending>, confirmed: seq<Confirmed>, key: Key) {
    !HasKey(pending, key) && !IsConfirmed(confirmed, key) && |pending| < MAX_PENDING
  }

  function Entry(s: Submission, promise: Promise): Pending {
    Pending(s.envelope, promise, 0, 0, Deadline(s))
  }

  lemma AcceptingKeepsState(pending: seq<Pending>, confirmed: seq<Confirmed>, log: Log, s: Submission)
    requires Book(pending, log) && Tables(pending, confirmed) && NewEntry(pending, confirmed, s.envelope.key)
    ensures Book(pending + [Entry(s, |log.issued|)], log.(issued := log.issued + [s]))
    ensures Tables(pending + [Entry(s, |log.issued|)], confirmed)
  {
    var entry := Entry(s, |log.issued|);
    var more := pending + [entry];
    forall i: nat | i < |pending|
      ensures pending[i].envelope.key != s.envelope.key && pending[i].promise != entry.promise
    {
      assert pending[i] in pending;
    }
    assert entry in more && forall p :: p in pending ==> p in more;
    assert forall n :: n in Promises(pending) ==> n in Promises(more);
    forall c | c in confirmed
      ensures !HasKey(more, c.key)
    {
      assert c.key != s.envelope.key;
    }
  }

  /** The confirmations after `key` is acknowledged: the oldest makes room. */
  function Confirm(confirmed: seq<Confirmed>, key: Key, expiry: nat): seq<Confirmed> {
    (if |confirmed| >= MAX_CONFIRMED then confirmed[1..] else confirmed) + [Confirmed(key, expiry)]
  }

  lemma ConfirmingKeepsTables(pending: seq<Pending>, confirmed: seq<Confirmed>, i: nat)
    requires i < |pending| && DistinctPending(pending) && Tables(pending, confirmed)
    ensures Tables(Without(pending, i), Confirm(confirmed, pending[i].envelope.key, pending[i].envelope.expiresAt))
  {
    var key := pending[i].envelope.key;
    var kept := Without(pending, i);
    WithoutLeaves(pending, i);
    LeavingKeepsTables(pending, kept, {pending[i].promise}, confirmed);
    assert HasKey(pending, key);
    var left := if |confirmed| >= MAX_CONFIRMED then confirmed[1..] else confirmed;
    hide HasKey, Leaves, Without;
    forall j: nat | j < |left|
      ensures left[j] in confirmed && left[j].key != key
    {
      assert left[j] == confirmed[if |confirmed| >= MAX_CONFIRMED then j + 1 else j];
    }
  }

  lemma PostponingLeaves(pending: seq<Pending>, i: nat, nextAt: nat)
    requires i < |pending| && DistinctPending(pending)
    ensures Leaves(pending, pending[i := pending[i].(nextAt := nextAt)], {})
  {
    var kept := pending[i := pending[i].(nextAt := nextAt)];
    forall k | k in kept
      ensures exists p :: p in pending && p == k.(attempts := p.attempts, nextAt := p.nextAt)
    {
      var j: nat :| j < |kept| && kept[j] == k;
      assert pending[j] == k.(attempts := pending[j].attempts, nextAt := pending[j].nextAt);
    }
    forall n
      ensures n in Promises(kept) <==> n in Promises(pending)
    {
      if n in Promises(pending) {
        var p :| p in pending && p.promise == n;
        var j: nat :| j < |pending| && pending[j] == p;
        assert kept[j] in kept;
      }
    }
  }

  /** Nothing handed out, settled or written is ever taken back, and a settled promise keeps its outcome. */
  predicate Final(before: Log, after: Log) {
    && before.issued <= after.issued && before.written <= after.written
    && (forall n :: n in before.settled ==> n in after.settled && after.settled[n] == before.settled[n])
  }

  lemma SettlingIsFinal(pending: seq<Pending>, log: Log, gone: set<Promise>, outcome: Outcome, writes: seq<Write>)
    requires Book(pending, log) && gone <= Promises(pending)
    ensures Final(log, log.(settled := Settle(log.settled, gone, outcome), written := log.written + writes))
  {
    assert forall n :: n in Promises(pending) ==> n !in log.settled;
  }

  lemma FlushingKeepsSound(pending: seq<Pending>, confirmed: seq<Confirmed>, log: Log, reconnected: bool, now: nat, link: Promise -> bool)
    requires Book(pending, log) && Tables(pending, confirmed)
    ensures var kept := Flushed(pending, reconnected, now, link);
            var after := Log(log.issued, Settle(log.settled, Expired(pending, now), TimedOut),
                             log.written + Writes(pending, reconnected, now));
            Tables(kept, confirmed) && Book(kept, after) && Final(log, after)
  {
    var kept, writes := Flushed(pending, reconnected, now, link), Writes(pending, reconnected, now);
    FlushedLeaves(pending, reconnected, now, link);
    FlushedOnes(pending, reconnected, now, link);
    assert Expired(pending, now) <= Promises(pending);
    hide Flushed, Writes, Expired, Leaves, Settle, Final;
    LeavingKeepsTables(pending, kept, Expired(pending, now), confirmed);
    LeavingKeepsBook(pending, kept, Expired(pending, now), TimedOut, log, writes);
    SettlingIsFinal(pending, log, Expired(pending, now), TimedOut, writes);
  }

  lemma CancellingKeepsSound(pending: seq<Pending>, confirmed: seq<Confirmed>, log: Log, callId: nat)
    requires Book(pending, log) && Tables(pending, confirmed)
    ensures Tables(Others(pending, callId), confirmed)
    ensures var after := log.(settled := Settle(log.settled, OfCall(pending, callId), Cancelled));
            Book(Others(pending, callId), after) && Final(log, after)
  {
    var kept, gone := Others(pending, callId), OfCall(pending, callId);
    OthersLeave(pending, callId);
    assert gone <= Promises(pending);
    hide Others, OfCall, Leaves, Settle, Final;
    LeavingKeepsTables(pending, kept, gone, confirmed);
    LeavingKeepsBook(pending, kept, gone, Cancelled, log, []);
    SettlingIsFinal(pending, log, gone, Cancelled, []);
    assert log.written + [] == log.written;
  }

  lemma SettleNone(settled: map<Promise, Outcome>, outcome: Outcome)
    ensures Settle(settled, {}, outcome) == settled
  {
  }

  lemma SettleMore(settled: map<Promise, Outcome>, gone: set<Promise>, more: set<Promise>, outcome: Outcome)
    ensures Settle(Settle(settled, gone, outcome), more, outcome) == Settle(settled, gone + more, outcome)
  {
  }

  lemma BookIsDistinct(pending: seq<Pending>, log: Log)
    requires Book(pending, log)
    ensures DistinctPending(pending)
  {
  }

  /** Cancelling the call of the next entry of the snapshot rejects that entry, if it is still there. */
  lemma CancelStep(all: seq<Pending>, i: nat, pending: seq<Pending>, settled: map<Promise, Outcome>)
    requires i < |all| && DistinctPending(pending) && Promises(pending) <= Promises(all)
    requires forall p :: p in pending ==> p in all[i..]
    ensures var callId := all[i].envelope.key.callId;
            var left, gone := Others(pending, callId), Promises(all) - Promises(pending);
            && Promises(left) <= Promises(all)
            && (forall p :: p in left ==> p in all[i + 1..])
            && Settle(Settle(settled, gone, Cancelled), OfCall(pending, callId), Cancelled)
                 == Settle(settled, Promises(all) - Promises(left), Cancelled)
  {
    var callId := all[i].envelope.key.callId;
    var left, gone := Others(pending, callId), Promises(all) - Promises(pending);
    OthersOnes(pending, callId);
    OthersLeave(pending, callId);
    assert all[i..] == [all[i]] + all[i + 1..];
    hide Others, OfCall, Promises, DistinctPending, Settle;
    assert gone + OfCall(pending, callId) == Promises(all) - Promises(left);
    SettleMore(settled, gone, OfCall(pending, callId), Cancelled);
  }

  lemma SomePending(pending: seq<Pending>)
    ensures pending != [] ==> exists p :: p in pending
  {
    if pending != [] {
      assert pending[0] in pending;
    }
  }

  // ------------------------------------------------------------ what callers rely on

  /** The first flush at or after a signal's deadline leaves its promise settled, and the deadline is
      never later than the lifetime after the signal was sent. */
  lemma LateFlushSettles(pending: seq<Pending>, log: Log, now: nat, n: nat)
    requires Book(pending, log) && n < |log.issued|
    requires now >= log.issued[n].envelope.expiresAt || now >= log.issued[n].at + LIFETIME
    ensures n in Settle(log.settled, Expired(pending, now), TimedOut)
  {
    if n !in log.settled {
      var p :| p in pending && p.promise == n;
      assert p.deadline == Deadline(log.issued[n]);
      assert p.promise in Expired(pending, now);
    }
  }

  /** The waits double up to eight seconds. */
  lemma BackoffDoubles(attempts: nat)
    requires attempts > 0
    ensures Backoff(1) == 1000 && Backoff(attempts + 1) == Min(2 * Backoff(attempts), 8000)
  {
    assert Power2(1) == 2 && Power2(2) == 4 && Power2(3) == 8;
  }

  // ------------------------------------------------------------ the queue

  class CallSignalQueue {
    var pending: seq<Pending>
    var confirmed: seq<Confirmed>
    /** Armed: a flush will run after one tick. */
    var timer: bool
    /** The next promise to hand out. */
    var next: Promise
    ghost var log: Log

    /** Everything but the timer, which each operation sets last. */
    ghost predicate Sound()
      reads this
    {
      Book(pending, log) && Tables(pending, confirmed) && next == |log.issued|
    }

    ghost predicate Valid()
      reads this
    {
      Sound() && (timer <==> pending != [])
    }

    constructor ()
      ensures Valid()
      ensures pending == [] && confirmed == [] && log == Log([], map[], [])
    {
      pending, confirmed, timer, next := [], [], false, 0;
      log := Log([], map[], []);
    }

    method Find(key: Key) returns (found: bool, i: nat)
      ensures found <==> HasKey(pending, key)
      ensures found ==> i < |pending| && pending[i].envelope.key == key
    {
      i := 0;
      while i < |pending|
        invariant i <= |pending|
        invariant forall j: nat :: j < i ==> pending[j].envelope.key != key
      {
        if pending[i].envelope.key == key {
          assert pending[i] in pending;
          return true, i;
        }
        i := i + 1;
      }
      return false, 0;
    }

    /** Drops the expired confirmations. */
    method Forget(now: nat)
      requires Sound()
      modifies this`confirmed
      ensures Sound()
      ensures confirmed == Fresh(old(confirmed), now)
    {
      hide Book, HasKey;
      var left := [];
      var i := 0;
      while i < |confirmed|
        invariant i <= |confirmed|
        invariant confirmed == old(confirmed) && left == Fresh(confirmed[..i], now)
      {
        assert confirmed[..i + 1][..i] == confirmed[..i];
        if confirmed[i].expiry > now {
          left := left + [confirmed[i]];
        }
        i := i + 1;
      }
      assert confirmed[..i] == confirmed;
      FreshOnes(confirmed, now);
      confirmed := left;
    }

    /** A signal already confirmed or pending is not queued twice; a full queue refuses; anything else
        is queued under a new promise for at most its lifetime and written at once. */
    method Send(envelope: Envelope, now: nat, link: Promise -> bool) returns (answer: Answer)
      requires Valid()
      modifies this
      ensures Valid()
      ensures Final(old(log), log)
      ensures confirmed == Fresh(old(confirmed), now)
      ensures answer.AlreadyConfirmed? <==> IsConfirmed(confirmed, envelope.key)
      ensures answer.Overloaded? <==>
              !IsConfirmed(confirmed, envelope.key) && !old(HasKey(pending, envelope.key)) && |old(pending)| >= MAX_PENDING
      ensures answer.Promised? && old(HasKey(pending, envelope.key)) ==>
                exists p :: p in pending && p.envelope.key == envelope.key && p.promise == answer.promise
      ensures !old(NewEntry(pending, Fresh(confirmed, now), envelope.key)) ==>
                pending == old(pending) && log == old(log)
      ensures old(NewEntry(pending, Fresh(confirmed, now), envelope.key)) ==>
                var s := Submission(envelope, now);
                var entry := Entry(s, |old(log.issued)|);
                var queue := old(pending) + [entry];
                && answer == Promised(entry.promise)
                && pending == Flushed(queue, false, now, link)
                && log == Log(old(log.issued) + [s], Settle(old(log.settled), Expired(queue, now), TimedOut),
                              old(log.written) + Writes(queue, false, now))
    {
      hide Book, DistinctPending, Expired, Flushed, Writes, Settle;
      Forget(now);
      var i := 0;
      while i < |confirmed|
        invariant i <= |confirmed|
        invariant forall j: nat :: j < i ==> confirmed[j].key != envelope.key
      {
        if confirmed[i].key == envelope.key {
          assert confirmed[i] in confirmed;
          return AlreadyConfirmed;
        }
        i := i + 1;
      }
      var found, at := Find(envelope.key);
      if found {
        assert pending[at] in pending;
        return Promised(pending[at].promise);
      }
      if |pending| >= MAX_PENDING {
        return Overloaded;
      }
      ghost var s := Submission(envelope, now);
      AcceptingKeepsState(pending, confirmed, log, s);
      answer := Promised(next);
      pending := pending + [Pending(envelope, next, 0, 0, Min(envelope.expiresAt, now + LIFETIME))];
      next := next + 1;
      log := log.(issued := log.issued + [s]);
      Flush(false, now, link);
    }

    /** The acknowledged signal's promise resolves and its key is remembered; an unknown one is ignored. */
    method Acknowledge(key: Key)
      requires Valid()
      modifies this`pending, this`confirmed, this`timer, this`log
      ensures Valid()
      ensures Final(old(log), log)
      ensures !old(HasKey(pending, key)) ==> pending == old(pending) && confirmed == old(confirmed) && log == old(log)
      ensures old(HasKey(pending, key)) ==>
                exists i: nat :: i < |old(pending)| && old(pending)[i].envelope.key == key
                  && pending == Without(old(pending), i)
                  && confirmed == Confirm(old(confirmed), key, old(pending)[i].envelope.expiresAt)
                  && log == old(log).(settled := Settle(old(log.settled), {old(pending)[i].promise}, Resolved))
    {
      var found, i := Find(key);
      if !found {
        return;
      }
      var expiresAt := pending[i].envelope.expiresAt;
      Remove(i, Resolved);
      ConfirmingKeepsTables(old(pending), confirmed, i);
      hide Book, Tables, HasKey, Without, Settle;
      if |confirmed| >= MAX_CONFIRMED {
        confirmed := confirmed[1..];
      }
      confirmed := confirmed + [Confirmed(key, expiresAt)];
      Schedule();
    }

    /** A refusal that says to try later postpones the signal; any other settles its promise. */
    method Reject(key: Key, code: Code, now: nat)
      requires Valid()
      modifies this`pending, this`timer, this`log
      ensures Valid()
      ensures Final(old(log), log)
      ensures !old(HasKey(pending, key)) ==> pending == old(pending) && log == old(log)
      ensures old(HasKey(pending, key)) ==>
                exists i: nat :: i < |old(pending)| && old(pending)[i].envelope.key == key
                  && (if code.OtherCode? then
                        && pending == Without(old(pending), i)
                        && log == old(log).(settled := Settle(old(log.settled), {old(pending)[i].promise}, Refused))
                      else
                        && pending == old(pending)[i := old(pending)[i].(nextAt := now + RETRY)]
                        && log == old(log))
    {
      var found, i := Find(key);
      if !found {
        return;
      }
      if !code.OtherCode? {
        PostponingLeaves(pending, i, now + RETRY);
        LeavingKeepsBook(pending, pending[i := pending[i].(nextAt := now + RETRY)], {}, Refused, log, []);
        LeavingKeepsTables(pending, pending[i := pending[i].(nextAt := now + RETRY)], {}, confirmed);
        assert Settle(log.settled, {}, Refused) == log.settled && log.written + [] == log.written;
        pending := pending[i := pending[i].(nextAt := now + RETRY)];
        return;
      }
      Remove(i, Refused);
      Schedule();
    }

    /** One entry leaves with its promise settled. */
    method Remove(i: nat, ghost outcome: Outcome)
      requires Sound() && i < |pending|
      modifies this`pending, this`log
      ensures Sound()
      ensures Final(old(log), log)
      ensures pending == Without(old(pending), i)
      ensures log == old(log).(settled := Settle(old(log.settled), {old(pending)[i].promise}, outcome))
    {
      ghost var gone := {pending[i].promise};
      WithoutLeaves(pending, i);
      LeavingKeepsBook(pending, Without(pending, i), gone, outcome, log, []);
      LeavingKeepsTables(pending, Without(pending, i), gone, confirmed);
      SettlingIsFinal(pending, log, gone, outcome, []);
      hide Book, Tables, Leaves, Settle, Final;
      assert log.written + [] == log.written;
      log := log.(settled := Settle(log.settled, gone, outcome));
      pending := Without(pending, i);
    }

    /** The overdue signals time out; every other one that is due, or every one after a reconnection, is
        written once, in order, and waits longer each time. */
    method Flush(reconnected: bool, now: nat, link: Promise -> bool)
      requires Sound()
      modifies this`pending, this`timer, this`log
      ensures Valid()
      ensures Final(old(log), log)
      ensures pending == Flushed(old(pending), reconnected, now, link)
      ensures log == Log(old(log.issued), Settle(old(log.settled), Expired(old(pending), now), TimedOut),
                         old(log.written) + Writes(old(pending), reconnected, now))
    {
      hide Book, Tables, Leaves, Settle, Expired, Final;
      var kept, i := [], 0;
      ghost var writes: seq<Write> := [];
      while i < |pending|
        invariant i <= |pending| && pending == old(pending) && log == old(log)
        invariant kept == Flushed(pending[..i], reconnected, now, link)
        invariant writes == Writes(pending[..i], reconnected, now)
      {
        assert pending[..i + 1][..i] == pending[..i];
        var p := pending[i];
        if now >= p.deadline {
        } else if reconnected || now >= p.nextAt {
          writes := writes + [Write(p.promise, p.envelope)];
          if link(p.promise) {
            p := p.(attempts := p.attempts + 1);
            kept := kept + [p.(nextAt := now + Backoff(p.attempts))];
          } else {
            kept := kept + [p.(nextAt := now + TICK)];
          }
        } else {
          kept := kept + [p];
        }
        i := i + 1;
      }
      assert pending[..i] == pending;
      FlushingKeepsSound(pending, confirmed, log, reconnected, now, link);
      log := Log(log.issued, Settle(log.settled, Expired(pending, now), TimedOut), log.written + writes);
      pending := kept;
      Schedule();
    }

    /** The call's signals are dropped with their promises rejected. */
    method Cancel(callId: nat)
      requires Valid()
      modifies this`pending, this`timer, this`log
      ensures Valid()
      ensures Final(old(log), log)
      ensures pending == Others(old(pending), callId)
      ensures log == old(log).(settled := Settle(old(log.settled), OfCall(old(pending), callId), Cancelled))
    {
      hide Book, Tables, Leaves, Settle, OfCall, Final;
      var kept, i := [], 0;
      while i < |pending|
        invariant i <= |pending| && pending == old(pending) && log == old(log)
        invariant kept == Others(pending[..i], callId)
      {
        assert pending[..i + 1][..i] == pending[..i];
        if pending[i].envelope.key.callId != callId {
          kept := kept + [pending[i]];
        }
        i := i + 1;
      }
      assert pending[..i] == pending;
      CancellingKeepsSound(pending, confirmed, log, callId);
      log := log.(settled := Settle(log.settled, OfCall(pending, callId), Cancelled));
      pending := kept;
      Schedule();
    }

    /** Every promise still owed is rejected, the rest keep their outcome, and nothing stays armed. */
    method Close()
      requires Valid()
      modifies this
      ensures Valid()
      ensures Final(old(log), log)
      ensures pending == [] && confirmed == [] && !timer
      ensures log == old(log).(settled := Settle(old(log.settled), Promises(old(pending)), Cancelled))
    {
      var all := pending;
      var i := 0;
      hide Book, DistinctPending, Settle, OfCall, Others;
      SettleNone(log.settled, Cancelled);
      assert Promises(all) - Promises(pending) == {};
      while i < |all|
        invariant i <= |all| && Valid() && Final(old(log), log)
        invariant Promises(pending) <= Promises(all) && forall p :: p in pending ==> p in all[i..]
        invariant log == old(log).(settled := Settle(old(log.settled), Promises(all) - Promises(pending), Cancelled))
      {
        BookIsDistinct(pending, log);
        CancelStep(all, i, pending, old(log.settled));
        Cancel(all[i].envelope.key.callId);
        i := i + 1;
      }
      SomePending(pending);
      assert Promises(all) - Promises(pending) == Promises(all);
      confirmed := [];
    }

    method Schedule()
      modifies this`timer
      ensures timer <==> pending != []
    {
      timer := pending != [];
    }
  }
}
