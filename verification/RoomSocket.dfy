/** The flow control of `RoomSocket` in src/lib/api.ts: the window of unacknowledged sends, single-flight
    sync requests, and the frames that wait for their handlers. Every method is one turn of the event
    loop; handlers and microtasks are turns of their own, which may come in any order. */
module RoomSocket {
  import opened Wrappers

  const MAX_SENDS := 8
  const MAX_SEND_BYTES := 512 * 1024
  const MAX_FRAMES := 128
  const MAX_FRAME_BYTES := 20 * 1024 * 1024

  type Id = nat
  type Envelope = nat
  type Generation = nat

  datatype Key = Message(id: Id) | Receipt(id: Id)

  /** `stamp` tells one reservation from another under the same key. */
  datatype Pending = Pending(key: Key, bytes: nat, stamp: nat, envelope: Option<Envelope>)

  /** What a queued frame will do once its turn comes. */
  datatype Work = SyncPage | Rejection(key: Key, stamp: Option<nat>) | OtherWork

  datatype Frame = Frame(bytes: nat, generation: Generation, work: Work)

  /** An acknowledged send, whose handler has not settled yet. */
  datatype Completion = Completion(key: Key, generation: Generation, stamp: Option<nat>)

  // ----------------------------------------------------------------- the window

  function Sum(pending: seq<Pending>): nat {
    if pending == [] then 0 else pending[0].bytes + Sum(pending[1..])
  }

  function Find(pending: seq<Pending>, key: Key): (r: Option<Pending>)
    ensures r.Some? ==> r.value in pending && r.value.key == key
    ensures r.None? ==> forall p <- pending :: p.key != key
  {
    if pending == [] then None else if pending[0].key == key then Some(pending[0]) else Find(pending[1..], key)
  }

  function Remove(pending: seq<Pending>, key: Key): seq<Pending> {
    if pending == [] then [] else if pending[0].key == key then pending[1..] else [pending[0]] + Remove(pending[1..], key)
  }

  predicate DistinctKeys(pending: seq<Pending>) {
    forall i, j :: 0 <= i < j < |pending| ==> pending[i].key != pending[j].key
  }

  predicate DistinctStamps(pending: seq<Pending>) {
    forall i, j :: 0 <= i < j < |pending| ==> pending[i].stamp != pending[j].stamp
  }

  lemma {:induction false} RemovedSum(pending: seq<Pending>, key: Key)
    requires Find(pending, key).Some?
    ensures |Remove(pending, key)| == |pending| - 1 && Sum(Remove(pending, key)) == Sum(pending) - Find(pending, key).value.bytes
  {
    if pending[0].key != key {
      RemovedSum(pending[1..], key);
    }
  }

  lemma {:induction false} RemovedElements(pending: seq<Pending>, key: Key)
    requires DistinctKeys(pending)
    ensures forall p :: p in Remove(pending, key) <==> p in pending && p.key != key
  {
    if pending != [] {
      assert pending == [pending[0]] + pending[1..];
      if pending[0].key != key {
        RemovedElements(pending[1..], key);
      }
    }
  }

  lemma {:induction false} RemovedKeys(pending: seq<Pending>, key: Key)
    requires DistinctKeys(pending)
    ensures DistinctKeys(Remove(pending, key))
  {
    if pending != [] && pending[0].key != key {
      RemovedKeys(pending[1..], key);
      RemovedElements(pending[1..], key);
      var rest := Remove(pending[1..], key);
      forall i | 0 <= i < |rest|
        ensures rest[i].key != pending[0].key
      {
        assert rest[i] in pending[1..];
        var k :| 0 <= k < |pending| - 1 && pending[1..][k] == rest[i];
      }
    }
  }

  lemma {:induction false} Appended(pending: seq<Pending>, p: Pending)
    ensures Sum(pending + [p]) == Sum(pending) + p.bytes
  {
    if pending != [] {
      assert (pending + [p])[1..] == pending[1..] + [p];
      Appended(pending[1..], p);
    }
  }

  lemma {:induction false} FindIs(pending: seq<Pending>, p: Pending)
    requires DistinctKeys(pending) && p in pending
    ensures Find(pending, p.key) == Some(p)
  {
    if pending[0] != p {
      assert pending == [pending[0]] + pending[1..];
      FindIs(pending[1..], p);
    }
  }

  // ----------------------------------------------------------------- the frames

  function FrameBytes(frames: seq<Frame>): nat {
    if frames == [] then 0 else frames[0].bytes + FrameBytes(frames[1..])
  }

  function IsSyncOf(f: Frame, generation: Generation): bool {
    f.work == SyncPage && f.generation == generation
  }

  /** The sync pages of one connection that are still to be applied. */
  function SyncPages(frames: seq<Frame>, generation: Generation): nat {
    if frames == [] then 0 else (if IsSyncOf(frames[0], generation) then 1 else 0) + SyncPages(frames[1..], generation)
  }

  lemma {:induction false} FrameAppended(frames: seq<Frame>, f: Frame, generation: Generation)
    ensures FrameBytes(frames + [f]) == FrameBytes(frames) + f.bytes
    ensures SyncPages(frames + [f], generation) == SyncPages(frames, generation) + if IsSyncOf(f, generation) then 1 else 0
  {
    if frames != [] {
      assert (frames + [f])[1..] == frames[1..] + [f];
      FrameAppended(frames[1..], f, generation);
    }
  }

  function WithoutFrame(frames: seq<Frame>, i: nat): seq<Frame>
    requires i < |frames|
  {
    frames[..i] + frames[i + 1..]
  }

  lemma {:induction false} FrameRemoved(frames: seq<Frame>, i: nat, generation: Generation)
    requires i < |frames|
    ensures FrameBytes(WithoutFrame(frames, i)) == FrameBytes(frames) - frames[i].bytes
    ensures SyncPages(WithoutFrame(frames, i), generation) == SyncPages(frames, generation) - if IsSyncOf(frames[i], generation) then 1 else 0
  {
    if i > 0 {
      FrameRemoved(frames[1..], i - 1, generation);
      assert WithoutFrame(frames, i) == [frames[0]] + WithoutFrame(frames[1..], i - 1);
    } else {
      assert WithoutFrame(frames, 0) == frames[1..];
    }
  }

  lemma {:induction false} NoSyncPages(frames: seq<Frame>, generation: Generation)
    requires forall f <- frames :: f.generation < generation
    ensures SyncPages(frames, generation) == 0
  {
    if frames != [] {
      assert frames == [frames[0]] + frames[1..];
      NoSyncPages(frames[1..], generation);
    }
  }

  // --------------------------------------------------------------- invariants

  /** The window holds at most `MAX_SENDS` sends of at most `MAX_SEND_BYTES`, and its sum is exact. */
  ghost predicate WindowOk(pending: seq<Pending>, bytes: int, stamps: nat) {
    && DistinctKeys(pending) && |pending| <= MAX_SENDS && bytes == Sum(pending) <= MAX_SEND_BYTES
    && (forall p <- pending :: p.stamp < stamps) && DistinctStamps(pending)
  }

  /** A message id has at most one written envelope without an answer, and its send is reserved. */
  ghost predicate EnvelopesOk(pending: seq<Pending>, sent: map<Id, seq<Envelope>>, unanswered: set<Key>) {
    && (forall id <- sent :: |sent[id]| == 1
          && Find(pending, Message(id)).Some? && Find(pending, Message(id)).value.envelope == Some(sent[id][0]))
    && (forall key <- unanswered :: Find(pending, key).Some? && (key.Message? ==> key.id in sent))
  }

  predicate Answered(sent: map<Id, seq<Envelope>>, unanswered: set<Key>, key: Key) {
    key !in unanswered && (key.Message? ==> key.id !in sent)
  }

  /** An acknowledgement that is being handled holds exactly the reservation that it answers. */
  ghost predicate CompletionOk(current: Option<Generation>, pending: seq<Pending>, sent: map<Id, seq<Envelope>>, unanswered: set<Key>, c: Completion) {
    current == Some(c.generation) ==>
      c.stamp.Some? && Answered(sent, unanswered, c.key) && Find(pending, c.key).Some? && Find(pending, c.key).value.stamp == c.stamp.value
  }

  /** A rejection that is being handled belongs to a send that has been answered, by it alone. */
  ghost predicate RejectionOk(current: Option<Generation>, pending: seq<Pending>, completions: seq<Completion>, sent: map<Id, seq<Envelope>>,
                              unanswered: set<Key>, stamps: nat, f: Frame) {
    f.work.Rejection? && current == Some(f.generation) && f.work.stamp.Some? ==>
      && f.work.stamp.value < stamps
      && (forall p <- pending :: p.stamp == f.work.stamp.value ==> Answered(sent, unanswered, p.key))
      && (forall c <- completions :: c.generation == f.generation ==> c.stamp != f.work.stamp)
  }

  ghost predicate AnswersOk(current: Option<Generation>, pending: seq<Pending>, completions: seq<Completion>, frames: seq<Frame>,
                            sent: map<Id, seq<Envelope>>, unanswered: set<Key>, stamps: nat) {
    && (forall c <- completions :: CompletionOk(current, pending, sent, unanswered, c))
    && (forall i, j :: 0 <= i < j < |completions| && completions[i].generation == completions[j].generation && current == Some(completions[i].generation) ==>
          completions[i].key != completions[j].key)
    && (forall f <- frames :: RejectionOk(current, pending, completions, sent, unanswered, stamps, f))
  }

  ghost predicate Earlier(completions: seq<Completion>, frames: seq<Frame>, generations: Generation) {
    (forall c <- completions :: c.generation < generations) && (forall f <- frames :: f.generation < generations)
  }

  /** A queued sync request is never stranded: a request is in flight, or a page is to be applied. None
      is in flight while pages are applied, and the server owes an answer to the one in flight. */
  ghost predicate SyncOk(inFlight: bool, pages: int, queued: Option<int>, outstanding: nat) {
    && pages >= 0 && (queued.Some? ==> inFlight || pages > 0)
    && (inFlight ==> pages == 0 && outstanding > 0)
  }

  ghost predicate FramesOk(frames: seq<Frame>, count: int, bytes: int) {
    count == |frames| <= MAX_FRAMES && bytes == FrameBytes(frames) <= MAX_FRAME_BYTES
  }

  lemma Cleared(stamps: nat, frames: seq<Frame>, completions: seq<Completion>)
    ensures WindowOk([], 0, stamps) && EnvelopesOk([], map[], {}) && AnswersOk(None, [], completions, frames, map[], {}, stamps)
    ensures SyncOk(false, 0, None, 0)
  {
  }

  lemma NewConnection(pending: seq<Pending>, sent: map<Id, seq<Envelope>>, unanswered: set<Key>, completions: seq<Completion>, frames: seq<Frame>,
                      stamps: nat, generations: Generation)
    requires EnvelopesOk(pending, sent, unanswered) && Earlier(completions, frames, generations)
    ensures EnvelopesOk(pending, sent, {}) && AnswersOk(Some(generations), pending, completions, frames, sent, {}, stamps)
    ensures Earlier(completions, frames, generations + 1) && SyncPages(frames, generations) == 0
  {
    hide Find;
    NoSyncPages(frames, generations);
  }

  // ------------------------------------------------------------------- the socket

  /** The current connection; it is open until it begins to close. */
  datatype Connection = Connection(socket: Option<Generation>, open: bool, closed: bool, generations: Generation)

  datatype SendWindow = SendWindow(pending: seq<Pending>, bytes: int, sent: map<Id, seq<Envelope>>, stamps: nat, completions: seq<Completion>)

  datatype SyncState = SyncState(inFlight: bool, pages: int, queued: Option<int>)

  datatype FrameQueue = FrameQueue(frames: seq<Frame>, count: int, bytes: int)

  /** What the server has not answered yet on this connection: durable sends, which it answers once
      each, and sync requests. */
  datatype Owed = Owed(unanswered: set<Key>, outstanding: nat)

  const NOTHING_OWED := Owed({}, 0)

  function Live(c: Connection): Option<Generation> {
    if c.closed then None else c.socket
  }

  ghost predicate ValidState(c: Connection, w: SendWindow, s: SyncState, q: FrameQueue, o: Owed) {
    && WindowOk(w.pending, w.bytes, w.stamps) && EnvelopesOk(w.pending, w.sent, o.unanswered)
    && AnswersOk(Live(c), w.pending, w.completions, q.frames, w.sent, o.unanswered, w.stamps) && Earlier(w.completions, q.frames, c.generations)
    && SyncOk(s.inFlight, s.pages, s.queued, o.outstanding)
    && (c.socket.Some? && !c.closed ==> s.pages >= SyncPages(q.frames, c.socket.value) && (c.open ==> s.pages == SyncPages(q.frames, c.socket.value)))
    && FramesOk(q.frames, q.count, q.bytes)
    && (c.socket.Some? ==> c.socket.value < c.generations) && (c.socket.None? || c.closed ==> !c.open)
  }

  // ------------------------------------------------------------ runs of sync traffic

  /** What single-flight sync depends on: the connection, the flags, and what the server still owes. */
  datatype Flow = Flow(live: bool, open: bool, closed: bool, sync: SyncState, outstanding: nat)

  /** `Page(true, …)` answers the oldest request; `Page(false, …)` is pushed by the server unasked.
      A page that does not fit the frame queue closes the connection. */
  datatype Event = Connect | BeginClose | End | Close | Request(afterSeq: int) | Page(answers: bool, fits: bool) | Apply(afterSeq: int)

  const NO_SYNC := SyncState(false, 0, None)
  const UNCONNECTED := Flow(false, false, false, NO_SYNC, 0)

  function Requested(f: Flow, afterSeq: int): Flow {
    if !f.open then f
    else if f.sync.inFlight || f.sync.pages > 0 then
      f.(sync := f.sync.(queued := Some(if f.sync.queued.Some? && f.sync.queued.value < afterSeq then f.sync.queued.value else afterSeq)))
    else f.(sync := f.sync.(inFlight := true), outstanding := f.outstanding + 1)
  }

  function After(f: Flow, e: Event): Flow {
    match e
    case Connect => if f.closed || f.open then f else Flow(true, true, false, NO_SYNC, 0)
    case BeginClose => f.(open := false)
    case End => Flow(false, false, f.closed, NO_SYNC, 0)
    case Close => Flow(f.live, false, true, NO_SYNC, 0)
    case Request(afterSeq) => Requested(f, afterSeq)
    case Page(answers, fits) =>
      if !f.open || (answers && f.outstanding == 0) then f
      else f.(open := fits, sync := f.sync.(inFlight := false, pages := f.sync.pages + 1),
              outstanding := if answers then f.outstanding - 1 else f.outstanding)
    case Apply(afterSeq) =>
      if !f.live || f.closed || f.sync.pages <= 0 then f
      else
        var sync := f.sync.(pages := f.sync.pages - 1);
        if sync.pages == 0 && !sync.inFlight && sync.queued.Some? then Requested(f.(sync := sync.(queued := None)), afterSeq)
        else f.(sync := sync)
  }

  /** The state before the n-th event of a run. */
  function At(run: seq<Event>, n: nat): Flow
    requires n <= |run|
  {
    if n == 0 then UNCONNECTED else After(At(run, n - 1), run[n - 1])
  }

  class RoomSocket {
    var connection: Connection
    var window: SendWindow
    var sync: SyncState
    var queue: FrameQueue
    ghost var owed: Owed

    ghost predicate Valid()
      reads this
    {
      ValidState(connection, window, sync, queue, owed)
    }

    ghost function View(): Flow
      reads this
    {
      Flow(connection.socket.Some?, connection.open, connection.closed, sync, owed.outstanding)
    }

    constructor ()
      ensures View() == UNCONNECTED
      ensures Valid() && connection == Connection(None, false, false, 0) && window.pending == [] && queue.frames == [] && owed == NOTHING_OWED
    {
      connection, window := Connection(None, false, false, 0), SendWindow([], 0, map[], 0, []);
      sync, queue, owed := SyncState(false, 0, None), FrameQueue([], 0, 0), NOTHING_OWED;
    }

    // --------------------------------------------------------------- connections

    /** A new connection. The window of one that is still closing is not cleared. */
    method Connect()
      requires Valid() && !connection.open
      modifies this
      ensures View() == After(old(View()), Event.Connect)
      ensures Valid() && window == old(window) && queue == old(queue)
      ensures if old(connection).closed then connection == old(connection)
              else connection == Connection(Some(old(connection).generations), true, false, old(connection).generations + 1)
                   && sync == SyncState(false, 0, None) && owed == NOTHING_OWED
    {
      hide WindowOk, EnvelopesOk, AnswersOk, Earlier, FramesOk, SyncPages;
      if connection.closed {
        return;
      }
      NewConnection(window.pending, window.sent, owed.unanswered, window.completions, queue.frames, window.stamps, connection.generations);
      sync := SyncState(false, 0, None);
      connection := connection.(socket := Some(connection.generations), open := true, generations := connection.generations + 1);
      owed := NOTHING_OWED;
    }

    /** The connection begins to close: no frame is taken from it any more. */
    method BeginClose()
      requires Valid()
      modifies this`connection
      ensures View() == After(old(View()), Event.BeginClose)
      ensures Valid() && connection == old(connection).(open := false)
    {
      hide WindowOk, EnvelopesOk, AnswersOk, Earlier, FramesOk, SyncPages, SyncOk;
      connection := connection.(open := false);
    }

    /** The close event of one connection; that of an earlier connection is ignored. */
    method OnClose(generation: Generation)
      requires Valid()
      modifies this
      ensures View() == if old(connection).socket == Some(generation) then After(old(View()), End) else old(View())
      ensures Valid() && queue == old(queue)
      ensures if old(connection).socket == Some(generation)
              then connection == old(connection).(socket := None, open := false) && window == old(window).(pending := [], bytes := 0, sent := map[])
                   && sync == SyncState(false, 0, None) && owed == NOTHING_OWED
              else window == old(window) && connection == old(connection) && sync == old(sync) && owed == old(owed)
    {
      hide WindowOk, EnvelopesOk, AnswersOk, Earlier, FramesOk, SyncPages, SyncOk;
      if connection.socket != Some(generation) {
        return;
      }
      Cleared(window.stamps, queue.frames, window.completions);
      window := window.(pending := [], bytes := 0, sent := map[]);
      sync := SyncState(false, 0, None);
      connection := connection.(socket := None, open := false);
      owed := NOTHING_OWED;
    }

    method Close()
      requires Valid()
      modifies this
      ensures View() == After(old(View()), Event.Close)
      ensures Valid() && connection == old(connection).(closed := true, open := false) && window == old(window).(pending := [], bytes := 0, sent := map[])
      ensures queue == old(queue) && sync == SyncState(false, 0, None) && owed == NOTHING_OWED
    {
      hide WindowOk, EnvelopesOk, AnswersOk, Earlier, FramesOk, SyncPages, SyncOk;
      Cleared(window.stamps, queue.frames, window.completions);
      connection := connection.(closed := true, open := false);
      sync := SyncState(false, 0, None);
      window := window.(pending := [], bytes := 0, sent := map[]);
      owed := NOTHING_OWED;
    }

    // --------------------------------------------------------------------- sends

    /** `sendDurable`: the frame is written and reserved, or there is no room for it. */
    method SendDurable(key: Key, bytes: nat, bufferedAmount: nat, envelope: Option<Envelope>) returns (written: bool)
      requires Valid() && connection.open && (key.Message? <==> envelope.Some?)
      modifies this`window, this`owed
      ensures View() == old(View())
      ensures Valid()
      ensures written == (Find(old(window).pending, key).Some?
                          || (|old(window).pending| < MAX_SENDS && old(window).bytes + bytes <= MAX_SEND_BYTES && bufferedAmount <= MAX_SEND_BYTES))
      ensures if Find(old(window).pending, key).Some? || !written then window == old(window) && owed == old(owed)
              else
                && window.pending == old(window).pending + [Pending(key, bytes, old(window).stamps, envelope)]
                && owed == old(owed).(unanswered := old(owed).unanswered + {key}) && key !in old(owed).unanswered
                && window.bytes == old(window).bytes + bytes && window.stamps == old(window).stamps + 1 && window.completions == old(window).completions
                && (key.Message? ==> key.id !in old(window).sent && window.sent == old(window).sent[key.id := [envelope.value]])
                && (!key.Message? ==> window.sent == old(window).sent)
    {
      hide WindowOk, EnvelopesOk, AnswersOk, Earlier, FramesOk, SyncPages, SyncOk, Find;
      written := true;
      if Find(window.pending, key).Some? {
        return;
      }
      WindowBound(window.pending, window.bytes, window.stamps);
      if |window.pending| >= MAX_SENDS || window.bytes + bytes > MAX_SEND_BYTES || bufferedAmount > MAX_SEND_BYTES {
        return false;
      }
      var earlier := if key.Message? && key.id in window.sent then window.sent[key.id] else [];
      Reserved(window.pending, window.bytes, window.stamps, window.sent, owed.unanswered, key, bytes, envelope);
      ReservedAnswers(Live(connection), window.pending, window.completions, queue.frames, window.sent, owed.unanswered, window.stamps, key, bytes, envelope);
      assert earlier == [] && (key.Message? ==> earlier + [envelope.value] == [envelope.value]);
      var sent := if key.Message? then window.sent[key.id := earlier + [envelope.value]] else window.sent;
      window := window.(pending := window.pending + [Pending(key, bytes, window.stamps, envelope)], bytes := window.bytes + bytes,
                        stamps := window.stamps + 1, sent := sent);
      owed := owed.(unanswered := owed.unanswered + {key});
    }

    /** An acknowledgement: the reservation is kept until the handler has settled. */
    method OnAck(key: Key)
      requires Valid() && connection.open && key in owed.unanswered
      modifies this`window, this`owed
      ensures View() == old(View())
      ensures Valid() && window.pending == old(window).pending && owed == old(owed).(unanswered := old(owed).unanswered - {key})
      ensures Find(window.pending, key).Some?
      ensures window == old(window).(
                sent := if key.Message? then old(window).sent - {key.id} else old(window).sent,
                completions := old(window).completions + [Completion(key, connection.socket.value, Some(Find(window.pending, key).value.stamp))])
    {
      hide WindowOk, Earlier, FramesOk, SyncPages, SyncOk, Find;
      var pending := Find(window.pending, key);
      AnswerGiven(window.pending, window.sent, owed.unanswered, key);
      AckAnswers(connection.socket.value, window.pending, window.bytes, window.completions, queue.frames, window.sent, owed.unanswered, window.stamps, key);
      CompletionEarlier(window.completions, queue.frames, connection.generations, Completion(key, connection.socket.value, Some(pending.value.stamp)));
      hide EnvelopesOk, AnswersOk;
      var sent := if key.Message? then window.sent - {key.id} else window.sent;
      window := window.(sent := sent, completions := window.completions + [Completion(key, connection.socket.value, if pending.Some? then Some(pending.value.stamp) else None)]);
      owed := owed.(unanswered := owed.unanswered - {key});
    }

    /** The handler of an acknowledgement has settled: on the same connection, exactly the send that
        was acknowledged is released. */
    method FinishCompletion(i: nat)
      requires Valid() && i < |window.completions|
      modifies this`window
      ensures View() == old(View())
      ensures Valid()
      ensures var c := old(window).completions[i];
              if Live(connection) == Some(c.generation)
              then Find(old(window).pending, c.key).Some? && c.stamp == Some(Find(old(window).pending, c.key).value.stamp)
                   && window == old(window).(pending := Remove(old(window).pending, c.key),
                                             bytes := old(window).bytes - Find(old(window).pending, c.key).value.bytes,
                                             completions := old(window).completions[..i] + old(window).completions[i + 1..])
              else window == old(window).(completions := old(window).completions[..i] + old(window).completions[i + 1..])
    {
      hide WindowOk, EnvelopesOk, Earlier, FramesOk, SyncPages, SyncOk, Find, Remove;
      var c := window.completions[i];
      var rest := window.completions[..i] + window.completions[i + 1..];
      CompletionDone(Live(connection), window.pending, window.completions, queue.frames, window.sent, owed.unanswered, window.stamps, i);
      EarlierRest(window.completions, queue.frames, connection.generations, i);
      if Live(connection) == Some(c.generation) {
        Released(window.pending, window.bytes, window.stamps, window.sent, owed.unanswered, c.key);
        ReleasedAnswers(Live(connection), window.pending, window.bytes, rest, queue.frames, window.sent, owed.unanswered, window.stamps, c.key);
        hide AnswersOk;
        window := window.(pending := Remove(window.pending, c.key), bytes := window.bytes - Find(window.pending, c.key).value.bytes, completions := rest);
      } else {
        window := window.(completions := rest);
      }
    }

    // -------------------------------------------------------------------- frames

    /** `reserveFrame`: the frame waits for its turn, or the connection is closed as overloaded. */
    method ReserveFrame(bytes: nat, work: Work, ghost owedAfter: Owed, syncAfter: SyncState, windowAfter: SendWindow)
      requires connection.open && connection.socket.Some? && !connection.closed && connection.socket.value < connection.generations
      requires WindowOk(windowAfter.pending, windowAfter.bytes, windowAfter.stamps) && EnvelopesOk(windowAfter.pending, windowAfter.sent, owedAfter.unanswered)
      requires AnswersOk(connection.socket, windowAfter.pending, windowAfter.completions, queue.frames, windowAfter.sent, owedAfter.unanswered, windowAfter.stamps)
      requires RejectionOk(connection.socket, windowAfter.pending, windowAfter.completions, windowAfter.sent, owedAfter.unanswered, windowAfter.stamps,
                           Frame(bytes, connection.socket.value, work))
      requires Earlier(windowAfter.completions, queue.frames, connection.generations) && FramesOk(queue.frames, queue.count, queue.bytes)
      requires SyncOk(syncAfter.inFlight, syncAfter.pages, syncAfter.queued, owedAfter.outstanding)
      requires syncAfter.pages == SyncPages(queue.frames, connection.socket.value) + if work == SyncPage then 1 else 0
      modifies this
      ensures Valid() && window == windowAfter && sync == syncAfter && owed == owedAfter
      ensures if old(queue).bytes + bytes > MAX_FRAME_BYTES || old(queue).count >= MAX_FRAMES
              then queue == old(queue) && connection == old(connection).(open := false)
              else connection == old(connection) && connection.socket.Some?
                   && queue.frames == old(queue).frames + [Frame(bytes, connection.socket.value, work)]
    {
      hide WindowOk, EnvelopesOk, SyncOk, SyncPages;
      window, sync, owed := windowAfter, syncAfter, owedAfter;
      var frame := Frame(bytes, connection.socket.value, work);
      FrameAppended(queue.frames, frame, connection.socket.value);
      FrameQueued(Live(connection), window.pending, window.completions, queue.frames, window.sent, owed.unanswered, window.stamps, connection.generations, frame);
      hide AnswersOk, Earlier, RejectionOk, FrameBytes;
      if queue.bytes + bytes > MAX_FRAME_BYTES || queue.count >= MAX_FRAMES {
        connection := connection.(open := false);
        return;
      }
      queue := FrameQueue(queue.frames + [frame], queue.count + 1, queue.bytes + bytes);
    }

    /** A page of messages; the client cannot tell an answer from a page that the server pushes. */
    method OnSyncPage(bytes: nat, ghost answers: bool)
      requires Valid() && connection.open && (answers ==> owed.outstanding > 0)
      modifies this
      ensures View() == After(old(View()), Page(answers, old(queue).bytes + bytes <= MAX_FRAME_BYTES && old(queue).count < MAX_FRAMES))
      ensures Valid() && !sync.inFlight && sync.pages == old(sync).pages + 1 && sync.queued == old(sync).queued && window == old(window)
      ensures owed.outstanding == old(owed).outstanding - (if answers then 1 else 0) && owed.unanswered == old(owed).unanswered
      ensures if old(queue).bytes + bytes > MAX_FRAME_BYTES || old(queue).count >= MAX_FRAMES
              then queue == old(queue) && connection == old(connection).(open := false)
              else connection == old(connection) && connection.socket.Some?
                   && queue.frames == old(queue).frames + [Frame(bytes, connection.socket.value, SyncPage)]
    {
      hide WindowOk, EnvelopesOk, Earlier, FramesOk, SyncPages;
      ghost var outstanding: nat := if answers then owed.outstanding - 1 else owed.outstanding;
      ReserveFrame(bytes, SyncPage, owed.(outstanding := outstanding), SyncState(false, sync.pages + 1, sync.queued), window);
    }

    /** Any other frame that waits behind the membership barrier. */
    method OnFrame(bytes: nat)
      requires Valid() && connection.open
      modifies this
      ensures View() == old(View()) || View() == After(old(View()), Event.BeginClose)
      ensures Valid() && window == old(window) && sync == old(sync) && owed == old(owed)
      ensures if old(queue).bytes + bytes > MAX_FRAME_BYTES || old(queue).count >= MAX_FRAMES
              then queue == old(queue) && connection == old(connection).(open := false)
              else connection == old(connection) && connection.socket.Some?
                   && queue.frames == old(queue).frames + [Frame(bytes, connection.socket.value, OtherWork)]
    {
      hide WindowOk, EnvelopesOk, Earlier, FramesOk, SyncPages, SyncOk;
      ReserveFrame(bytes, OtherWork, owed, sync, window);
    }

    /** A rejection. What it hands to the handler is exactly the envelope that was outstanding. */
    method OnError(id: Id) returns (rejected: Option<Envelope>)
      requires Valid() && connection.open && Message(id) in owed.unanswered
      modifies this
      ensures View() == old(View()) || View() == After(old(View()), Event.BeginClose)
      ensures Valid() && window.pending == old(window).pending && owed == old(owed).(unanswered := old(owed).unanswered - {Message(id)})
      ensures rejected.Some? && id in old(window).sent && old(window).sent[id] == [rejected.value] && id !in window.sent
      ensures Find(window.pending, Message(id)).Some? && rejected == Find(window.pending, Message(id)).value.envelope
      ensures window == old(window).(sent := old(window).sent - {id}) && sync == old(sync)
      ensures if old(queue).bytes > MAX_FRAME_BYTES || old(queue).count >= MAX_FRAMES
              then queue == old(queue) && connection == old(connection).(open := false)
              else connection == old(connection)
                   && queue.frames == old(queue).frames
                      + [Frame(0, connection.socket.value, Rejection(Message(id), Some(Find(window.pending, Message(id)).value.stamp)))]
    {
      hide WindowOk, EnvelopesOk, Earlier, FramesOk, SyncPages, SyncOk, Find;
      AnswerGiven(window.pending, window.sent, owed.unanswered, Message(id));
      var queuedEnvelopes := window.sent[id];
      rejected := Some(queuedEnvelopes[0]);
      var rest := queuedEnvelopes[1..];
      var sent := if rest == [] then window.sent - {id} else window.sent[id := rest];
      var reservation := Find(window.pending, Message(id));
      ReservationIs(window.pending, window.sent, owed.unanswered, id);
      var stamp := if reservation.Some? && reservation.value.envelope == rejected then Some(reservation.value.stamp) else None;
      RejectionAnswers(connection.socket.value, window.pending, window.bytes, window.completions, queue.frames, window.sent, owed.unanswered, window.stamps, id);
      hide AnswersOk, RejectionOk;
      ReserveFrame(0, Rejection(Message(id), stamp), owed.(unanswered := owed.unanswered - {Message(id)}), sync, window.(sent := sent));
    }

    /** A queued frame's turn is over. Its work was skipped only if its connection had ended by then. */
    method FinishFrame(i: nat, ran: bool, afterSeq: int)
      requires Valid() && i < |queue.frames| && (!ran ==> !(Live(connection) == Some(queue.frames[i].generation) && connection.open))
      modifies this
      ensures View() == if ran && Live(connection) == Some(old(queue).frames[i].generation) && old(queue).frames[i].work == SyncPage
                        then After(old(View()), Apply(afterSeq)) else old(View())
      ensures Valid() && connection == old(connection) && queue.frames == WithoutFrame(old(queue).frames, i)
      ensures var f := old(queue).frames[i];
              if !ran || Live(connection) != Some(f.generation) then window == old(window) && sync == old(sync) && owed == old(owed)
              else
                && (f.work != SyncPage ==> sync == old(sync) && owed == old(owed))
                && (f.work == SyncPage ==>
                    && window == old(window)
                    && if old(sync).pages == 1 && !old(sync).inFlight && old(sync).queued.Some?
                       then sync == SyncState(connection.open, 0, None)
                            && owed == old(owed).(outstanding := old(owed).outstanding + if connection.open then 1 else 0)
                       else sync == old(sync).(pages := old(sync).pages - 1) && owed == old(owed))
                && (f.work.Rejection? ==>
                    var reserved := Find(old(window).pending, f.work.key);
                    window == if reserved.Some? && f.work.stamp == Some(reserved.value.stamp)
                              then old(window).(pending := Remove(old(window).pending, f.work.key), bytes := old(window).bytes - reserved.value.bytes)
                              else old(window))
                && (f.work == OtherWork ==> window == old(window))
    {
      hide WindowOk, EnvelopesOk, Earlier, SyncPages, Find, Remove;
      var f := queue.frames[i];
      FrameDone(Live(connection), window.pending, window.completions, queue.frames, window.sent, owed.unanswered, window.stamps, connection.generations, i);
      FrameRemoved(queue.frames, i, f.generation);
      if connection.socket.Some? {
        FrameRemoved(queue.frames, i, connection.socket.value);
      }
      hide FrameBytes;
      queue := FrameQueue(WithoutFrame(queue.frames, i), queue.count - 1, queue.bytes - f.bytes);
      if ran && Live(connection) == Some(f.generation) {
        match f.work
        case SyncPage =>
          sync := sync.(pages := sync.pages - 1);
          if sync.pages == 0 && !sync.inFlight && sync.queued.Some? {
            sync := sync.(queued := None);
            RequestSync(afterSeq);
          }
        case Rejection(key, stamp) =>
          var pending := Find(window.pending, key);
          if stamp.Some? && pending.Some? && pending.value.stamp == stamp.value {
            RejectionReleases(Live(connection), window.pending, window.bytes, window.completions, queue.frames, window.sent, owed.unanswered, window.stamps, f);
            hide AnswersOk;
            window := window.(pending := Remove(window.pending, key), bytes := window.bytes - pending.value.bytes);
          }
        case OtherWork =>
      }
    }

    // ---------------------------------------------------------------------- sync

    /** `requestSync`: one at a time, and none while pages are being applied. */
    method RequestSync(afterSeq: int)
      requires Valid()
      modifies this`sync, this`owed
      ensures View() == After(old(View()), Request(afterSeq))
      ensures Valid() && owed.unanswered == old(owed).unanswered
      ensures !connection.open ==> sync == old(sync) && owed == old(owed)
      ensures connection.open && (old(sync).inFlight || old(sync).pages > 0) ==>
                owed == old(owed) && sync == old(sync).(queued := Some(if old(sync).queued.Some? && old(sync).queued.value < afterSeq then old(sync).queued.value else afterSeq))
      ensures connection.open && !old(sync).inFlight && old(sync).pages == 0 ==>
                sync == old(sync).(inFlight := true) && owed.outstanding == old(owed).outstanding + 1
    {
      hide WindowOk, EnvelopesOk, AnswersOk, Earlier, FramesOk, SyncPages;
      if connection.open {
        if sync.inFlight || sync.pages > 0 {
          sync := sync.(queued := Some(if sync.queued.Some? && sync.queued.value < afterSeq then sync.queued.value else afterSeq));
          return;
        }
        sync := sync.(inFlight := true);
        owed := owed.(outstanding := owed.outstanding + 1);
      }
    }
  }

  lemma WindowBound(pending: seq<Pending>, bytes: int, stamps: nat)
    requires WindowOk(pending, bytes, stamps)
    ensures bytes >= 0
  {
  }

  lemma {:induction false} FindAppended(pending: seq<Pending>, p: Pending, key: Key)
    ensures Find(pending + [p], key) == if Find(pending, key).Some? then Find(pending, key) else if p.key == key then Some(p) else None
  {
    if pending != [] {
      assert (pending + [p])[1..] == pending[1..] + [p];
      FindAppended(pending[1..], p, key);
    }
  }

  lemma Reserved(pending: seq<Pending>, total: int, stamps: nat, sent: map<Id, seq<Envelope>>, unanswered: set<Key>,
                 key: Key, bytes: nat, envelope: Option<Envelope>)
    requires WindowOk(pending, total, stamps) && EnvelopesOk(pending, sent, unanswered) && Find(pending, key).None?
    requires |pending| < MAX_SENDS && total + bytes <= MAX_SEND_BYTES && (key.Message? <==> envelope.Some?)
    ensures key !in unanswered && (key.Message? ==> key.id !in sent)
    ensures var after := pending + [Pending(key, bytes, stamps, envelope)];
            && WindowOk(after, total + bytes, stamps + 1)
            && EnvelopesOk(after, if key.Message? then sent[key.id := [envelope.value]] else sent, unanswered + {key})
  {
    var p := Pending(key, bytes, stamps, envelope);
    ReservedWindow(pending, total, stamps, p);
    forall k: Key {
      FindAppended(pending, p, k);
    }
    hide WindowOk, Find;
  }

  lemma ReservedWindow(pending: seq<Pending>, total: int, stamps: nat, p: Pending)
    requires WindowOk(pending, total, stamps) && Find(pending, p.key).None? && p.stamp == stamps
    requires |pending| < MAX_SENDS && total + p.bytes <= MAX_SEND_BYTES
    ensures WindowOk(pending + [p], total + p.bytes, stamps + 1)
  {
    Appended(pending, p);
    hide Sum;
    assert forall i :: 0 <= i < |pending| ==> pending[i] in pending && pending[i].key != p.key && pending[i].stamp < stamps;
    hide Find;
  }

  lemma ReservedAnswers(current: Option<Generation>, pending: seq<Pending>, completions: seq<Completion>, frames: seq<Frame>,
                        sent: map<Id, seq<Envelope>>, unanswered: set<Key>, stamps: nat, key: Key, bytes: nat, envelope: Option<Envelope>)
    requires AnswersOk(current, pending, completions, frames, sent, unanswered, stamps) && Find(pending, key).None? && (key.Message? <==> envelope.Some?)
    ensures AnswersOk(current, pending + [Pending(key, bytes, stamps, envelope)], completions, frames,
                      if key.Message? then sent[key.id := [envelope.value]] else sent, unanswered + {key}, stamps + 1)
  {
    var p := Pending(key, bytes, stamps, envelope);
    var after := if key.Message? then sent[key.id := [envelope.value]] else sent;
    forall k: Key {
      FindAppended(pending, p, k);
    }
    hide Find;
    forall c <- completions
      ensures CompletionOk(current, pending + [p], after, unanswered + {key}, c)
    {
      assert CompletionOk(current, pending, sent, unanswered, c);
    }
    forall f <- frames
      ensures RejectionOk(current, pending + [p], completions, after, unanswered + {key}, stamps + 1, f)
    {
      assert RejectionOk(current, pending, completions, sent, unanswered, stamps, f);
    }
  }

  /** The answer to a send ends its envelope's turn. */
  lemma AnswerGiven(pending: seq<Pending>, sent: map<Id, seq<Envelope>>, unanswered: set<Key>, key: Key)
    requires EnvelopesOk(pending, sent, unanswered) && key in unanswered
    ensures Find(pending, key).Some?
    ensures EnvelopesOk(pending, if key.Message? then sent - {key.id} else sent, unanswered - {key})
    ensures key.Message? ==> key.id in sent && sent[key.id] == [Find(pending, key).value.envelope.value]
  {
    hide Find;
    assert key.Message? ==> forall k <- unanswered - {key} :: k.Message? ==> k.id != key.id;
  }

  lemma AckAnswers(generation: Generation, pending: seq<Pending>, bytes: int, completions: seq<Completion>, frames: seq<Frame>,
                   sent: map<Id, seq<Envelope>>, unanswered: set<Key>, stamps: nat, key: Key)
    requires AnswersOk(Some(generation), pending, completions, frames, sent, unanswered, stamps) && WindowOk(pending, bytes, stamps)
    requires key in unanswered && Find(pending, key).Some?
    ensures AnswersOk(Some(generation), pending, completions + [Completion(key, generation, Some(Find(pending, key).value.stamp))], frames,
                      if key.Message? then sent - {key.id} else sent, unanswered - {key}, stamps)
  {
    hide Find, WindowOk;
    var c := Completion(key, generation, Some(Find(pending, key).value.stamp));
    var after := if key.Message? then sent - {key.id} else sent;
    assert forall i :: 0 <= i < |completions| ==> completions[i] in completions;
    forall d <- completions
      ensures CompletionOk(Some(generation), pending, after, unanswered - {key}, d) && (d.generation == generation ==> d.key != key)
    {
      assert CompletionOk(Some(generation), pending, sent, unanswered, d);
    }
    assert CompletionOk(Some(generation), pending, after, unanswered - {key}, c);
    assert Find(pending, key).value in pending;
    forall f <- frames
      ensures RejectionOk(Some(generation), pending, completions + [c], after, unanswered - {key}, stamps, f)
    {
      assert RejectionOk(Some(generation), pending, completions, sent, unanswered, stamps, f);
    }
  }

  lemma CompletionEarlier(completions: seq<Completion>, frames: seq<Frame>, generations: Generation, c: Completion)
    requires Earlier(completions, frames, generations) && c.generation < generations
    ensures Earlier(completions + [c], frames, generations)
  {
  }

  lemma EarlierRest(completions: seq<Completion>, frames: seq<Frame>, generations: Generation, i: nat)
    requires Earlier(completions, frames, generations) && i < |completions|
    ensures Earlier(completions[..i] + completions[i + 1..], frames, generations)
  {
  }

  /** Without one completion; no other one of this connection has its key. */
  lemma CompletionDone(current: Option<Generation>, pending: seq<Pending>, completions: seq<Completion>, frames: seq<Frame>,
                       sent: map<Id, seq<Envelope>>, unanswered: set<Key>, stamps: nat, i: nat)
    requires AnswersOk(current, pending, completions, frames, sent, unanswered, stamps) && i < |completions|
    ensures var rest := completions[..i] + completions[i + 1..];
            && AnswersOk(current, pending, rest, frames, sent, unanswered, stamps)
            && (current == Some(completions[i].generation) ==> forall c <- rest :: c.generation == completions[i].generation ==> c.key != completions[i].key)
    ensures CompletionOk(current, pending, sent, unanswered, completions[i])
  {
    hide CompletionOk;
    var rest := completions[..i] + completions[i + 1..];
    assert completions[i] in completions;
    forall c <- rest
      ensures c in completions
      ensures current == Some(completions[i].generation) && c.generation == completions[i].generation ==> c.key != completions[i].key
    {
      var k :| 0 <= k < |rest| && rest[k] == c;
      assert c == completions[if k < i then k else k + 1];
    }
    forall f <- frames
      ensures RejectionOk(current, pending, rest, sent, unanswered, stamps, f)
    {
      assert RejectionOk(current, pending, completions, sent, unanswered, stamps, f);
    }
  }

  lemma {:induction false} FindRemoved(pending: seq<Pending>, key: Key, k: Key)
    requires DistinctKeys(pending)
    ensures Find(Remove(pending, key), k) == if k == key then None else Find(pending, k)
  {
    if pending != [] {
      assert pending == [pending[0]] + pending[1..];
      if pending[0].key == key {
        assert k == key ==> Find(pending[1..], k).None?;
      } else {
        FindRemoved(pending[1..], key, k);
      }
    }
  }

  /** Releasing a send that has been answered. */
  lemma Released(pending: seq<Pending>, total: int, stamps: nat, sent: map<Id, seq<Envelope>>, unanswered: set<Key>, key: Key)
    requires WindowOk(pending, total, stamps) && EnvelopesOk(pending, sent, unanswered)
    requires Find(pending, key).Some? && Answered(sent, unanswered, key)
    ensures WindowOk(Remove(pending, key), total - Find(pending, key).value.bytes, stamps)
    ensures EnvelopesOk(Remove(pending, key), sent, unanswered)
  {
    ReleasedWindow(pending, total, stamps, key);
    ReleasedEnvelopes(pending, sent, unanswered, key);
    hide WindowOk, EnvelopesOk;
  }

  lemma ReleasedEnvelopes(pending: seq<Pending>, sent: map<Id, seq<Envelope>>, unanswered: set<Key>, key: Key)
    requires DistinctKeys(pending) && EnvelopesOk(pending, sent, unanswered) && Answered(sent, unanswered, key)
    ensures EnvelopesOk(Remove(pending, key), sent, unanswered)
  {
    hide Find, Remove, DistinctKeys;
    forall id <- sent
      ensures Find(Remove(pending, key), Message(id)) == Find(pending, Message(id))
    {
      FindRemoved(pending, key, Message(id));
    }
    forall k <- unanswered
      ensures Find(Remove(pending, key), k) == Find(pending, k)
    {
      FindRemoved(pending, key, k);
    }
  }

  lemma ReleasedWindow(pending: seq<Pending>, total: int, stamps: nat, key: Key)
    requires WindowOk(pending, total, stamps) && Find(pending, key).Some?
    ensures WindowOk(Remove(pending, key), total - Find(pending, key).value.bytes, stamps)
  {
    hide DistinctStamps;
    RemovedSum(pending, key);
    RemovedKeys(pending, key);
    RemovedStamps(pending, key);
    hide Sum, Find, Remove, DistinctKeys;
  }

  lemma {:induction false} RemovedStamps(pending: seq<Pending>, key: Key)
    requires DistinctStamps(pending)
    ensures DistinctStamps(Remove(pending, key)) && forall p :: p in Remove(pending, key) ==> p in pending
  {
    if pending != [] {
      var later := pending[1..];
      assert pending == [pending[0]] + later;
      assert forall i :: 0 <= i < |later| ==> later[i] == pending[i + 1];
      if pending[0].key != key {
        RemovedStamps(later, key);
        var rest := Remove(later, key);
        forall i | 0 <= i < |rest|
          ensures rest[i].stamp != pending[0].stamp
        {
          assert rest[i] in later;
          var k :| 0 <= k < |later| && later[k] == rest[i];
        }
      }
    }
  }

  lemma ReleasedAnswers(current: Option<Generation>, pending: seq<Pending>, total: int, completions: seq<Completion>, frames: seq<Frame>,
                        sent: map<Id, seq<Envelope>>, unanswered: set<Key>, stamps: nat, key: Key)
    requires AnswersOk(current, pending, completions, frames, sent, unanswered, stamps) && WindowOk(pending, total, stamps)
    requires Find(pending, key).Some? && forall c <- completions :: current == Some(c.generation) ==> c.key != key
    ensures AnswersOk(current, Remove(pending, key), completions, frames, sent, unanswered, stamps)
  {
    RemovedElements(pending, key);
    forall k: Key {
      FindRemoved(pending, key, k);
    }
    hide Sum, Find, Remove, WindowOk;
    forall c <- completions
      ensures CompletionOk(current, Remove(pending, key), sent, unanswered, c)
    {
      assert CompletionOk(current, pending, sent, unanswered, c);
    }
    forall f <- frames
      ensures RejectionOk(current, Remove(pending, key), completions, sent, unanswered, stamps, f)
    {
      assert RejectionOk(current, pending, completions, sent, unanswered, stamps, f);
    }
  }

  lemma FrameQueued(current: Option<Generation>, pending: seq<Pending>, completions: seq<Completion>, frames: seq<Frame>, sent: map<Id, seq<Envelope>>,
                    unanswered: set<Key>, stamps: nat, generations: Generation, f: Frame)
    requires AnswersOk(current, pending, completions, frames, sent, unanswered, stamps) && Earlier(completions, frames, generations)
    requires RejectionOk(current, pending, completions, sent, unanswered, stamps, f) && f.generation < generations
    ensures AnswersOk(current, pending, completions, frames + [f], sent, unanswered, stamps) && Earlier(completions, frames + [f], generations)
  {
    hide RejectionOk, CompletionOk;
  }

  lemma FrameDone(current: Option<Generation>, pending: seq<Pending>, completions: seq<Completion>, frames: seq<Frame>, sent: map<Id, seq<Envelope>>,
                  unanswered: set<Key>, stamps: nat, generations: Generation, i: nat)
    requires AnswersOk(current, pending, completions, frames, sent, unanswered, stamps) && Earlier(completions, frames, generations) && i < |frames|
    ensures AnswersOk(current, pending, completions, WithoutFrame(frames, i), sent, unanswered, stamps)
    ensures Earlier(completions, WithoutFrame(frames, i), generations) && RejectionOk(current, pending, completions, sent, unanswered, stamps, frames[i])
  {
    hide RejectionOk, CompletionOk;
    assert frames[i] in frames;
    assert forall f <- WithoutFrame(frames, i) :: f in frames;
  }

  lemma ReservationIs(pending: seq<Pending>, sent: map<Id, seq<Envelope>>, unanswered: set<Key>, id: Id)
    requires EnvelopesOk(pending, sent, unanswered) && id in sent
    ensures |sent[id]| == 1 && Find(pending, Message(id)).Some? && Find(pending, Message(id)).value.envelope == Some(sent[id][0])
  {
  }

  lemma RejectionAnswers(generation: Generation, pending: seq<Pending>, bytes: int, completions: seq<Completion>, frames: seq<Frame>,
                         sent: map<Id, seq<Envelope>>, unanswered: set<Key>, stamps: nat, id: Id)
    requires AnswersOk(Some(generation), pending, completions, frames, sent, unanswered, stamps) && WindowOk(pending, bytes, stamps)
    requires Message(id) in unanswered && Find(pending, Message(id)).Some?
    ensures AnswersOk(Some(generation), pending, completions, frames, sent - {id}, unanswered - {Message(id)}, stamps)
    ensures RejectionOk(Some(generation), pending, completions, sent - {id}, unanswered - {Message(id)}, stamps,
                        Frame(0, generation, Rejection(Message(id), Some(Find(pending, Message(id)).value.stamp))))
  {
    var reservation := Find(pending, Message(id)).value;
    forall p <- pending
      ensures p.stamp == reservation.stamp ==> p == reservation
    {
      if p.stamp == reservation.stamp {
        OneStamp(pending, p, reservation);
      }
    }
    assert reservation.stamp < stamps;
    hide Find, WindowOk;
    forall c <- completions
      ensures CompletionOk(Some(generation), pending, sent - {id}, unanswered - {Message(id)}, c)
      ensures c.generation == generation ==> c.stamp != Some(reservation.stamp)
    {
      assert CompletionOk(Some(generation), pending, sent, unanswered, c);
    }
    forall f <- frames
      ensures RejectionOk(Some(generation), pending, completions, sent - {id}, unanswered - {Message(id)}, stamps, f)
    {
      assert RejectionOk(Some(generation), pending, completions, sent, unanswered, stamps, f);
    }
  }

  lemma OneStamp(pending: seq<Pending>, a: Pending, b: Pending)
    requires DistinctStamps(pending) && a in pending && b in pending && a.stamp == b.stamp
    ensures a == b
  {
    var i :| 0 <= i < |pending| && pending[i] == a;
    var j :| 0 <= j < |pending| && pending[j] == b;
    assert i == j;
  }

  /** A rejection that has settled releases its own send. */
  lemma RejectionReleases(current: Option<Generation>, pending: seq<Pending>, total: int, completions: seq<Completion>, frames: seq<Frame>,
                          sent: map<Id, seq<Envelope>>, unanswered: set<Key>, stamps: nat, f: Frame)
    requires AnswersOk(current, pending, completions, frames, sent, unanswered, stamps) && WindowOk(pending, total, stamps) && EnvelopesOk(pending, sent, unanswered)
    requires current == Some(f.generation) && f.work.Rejection? && f.work.stamp.Some? && RejectionOk(current, pending, completions, sent, unanswered, stamps, f)
    requires Find(pending, f.work.key).Some? && Find(pending, f.work.key).value.stamp == f.work.stamp.value
    ensures WindowOk(Remove(pending, f.work.key), total - Find(pending, f.work.key).value.bytes, stamps)
    ensures EnvelopesOk(Remove(pending, f.work.key), sent, unanswered)
    ensures AnswersOk(current, Remove(pending, f.work.key), completions, frames, sent, unanswered, stamps)
  {
    hide WindowOk, EnvelopesOk, Remove;
    var key := f.work.key;
    assert Find(pending, key).value in pending;
    forall c <- completions
      ensures current == Some(c.generation) ==> c.key != key
    {
      assert CompletionOk(current, pending, sent, unanswered, c);
    }
    hide Find;
    Released(pending, total, stamps, sent, unanswered, key);
    ReleasedAnswers(current, pending, total, completions, frames, sent, unanswered, stamps, key);
  }

  // --------------------------------------------------------- what may be in flight

  /** A page that the server pushes unasked arrives while a request is in flight, and is taken for its answer. */
  predicate Overtakes(run: seq<Event>, i: nat)
    requires i < |run|
  {
    run[i].Page? && !run[i].answers && At(run, i).open && At(run, i).sync.inFlight
  }

  /** A request goes out at once, or the queued one after the last page has been applied. */
  predicate Sends(run: seq<Event>, j: nat)
    requires j < |run|
  {
    var f := At(run, j);
    f.open && !f.sync.inFlight
    && ((run[j].Request? && f.sync.pages <= 0) || (run[j].Apply? && f.live && !f.closed && f.sync.pages == 1 && f.sync.queued.Some?))
  }

  /** The server answers, or the connection is gone. */
  predicate Settles(run: seq<Event>, k: nat)
    requires k < |run|
  {
    var f := At(run, k);
    || run[k].End? || run[k].Close?
    || (run[k].Connect? && !f.open && !f.closed)
    || (run[k].Page? && run[k].answers && f.open)
  }

  predicate Unsettled(run: seq<Event>, i: nat, j: nat)
    requires j <= |run|
  {
    forall k: nat :: i < k < j ==> !Settles(run, k)
  }

  /** A request is overtaken, and another one goes out before the first is answered. */
  ghost predicate Collision(run: seq<Event>, i: nat, j: nat) {
    i < j < |run| && Overtakes(run, i) && Sends(run, j) && Unsettled(run, i, j)
  }

  /** Until then at most one request is outstanding; one that is no longer in flight has been overtaken. */
  lemma {:induction false} OneUntilCollision(run: seq<Event>, n: nat)
    requires n <= |run| && forall i: nat, j: nat :: !Collision(run, i, j)
    ensures var f := At(run, n);
            && f.outstanding <= 1 && (f.sync.inFlight ==> f.outstanding == 1)
            && (f.outstanding == 1 && !f.sync.inFlight ==> exists i: nat :: i < n && Overtakes(run, i) && Unsettled(run, i, n))
  {
    if n > 0 {
      OneUntilCollision(run, n - 1);
      var before, f := At(run, n - 1), At(run, n);
      hide At;
      if Overtakes(run, n - 1) {
        assert Unsettled(run, n - 1, n);
      }
      forall i: nat | i < n - 1 && Overtakes(run, i) && Unsettled(run, i, n - 1)
        ensures !Sends(run, n - 1) && (Settles(run, n - 1) || Unsettled(run, i, n))
      {
        assert !Collision(run, i, n - 1);
      }
    }
  }

  lemma UnsettledStaysOwed(run: seq<Event>, k: nat)
    requires k < |run| && At(run, k).outstanding >= 1 && !Settles(run, k)
    ensures At(run, k + 1).outstanding >= 1
  {
    Step(run, k);
    hide At;
  }

  /** After an overtaken request, one more that goes out before an answer makes two. */
  lemma {:induction false} OvertakenStaysOwed(run: seq<Event>, i: nat, n: nat)
    requires i < n <= |run| && Overtakes(run, i) && Unsettled(run, i, n)
    ensures At(run, n).outstanding >= 1
  {
    if n > i + 1 {
      OvertakenStaysOwed(run, i, n - 1);
      assert !Settles(run, n - 1);
    } else {
      InFlightIsOwed(run, i);
      assert !Settles(run, i);
    }
    hide At, Settles, Overtakes;
    UnsettledStaysOwed(run, n - 1);
  }

  lemma Step(run: seq<Event>, n: nat)
    requires n < |run|
    ensures At(run, n + 1) == After(At(run, n), run[n])
  {
  }

  lemma {:induction false} InFlightIsOwed(run: seq<Event>, n: nat)
    requires n <= |run|
    ensures At(run, n).sync.inFlight ==> At(run, n).outstanding >= 1
  {
    if n > 0 {
      InFlightIsOwed(run, n - 1);
    }
  }

  /** Over every run of one client: at most one request is ever outstanding if and only if no request
      goes out between an overtaking page and the answer to the request that it has overtaken. */
  lemma AtMostOneOutstanding(run: seq<Event>)
    ensures (forall n: nat :: n <= |run| ==> At(run, n).outstanding <= 1) <==> (forall i: nat, j: nat :: !Collision(run, i, j))
  {
    if i: nat, j: nat :| Collision(run, i, j) {
      OvertakenStaysOwed(run, i, j);
      Step(run, j);
      assert At(run, j + 1).outstanding >= 2;
    } else {
      forall n: nat | n <= |run|
        ensures At(run, n).outstanding <= 1
      {
        OneUntilCollision(run, n);
      }
    }
  }

  /** So it holds of every run in which pages are pushed only while no request is in flight. */
  lemma OneWithoutOvertaking(run: seq<Event>, n: nat)
    requires n <= |run| && forall i: nat :: i < |run| ==> !Overtakes(run, i)
    ensures At(run, n).outstanding <= 1
  {
    OneUntilCollision(run, n);
  }

  /** And from every open state with a request in flight, a pushed page that finds room, the end of its
      handling and one more request leave two outstanding. */
  method TwoRequestsOutstanding(socket: RoomSocket, bytes: nat, afterSeq: int)
    requires socket.Valid() && socket.connection.open && socket.sync.inFlight
    requires socket.queue.bytes + bytes <= MAX_FRAME_BYTES && socket.queue.count < MAX_FRAMES
    modifies socket
    ensures socket.Valid() && socket.owed.outstanding == old(socket.owed.outstanding) + 1 >= 2
  {
    InFlightFacts(socket);
    hide RoomSocket.Valid;
    socket.OnSyncPage(bytes, false);
    socket.FinishFrame(|socket.queue.frames| - 1, true, afterSeq);
    socket.RequestSync(afterSeq);
  }

  lemma InFlightFacts(socket: RoomSocket)
    requires socket.Valid() && socket.connection.open
    ensures socket.connection.socket.Some? && !socket.connection.closed
    ensures socket.sync.inFlight ==> socket.sync.pages == 0 && socket.owed.outstanding >= 1
  {
  }

  /** As it happens on every new connection: the server pushes the first page, and a request that is
      made before it arrives is overtaken. */
  method FirstPageOvertakes(socket: RoomSocket)
    requires socket.Valid() && !socket.connection.open && !socket.connection.closed && socket.queue.frames == []
    modifies socket
    ensures socket.Valid() && socket.owed.outstanding == 2
  {
    assert socket.queue == FrameQueue([], 0, 0);
    hide RoomSocket.Valid;
    socket.Connect();
    socket.RequestSync(0);
    TwoRequestsOutstanding(socket, 100, 0);
  }
}
