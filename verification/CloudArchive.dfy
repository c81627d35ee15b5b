/** History archives of src/lib/cloud-backup.ts: messages sealed in parts, and the index that cites them.
    Sealing and hashing are ideal: a digest determines the sealed part, and a sealed part its messages. */
module CloudArchive {
  import opened Sequences
  import opened Wrappers

  datatype Kind =
    | Text | Picture(expression: bool) | Album(count: nat) | Audio | File | GalleryImage | GalleryFile
    | Reaction | MessageDelete | MediaRead | MessageRead

  /** `supported` says that the payload passes isMessagePayload of this version. */
  datatype Message = Message(number: nat, clientMsgId: nat, kind: Kind, body: nat, supported: bool)

  datatype Sealed = Sealed(archiveId: nat, partId: nat, roomId: nat, messages: seq<Message>)

  datatype Digest = Digest(contents: Sealed)

  datatype Inventory = Inventory(chat: nat, gallery: nat)

  datatype Part = Part(id: nat, digest: Digest, firstSeq: nat, lastSeq: nat, count: nat, inventory: Inventory)

  datatype Archive = Archive(id: nat, parts: seq<Part>)

  // ------------------------------------------------------------ counting

  predicate IsChat(kind: Kind) {
    kind.Text? || kind.Picture? || kind.Album? || kind.Audio? || kind.File?
  }

  predicate IsGallery(kind: Kind) {
    (kind.Picture? && !kind.expression) || kind.Album? || kind.File? || kind.GalleryImage? || kind.GalleryFile?
  }

  function Add(a: Inventory, b: Inventory): Inventory {
    Inventory(a.chat + b.chat, a.gallery + b.gallery)
  }

  function Counts(m: Message): Inventory {
    Inventory(if IsChat(m.kind) then 1 else 0, if !IsGallery(m.kind) then 0 else if m.kind.Album? then m.kind.count else 1)
  }

  /** What a list of messages adds to the two counts of the console. */
  function InventoryOf(messages: seq<Message>): Inventory {
    if messages == [] then Inventory(0, 0)
    else Add(InventoryOf(messages[..|messages| - 1]), Counts(messages[|messages| - 1]))
  }

  method BackupInventory(messages: seq<Message>) returns (r: Inventory)
    ensures r == InventoryOf(messages)
  {
    var chatCount: nat, galleryCount: nat := 0, 0;
    var i := 0;
    while i < |messages|
      invariant i <= |messages| && Inventory(chatCount, galleryCount) == InventoryOf(messages[..i])
    {
      assert messages[..i + 1][..i] == messages[..i];
      var kind := messages[i].kind;
      var galleryOnly := kind.GalleryImage? || kind.GalleryFile?;
      var projection := kind.Reaction? || kind.MessageDelete? || kind.MediaRead? || kind.MessageRead?;
      if !galleryOnly && !projection {
        chatCount := chatCount + 1;
      }
      if IsGallery(kind) {
        galleryCount := galleryCount + (if kind.Album? then kind.count else 1);
      }
      i := i + 1;
    }
    assert messages[..i] == messages;
    return Inventory(chatCount, galleryCount);
  }

  lemma InventoryAppend(messages: seq<Message>, m: Message)
    ensures InventoryOf(messages + [m]) == Add(InventoryOf(messages), Counts(m))
  {
    assert (messages + [m])[..|messages|] == messages;
  }

  lemma AddAssociates(a: Inventory, b: Inventory, c: Inventory)
    ensures Add(Add(a, b), c) == Add(a, Add(b, c)) && Add(a, Inventory(0, 0)) == a
  {
  }

  lemma {:induction false} InventoryConcat(a: seq<Message>, b: seq<Message>)
    ensures InventoryOf(a + b) == Add(InventoryOf(a), InventoryOf(b))
  {
    hide Add, Counts;
    if b == [] {
      AddAssociates(InventoryOf(a), Inventory(0, 0), Inventory(0, 0));
      assert a + b == a;
    } else {
      var front, last := b[..|b| - 1], b[|b| - 1];
      InventoryConcat(a, front);
      InventoryAppend(front, last);
      assert b == front + [last];
      ConcatAssociative(a, front, [last]);
      InventoryAppend(a + front, last);
      AddAssociates(InventoryOf(a), InventoryOf(front), Counts(last));
    }
  }

  function ArchiveInventory(parts: seq<Part>): Inventory {
    if parts == [] then Inventory(0, 0)
    else Add(ArchiveInventory(parts[..|parts| - 1]), parts[|parts| - 1].inventory)
  }

  /** The messages that an index cites, in order. */
  function MessagesOf(parts: seq<Part>): seq<Message> {
    if parts == [] then []
    else MessagesOf(parts[..|parts| - 1]) + parts[|parts| - 1].digest.contents.messages
  }

  /** The counts published with an archive are those of the messages it cites. */
  lemma {:induction false} PublishedCountsAreExact(parts: seq<Part>)
    requires forall p :: p in parts ==> p.inventory == InventoryOf(p.digest.contents.messages)
    ensures ArchiveInventory(parts) == InventoryOf(MessagesOf(parts))
  {
    hide Add, Counts;
    if parts != [] {
      var front, last := parts[..|parts| - 1], parts[|parts| - 1];
      PublishedCountsAreExact(front);
      InventoryConcat(MessagesOf(front), last.digest.contents.messages);
    }
  }

  // ------------------------------------------------------------ validation

  predicate Ascending(messages: seq<Message>) {
    forall i, j :: 0 <= i < j < |messages| ==> messages[i].number < messages[j].number
  }

  /** What an authenticated part must be to be imported. */
  predicate Fits(s: Sealed, roomId: nat, part: Part) {
    var messages := s.messages;
    && s.roomId == roomId && |messages| == part.count && |messages| > 0
    && Ascending(messages) && messages[0].number >= 1
    && messages[0].number == part.firstSeq && messages[|messages| - 1].number == part.lastSeq
    && (forall i :: 0 <= i < |messages| ==> messages[i].supported)
  }

  /** Each check of the program is local to one message and its predecessor; together they say that
      the part holds exactly what its index entry promises. */
  method ValidateArchivePart(s: Sealed, roomId: nat, part: Part) returns (r: Result<seq<Message>>)
    ensures r.Ok? <==> Fits(s, roomId, part)
    ensures r.Ok? ==> r.value == s.messages
  {
    var messages := s.messages;
    if s.roomId != roomId || |messages| != part.count {
      return Err;
    }
    var i := 0;
    while i < |messages|
      invariant i <= |messages|
      invariant forall j, k :: 0 <= j < k < i ==> messages[j].number < messages[k].number
      invariant i > 0 ==> messages[0].number >= 1
    {
      if messages[i].number < 1 || (i > 0 && messages[i].number <= messages[i - 1].number) {
        return Err;
      }
      i := i + 1;
    }
    if |messages| == 0 || messages[0].number != part.firstSeq || messages[|messages| - 1].number != part.lastSeq {
      return Err;
    }
    i := 0;
    while i < |messages|
      invariant i <= |messages|
      invariant forall j :: 0 <= j < i ==> messages[j].supported
    {
      if !messages[i].supported {
        return Err;
      }
      i := i + 1;
    }
    return Ok(messages);
  }
}
