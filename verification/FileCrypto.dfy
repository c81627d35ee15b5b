/** Resumable attachment upload and verified download of src/lib/file-crypto.ts against the blob store
    of server/storage.mjs. Encryption and hashing are ideal: a ciphertext is a term that opens only under
    its own key, nonce and associated data, and a digest determines the bytes it was taken of. */
module FileCrypto {
  import opened Bits
  import opened Wrappers

  const CHUNK_SIZE := 0x20_0000
  const TAG_SIZE := 16
  const MAX_CHUNKS := 1024
  const MAX_VIDEO_BYTES := 0x8000_0000
  const MAX_IMAGE_BYTES := 0x1000_0000
  const MAX_AUDIO_BYTES := 0x100_0000
  const STREAMED_BYTES := 0x800_0000
  const MAX_NAME_LENGTH := 1024
  const MAX_MIME_LENGTH := 255

  type Bytes = seq<Byte>

  type BlobId = nat

  datatype Kind = Image | Audio | File

  /** How names and types are classified: playable video, and the accepted recording formats. */
  datatype Media = Media(isVideo: (string, string) -> bool, isAudio: string -> bool)

  datatype Attachment = Attachment(bytes: Bytes, name: string, mimeType: string, lastModified: int)

  datatype Digest = Sha256(bytes: Bytes)

  datatype Aad = Aad(blobId: BlobId, index: nat, chunkCount: nat, originalSize: nat)

  datatype Cipher =
    | Sealed(key: Bytes, iv: Bytes, aad: Aad, plaintext: Bytes)
    | Junk(bytes: Bytes)

  datatype Plan = Plan(blobId: BlobId, key: Bytes, ivPrefix: Bytes, chunkCount: nat, encryptedSize: nat,
                       originalSize: nat, originalName: string, mimeType: string, lastModified: int, sha256: Digest)

  datatype Manifest = Manifest(blobId: BlobId, key: Bytes, ivPrefix: Bytes, chunkSize: nat, chunkCount: nat,
                               originalSize: nat, originalName: string, mimeType: string, lastModified: int, sha256: Digest)

  // ------------------------------------------------------------ ideal encryption

  function Size(c: Cipher): nat {
    if c.Sealed? then |c.plaintext| + TAG_SIZE else |c.bytes|
  }

  function Decrypt(key: Bytes, iv: Bytes, aad: Aad, c: Cipher): Option<Bytes> {
    if c.Sealed? && c.key == key && c.iv == iv && c.aad == aad then Some(c.plaintext) else None
  }

  function Octet(n: nat): Byte {
    n % 0x100
  }

  /** The 32-bit big-endian form of the chunk index; larger numbers wrap. */
  function BigEndian32(n: nat): (b: Bytes)
    ensures |b| == 4
  {
    [Octet(n / 0x100_0000), Octet(n / 0x1_0000), Octet(n / 0x100), Octet(n)]
  }

  function ChunkIv(prefix: Bytes, index: nat): Bytes {
    prefix + BigEndian32(index)
  }

  lemma IvIsUnique(p: Bytes, i: nat, q: Bytes, j: nat)
    requires |p| == |q| && i < 0x1_0000_0000 && j < 0x1_0000_0000
    requires ChunkIv(p, i) == ChunkIv(q, j)
    ensures p == q && i == j
  {
    var n := |p|;
    assert p == ChunkIv(p, i)[..n] && q == ChunkIv(q, j)[..n];
    var a, b := BigEndian32(i), BigEndian32(j);
    assert forall k: nat :: k < 4 ==> a[k] == ChunkIv(p, i)[n + k] && b[k] == ChunkIv(q, j)[n + k];
    assert a[0] == b[0] && a[1] == b[1] && a[2] == b[2] && a[3] == b[3];
    WordOfBytes(i);
    WordOfBytes(j);
  }

  lemma WordOfBytes(n: nat)
    requires n < 0x1_0000_0000
    ensures var b := BigEndian32(n); n == 0x100 * (0x100 * (0x100 * (b[0] as int) + b[1] as int) + b[2] as int) + b[3] as int
  {
    var m := n / 0x100;
    var l := m / 0x100;
    assert n / 0x1_0000 == l && n / 0x100_0000 == l / 0x100 && l / 0x100 < 0x100;
  }

  // ------------------------------------------------------------ slices

  function Min(a: nat, b: nat): nat {
    if a < b then a else b
  }

  function ChunkCount(size: nat): nat {
    (size + (CHUNK_SIZE - 1)) / CHUNK_SIZE
  }

  function Slice(bytes: Bytes, index: nat): (s: Bytes)
    requires index < ChunkCount(|bytes|)
    ensures |s| == Min(CHUNK_SIZE, |bytes| - index * CHUNK_SIZE) && |s| > 0
  {
    bytes[index * CHUNK_SIZE..Min(index * CHUNK_SIZE + CHUNK_SIZE, |bytes|)]
  }

  /** The first n slices, joined. */
  function Joined(bytes: Bytes, n: nat): Bytes
    requires n <= ChunkCount(|bytes|)
  {
    if n == 0 then [] else Joined(bytes, n - 1) + Slice(bytes, n - 1)
  }

  lemma {:induction false} JoinedIsPrefix(bytes: Bytes, n: nat)
    requires n <= ChunkCount(|bytes|)
    ensures Joined(bytes, n) == bytes[..Min(n * CHUNK_SIZE, |bytes|)]
  {
    if n > 0 {
      JoinedIsPrefix(bytes, n - 1);
      var from, to := (n - 1) * CHUNK_SIZE, Min(n * CHUNK_SIZE, |bytes|);
      assert bytes[..to] == bytes[..from] + bytes[from..to];
    }
  }

  /** The slices partition the file: joined in order they are the file. */
  lemma SlicesPartition(bytes: Bytes)
    ensures Joined(bytes, ChunkCount(|bytes|)) == bytes
  {
    JoinedIsPrefix(bytes, ChunkCount(|bytes|));
    assert bytes[..|bytes|] == bytes;
  }

  /** The ciphertext of one chunk of a plan. */
  function ChunkOf(p: Plan, index: nat): Cipher
    requires index < ChunkCount(|p.sha256.bytes|)
  {
    Sealed(p.key, ChunkIv(p.ivPrefix, index), Aad(p.blobId, index, p.chunkCount, p.originalSize), Slice(p.sha256.bytes, index))
  }

  // ------------------------------------------------------------ the blob store

  /** `files` is the write-once directory of a blob, `rows` what its index knows of it. */
  datatype Blob = Blob(chunkCount: nat, expectedBytes: nat, files: map<nat, Cipher>, rows: map<nat, nat>, completed: bool)

  /** received_bytes: what the index has recorded of the first n chunks. */
  function Received(rows: map<nat, nat>, n: nat): nat {
    if n == 0 then 0 else Received(rows, n - 1) + (if n - 1 in rows then rows[n - 1] else 0)
  }

  /** The index after a chunk file is in place. */
  function Indexed(b: Blob, index: nat, size: nat): Option<Blob> {
    if index in b.rows then
      if b.rows[index] == size then Some(b) else None
    else if Received(b.rows, b.chunkCount) + size > b.expectedBytes then None
    else Some(b.(rows := b.rows[index := size]))
  }

  predicate Accepts(b: Blob, index: nat, c: Cipher) {
    !b.completed && index < b.chunkCount && Size(c) > TAG_SIZE && (index in b.files ==> b.files[index] == c)
  }

  predicate Completable(b: Blob) {
    && (forall i :: i in b.rows ==> i < b.chunkCount) && (forall i: nat :: i < b.chunkCount ==> i in b.rows)
    && Received(b.rows, b.chunkCount) == b.expectedBytes
    && (forall i: nat :: i < b.chunkCount ==> i in b.files && Size(b.files[i]) == b.rows[i])
  }

  // ------------------------------------------------------------ what every run keeps

  predicate WellFormed(p: Plan) {
    && |p.key| == 32 && |p.ivPrefix| == 8
    && p.originalSize == |p.sha256.bytes| && 0 < p.originalSize <= MAX_VIDEO_BYTES
    && p.chunkCount == ChunkCount(p.originalSize)
    && p.encryptedSize == p.originalSize + TAG_SIZE * p.chunkCount
  }

  /** Whatever is stored of a blob is the plan's own ciphertext of that slice. */
  predicate Honest(b: Blob, p: Plan) {
    && b.chunkCount == p.chunkCount == ChunkCount(|p.sha256.bytes|) && b.expectedBytes == p.encryptedSize
    && (forall i :: i in b.files ==> i < p.chunkCount && b.files[i] == ChunkOf(p, i))
    && (forall i :: i in b.rows ==> i in b.files && b.rows[i] == Size(b.files[i]))
    && (b.completed ==> Completable(b))
  }

  predicate DistinctPlans(plans: set<Plan>) {
    forall p, q :: p in plans && q in plans && (p.key == q.key || p.blobId == q.blobId) ==> p == q
  }

  predicate IsChunk(p: Plan, c: Cipher) {
    exists i: nat :: i < ChunkCount(|p.sha256.bytes|) && c == ChunkOf(p, i)
  }

  predicate OfPlans(plans: set<Plan>, c: Cipher) {
    exists p :: p in plans && IsChunk(p, c)
  }

  predicate ValidState(plans: set<Plan>, blobs: map<BlobId, Blob>, sealings: set<Cipher>) {
    && DistinctPlans(plans)
    && (forall p :: p in plans ==> WellFormed(p))
    && (forall p :: p in plans && p.blobId in blobs ==> Honest(blobs[p.blobId], p))
    && (forall b :: b in blobs ==> exists p :: p in plans && p.blobId == b)
    && (forall c :: c in sealings ==> OfPlans(plans, c))
  }

  /** No key and nonce are ever used for two plaintexts, over every upload, crash and resume. */
  lemma NonceNeverReused(plans: set<Plan>, blobs: map<BlobId, Blob>, sealings: set<Cipher>, c: Cipher, d: Cipher)
    requires ValidState(plans, blobs, sealings)
    requires c in sealings && d in sealings && c.Sealed? && d.Sealed? && c.key == d.key && c.iv == d.iv
    ensures c == d
  {
    var p :| p in plans && IsChunk(p, c);
    var i: nat :| i < ChunkCount(|p.sha256.bytes|) && c == ChunkOf(p, i);
    var q :| q in plans && IsChunk(q, d);
    var j: nat :| j < ChunkCount(|q.sha256.bytes|) && d == ChunkOf(q, j);
    assert p == q;
    IvIsUnique(p.ivPrefix, i, q.ivPrefix, j);
  }

  // ------------------------------------------------------------ storing one chunk

  /** How a call may go wrong: not at all, before it takes effect, after the chunk file but before its
      index row, or with only the answer lost. */
  datatype Fault = Fine | Before | Halfway | After

  datatype Stored = Stored(blob: Blob, ok: bool)

  function Put(b: Blob, index: nat, c: Cipher, fault: Fault): Stored {
    if fault.Before? || !Accepts(b, index, c) then Stored(b, false)
    else
      var written := b.(files := b.files[index := c]);
      if fault.Halfway? then Stored(written, false)
      else
        match Indexed(written, index, Size(c))
        case None => Stored(b, false)
        case Some(after) => Stored(after, fault.Fine?)
  }

  /** Whatever is sent: a stored chunk is never replaced, a completed blob never changes, and a chunk that is
      reported as stored is the one that was sent, within the announced number of chunks. */
  lemma StoredChunksAreFinal(b: Blob, index: nat, c: Cipher, fault: Fault)
    ensures var put := Put(b, index, c, fault);
            && (forall i <- b.files :: i in put.blob.files && put.blob.files[i] == b.files[i])
            && (b.completed ==> put.blob == b && !put.ok)
            && (put.ok ==> index < b.chunkCount && index in put.blob.files && put.blob.files[index] == c && index in put.blob.rows)
            && (index >= b.chunkCount ==> put.blob == b)
  {
  }

  function Total(p: Plan, n: nat): nat {
    Min(n * CHUNK_SIZE, p.originalSize) + TAG_SIZE * n
  }

  /** Index rows never exceed what their chunks take; they fill it exactly when none is missing. */
  lemma {:induction false} ReceivedFits(b: Blob, p: Plan, n: nat)
    requires Honest(b, p) && WellFormed(p) && n <= p.chunkCount
    ensures Received(b.rows, n) <= Total(p, n)
    ensures (forall i: nat :: i < n ==> i in b.rows) ==> Received(b.rows, n) == Total(p, n)
  {
    if n > 0 {
      ReceivedFits(b, p, n - 1);
      assert Size(ChunkOf(p, n - 1)) == Min(CHUNK_SIZE, p.originalSize - (n - 1) * CHUNK_SIZE) + TAG_SIZE;
    }
  }

  lemma {:induction false} ReceivedGrows(rows: map<nat, nat>, index: nat, size: nat, n: nat)
    requires index !in rows
    ensures Received(rows[index := size], n) == Received(rows, n) + (if index < n then size else 0)
  {
    if n > 0 {
      ReceivedGrows(rows, index, size, n - 1);
    }
  }

  /** A missing chunk always finds room in the index. */
  lemma ChunkFits(b: Blob, p: Plan, index: nat)
    requires Honest(b, p) && WellFormed(p) && index < p.chunkCount && index in b.files && !b.completed
    ensures var after := Indexed(b, index, Size(b.files[index]));
            after.Some? && Honest(after.value, p) && after.value == b.(rows := b.rows[index := Size(b.files[index])])
  {
    var size := Size(b.files[index]);
    var after := b.(rows := b.rows[index := size]);
    hide ChunkOf, Size, Completable;
    assert Honest(after, p);
    if index !in b.rows {
      ReceivedFits(after, p, p.chunkCount);
      ReceivedGrows(b.rows, index, size, p.chunkCount);
    } else {
      assert after == b;
    }
  }

  lemma WrittenIsHonest(b: Blob, p: Plan, index: nat)
    requires Honest(b, p) && !b.completed && index < p.chunkCount
    ensures Honest(b.(files := b.files[index := ChunkOf(p, index)]), p)
  {
    hide ChunkOf, Size, Completable;
  }

  /** The plan's own chunk is stored whatever is there already, and storing it again changes nothing. */
  lemma PutKeepsHonest(b: Blob, p: Plan, index: nat, fault: Fault)
    requires Honest(b, p) && WellFormed(p) && !b.completed && index < p.chunkCount
    ensures var put := Put(b, index, ChunkOf(p, index), fault);
            && Honest(put.blob, p) && !put.blob.completed
            && (put.ok <==> fault.Fine?)
            && (put.ok ==> index in put.blob.rows)
            && b.rows.Keys <= put.blob.rows.Keys
  {
    var c := ChunkOf(p, index);
    var written := b.(files := b.files[index := c]);
    assert Accepts(b, index, c);
    WrittenIsHonest(b, p, index);
    ChunkFits(written, p, index);
    hide ChunkOf, Size, Completable, Indexed, Honest, WellFormed, Accepts;
  }

  lemma AllStoredIsCompletable(plans: set<Plan>, blobs: map<BlobId, Blob>, sealings: set<Cipher>, p: Plan)
    requires ValidState(plans, blobs, sealings) && p in plans && p.blobId in blobs
    requires forall i: nat :: i < p.chunkCount ==> i in blobs[p.blobId].rows
    ensures Completable(blobs[p.blobId]) && Honest(blobs[p.blobId].(completed := true), p)
  {
    var b := blobs[p.blobId];
    ReceivedFits(b, p, p.chunkCount);
  }

  lemma CompletedHasAll(plans: set<Plan>, blobs: map<BlobId, Blob>, sealings: set<Cipher>, p: Plan)
    requires ValidState(plans, blobs, sealings) && p in plans && p.blobId in blobs
    ensures Honest(blobs[p.blobId], p)
    ensures blobs[p.blobId].completed ==> forall i: nat :: i < p.chunkCount ==> i in blobs[p.blobId].rows
  {
  }

  // ------------------------------------------------------------ what is accepted

  predicate HasControl(s: string) {
    exists i :: 0 <= i < |s| && (s[i] <= '\U{1f}' || s[i] == '\U{7f}')
  }

  predicate FileAccepted(file: Attachment, kind: Kind, media: Media) {
    var size := |file.bytes|;
    && size > 0
    && (kind.Audio? ==> media.isAudio(file.mimeType) && size <= MAX_AUDIO_BYTES)
    && (kind.Image? ==> "image/" <= file.mimeType)
    && size <= (if kind.File? && media.isVideo(file.mimeType, file.name) then MAX_VIDEO_BYTES else MAX_IMAGE_BYTES)
    && (kind.File? ==> PlainNames(file))
  }

  predicate PlainNames(file: Attachment) {
    && |file.name| <= MAX_NAME_LENGTH && !HasControl(file.name)
    && |file.mimeType| <= MAX_MIME_LENGTH && !HasControl(file.mimeType)
  }

  predicate IsPlain(c: char) {
    '\U{20}' <= c && c != '\U{7f}'
  }

  /** What may be uploaded: nothing empty; audio up to 16 MiB, images of an image type and other files up to
      256 MiB, and video up to 2 GiB; and only other files need plain names. */
  lemma AcceptedExactly(file: Attachment, kind: Kind, media: Media)
    ensures FileAccepted(file, kind, media)
            <==> match kind
                 case Audio => 0 < |file.bytes| <= MAX_AUDIO_BYTES && media.isAudio(file.mimeType)
                 case Image => 0 < |file.bytes| <= MAX_IMAGE_BYTES && |file.mimeType| >= 6 && file.mimeType[..6] == "image/"
                 case File =>
                   && 0 < |file.bytes| <= (if media.isVideo(file.mimeType, file.name) then MAX_VIDEO_BYTES else MAX_IMAGE_BYTES)
                   && |file.name| <= 1024 && |file.mimeType| <= 255
                   && (forall i :: 0 <= i < |file.name| ==> IsPlain(file.name[i]))
                   && forall i :: 0 <= i < |file.mimeType| ==> IsPlain(file.mimeType[i])
  {
  }

  /** A saved plan, or one of the old kind that cannot be resumed. */
  datatype SavedPlan = Legacy | Current(plan: Plan)

  predicate Resumes(p: Plan, file: Attachment) {
    && p.originalSize == |file.bytes| && p.originalName == file.name && p.mimeType == file.mimeType
    && p.lastModified == file.lastModified && p.chunkCount == ChunkCount(|file.bytes|)
    && p.encryptedSize == |file.bytes| + TAG_SIZE * p.chunkCount
    && p.sha256 == Sha256(file.bytes)
  }

  predicate Accepted(file: Attachment, kind: Kind, media: Media, existing: Option<SavedPlan>) {
    && FileAccepted(file, kind, media)
    && (existing.Some? ==> existing.value.Current? && Resumes(existing.value.plan, file))
  }

  datatype Random = Random(blobId: BlobId, key: Bytes, ivPrefix: Bytes)

  function NewPlan(file: Attachment, random: Random): Plan {
    Plan(random.blobId, random.key, random.ivPrefix, ChunkCount(|file.bytes|), |file.bytes| + TAG_SIZE * ChunkCount(|file.bytes|),
         |file.bytes|, file.name, file.mimeType, file.lastModified, Sha256(file.bytes))
  }

  function PlanFor(file: Attachment, existing: Option<SavedPlan>, random: Random): Plan {
    if existing.Some? && existing.value.Current? then existing.value.plan else NewPlan(file, random)
  }

  function ManifestOf(p: Plan): Manifest {
    Manifest(p.blobId, p.key, p.ivPrefix, CHUNK_SIZE, p.chunkCount, p.originalSize, p.originalName, p.mimeType, p.lastModified, p.sha256)
  }

  /** isAttachmentManifest of src/lib/message-payload.ts. */
  predicate IsManifest(m: Manifest, kind: Kind, media: Media) {
    && |m.key| == 32 && |m.ivPrefix| == 8 && m.chunkSize == CHUNK_SIZE && m.chunkCount >= 1
    && 1 <= m.originalSize <= (if kind.File? && media.isVideo(m.mimeType, m.originalName) then MAX_VIDEO_BYTES else MAX_IMAGE_BYTES)
    && m.chunkCount == ChunkCount(m.originalSize)
    && |m.originalName| <= MAX_NAME_LENGTH && !HasControl(m.originalName)
    && |m.mimeType| <= MAX_MIME_LENGTH
    && (match kind
        case File => !HasControl(m.mimeType)
        case Image => "image/" <= m.mimeType
        case Audio => |m.mimeType| > 0 && media.isAudio(m.mimeType) && m.originalSize <= MAX_AUDIO_BYTES)
    && m.lastModified >= 0
  }

  /** What an uploaded file must satisfy beyond acceptance for its manifest to be usable: the checks
      that the upload makes of plain files only, or of none. */
  predicate Reopens(file: Attachment, kind: Kind) {
    && file.lastModified >= 0
    && |file.name| <= MAX_NAME_LENGTH && !HasControl(file.name)
    && |file.mimeType| <= MAX_MIME_LENGTH
    && (kind.Audio? ==> |file.mimeType| > 0)
  }

  /** An accepted file's manifest is accepted for reading exactly when the file's own names pass. */
  lemma ReopensExactly(file: Attachment, kind: Kind, media: Media, p: Plan)
    requires FileAccepted(file, kind, media) && Resumes(p, file) && WellFormed(p)
    ensures IsManifest(ManifestOf(p), kind, media) <==> Reopens(file, kind)
  {
  }

  /** An image that uploads but cannot be opened: its file is older than 1970. */
  lemma OldImageCannotBeOpened(media: Media, random: Random)
    requires |random.key| == 32 && |random.ivPrefix| == 8
    ensures var file := Attachment([0], "a.png", "image/png", -1);
            && Accepted(file, Image, media, None)
            && !IsManifest(ManifestOf(NewPlan(file, random)), Image, media)
  {
    var mimeType: string := "image/png";
    assert mimeType[..6] == "image/";
  }

  // ------------------------------------------------------------ upload and download

  datatype Step = Hashing | Saving | Reserving | Asking | Reading(index: nat) | Sending(index: nat) | Caching(index: nat) | Completing | Measuring

  /** What the store holds of an upload that finished. */
  predicate Uploaded(blobs: map<BlobId, Blob>, p: Plan) {
    p.blobId in blobs && Honest(blobs[p.blobId], p) && blobs[p.blobId].completed
  }

  // ------------------------------------------------------------ reading back

  /** One verified chunk of a download, from whatever the server answered. */
  function ReadChunk(m: Manifest, index: nat, reply: Option<Cipher>): Option<Bytes> {
    var expected := m.originalSize - index * m.chunkSize;
    if expected < 0 || reply.None? || Size(reply.value) != Min(m.chunkSize, expected) + TAG_SIZE then None
    else Decrypt(m.key, ChunkIv(m.ivPrefix, index), Aad(m.blobId, index, m.chunkCount, m.originalSize), reply.value)
  }

  /** The first n chunks read and joined. */
  function ReadChunks(m: Manifest, n: nat, replies: nat -> Option<Cipher>): Option<Bytes> {
    if n == 0 then Some([])
    else
      var before, chunk := ReadChunks(m, n - 1, replies), ReadChunk(m, n - 1, replies(n - 1));
      if before.None? || chunk.None? then None else Some(before.value + chunk.value)
  }

  lemma {:induction false} NothingAfterGap(m: Manifest, k: nat, n: nat, replies: nat -> Option<Cipher>)
    requires k <= n && ReadChunks(m, k, replies).None?
    ensures ReadChunks(m, n, replies).None?
  {
    hide ReadChunk;
    if k < n {
      NothingAfterGap(m, k, n - 1, replies);
    }
  }

  /** Playable video too big for a list of parts is spooled by the browser, which may be unable to. */
  predicate Streamed(m: Manifest, kind: Kind, media: Media) {
    m.originalSize > STREAMED_BYTES && kind.File? && media.isVideo(m.mimeType, m.originalName)
  }

  /** The manifest opens a stored chunk to its slice of the file. */
  lemma OwnChunkOpens(p: Plan, index: nat)
    requires WellFormed(p) && index < p.chunkCount
    ensures ReadChunk(ManifestOf(p), index, Some(ChunkOf(p, index))) == Some(Slice(p.sha256.bytes, index))
  {
    hide ChunkIv, ChunkCount;
  }

  /** Reading back what an upload stored gives the file. */
  lemma {:induction false} StoredChunksJoin(p: Plan, n: nat, replies: nat -> Option<Cipher>)
    requires WellFormed(p) && n <= p.chunkCount
    requires forall i: nat :: i < n ==> replies(i) == Some(ChunkOf(p, i))
    ensures ReadChunks(ManifestOf(p), n, replies) == Some(Joined(p.sha256.bytes, n))
  {
    if n > 0 {
      StoredChunksJoin(p, n - 1, replies);
      OwnChunkOpens(p, n - 1);
      hide ChunkOf, ManifestOf, ReadChunk;
    }
  }

  /** The cache holds, under a blob and an index, the encryption of that slice of the blob's file. */
  predicate IsCached(p: Plan, blobId: BlobId, index: nat, c: Cipher) {
    && p.blobId == blobId && index < ChunkCount(|p.sha256.bytes|)
    && c == Sealed(p.key, ChunkIv(p.ivPrefix, index), Aad(blobId, index, p.chunkCount, p.originalSize), Slice(p.sha256.bytes, index))
  }

  ghost predicate CacheOk(plans: set<Plan>, cache: map<(BlobId, nat), Cipher>) {
    forall blobId, index: nat :: (blobId, index) in cache ==> exists p :: p in plans && IsCached(p, blobId, index, cache[(blobId, index)])
  }

  predicate AllCached(cache: map<(BlobId, nat), Cipher>, p: Plan, n: nat) {
    forall i: nat :: i < n ==> (p.blobId, i) in cache
  }

  lemma CachedOneMore(plans: set<Plan>, cache: map<(BlobId, nat), Cipher>, p: Plan, index: nat)
    requires CacheOk(plans, cache) && p in plans && index < ChunkCount(|p.sha256.bytes|)
    ensures CacheOk(plans, cache[(p.blobId, index) := ChunkOf(p, index)])
  {
    hide ChunkIv, Slice;
    assert IsCached(p, p.blobId, index, ChunkOf(p, index));
  }

  class Attachments {
    /** The plans this device has saved. */
    var plans: set<Plan>
    /** The blob store of the server. */
    var blobs: map<BlobId, Blob>
    var cache: map<(BlobId, nat), Cipher>
    /** Every encryption ever made. */
    ghost var sealings: set<Cipher>

    ghost predicate Valid()
      reads this
    {
      && ValidState(plans, blobs, sealings)
      && (forall k :: k in cache ==> cache[k] in sealings) && CacheOk(plans, cache)
    }

    constructor ()
      ensures Valid()
    {
      plans, blobs, cache, sealings := {}, map[], map[], {};
    }

    /** One attempt at an upload, which may stop at any step; any later attempt with the saved plan goes
        on from what the store already has. Without a fault it succeeds exactly for accepted files. */
    method EncryptAttachmentFile(file: Attachment, kind: Kind, media: Media, existing: Option<SavedPlan>, random: Random,
                                 caching: bool, faults: Step -> Fault) returns (r: Result<Manifest>)
      requires Valid()
      requires existing.Some? && existing.value.Current? ==> existing.value.plan in plans
      requires |random.key| == 32 && |random.ivPrefix| == 8
      requires forall p :: p in plans ==> p.key != random.key && p.blobId != random.blobId
      modifies this
      ensures Valid() && old(sealings) <= sealings
      ensures plans == old(plans) || (existing.None? && plans == old(plans) + {NewPlan(file, random)})
      ensures r.Ok? ==>
                && Accepted(file, kind, media, existing)
                && r.value == ManifestOf(PlanFor(file, existing, random))
                && Uploaded(blobs, PlanFor(file, existing, random))
                && PlanFor(file, existing, random) in plans
                && (caching ==> AllCached(cache, PlanFor(file, existing, random), PlanFor(file, existing, random).chunkCount))
      ensures (forall s :: faults(s).Fine?) && Accepted(file, kind, media, existing) ==> r.Ok?
    {
      if !FileAccepted(file, kind, media) {
        return Err;
      }
      if (existing.Some? && existing.value.Legacy?) || !faults(Hashing).Fine? {
        return Err;
      }
      if existing.Some? && !Resumes(existing.value.plan, file) {
        return Err;
      }
      var plan := PlanFor(file, existing, random);
      if faults(Saving).Before? {
        return Err;
      }
      Save(plan);
      if !faults(Saving).Fine? {
        return Err;
      }
      r := Upload(plan, file, caching, faults);
    }

    method Save(plan: Plan)
      requires Valid() && WellFormed(plan)
      requires plan in plans || forall p :: p in plans ==> p.key != plan.key && p.blobId != plan.blobId
      modifies this`plans
      ensures Valid() && plans == old(plans) + {plan}
    {
      hide Honest, WellFormed, IsChunk;
      assert plan !in plans ==> plan.blobId !in blobs;
      plans := plans + {plan};
    }

    /** Everything after the plan is saved. */
    method Upload(p: Plan, file: Attachment, caching: bool, faults: Step -> Fault) returns (r: Result<Manifest>)
      requires Valid() && p in plans && Resumes(p, file)
      modifies this`blobs, this`cache, this`sealings
      ensures Valid() && old(sealings) <= sealings
      ensures r.Ok? ==> r.value == ManifestOf(p) && Uploaded(blobs, p) && (caching ==> AllCached(cache, p, p.chunkCount))
      ensures (forall s :: faults(s).Fine?) ==> r.Ok?
    {
      hide Completable, Honest, Resumes, ValidState, ManifestOf, CacheOk;
      if faults(Reserving).Before? {
        return Err;
      }
      Reserve(p);
      if !faults(Reserving).Fine? || !faults(Asking).Fine? {
        return Err;
      }
      var uploaded, completed := blobs[p.blobId].rows.Keys, blobs[p.blobId].completed;
      CompletedHasAll(plans, blobs, sealings, p);
      var index := 0;
      while index < p.chunkCount
        invariant index <= p.chunkCount && p.blobId in blobs
        invariant Valid() && old(sealings) <= sealings
        invariant blobs[p.blobId].completed == completed && uploaded <= blobs[p.blobId].rows.Keys
        invariant completed ==> forall i: nat :: i < p.chunkCount ==> i in uploaded
        invariant forall i: nat :: i < index ==> i in blobs[p.blobId].rows
        invariant caching ==> AllCached(cache, p, index)
      {
        if !faults(Reading(index)).Fine? {
          return Err;
        }
        if index !in uploaded || caching {
          var ok := StoreChunk(p, file, index, index !in uploaded, caching, faults);
          if !ok {
            return Err;
          }
        }
        index := index + 1;
      }
      if !completed {
        AllStoredIsCompletable(plans, blobs, sealings, p);
        if faults(Completing).Before? || !Completable(blobs[p.blobId]) {
          return Err;
        }
        Replace(p, blobs[p.blobId].(completed := true));
        if !faults(Completing).Fine? {
          return Err;
        }
      }
      CompletedHasAll(plans, blobs, sealings, p);
      if !faults(Measuring).Fine? {
        return Err;
      }
      return Ok(ManifestOf(p));
    }

    method Reserve(p: Plan)
      requires Valid() && p in plans
      modifies this`blobs
      ensures Valid() && p.blobId in blobs
    {
      if p.blobId !in blobs {
        blobs := blobs[p.blobId := Blob(p.chunkCount, p.encryptedSize, map[], map[], false)];
      }
    }

    /** Encrypts one chunk, stores it unless the store has it, and keeps it in the cache when asked to. */
    method StoreChunk(p: Plan, file: Attachment, index: nat, missing: bool, caching: bool, faults: Step -> Fault) returns (ok: bool)
      requires Valid() && p in plans && Resumes(p, file) && p.blobId in blobs && index < p.chunkCount
      requires missing ==> !blobs[p.blobId].completed
      modifies this`blobs, this`cache, this`sealings
      ensures Valid() && old(sealings) <= sealings && p.blobId in blobs
      ensures blobs[p.blobId].completed == old(blobs)[p.blobId].completed
      ensures old(blobs)[p.blobId].rows.Keys <= blobs[p.blobId].rows.Keys
      ensures ok && missing ==> index in blobs[p.blobId].rows
      ensures old(cache).Keys <= cache.Keys && (ok && caching ==> (p.blobId, index) in cache)
      ensures (forall s :: faults(s).Fine?) ==> ok
    {
      hide Completable, ChunkOf, Resumes, Put, CacheOk;
      var chunk := EncryptChunk(p, file, index);
      if missing {
        PutKeepsHonest(blobs[p.blobId], p, index, faults(Sending(index)));
        var put := Put(blobs[p.blobId], index, chunk, faults(Sending(index)));
        Replace(p, put.blob);
        if !put.ok {
          return false;
        }
      }
      if caching {
        if !faults(Caching(index)).Before? {
          CachedOneMore(plans, cache, p, index);
          cache := cache[(p.blobId, index) := chunk];
        }
        if !faults(Caching(index)).Fine? {
          return false;
        }
      }
      return true;
    }

    method EncryptChunk(p: Plan, file: Attachment, index: nat) returns (c: Cipher)
      requires Valid() && p in plans && Resumes(p, file) && index < p.chunkCount
      modifies this`sealings
      ensures Valid() && c == ChunkOf(p, index) && sealings == old(sealings) + {c}
    {
      c := Sealed(p.key, ChunkIv(p.ivPrefix, index), Aad(p.blobId, index, p.chunkCount, |file.bytes|), Slice(file.bytes, index));
      assert c == ChunkOf(p, index) && IsChunk(p, c);
      sealings := sealings + {c};
    }

    /** The store's copy of the plan's blob changes to another honest one. */
    method Replace(p: Plan, b: Blob)
      requires Valid() && p in plans && p.blobId in blobs && Honest(b, p)
      modifies this`blobs
      ensures Valid() && blobs == old(blobs)[p.blobId := b]
    {
      blobs := blobs[p.blobId := b];
    }
  }

  /** A download succeeds exactly when the manifest passes, every chunk opens and the whole has the
      manifest's digest; then it is the file that was uploaded, whatever the server answered. */
  method DecryptAttachmentFile(m: Manifest, kind: Kind, media: Media, replies: nat -> Option<Cipher>, spools: bool)
    returns (r: Result<Bytes>)
    ensures r.Ok? ==> r.value == m.sha256.bytes && |r.value| == m.originalSize
    ensures r.Ok? <==>
            && IsManifest(m, kind, media) && (Streamed(m, kind, media) ==> spools)
            && var read := ReadChunks(m, m.chunkCount, replies);
               read.Some? && |read.value| == m.originalSize && Sha256(read.value) == m.sha256
  {
    if !IsManifest(m, kind, media) {
      return Err;
    }
    hide IsManifest, ReadChunk, Streamed;
    var parts: Bytes, index := [], 0;
    while index < m.chunkCount
      invariant index <= m.chunkCount
      invariant ReadChunks(m, index, replies) == Some(parts)
      invariant 0 < index == m.chunkCount ==> |parts| == m.originalSize && Sha256(parts) == m.sha256
    {
      var bytes := ReadChunk(m, index, replies(index));
      if bytes.None? {
        NothingAfterGap(m, index + 1, m.chunkCount, replies);
        return Err;
      }
      parts := parts + bytes.value;
      index := index + 1;
      if index == m.chunkCount && (|parts| != m.originalSize || Sha256(parts) != m.sha256) {
        return Err;
      }
    }
    if Streamed(m, kind, media) && !spools {
      return Err;
    }
    return Ok(parts);
  }

  /** Upload and download are inverse: of a finished upload, a server that returns what it stored gives the
      original bytes exactly when the file's own names pass the reader's checks. */
  lemma RoundTripExactly(file: Attachment, kind: Kind, media: Media, p: Plan, blobs: map<BlobId, Blob>, replies: nat -> Option<Cipher>)
    requires FileAccepted(file, kind, media) && Resumes(p, file) && WellFormed(p) && Uploaded(blobs, p)
    requires forall i: nat :: i in blobs[p.blobId].files ==> replies(i) == Some(blobs[p.blobId].files[i])
    ensures IsManifest(ManifestOf(p), kind, media) <==> Reopens(file, kind)
    ensures ReadChunks(ManifestOf(p), p.chunkCount, replies) == Some(file.bytes) && ManifestOf(p).sha256 == Sha256(file.bytes)
  {
    ReopensExactly(file, kind, media, p);
    hide IsManifest, FileAccepted, Reopens;
    StoredChunksJoin(p, p.chunkCount, replies);
    SlicesPartition(file.bytes);
  }
}
