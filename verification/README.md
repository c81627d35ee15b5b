# Verified model of the chat client's algorithms and protocols

This project models the parts of an end-to-end encrypted chat client in which a mistake loses history or
corrupts what is shown, and proves what they promise.

- **GIF suite** (`Bits`, `Lzw`, `Palette`, `Dither`, `DisplayCopy`, `GifFormat`, `ImageAnimation`): the hand-written
  GIF89a encoder of the display copy, a decoder and a reader written from the format, and the container walker.
  Everything that is written reads back, and the exact condition for losing no colour is proved.
- **Message list** (`ChatRenderWindow`, `MessageReducers`, `MessageFacts`, `ChatProjections`): the Fenwick-tree window and the
  incremental index over the three event reducers, which are modelled themselves, said in terms of
  messages and roles, and shown to be local to a bucket.
- **Chamber backup** (`ChamberHistoryRecord`, `ChamberHistory`, `ChamberHistoryRecovery`,
  `ChamberHistoryRows`): a writer that may die between
  any two steps and a recovery that walks the chain of records backwards and may die and resume.
- **Cloud backup** (`CloudArchive`, `CloudBackup`, `HistoryRestore`): archive parts and envelopes, then the two-pass
  restore over several archives with its audit.
- **Other protocols** (`FileCrypto`, `DraftCheckpoint`, `BrowserCatalog`, `RoomSocket`, `CallSignalQueue`,
  `HistoryProjection`): resumable upload and verified download, the multi-tab draft, the shared catalog, the flow
  control of the socket, the retry queue of call signals, and the merge of history streams.
- `Sequences`, `Sorting` and `Wrappers` hold what several of these use.

Classes have the fields of the program's classes and methods that change them. Where a program may stop at any
await, a method takes the faults as an argument or the steps form a machine over which every run is considered.
Arrivals, clock readings and server answers are arguments too. Sealing and hashing are ideal: a sealed value is a term
that opens only under its own key and associated data, and a digest determines what it was taken of.

Four promises that one would expect do not hold of the code as it stands. Each has its exact condition and a
case in which it fails:

- An accepted draft may be lost between two tabs: see `LosesExactly`, `DraftCanBeLost` and `LateDraftIsLost`.
- Two sync requests may be outstanding: see `AtMostOneOutstanding`, `TwoRequestsOutstanding` and `FirstPageOvertakes`.
  The cause is the first page after authentication, which the server sends without being asked.
- A recovery may report fewer imported rows than it has stored: see `Recovery.Complete` and `DyingBeforeCheckpoint`.
- An uploaded image or recording may be impossible to open: see `ReopensExactly` and `OldImageCannotBeOpened`.

Two others hold under a law that the rest of the program keeps, and fail without it. The projection index is that of
the whole history as long as message ids keep to one bucket (`RefoldIsExact`, `NothingStolenAtHome`); immutable
payloads see to that, and `MovedMessageLosesItsTombstone` shows why the law is needed. Rooms stay in the catalog because
every device validates its directory (`RoomsStayListed`); `LongNameHidesRoom` shows why it must.

Rows that reach the history below the backup cursor are the one kind of row that cloud backup leaves out; see
`RowIsBackedUpExactly`.

## Model

| member | source | states |
|---|---|---|
| Lzw.Encode | src/lib/display-copy.ts:99-146 | an independent LZW decoder (GIF89a, appendix F) run on the bytes gives back exactly the indices, or the single index 0 for empty input, for every index list and code size from 2 to 11; the output is at most three bytes an index and eight more |
| Lzw.Coder.Write | src/lib/display-copy.ts:113-121 | the bits written so far, least significant first, grow by exactly the code at the current width, and the buffer keeps fewer than eight bits |
| Lzw.Coder.EmitPending | src/lib/display-copy.ts:128-140 | emitting a code keeps coder and decoder in step: the decoder, one dictionary entry behind, has produced exactly the input before the pending phrase, across width growth and the restart at 4096 codes |
| Lzw.ReadPending | src/lib/display-copy.ts:128-139 | the decoder reads the code of the pending phrase as that phrase even when it has not yet made the entry itself, and its next width is the coder's |
| Lzw.EndStops | src/lib/display-copy.ts:142-145 | the end code ends the decoding with the output so far although it may be one bit narrower than the decoder's width, whatever zero padding follows |
| Lzw.RunStep | src/lib/display-copy.ts:99-146 | appending one data code in the decoder's width appends exactly one decoder step, so both sides agree on every code's width |
| Bits.ToBitsConcat | src/lib/display-copy.ts:113-121 | placing a code above the bits in the buffer concatenates the two bit strings |
| DisplayCopy.SubBlocks | src/lib/display-copy.ts:148-156 | the minimum code size, then chunks of at most 255 bytes with their lengths and the empty chunk |
| DisplayCopy.JoinSplit | src/lib/display-copy.ts:148-156 | joining the chunks gives back the bytes, in no more chunks than 255-byte pieces need |
| Palette.ExactColors | src/lib/display-copy.ts:36-48 | the distinct opaque colours of all frames in order of appearance, or more than the limit when there are too many |
| Palette.PaletteIsExact | src/lib/display-copy.ts:36-48 | when the opaque colours fit the limit the palette holds exactly them, each once |
| Palette.CountBuckets | src/lib/display-copy.ts:49-62 | the sums and counts of the sampled opaque colours per five-bit bucket |
| Palette.ByCountSorts | src/lib/display-copy.ts:63-66 | the buckets are reordered by falling count and none is lost or repeated |
| Palette.PaletteFromFrames | src/lib/display-copy.ts:36-67 | the palette is the exact one, or the popular one that `PopularPalette` is about |
| Palette.PopularPalette | src/lib/display-copy.ts:49-66 | with more opaque colours than the limit, each entry agrees with its samples in the five leading bits of red, green and blue and is, channel by channel, the integer nearest to the mean of exactly the samples like it; entries stand for different kinds of samples, and no kind that is left out has more samples than one that is kept |
| Palette.KeptWithinSeven | src/lib/display-copy.ts:53-66 | a sample of a kept kind is within seven levels of a palette entry in every channel |
| Palette.SampledExactly | src/lib/display-copy.ts:50-54 | the samples are the opaque ones of every fourth pixel of each frame |
| Dither.Nearest | src/lib/display-copy.ts:21-34 | the first palette entry at the least distance |
| Dither.NearestIsUnique | src/lib/display-copy.ts:21-34 | only one index is the first at the least distance |
| Dither.Spread | src/lib/display-copy.ts:83-94 | one pixel's error reaches exactly its opaque right and lower neighbours in the row, in shares 7, 3, 5 and 1 of 16 |
| Dither.IndexFrame | src/lib/display-copy.ts:69-97 | pushing errors forward in place gives every pixel the index that pulling what its earlier neighbours owe it gives |
| Dither.ValueIsOwnAndOwed | src/lib/display-copy.ts:83-94 | in each channel a pixel's value is its own level and 7, 3, 5 and 1 sixteenths of the errors of its left, upper right, upper and upper left neighbours |
| Dither.NothingIsLost | src/lib/display-copy.ts:76-82 | what a pixel shows and what it passes on add up to its value within range |
| Dither.ClampIsNearest | src/lib/display-copy.ts:76-82 | and that is the nearest level within range |
| Dither.NoError | src/lib/display-copy.ts:69-97 | when every opaque colour is in the palette no error arises anywhere |
| Dither.IndexedIsLossless | src/lib/display-copy.ts:69-97 | then an opaque pixel's index names its own colour and a transparent pixel gets the transparent index |
| DisplayCopy.EncodeFrame | src/lib/display-copy.ts:173-179 | one frame's bytes are a control block and an image whose payload decodes to the frame's indices |
| DisplayCopy.ReadWritten | src/lib/display-copy.ts:159-182 | a reader written from the format finds in the written blocks the screen, the palette, every delay, the transparent entry and every frame's indices |
| DisplayCopy.EncodeAnimatedGif | src/lib/display-copy.ts:159-182 | for every size and frame list the bytes read back as exactly the intended pictures; the container walker answers animated exactly for two or more frames and never fails while each frame keeps to the pixel limit |
| DisplayCopy.LosslessExactly | src/lib/display-copy.ts:159-182 | what a reader shows equals the frames, opaque colours and transparency alike, if and only if the distinct opaque colours number at most 256, or 255 with transparency |
| DisplayCopy.LossyPalette | src/lib/display-copy.ts:159-182 | beyond that limit the table that is read back begins with the mean colours of the most frequent kinds of sampled pixels |
| DisplayCopy.TimesAndSizesSurvive | src/lib/display-copy.ts:159-179 | sizes that fit 16 bits and delays are shown as given, delays kept within 2 and 65535 |
| GifFormat.ReadGifBytes | src/lib/image-animation.ts:21-47 | the bytes of a well-formed block structure are read back in only one way, whatever follows them |
| ImageAnimation.BlobReader.Read | src/lib/image-animation.ts:7-16 | whatever window is cached, a read is the requested slice, or an error past the end or past the read limit |
| ImageAnimation.BlobReader.Skip | src/lib/image-animation.ts:25-32 | the cursor moves past one chain of sub-blocks exactly, with the reads it takes |
| ImageAnimation.BlobReader.Pass | src/lib/image-animation.ts:33-45 | one round of the loop does what passing one block of the remaining bytes does |
| ImageAnimation.DetectGifAnimation | src/lib/image-animation.ts:3-47 | the answer of the cursor and window version is that of the walk over the bytes |
| ImageAnimation.WalkBlocks | src/lib/image-animation.ts:33-47 | on well-formed blocks the walk answers whether two images occur, or fails exactly when the reads up to the second image pass the limit |
| ImageAnimation.AnimatedExactly | src/lib/image-animation.ts:19-47 | for every file with a GIF signature the answer is animated if and only if it begins with well-formed blocks up to a second image within the read limit |
| ChatRenderWindow.LowBitIsMask | src/lib/chat-render-window.ts:29-34 | the low bit of the recursion is `i & -i` in two's complement |
| ChatRenderWindow.NextOnChain | src/lib/chat-render-window.ts:29-31 | after a tree entry that covers a row, the next one that does is exactly one low bit further |
| ChatRenderWindow.ChatRenderWindow.Add | src/lib/chat-render-window.ts:29-31 | the tree represents the same heights with the one row changed |
| ChatRenderWindow.ChatRenderWindow.Offset | src/lib/chat-render-window.ts:32-36 | the exact sum of the heights of the rows before the clamped index |
| ChatRenderWindow.ChatRenderWindow.At | src/lib/chat-render-window.ts:37-45 | the clamped row whose span contains the offset |
| ChatRenderWindow.SpanIsUnique | src/lib/chat-render-window.ts:37-45 | no other row spans it |
| ChatRenderWindow.ChatRenderWindow.Measure | src/lib/chat-render-window.ts:46-52 | exactly the measured row changes, and only for a known id, a positive height and a difference of at least half a unit |
| ChatRenderWindow.ChatRenderWindow.Sync | src/lib/chat-render-window.ts:15-27 | an unchanged list changes nothing; otherwise heights survive unless the width changed by more than one, the tree represents them and the window keeps its first row where it can |
| ChatRenderWindow.ChatRenderWindow.Choose | src/lib/chat-render-window.ts:53-58 | below 201 rows the window is everything; above, it is exactly 96 rows, contains the centre, and stays put while frozen |
| ChatRenderWindow.ChatRenderWindow.Mounted | src/lib/chat-render-window.ts:59-68 | strictly ascending and exactly the window together with the known ones of the first four pins |
| MessageReducers.FactIsOwned | src/lib/chat-projections.ts:81-85 | every fact the three reducers produce is about a message of one bucket |
| MessageReducers.FactIsLocal | src/lib/chat-projections.ts:104-108 | the reducers on that bucket's messages alone produce the same fact |
| MessageReducers.ReadFactIsLocal | src/lib/message-read.ts:14-40 | which messages of a bucket are read can be told from the bucket alone |
| MessageReducers.FactsAreDisjointUnion | src/lib/chat-projections.ts:68-114 | without event ids across buckets, the whole history's facts are the disjoint union of the buckets' facts |
| MessageReducers.OrderedInBucket | src/lib/message-deletions.ts:72-102 | deduplicating and ordering events commutes with taking one bucket |
| MessageReducers.TombstonesAreLocal | src/lib/message-deletions.ts:104-126 | a bucket's tombstones are those of the whole history |
| MessageReducers.ByTargetIsLocal | src/lib/reactions.ts:75-97 | a bucket's reactions are those of the whole history |
| MessageReducers.ContentHasNoFacts | src/lib/chat-projections.ts:103-103 | a group without events has no facts, so skipping it is right |
| MessageFacts.ReadsExactly | src/lib/message-read.ts:14-40 | a message is marked as read if and only if a device of the other role has confirmed, under a later number, that it has shown this very unambiguous message, by the kind of event that its content needs |
| MessageFacts.OwnReadsMarkNothing | src/lib/message-read.ts:31-34 | without all read events about messages of the reader's own role the marks are the same |
| MessageFacts.KeptAt | src/lib/message-deletions.ts:87-93 | of the copies of one event the first confirmed one counts, and while there is none the last one |
| MessageFacts.OrderedAt | src/lib/message-deletions.ts:96-102 | the events that count are folded in this order: confirmed ones by server number, then the others, reactions by their time; position decides ties |
| MessageFacts.TombstonesExactly | src/lib/message-deletions.ts:104-126 | a message has a tombstone if and only if an event that counts, of a device of its author's own role, names this very unambiguous message; it is that of the first such event |
| MessageFacts.BadgesExactly | src/lib/reactions.ts:75-97 | the badge of a role is what the role's last reaction that counts says, which may be that there is none |
| MessageFacts.StatusDecides | src/lib/message-read.ts:8-11 | which messages are confirmed, optimistic, content or events |
| MessageFacts.ReducedMeans | src/lib/chat-projections.ts:81-85 | so the reducers' result means exactly that of every message |
| ChatProjections.ChatProjections.Compare | src/lib/chat-projections.ts:41-65 | entries and groups become those of the new messages, and the dirty groups are exactly those of changed entries |
| ChatProjections.CleanGroup | src/lib/chat-projections.ts:41-64 | a group that is not dirty holds what it held |
| ChatProjections.ChatProjections.Collides | src/lib/chat-projections.ts:71-78 | true exactly when one event id occurs in two groups |
| ChatProjections.ChatProjections.Refold | src/lib/chat-projections.ts:95-114 | each dirty group's old facts are taken out and its fresh ones put in, in order, and its stored result is fresh |
| ChatProjections.RefoldIsExact | src/lib/chat-projections.ts:91-114 | refolding gives the reducers' result on the whole history if and only if no dirty group takes back a fact that an earlier one has just contributed |
| ChatProjections.NothingStolenAtHome | src/lib/chat-projections.ts:95-114 | that never happens while every message id keeps to one bucket |
| ChatProjections.ChatProjections.Update | src/lib/chat-projections.ts:35-115 | after any sequence of updates, role changes and collisions entered and left, the index stays exact if and only if nothing is stolen in an update; under the law that message ids keep to a bucket it always is; and an exact index says of every message what `MessageFacts` says of the messages and roles: read by the other role, deleted by its own, badges as last set |
| ChatProjections.BatchMeans | src/lib/chat-projections.ts:79-85 | the specification of the index, said of the messages, the roles and the number of messages that may carry read events |
| ChatProjections.MovedMessageLosesItsTombstone | src/lib/chat-projections.ts:95-113 | why the law is needed: refolding a history in which a message has moved to another sequence number would lose its tombstone |
| ChamberHistoryRecord.CoverageIsExact | src/lib/chamber-history-record.ts:69-77 | sorting rows and omitted numbers to a consecutive list of the right length is the same as covering each number of the range exactly once |
| ChamberHistoryRecord.ValidChamberHistoryPayload | src/lib/chamber-history-record.ts:52-80 | the loop accepts exactly the payloads that satisfy the declarative rule, kind by kind |
| ChamberHistory.PlanIsComplete | src/lib/chamber-history.ts:67-86 | the upload plan lists every part of every manifest of the rows exactly once |
| ChamberHistory.SnapshotCovers | src/lib/chamber-history.ts:63-73 | a consecutive page is split into the rows that are backed up and omitted numbers, which cover its range exactly: a row is left out, and its number omitted, if and only if it is a safe row and the role is the joiner |
| ChamberHistory.StepKeepsInv | src/lib/chamber-history.ts:101-142 | any step of any device, with a crash before or after it, keeps uploaded references and marks a prefix of the plan, pending units sound and everything cited stored |
| ChamberHistory.RunKeepsInv | src/lib/chamber-history.ts:93-153 | so does every run from the start |
| ChamberHistory.PublishedHeadsAreChained | src/lib/chamber-history.ts:120-139 | in every reachable state each head ever accepted reaches, record by record, only stored records that cover their ranges exactly, start where the previous one ends and cite only stored attachments and marks |
| ChamberHistory.SealFailsOnlyOnLimits | src/lib/chamber-history.ts:111-123 | what is sealed is refused by the validator only for its size limits, never for coverage |
| ChamberHistory.ReplayFinishes | src/lib/chamber-history.ts:127-141 | from any reachable state with a pending unit, sending it again and committing finishes it, however often it was sent before |
| ChamberHistory.HeadIsAccepted | server/chamber-history.mjs:24-52 | the server accepts the pending head at every such point |
| ChamberHistory.HeadsMoveOn | server/chamber-history.mjs:24-52 | whatever head is sent, a device's head on the server only gives way to one of greater revision that names a stored unit of the device under its own digest |
| ChamberHistory.UnitsAreFinal | server/chamber-history.mjs:24-52 | whatever unit is sent, a stored one is never replaced |
| ChamberHistory.ChamberBackup.Upload | src/lib/chamber-history.ts:108-141 | one unit is made durable, sent and committed, or the program dies, or the validator refuses the payload; the steps taken are a run of the machine |
| ChamberHistory.ChamberBackup.Sync | src/lib/chamber-history.ts:93-142 | a pass of up to ten units, dying anywhere, only extends the run, reports up to date only when nothing is left to back up, is refused only for size limits, and otherwise leaves less to do than there was |
| ChamberHistory.ChamberBackup.SyncAll | src/lib/chamber-history.ts:93-142 | repeated passes without faults end up to date, unless a payload exceeds the size limits; what has been read of the history stays what it holds |
| ChamberHistoryRows.RunKeepsTold | src/lib/chamber-history.ts:63-139 | in every run each record of every device's chain and every published head tells only rows that the device has read, and omits only numbers of a joiner's safe rows |
| ChamberHistoryRows.RowIsInChain | src/lib/chamber-history.ts:63-139 | each row that was read up to a head is in one record of its chain, unless it is a joiner's safe row, whose number is then omitted |
| ChamberHistoryRows.SpelledMarks | src/lib/chamber-history.ts:118-119 | the cited preference slices, joined in order, are the hidden and the gallery marks |
| ChamberHistoryRows.PendingMarks | src/lib/chamber-history.ts:118-139 | so the messages record that ends a batch cites exactly the batch's marks |
| ChamberHistoryRows.UpToDateIsBackedUp | src/lib/chamber-history.ts:52-73 | a device that is up to date has behind its published head every local row but a joiner's safe rows, and its current marks |
| ChamberHistoryRows.BackUp | src/lib/chamber-history.ts:93-153 | repeated passes without faults over a whole history: in the end all of it is backed up so, unless a payload exceeds the size limits |
| ChamberHistoryRecovery.SelectUnits | src/lib/chamber-history-recovery.ts:55-65 | the page loop collects exactly the units at or below their device's head revision, or refuses when there are too many |
| ChamberHistoryRecovery.SelectionIsEnough | src/lib/chamber-history-recovery.ts:54-65 | those units contain the whole chain below every head, because everything cited has a smaller revision |
| ChamberHistoryRecovery.ChainCovers | src/lib/chamber-history-recovery.ts:141-187 | every number from the base to the head is a row of one record of the chain or omitted by it |
| ChamberHistoryRecovery.NotBehind | src/lib/chamber-history-recovery.ts:146-146 | after any resume from the checkpoint the walk never meets a record twice, so the duplicate check cannot fire |
| ChamberHistoryRecovery.Recovery.Follow | src/lib/chamber-history-recovery.ts:143-185 | from where the checkpoint stands one head's chain is followed to its end; each record's marks, media and rows are restored before the checkpoint passes it |
| ChamberHistoryRecovery.Recovery.Complete | src/lib/chamber-history-recovery.ts:113-189 | recovery terminates; it fails only on more marks than the limit; when done, every head's chain is restored, and the reported count is that of all rows stored since the recovery began except those stored by processes that died before the next checkpoint, so it is exact if and only if there are none |
| ChamberHistoryRecovery.DyingBeforeCheckpoint | src/lib/chamber-history-recovery.ts:179-183 | a process that dies after storing the rows of a record and before the checkpoint: the completed recovery's count is short by exactly those rows |
| ChamberHistoryRecovery.RecoveryIsComplete | src/lib/chamber-history-recovery.ts:141-187 | then every number between base and head is omitted by its record or is a row that is stored, in scope, with every part of its media |
| ChamberHistoryRows.EveryRowIsRecovered | src/lib/chamber-history-recovery.ts:141-187 | once a head is restored every row that its writer had read up to it is stored with its media, but for a joiner's safe rows and what a chat recovery does not ask for |
| ChamberHistoryRows.EveryMarkIsRecovered | src/lib/chamber-history-recovery.ts:155-166 | and so are the marks that its last record cites |
| ChamberHistoryRows.WrittenRowsAreRecovered | src/lib/chamber-history-recovery.ts:52-187 | from end to end: after any run of the writers and a completed recovery of their published heads, every row that a writer had read is back, with the same two exceptions |
| ChamberHistoryRecovery.PublishedHeadsCanBeAsked | src/lib/chamber-history-recovery.ts:52-70 | heads published by any run of the writer meet all that recovery asks |
| DraftCheckpoint.RunKeepsInv | src/lib/draft-checkpoint.ts:24-72 | for any interleaving of the tabs' storage operations, dying anywhere, the owner always names a complete record |
| DraftCheckpoint.OldTabsCannotInterfere | src/lib/draft-checkpoint.ts:45-52 | a tab that is not the owner changes the current draft only by publishing itself |
| DraftCheckpoint.LosesExactly | src/lib/draft-checkpoint.ts:45-72 | a step leaves the last accepted draft readable if and only if it is careful: no owner is published over a draft other than the one it has read, and no accepted write goes to a record that is no longer the owner's |
| DraftCheckpoint.CarefulRunsLoseNothing | src/lib/draft-checkpoint.ts:24-72 | runs of careful steps never lose an accepted draft |
| DraftCheckpoint.DraftCanBeLost | src/lib/draft-checkpoint.ts:27-48 | two tabs do lose one: the second reads, the first accepts a draft, the second publishes what it read |
| DraftCheckpoint.LateDraftIsLost | src/lib/draft-checkpoint.ts:65-72 | or: the first has checked that it is the owner, the second takes over, and the first accepts a draft that nobody reads |
| DraftCheckpoint.DraftCheckpoint.Write | src/lib/draft-checkpoint.ts:65-72 | accepted exactly for the live owner and a draft within the limit; then it is what reopening reads; refused, it changes nothing |
| DraftCheckpoint.OpenDraftCheckpoint | src/lib/draft-checkpoint.ts:24-52 | opening alone yields the last draft, or the empty one under a new revision if that revision was committed, and makes the new tab the owner of a complete record |
| BrowserCatalog.MergeCatalogSpaces | src/lib/browser-access.ts:35-58 | the in-place merge over an ordered map is the merge of the specification |
| BrowserCatalog.MergedExactly | src/lib/browser-access.ts:35-58 | it lists exactly what remote and local entries resolve to, each room once |
| BrowserCatalog.NoTombstoneIsListed | src/lib/browser-access.ts:35-58 | no removed room is listed |
| BrowserCatalog.LiveRoomIsLostExactly | src/lib/browser-access.ts:38-57 | a live remote room is lost if and only if what the local entries make of it may not be listed |
| BrowserCatalog.LongNameHidesRoom | src/lib/browser-access.ts:42-57 | why the directory checks names: a local entry with too long a name, which no valid directory holds, would take a live room off the list |
| BrowserCatalog.MergeIsIdempotent | src/lib/browser-access.ts:35-58 | merging the same local list again changes nothing, not even the order |
| BrowserCatalog.SuccessorIsSound | src/lib/browser-access.ts:195-205 | whatever task makes the next document keeps all tombstones, lists none of them and each room once |
| BrowserCatalog.AcceptedExactly | src/lib/browser-access.ts:188-218 | a write is taken if and only if the document was read as it is and nothing makes the client give up: a removal whose room is not waiting any more or has gone, a deletion that was made already, and too many tombstones give up |
| BrowserCatalog.RemovalTakesEffect | src/lib/browser-access.ts:357-367 | an accepted removal tombstones exactly that room, takes it off the list and leaves every other entry as it was |
| BrowserCatalog.DeletionTakesEffect | src/lib/browser-access.ts:199-205 | an accepted publication adds exactly its own tombstones and that of the room it deletes, and lists none of them |
| BrowserCatalog.TakenOffForGood | src/lib/browser-access.ts:357-374 | after an accepted removal no later document of any run lists the room |
| BrowserCatalog.DeletedForGood | src/lib/browser-access.ts:219-240 | nor after an accepted deletion |
| BrowserCatalog.LocalEntryIsListed | src/lib/browser-access.ts:38-57 | a local entry that may be listed is listed, field by field over what the catalog had of the room |
| BrowserCatalog.AnnouncedRoomsAreListed | src/lib/browser-access.ts:219-240 | after an accepted announcement every room of the directory that the device still has and that is not tombstoned is listed with the directory's name, picture and state |
| BrowserCatalog.StepKeepsInv | src/lib/browser-access.ts:188-218 | so does every read or compare-and-swap write of any device, fresh or stale |
| BrowserCatalog.NoLiveRoomIsLost | src/lib/browser-access.ts:323-374 | a listed room is still listed after any step of sound publications, or has been removed |
| BrowserCatalog.PublicationIsAllowed | src/lib/spaces.ts:101-112 | whatever a device publishes from its directory, which is validated on every read and write, and from the entries it has prepared may be listed |
| BrowserCatalog.PreparingKeepsDevice | src/lib/browser-access.ts:79-108 | preparing an entry for the catalog keeps what a device has prepared fit to be listed |
| BrowserCatalog.MoveKeepsInv | src/lib/browser-access.ts:219-240 | any move of any device (a change of its directory, a preparation, a publication, a removal, a request to the server) keeps directories, prepared entries and all tasks under way sound |
| BrowserCatalog.RoomsStayListed | src/lib/browser-access.ts:188-240 | over any run of any number of devices a listed room is listed afterwards if and only if it has not been tombstoned |
| BrowserCatalog.RemovedRoomsStayRemoved | src/lib/browser-access.ts:188-218 | over any run of any number of devices tombstones only grow and a removed room is never listed again |
| HistoryProjection.MergeHistoryProjection | src/lib/history-projection.ts:3-36 | fails exactly when two ascending streams disagree at a number; otherwise passes on exactly the last stream in order and returns, sorted by number, for each client id the latest event of the canonical rows |
| HistoryProjection.Compare | src/lib/history-projection.ts:17-24 | the heads at a number agree exactly when the streams do, and the last one that has it is canonical |
| HistoryProjection.NextHeads | src/lib/history-projection.ts:26-29 | exactly the readers that stood at the number move on by one row |
| HistoryProjection.KeptIsTracked | src/lib/history-projection.ts:10-32 | the map of events holds exactly the rows to be kept |
| RoomSocket.RoomSocket.SendDurable | src/lib/api.ts:724-744 | a key in flight is not sent again; otherwise it is written and reserved exactly when there are fewer than eight sends and 512 KiB are not passed; the byte count is always the sum over the window |
| RoomSocket.RoomSocket.OnAck | src/lib/api.ts:587-590 | one answer ends the envelope's turn, and the reservation stays for the handler |
| RoomSocket.RoomSocket.FinishCompletion | src/lib/api.ts:760-769 | on the same connection exactly the acknowledged send is released, on another none |
| RoomSocket.RoomSocket.OnError | src/lib/api.ts:603-611 | a rejection hands over exactly the one outstanding envelope of that id |
| RoomSocket.RoomSocket.FinishFrame | src/lib/api.ts:633-655 | queued work runs only on its own connection; a rejection then releases exactly the send that it was reserved for, by its stamp, and nothing otherwise; after the last page a queued sync request goes out |
| RoomSocket.RoomSocket.OnSyncPage | src/lib/api.ts:563-582 | a page clears the flag and adds one page to apply, whether it answers a request or was pushed; the sync state takes the step of the flow machine that `AtMostOneOutstanding` is about |
| RoomSocket.RoomSocket.RequestSync | src/lib/api.ts:776-786 | none starts while one is in flight or a page is being applied; then the smallest cursor is queued |
| RoomSocket.RoomSocket.ReserveFrame | src/lib/api.ts:633-643 | at most 128 frames and 20 MiB wait; beyond, the connection is closed |
| RoomSocket.RoomSocket.OnClose | src/lib/api.ts:505-530 | the close of an earlier connection is ignored; that of this one empties window, counters and sync state |
| RoomSocket.AtMostOneOutstanding | src/lib/api.ts:563-582 | over every run of connections, requests, answers, pushed pages, applied pages and closes: at most one client request is ever outstanding if and only if no pushed page arrives while a request is in flight and is followed by a further request before the server answers or the connection goes |
| RoomSocket.OneWithoutOvertaking | src/lib/api.ts:563-582 | so as long as pushed pages arrive only while no request is in flight, there is never more than one |
| RoomSocket.TwoRequestsOutstanding | src/lib/api.ts:563-582 | from every valid open state with a request in flight and room in the frame queue: a pushed page, its application and one more request leave one more request outstanding, at least two |
| RoomSocket.FirstPageOvertakes | server/index.mjs:1693-1695 | on a new connection with an empty frame queue the page that the server pushes after authentication does just that |
| CallSignalQueue.CallSignalQueue.Send | src/lib/call-signal-queue.ts:11-22 | a confirmed or pending signal is not queued twice, a full queue refuses, anything else gets a new promise, at most the lifetime as deadline, and is flushed; all invariants hold |
| CallSignalQueue.CallSignalQueue.Acknowledge | src/lib/call-signal-queue.ts:23-31 | exactly the acknowledged signal leaves with its promise resolved and its key remembered, the oldest of 512 making room |
| CallSignalQueue.CallSignalQueue.Reject | src/lib/call-signal-queue.ts:32-39 | a try-later code postpones the signal, any other settles its promise, an unknown key changes nothing |
| CallSignalQueue.CallSignalQueue.Flush | src/lib/call-signal-queue.ts:40-53 | overdue signals time out; exactly the due ones, or all after a reconnection, are written once in order with the original envelope; the timer is armed exactly when something stays pending |
| CallSignalQueue.CallSignalQueue.Cancel | src/lib/call-signal-queue.ts:54-59 | exactly the call's signals leave with their promises rejected |
| CallSignalQueue.CallSignalQueue.Close | src/lib/call-signal-queue.ts:60-60 | every promise still owed is rejected, both tables are empty and no timer stays armed |
| CallSignalQueue.LeavingKeepsBook | src/lib/call-signal-queue.ts:11-60 | every promise is owed by exactly one entry with the envelope it was given for or settled, never both |
| CallSignalQueue.SettlingIsFinal | src/lib/call-signal-queue.ts:11-60 | a settled promise keeps its outcome: each send settles at most once |
| CallSignalQueue.LateFlushSettles | src/lib/call-signal-queue.ts:40-53 | the first flush at or after a signal's expiry, or thirty seconds after it was sent, leaves its promise settled |
| CallSignalQueue.FlushedOnes | src/lib/call-signal-queue.ts:40-51 | what a flush keeps and writes, entry by entry, in both directions |
| CallSignalQueue.BackoffDoubles | src/lib/call-signal-queue.ts:49-49 | waits start at one second and double up to eight |
| FileCrypto.IvIsUnique | src/lib/file-crypto.ts:15-20 | nonces of different prefixes or chunk indexes differ |
| FileCrypto.SlicesPartition | src/lib/file-crypto.ts:131-135 | the slices joined in order are the file |
| FileCrypto.NonceNeverReused | src/lib/file-crypto.ts:106-151 | over all uploads, crashes and resumes no key and nonce encrypt two different plaintexts |
| FileCrypto.PutKeepsHonest | server/storage.mjs:1569-1609 | storing a plan's chunk over whatever an earlier attempt left never conflicts, always fits the announced size, and keeps every stored chunk the plan's own |
| FileCrypto.StoredChunksAreFinal | server/storage.mjs:1569-1609 | whatever is sent, a stored chunk is never replaced, a completed blob never changes, and what is reported as stored is what was sent |
| FileCrypto.ReceivedFits | server/storage.mjs:1597-1606 | recorded sizes never exceed the announced size and reach it exactly when no chunk is missing |
| FileCrypto.Attachments.EncryptAttachmentFile | src/lib/file-crypto.ts:44-174 | one attempt that may stop at any step; it succeeds only for accepted files, with the plan's manifest and every chunk stored and the blob complete, and with a cache every chunk in it; the cache holds under a blob and an index only the encryption of that slice; without a fault it succeeds for every accepted file |
| FileCrypto.Attachments.Upload | src/lib/file-crypto.ts:127-154 | from any state that earlier attempts left, a fault-free attempt completes |
| FileCrypto.DecryptAttachmentFile | src/lib/file-crypto.ts:194-270 | succeeds exactly when manifest, chunks, total size and digest pass; then it returns the uploaded bytes whatever the server answered |
| FileCrypto.RoundTripExactly | src/lib/file-crypto.ts:202-242 | reading back a finished upload gives the original bytes, and its manifest is accepted for reading if and only if the file's own names and date pass the reader's checks |
| FileCrypto.AcceptedExactly | src/lib/file-crypto.ts:44-82 | which files may be uploaded: sizes, types and names, kind by kind |
| FileCrypto.ReopensExactly | src/lib/message-payload.ts:45-76 | for an accepted file those checks are a date from 1970 on, a plain name of at most 1024 and a type of at most 255 characters |
| FileCrypto.OldImageCannotBeOpened | src/lib/file-crypto.ts:65-74 | an image dated before 1970 uploads and cannot be opened |
| CloudArchive.ValidateArchivePart | src/lib/cloud-backup.ts:447-461 | accepts exactly the parts that hold the indexed room, count and range in strictly ascending supported messages |
| CloudArchive.BackupInventory | src/lib/cloud-backup.ts:44-57 | counts of chat and gallery content of a list |
| CloudArchive.PublishedCountsAreExact | src/lib/cloud-backup.ts:59-64 | the summed part counts are the counts of all messages the archive cites |
| CloudBackup.Fitted | src/lib/cloud-backup.ts:334-340 | halving ends with a non-empty prefix under the limit, or with a single message above it |
| CloudBackup.CutIsNext | src/lib/cloud-backup.ts:322-343 | the next page above the cursor, however far halved, is exactly the missing span of history |
| CloudBackup.ArrivalKeepsState | src/lib/cloud-backup.ts:319-357 | rows may arrive at any time; one above what is already cut joins a later part, one below is late for good |
| CloudBackup.SendIsAccepted | server/cloud-backups.mjs:103-160 | in every reachable state the server takes the pending envelope, as the next revision or as a repetition |
| CloudBackup.ServerMovesOn | server/cloud-backups.mjs:103-160 | whatever envelope is sent, the revision moves on by one at most, a repetition must be the same, and no archive is forgotten |
| CloudBackup.PuttingKeepsState | server/cloud-backups.mjs:172-195 | in every reachable state the pending part is stored or already there, and never conflicts |
| CloudBackup.StoredPartsAreFinal | server/cloud-backups.mjs:172-195 | whatever part is sent, a stored one is never replaced and only a writable archive takes one |
| CloudBackup.ChainHoldsEachOnce | src/lib/cloud-backup.ts:349-354 | the parts' messages in order are each history row from the start to the cursor exactly once, except exactly the late ones |
| CloudBackup.ChainIncreases | src/lib/cloud-backup.ts:349-354 | the parts are disjoint and increasing and the cursor is the last one's end |
| CloudBackup.PublishedBackupRestores | src/lib/cloud-backup.ts:234-254 | at any moment of any run the published envelope cites only stored parts, which give back that span, and its counts are those of the rows |
| CloudBackup.RowIsBackedUpExactly | src/lib/cloud-backup.ts:319-357 | a row at or below the cursor is in the archive if and only if it was not late |
| CloudBackup.RestoredRowIsLeftOut | src/lib/cloud-backup.ts:322-323 | any row restored below the cursor is then in the history but in no part of the current archive |
| CloudBackup.CloudBackup.CutPart | src/lib/cloud-backup.ts:320-345 | without an earlier pending part and a fault, a part is pending afterwards if and only if there are rows above the cursor and the pass is forced, or they are a hundred, or they have not waited for less than 45 seconds; it holds the first hundred, or their beginning when they are too large; the time from which rows wait is set once and kept until the cut; it fails only when a single row is too large |
| CloudBackup.CloudBackup.StorePart | src/lib/cloud-backup.ts:346-354 | stores the pending part, then indexes it and moves the cursor, dying anywhere |
| CloudBackup.CloudBackup.SendEnvelope | src/lib/cloud-backup.ts:256-267 | after an answer the server holds exactly the envelope of what is indexed |
| CloudBackup.CloudBackup.Sync | src/lib/cloud-backup.ts:300-357 | whatever stops a pass the state stays valid; a pass that ends leaves the server with everything indexed, and has indexed twenty more parts or left nothing, or for an automatic one less than a page that may still wait; rows that have waited 45 seconds are indexed, unless there is more than a page or a page is too large; without faults it ends unless a row alone is too large |
| HistoryRestore.ScanStopsExactly | src/lib/cloud-backup.ts:576-579 | the first pass stops exactly at a message that contradicts an earlier one in content or in id |
| HistoryRestore.ScanKeepsCounts | src/lib/cloud-backup.ts:580-596 | the running totals are the sizes of the sets they count, each number once however many archives hold it |
| HistoryRestore.HistoryRestore.Wanted | src/lib/cloud-backup.ts:531-538 | at most twenty different parts of one archive, from the wanted one on |
| HistoryRestore.HistoryRestore.Read | src/lib/cloud-backup.ts:527-557 | a part that is read, from cache, batch or answer, is the cited one, retained ciphertext stays within 8 MiB, and honest answers are enough for a part that fits to be read |
| HistoryRestore.HistoryRestore.FindMissing | src/lib/vault.ts:2026-2067 | what the device lacks of its scope, or a refusal exactly when a held record differs |
| HistoryRestore.HistoryRestore.Import | src/lib/vault.ts:2070-2105 | all that is missing is written or nothing is, and no held record changes |
| HistoryRestore.HistoryRestore.Discover | src/lib/cloud-backup.ts:570-599 | after the first pass nothing has been imported, parts not marked for reading again are already present, every counted message comes in a marked part, what is counted as missing was lacking at the start and what is lacking at the end is counted; with honest answers and no contradiction it succeeds |
| HistoryRestore.HistoryRestore.RestoreParts | src/lib/cloud-backup.ts:607-624 | the restored counts equal the totals of the first pass, every part is present, no deletion is imported any more, and what is reported as imported is new since the start, all of it if nothing else arrived; with honest answers, no contradiction and committing transactions it succeeds |
| HistoryRestore.AuditPasses | src/lib/history-restore-audit.ts:26-79 | after the second pass the audit cannot object |
| HistoryRestore.HistoryRestore.AuditRestored | src/lib/history-restore-audit.ts:26-79 | the paged audit passes if and only if every expected record is held as archived; its rows are then the numbers of expected records of their kind, of those found on the device, of those imported, of imported ones that are visible and that are not, and of all that are visible |
| HistoryRestore.HistoryRestore.LoadPage | src/lib/vault.ts:2310-2315 | a page is ascending and leaves no gap |
| HistoryRestore.HistoryRestore.RestoreUnifiedHistory | src/lib/cloud-backup.ts:503-630 | conflicting archives import nothing; on completion every archived message is on the device as it was archived, for a joiner all but those that only the gallery shows, which are never imported; restored counts equal discovered totals, the audit equals the inventory, no more is audited as imported than was found missing, and all deletions came before any content. It completes whenever the server answers with the cited parts, the parts fit the index, archives, device and arriving rows do not contradict and all transactions commit; if no rows arrive meanwhile, everything found missing is audited as imported |

## Left out

- PNG and WebP walking in `detectImageAnimation`, image decoding, canvas, video playback copies and MediaRecorder.
- LZW with a minimum code size of 1, which the format does not allow; the program always uses 8.
- Rounding: row heights and diffused errors are reals, and pixels are sequences of colours, not flat byte arrays; the bit-or of disjoint bits is addition.
- The reducers are modelled as folds over the same events; `acceptedAt` values that are not dates are excluded, and the three result collections are one map keyed by kind and id.
- ChatProjections.ChatProjections.Compare: payloads are compared by value where the source compares object identity, so a fresh object with equal contents makes the code refold a group that is clean here; the code's dirty set can be larger.
- ChatProjections: the order in which dirty groups are refolded after a role change or a fallback is arbitrary, as the order of the underlying maps does not matter to the result.
- Chamber backup: one writing process per device; attachment ids name one immutable content; quota errors and pausing end a pass; key envelopes, signatures, joint approval and peer release, and the scope `gallery` with conflicting local rows, are not modelled.
- RoomSocket: deadlines, heartbeat, reconnection delays, presence and receipts; the server answers each send once, in order. The window of a connection that is still closing when the next one starts is not cleared, in the code and in the model.
- CallSignalQueue: one clock reading serves a whole operation, ids are pairs and not joined strings, and the socket's write does not call back into the queue.
- DraftCheckpoint: `clearDraftCheckpoints`, damaged records and key derivation; storage operations are atomic.
- BrowserCatalog: `refreshBrowserCatalog`, certificates and signatures, the limit of 16384 tombstones and three attempts; that the server admits at most four devices of a participant (server/storage.mjs:848-953) and that the dates the program writes are well formed are taken as types; deleting a pending room is a publication that also adds its tombstone.
- HistoryProjection: abort signals and the reading of pages.
- FileCrypto: a resumed plan is one that this device has saved; media dimensions are only a step that may fail, a file does not change while it is read, and storage quotas and fenced devices are faults. The store of other devices' blobs is not modelled.
- CloudBackup: replacing an older backup on recovery, recovery codes, gallery marks, filling in missing counts of old parts, the skipping of unchanged automatic passes, and rows that the device drops or cannot decrypt; rows of the history are taken to be supported messages.
- HistoryRestore: only the `history` store, not `galleryHistory` and `restoredGallery`; authorization of sources, gallery marks, progress percentages and date ranges; what is visible in the audit is an argument, and so is the size of a sealed part; a batch answer over 4 MiB is one of the arbitrary answers.
- Album batching, PNG archive cards, the browser room key, gallery curation ordering, base64 and the server's zip streaming: they would add only easier members.
- WebRTC, DOM, layout, settings, localisation and the servers' routes.
