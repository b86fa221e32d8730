# Protocols of the vendored WhatsApp client, verified

This project models the small protocols inside `evolution-go-main/whatsmeow-lib`, the WhatsApp
client library of the repository, and proves what they keep over whole runs. `dafny verify
dfyconfig.toml` checks everything.

What works step by step in the source is imperative here: classes with the source's fields, methods
that change them, arrays where slices share memory, loops with invariants. Each such method is
proved equal to a specification function, and the properties are lemmas about those functions.
Goroutines that interleave, and processes that crash, are step machines: a step is one atomic
operation or one section under a lock, and the lemmas hold in every reachable state.

| module | what it models |
|---|---|
| `HistorySync` | the bounded channel, the started flag and the worker that may time out |
| `Delivery`, `DeliveryRuns`, `DeliveryClears` | buffered decryption and delivery as store-by-store steps; runs with redelivery, refusing handlers, store failures, crashes and overlapping deliveries |
| `DecryptMessages`, `DeliveryHandling`, `DeliveryOutcomes` | the same code as methods of a client, what it does with each payload, and how a delivery can end |
| `BufferKey`, `Padding`, `JidText` | the hash input that keys the event buffer; message padding; the string form of a JID and its parser |
| `AppStateSync`, `AppStateLog` | the app state fetch loop, and the same loop against an append-only server log |
| `AppStateSend` | sending a patch, with one conflict retry over a request layer that resends frames |
| `AppStateContacts` | filtering contacts in place and inserting them in bulk, against dispatching one by one |
| `KeyThrottle` | asking for a missing key at most once in 24 hours |
| `DeviceCache` | cached device lists over shared arrays, changed by notifications |
| `GroupCache` | cached group members |
| `CbcFile`, `MediaDownload`, `MediaHosts` | decryption in place, and the file form of a download against the form in memory, at one host and at several |
| `MediaUpload` | encryption for an upload, also of a file onto itself, and what a download accepts |
| `MsgSecret` | votes and edits encrypted under the secret of another message |
| `Connection`, `ConnectionRuns` | sockets, disconnects and reconnect loops |
| `KeepAlive` | the keepalive loop |

## Where the code does less than one would expect

Each of these is proved, with the exact condition or a concrete run.

- A handler that panics counts as success, and hides later refusals (`Delivery.FailedExactly`).
- Deliveries can overlap: the node handler loop stops waiting for a handler after five minutes, and
  every connection starts another loop over the same queue (client.go:562), so a handler that is still
  running across a reconnect overlaps with the next stanza.  That is harmless while no stanza arrives
  that shares a buffered payload with a running delivery (`DeliveryRuns.RepliesOnlyAfterHandling`,
  `DeliveryRuns.NeverDispatchedAfterClear`).  Otherwise a receipt can go out for a payload no handler
  has accepted (`DeliveryRuns.OverlapCanReplyWithoutHandling`), and a delivery that already holds a
  plaintext still dispatches it after another has cleared it
  (`DeliveryClears.OverlapCanDispatchAfterClear`); no delivery that starts later does
  (`DeliveryClears.OnlyHoldersDispatchAfterClear`).
- `sendIQ` sends the same frame again after a disconnect. If the first copy was accepted and its
  answer lost, the copy conflicts with the client's own patch, the conflict is applied, and the retry
  puts the patch in the log a second time (`AppStateSend.PatchTwiceExactly`, `AppStateSend.PatchCanBeTwice`).
- A sync that fails after storing a snapshot or patches of a response never hands their mutations over,
  not even in the next sync (`AppStateLog.StoredButNotCoveredIsSkipped`, `AppStateLog.MutationsCanBeSkipped`,
  `AppStateLog.SnapshotCanBeSkipped`).
- The string of a JID is said to parse back, and does unless its user or server holds a separator
  (`JidText.ParseUndoesStringExactly`); even a parsed JID can hold one (`JidText.ReparseCanFail`).
- The bulk contact insert overwrites the names of a removed contact, runs before contact entries that
  name no JID, and inserts a row for blank names where dispatching one by one inserts none
  (`AppStateContacts.BulkRefinesExactly`, `AppStateContacts.RemovalDiffers`,
  `AppStateContacts.ShortEntryDiffers`, `AppStateContacts.BlankSetDiffers`).
- A removal with a device LID but no LID hash shifts the array under the cached LID list when the list
  holds that device.  The list shows as it was exactly when it is the front of what the later unchecked
  children make of that array, which adds can bring about again (`DeviceCache.LidListIsRightExactly`,
  `DeviceCache.ReAddRestores`); the next child with a hash repairs it (`DeviceCache.CheckRepairs`).
  `dhash` is never updated (`DeviceCache.Client.HandleDeviceNotification`).
- The file download hides a fifth transient error behind a successful `Seek`, and keeps stale bytes of
  unencrypted media (`MediaDownload.PlainDownloadExactly`).  It does not reset the cursor between
  hosts, which matters exactly at a host whose first attempt delivers the file
  (`MediaHosts.HostsAgreeExactly`, `MediaHosts.LeftAtStartExactly`).
- A `Disconnect` lasts only if no goroutine can still reopen a connection
  (`ConnectionRuns.DisconnectLastsExactly`); a reconnect that only fails to dial clears the flag too
  (`ConnectionRuns.FailedReconnectForgetsDisconnect`).
- The loss of a socket is reported exactly when it is still current and no disconnect is expected at
  its callback (`ConnectionRuns.LossIsReportedExactly`); a socket that dies before its handler is set
  has no callback and is never reported (`ConnectionRuns.DeadOnArrivalIsSilent`).

## Model

| member | source | states |
|---|---|---|
| `HistorySync.FlagMeansOneOwner` | evolution-go-main/whatsmeow-lib/message.go:669-702 | in every interleaving the started flag is set exactly when there is one owning worker (spawned, looping, handling, or not yet past its Store), and never two |
| `HistorySync.UnownedWorkIsWatched` | evolution-go-main/whatsmeow-lib/message.go:669-702 | a non-empty queue without an owner means that some thread is still before its compare-and-swap or its length check |
| `HistorySync.ReceivedThenQueuedIsSent` | evolution-go-main/whatsmeow-lib/message.go:846-852 | received items followed by the queue are the sent sequence; the channel of client.go:267 never overflows |
| `HistorySync.HandledThenHeldIsReceived` | evolution-go-main/whatsmeow-lib/message.go:686-696 | what has been received is handled, in order, but for the one item that a worker is handling at the moment |
| `HistorySync.UnhandledWorkCanProceed` | evolution-go-main/whatsmeow-lib/message.go:669-702 | as long as something sent is not handled, some thread can take a step of its own |
| `HistorySync.NothingIsStranded` | evolution-go-main/whatsmeow-lib/message.go:669-702 | when no thread can take another step by itself, everything sent has been handled, in order |
| `HistorySync.EverythingDeliveredIsHandled` | evolution-go-main/whatsmeow-lib/message.go:846-852 | when no producer can send either, the notifications that reached the client are the handled ones, as often as they came |
| `HistorySync.InternalStepsAreBounded` | evolution-go-main/whatsmeow-lib/message.go:669-702 | every run takes a bounded number of internal steps for each send and each timeout, so the threads do come to rest |
| `HistorySync.CanDrain` | evolution-go-main/whatsmeow-lib/message.go:669-702 | from any reachable state the threads alone can handle everything sent |
| `HistorySync.CanHandle` | evolution-go-main/whatsmeow-lib/message.go:846-852 | and a notification that reaches the client in any reachable state can be handled as the next one |
| `Padding.UnpadUndoesPad` | evolution-go-main/whatsmeow-lib/message.go:643-651 | unpadding a padded message at version 2 gives it back, for every message and random byte, and one to fifteen bytes were added |
| `Padding.UnpadAcceptsExactlyPadded` | evolution-go-main/whatsmeow-lib/message.go:623-641 | unpadding at any version but 3 succeeds with m exactly when the input is m followed by b copies of its last byte b, which may be zero |
| `BufferKey.HashInput` | evolution-go-main/whatsmeow-lib/message.go:498-505 | what is written to the hasher is the ciphertext and each extra part after a NUL |
| `BufferKey.SameKeyExactly` | evolution-go-main/whatsmeow-lib/message.go:498-505 | two payloads with NUL-free JIDs share a preimage exactly when they are equal or one is a group called "prekey" or "normal" that spells the other |
| `BufferKey.KeyIsInjective` | evolution-go-main/whatsmeow-lib/message.go:612 | with no such group, equal preimages mean the same ciphertext, kind, chat and sender, whatever bytes the ciphertexts hold |
| `BufferKey.ReceivedKeyIsInjective` | evolution-go-main/whatsmeow-lib/message.go:79-81 | for the payloads the code hashes, whose group chats are JIDs on the group or broadcast server, the key is injective without conditions |
| `BufferKey.GroupChatIsPlain` | evolution-go-main/whatsmeow-lib/types/jid.go:216-226 | the string of such a JID is neither "prekey" nor "normal" |
| `BufferKey.KeyIsNotAlwaysInjective` | evolution-go-main/whatsmeow-lib/message.go:498-505 | the hash input by itself, over arbitrary chat strings, is not injective; no chat that reaches it is such a string |
| `JidText.ParseUndoesStringExactly` | evolution-go-main/whatsmeow-lib/types/jid.go:146-226 | the string of a JID parses back to it exactly when it has no integrator, no "@" in user or server, no dot in its user and, without an agent, no colon there |
| `JidText.StringIsInjective` | evolution-go-main/whatsmeow-lib/types/jid.go:216-226 | no two such JIDs have one string |
| `JidText.ReparsesExactly` | evolution-go-main/whatsmeow-lib/types/jid.go:158-200 | a parsed JID, printed, parses to itself exactly when it has an agent or no colon in its user |
| `JidText.ReparseCanFail` | evolution-go-main/whatsmeow-lib/types/jid.go:165-186 | an input whose JID does not |
| `Delivery.DispatchEvent` | evolution-go-main/whatsmeow-lib/client.go:933-948 | the handler loop reports what the recursive description of handler results says |
| `Delivery.FailedExactly` | evolution-go-main/whatsmeow-lib/client.go:933-948 | a dispatch fails exactly when some handler refuses and all before it accept; a panic counts as success |
| `DeliveryRuns.CommittedAtMostOnce` | evolution-go-main/whatsmeow-lib/message.go:487-545 | over any run with redeliveries, refusals, store failures, crashes and overlap, each payload is decrypted and committed at most once, and never if its ratchet was used up before |
| `DeliveryRuns.EveryDispatchCarriesTheCommittedBytes` | evolution-go-main/whatsmeow-lib/message.go:434-458 | every dispatch, in whatever delivery, carries the bytes that were committed |
| `DeliveryRuns.LaterDeliveriesReuseOrSkip` | evolution-go-main/whatsmeow-lib/message.go:507-526 | a delivery that looks up a committed payload gets those bytes or skips it, and never decrypts |
| `DeliveryRuns.FailedHandlerMeansNoReply` | evolution-go-main/whatsmeow-lib/message.go:434-470 | a delivery whose dispatch failed sends no ack or receipt |
| `DeliveryRuns.RefusedPayloadIsKept` | evolution-go-main/whatsmeow-lib/message.go:434-458 | with or without overlap, a refused dispatch leaves the store as it was and ends the delivery; a redelivery uses identical bytes without decrypting if and only if no other delivery has cleared them |
| `DeliveryRuns.RefusedPayloadIsKeptApart` | evolution-go-main/whatsmeow-lib/message.go:434-458 | while no stanza arrives that shares a buffered payload with a running delivery, a plaintext in use is never cleared by then |
| `DeliveryRuns.ReplyMeansSettledOrIgnored` | evolution-go-main/whatsmeow-lib/message.go:329-470 | with any overlap, a final reply means every payload was handed over, swallowed, undecodable, or ignored for its old counter by the very delivery that replies |
| `DeliveryRuns.RepliesOnlyAfterHandling` | evolution-go-main/whatsmeow-lib/message.go:329-470 | while no stanza arrives that shares a buffered payload with a running delivery, a final reply means that a payload was settled exactly when its ratchet was not used up before the buffer existed |
| `DeliveryRuns.NeverDispatchedAfterClear` | evolution-go-main/whatsmeow-lib/message.go:434-458 | in such runs no dispatch of a payload follows its clear |
| `DeliveryClears.OnlyHoldersDispatchAfterClear` | evolution-go-main/whatsmeow-lib/message.go:507-526 | with overlap and crashes: once the clear is recorded, only a delivery that already holds the plaintext dispatches it, so no later delivery ever does |
| `DeliveryClears.HolderCanDispatch` | evolution-go-main/whatsmeow-lib/message.go:384-433 | and a holder of a readable payload does so at its next step |
| `DeliveryClears.OverlapCanDispatchAfterClear` | evolution-go-main/whatsmeow-lib/client.go:856-891 | a reachable run with overlap in which a dispatch follows the clear |
| `DeliveryRuns.OverlapCanReplyWithoutHandling` | evolution-go-main/whatsmeow-lib/client.go:856-891 | a reachable run with overlapping deliveries in which a receipt is out and the payload not handled |
| `DecryptMessages.Client.BufferedDecrypt` | evolution-go-main/whatsmeow-lib/message.go:487-545 | result, new buffer, new ratchets and history of one buffered decryption |
| `DecryptMessages.Client.HandlePlaintext` | evolution-go-main/whatsmeow-lib/message.go:430-458 | dispatch, clear and stop-on-failure for one decrypted payload, as in the step machine |
| `DecryptMessages.Client.DecryptMessages` | evolution-go-main/whatsmeow-lib/message.go:298-470 | the whole method has the outcome, store and history of the step machine driven to its end |
| `DeliveryHandling.DeliveryByAnswers` | evolution-go-main/whatsmeow-lib/message.go:298-470 | the event buffer on or off: history, store and whether a final reply is sent, told child by child from what the calls answer; a plaintext obtained from the cipher, the buffer or the bot secret is dispatched exactly if it unpads, decodes and has something to hand over |
| `DeliveryHandling.AcknowledgedIsDispatched` | evolution-go-main/whatsmeow-lib/message.go:384-470 | the event buffer on or off: a delivery that sends its receipt has dispatched every new payload exactly once, with the bytes of the cipher, unrefused, if it decodes to something to hand over, and never otherwise |
| `DeliveryHandling.UndecryptableIsExact` | evolution-go-main/whatsmeow-lib/message.go:388-414 | the report of an undecryptable delivery is about the first child it does not get past, and calls it unavailable exactly for a missing sender key with no direct message before it |
| `DeliveryOutcomes.OutcomeIsExact` | evolution-go-main/whatsmeow-lib/message.go:298-470 | the outcome is decided by the error the delivery meets: none (one reply, or silent after exactly one refused dispatch), cancelled (silent, no refusal), any other (reported undecryptable once); every reply event carries the outcome; the final replies are told apart by enc children and the last decode |
| `DeliveryOutcomes.SilentMeansRefused` | evolution-go-main/whatsmeow-lib/message.go:434-436 | without cancellation, a delivery is silent exactly when a handler refused a payload of it |
| `DeliveryOutcomes.TagsDecideRefusal` | evolution-go-main/whatsmeow-lib/message.go:298-333 | by the tags of the stanza: unrecognized exactly without enc and unavailable children, unavailable exactly with the second only |
| `DeliveryOutcomes.BufferedExactly` | evolution-go-main/whatsmeow-lib/message.go:337-348 | buffered payloads are pkmsg and msg anywhere and skmsg in groups |
| `DeliveryOutcomes.KindsExactly` | evolution-go-main/whatsmeow-lib/message.go:329-383 | and every kind of child is decided by its tag, its type, and whether the stanza is from a group or a bot |
| `DeliveryOutcomes.ClearedStanzaIsStillAcknowledged` | evolution-go-main/whatsmeow-lib/message.go:507-526 | a redelivered stanza whose payloads are cleared is not dispatched, changes nothing, and is still acknowledged |
| `AppStateSync.Client.DecodePatches` | evolution-go-main/whatsmeow-lib/appstate/decode.go:357-407 | snapshot and patches are decoded in order and stored one by one; an error keeps those before it |
| `AppStateSync.Client.ApplyAppStatePatches` | evolution-go-main/whatsmeow-lib/appstate.go:151-169 | decoding then collecting; an error hands over no mutations |
| `AppStateSync.Client.FetchAppState` | evolution-go-main/whatsmeow-lib/appstate.go:42-96 | requests, stored state, collected mutations, result and events of a whole sync against any server |
| `AppStateLog.StoredStateIsAlwaysTrue` | evolution-go-main/whatsmeow-lib/appstate/decode.go:313-355 | with signed patches in any order, with gaps or altered, and failures anywhere, the stored state is the true state of its version |
| `AppStateLog.AcceptedIsNext` | evolution-go-main/whatsmeow-lib/appstate/decode.go:313-355 | under a hash that tells histories apart, a signed patch is accepted only as the next one and with the log's mutations |
| `AppStateLog.HandedOverIsTheLog` | evolution-go-main/whatsmeow-lib/appstate.go:42-96 | when the hash tells the log's patches apart, with signed snapshots and patches in any order, a full or incremental sync hands over exactly the log's next mutations in order, after a first item that leads from nothing to a true state when it starts empty |
| `AppStateLog.HandedOverIsOnlyTheLog` | evolution-go-main/whatsmeow-lib/appstate.go:42-96 | under a hash without collisions, full or incremental, it is exactly the log's mutations from the start version on |
| `AppStateLog.SnapshotOnlyOntoEmpty` | evolution-go-main/whatsmeow-lib/appstate.go:66-82 | for any server, a snapshot is asked for at most in the first round and from the empty state, and the non-empty-state guard never fires |
| `AppStateLog.AsksNothingExactly` | evolution-go-main/whatsmeow-lib/appstate.go:42-64 | a sync asks nothing exactly when it is incremental over something stored and only wanted for a first time, or finds a stored version 0, which is an error; it then changes nothing |
| `AppStateLog.SyncFollowsServer` | evolution-go-main/whatsmeow-lib/appstate.go:42-96 | against a server that answers in order: success exactly when all responses are readable and collected, the state stored is the server's head, the mutations handed over are the log's in order, and the gap between stored and covered version is empty exactly on success or when the failing response stored nothing |
| `AppStateLog.SyncEmits` | evolution-go-main/whatsmeow-lib/appstate.go:66-96 | an error emits no events; a successful incremental sync emits exactly the log between the version before and the one returned; a sync from nothing emits the snapshot and all patches after it exactly when that is switched on |
| `AppStateLog.SyncConverges` | evolution-go-main/whatsmeow-lib/appstate.go:42-96 | a smooth sync of a log that has stopped growing ends with the fold of the whole log, full or incremental |
| `AppStateLog.StoredButNotCoveredIsSkipped` | evolution-go-main/whatsmeow-lib/appstate.go:84-87 | for a first sync of any kind and the next one: what is stored beyond what was covered is a gap exactly when the first fails on a response of which it stored something, and both hand over the log without the gap |
| `AppStateLog.MutationsCanBeSkipped` | evolution-go-main/whatsmeow-lib/appstate.go:84-87 | a run in which a mutation is never handed over |
| `AppStateLog.SnapshotCanBeSkipped` | evolution-go-main/whatsmeow-lib/appstate.go:84-87 | a first full sync whose snapshot is stored and never handed over |
| `AppStateLog.LeadingIsAll` | evolution-go-main/whatsmeow-lib/appstate/decode.go:381-405 | all patches are readable exactly when none stops the decoding early |
| `AppStateSend.Session.SendQuery` | evolution-go-main/whatsmeow-lib/request.go:167-262 | the log, the number of frames and the answer of a request that is sent again once after a disconnect |
| `AppStateSend.Session.SendAppState` | evolution-go-main/whatsmeow-lib/appstate.go:513-603 | stored state, server log, frames and result of sending a patch with one conflict retry |
| `AppStateSend.QueryAppendsAtMostOnce` | evolution-go-main/whatsmeow-lib/request.go:167-262 | a frame is appended at most once however often it is sent; an accepting answer names its place; a conflict after an acceptance means the acceptance was not heard |
| `AppStateSend.PatchIsCounted` | evolution-go-main/whatsmeow-lib/appstate.go:513-603 | at most two patches and four frames leave; the log gains one entry for each accepted call; nil means at least one |
| `AppStateSend.FramesAreCounted` | evolution-go-main/whatsmeow-lib/request.go:167-262 | every frame that leaves belongs to the one or two submitted patches, at most two to each, the second only after a drop with a reconnect in time |
| `AppStateSend.PatchTwiceExactly` | evolution-go-main/whatsmeow-lib/appstate.go:565-591 | the patch is in the log twice exactly when its acceptance was lost and the retry accepted too; on nil, exactly once unless the acceptance was lost |
| `AppStateSend.NeverTwiceWithoutResend` | evolution-go-main/whatsmeow-lib/request.go:186-195 | without the frame resend the patch is never there twice, and exactly once on nil |
| `AppStateSend.FailsExactly` | evolution-go-main/whatsmeow-lib/appstate.go:513-588 | which answer leads to which error without a retry, that the stored state moves only after an acceptance, and that a failed fetch still means an accepted patch |
| `AppStateSend.PatchCanBeTwice` | evolution-go-main/whatsmeow-lib/appstate.go:565-591 | a run that returns nil with the patch in the log twice |
| `AppStateSend.NilMeansSynced` | evolution-go-main/whatsmeow-lib/appstate.go:592-602 | after an accepted call that returns nil, the patch sits at the version it was encoded against, the stored state is a true state past it, and the fetch has handed over everything from it on |
| `AppStateSend.NilMeansSyncedWithRetry` | evolution-go-main/whatsmeow-lib/appstate.go:565-602 | the same through a retry: nil means the patch is in the log and the stored state is a true state past it |
| `AppStateContacts.Client.FilterContacts` | evolution-go-main/whatsmeow-lib/appstate.go:200-217 | the front of the shared array becomes the filtered list, the tail is untouched, the contacts are returned |
| `AppStateContacts.FilterKeepsOrder` | evolution-go-main/whatsmeow-lib/appstate.go:200-217 | the filter is an order-preserving partition: each mutation is in exactly one list, at its rank |
| `AppStateContacts.Client.PutAllContactNames` | evolution-go-main/whatsmeow-lib/store/sqlstore/store.go:698-727 | the last entry for a JID wins |
| `AppStateContacts.Client.CollectEventsToDispatch` | evolution-go-main/whatsmeow-lib/appstate.go:171-198 | bulk path or per-mutation path, and nothing dispatched when the insert fails |
| `AppStateContacts.DispatchedSettings` | evolution-go-main/whatsmeow-lib/appstate.go:243-300 | after any list of mutations the mute, pin and archive settings of a chat, the push name and the salt are what the last mutation with that index says, or the old ones |
| `AppStateContacts.BulkSettings` | evolution-go-main/whatsmeow-lib/appstate.go:171-198 | the same with the contacts inserted in bulk |
| `AppStateContacts.BulkRefinesExactly` | evolution-go-main/whatsmeow-lib/appstate.go:171-217 | the bulk path leaves the same stores, rows included, as the per-mutation path, for every store before, exactly for the lists on which both agree in names and in rows |
| `AppStateContacts.NamesAgreeExactly` | evolution-go-main/whatsmeow-lib/appstate.go:171-217 | looked-up names and the other stores agree, for every store before, exactly when both paths write the same names last for each JID |
| `AppStateContacts.RowsAgreeExactly` | evolution-go-main/whatsmeow-lib/store/sqlstore/store.go:674-727 | both paths leave contact rows for the same JIDs, for every store before, exactly when each JID in the bulk insert has some entry that sets names other than blank |
| `AppStateContacts.AgreedExactly` | evolution-go-main/whatsmeow-lib/appstate.go:200-217 | those lists, JID by JID: the last filtered entry is no removal with other names than the last set, and a dispatched entry without a JID carries the names set last |
| `AppStateContacts.BulkRefinesSets` | evolution-go-main/whatsmeow-lib/appstate.go:289-294 | when all contact entries set a named JID, the names always agree, and the stores do exactly when the rows do |
| `AppStateContacts.RemovalDiffers` | evolution-go-main/whatsmeow-lib/appstate.go:251-253 | a removed contact keeps its names one way and loses them the other |
| `AppStateContacts.ShortEntryDiffers` | evolution-go-main/whatsmeow-lib/appstate.go:204-214 | a contact entry without a JID is written after the filtered ones |
| `AppStateContacts.BlankSetDiffers` | evolution-go-main/whatsmeow-lib/store/sqlstore/store.go:674-694 | setting a new contact to blank names leaves a row one way and none the other |
| `KeyThrottle.Client.RequestMissingAppStateKeys` | evolution-go-main/whatsmeow-lib/appstate.go:461-476 | the keys asked for and the record afterwards |
| `KeyThrottle.OneCall` | evolution-go-main/whatsmeow-lib/appstate.go:466-473 | a call asks for exactly the missing keys that were due before it, once each, and records exactly those |
| `KeyThrottle.RequestsAreADayApart` | evolution-go-main/whatsmeow-lib/appstate.go:468-471 | over any run with a monotone clock, two requests for a key are strictly more than 24 hours apart |
| `KeyThrottle.MissingKeyIsAskedFor` | evolution-go-main/whatsmeow-lib/appstate.go:468-471 | a missing key is asked for exactly when no request for it is 24 hours old or less, and no request repeats a key |
| `DeviceCache.Delete` | evolution-go-main/whatsmeow-lib/notification.go:151-157 | deleting keeps the others in order in the same array and clears the freed slots |
| `DeviceCache.Client.HandleChild` | evolution-go-main/whatsmeow-lib/notification.go:137-186 | one child: both local lists, both entries, and what a stored LID header shows over the array it may share |
| `DeviceCache.Client.HandleDeviceNotification` | evolution-go-main/whatsmeow-lib/notification.go:116-187 | the phone-number entry follows its children with its old dhash; the LID entry follows its checked children and shows what the unchecked ones leave of it; other entries, and everything for an uncached user, stay |
| `DeviceCache.LastChildDecides` | evolution-go-main/whatsmeow-lib/notification.go:144-175 | the last add, remove or update decides: dropped by an update, otherwise kept exactly when the folded list has the announced hash |
| `DeviceCache.UnknownChildrenDecideNothing` | evolution-go-main/whatsmeow-lib/notification.go:164-167 | without such a child the entry is unchanged |
| `DeviceCache.KeptListIsTheServers` | evolution-go-main/whatsmeow-lib/notification.go:168-175 | an entry that survives holds the devices the server announced |
| `DeviceCache.FoldedDevices` | evolution-go-main/whatsmeow-lib/notification.go:145-158 | a device is in the folded list exactly when the last child about it adds it |
| `DeviceCache.LidListIsRightExactly` | evolution-go-main/whatsmeow-lib/notification.go:145-158 | whatever unchecked children add or remove, the stored LID list still shows exactly when it is the front of the list folded over those children that still work in its array |
| `DeviceCache.LidListIsRightWithoutAdds` | evolution-go-main/whatsmeow-lib/notification.go:150-158 | when none of them adds a device, exactly when no removal names one of its devices |
| `DeviceCache.ReAddRestores` | evolution-go-main/whatsmeow-lib/notification.go:145-158 | an unchecked removal and re-add of the last device leaves the entry right |
| `DeviceCache.SparedListIsRight` | evolution-go-main/whatsmeow-lib/notification.go:145-158 | with unchecked adds too, removals of other devices leave it as it is |
| `DeviceCache.CheckedRemovalsAreRight` | evolution-go-main/whatsmeow-lib/notification.go:176-185 | in particular when every removal with a device LID carries a hash |
| `DeviceCache.CheckRepairs` | evolution-go-main/whatsmeow-lib/notification.go:176-185 | a child that checks the list leaves the folded list or no entry, whatever came before |
| `DeviceCache.ShiftedIsWrong` | evolution-go-main/whatsmeow-lib/notification.go:155-157 | an unchecked removal of a listed device: the entry keeps its length, loses the device and ends in an empty JID |
| `DeviceCache.Client.HandleOwnDevicesNotification` | evolution-go-main/whatsmeow-lib/notification.go:197-242 | both own entries are replaced with lists of the same devices and their own hashes, or both dropped on a mismatch, or nothing happens |
| `DeviceCache.OwnListJoins` | evolution-go-main/whatsmeow-lib/notification.go:216-231 | the own devices are those that the children name, in their order |
| `GroupCache.Client.UpdateGroupParticipantCache` | evolution-go-main/whatsmeow-lib/group.go:978-1007 | the member lists after a change event; other groups are untouched |
| `GroupCache.Client.CacheGroupInfo` | evolution-go-main/whatsmeow-lib/group.go:601-630 | the group's list is replaced |
| `GroupCache.ChangedIs` | evolution-go-main/whatsmeow-lib/group.go:989-1006 | a duplicate-free list stays so and becomes, as a set, (members and joins) without the leaves |
| `GroupCache.LeaverIsGoneExactly` | evolution-go-main/whatsmeow-lib/group.go:998-1006 | from any list, a member remains exactly when it is listed more often than it leaves |
| `GroupCache.CacheFollowsEvents` | evolution-go-main/whatsmeow-lib/group.go:978-1021 | over any run of events every cached list is duplicate-free and is the set the events describe |
| `CbcFile.DecryptFile` | evolution-go-main/whatsmeow-lib/util/cbcutil/cbc.go:54-105 | chunkwise decryption in place leaves exactly the decryption of the whole file, cut by its padding |
| `CbcFile.CbcJoins` | evolution-go-main/whatsmeow-lib/util/cbcutil/cbc.go:76-96 | decrypting chunk by chunk under the chaining value is decrypting the whole |
| `CbcFile.InPlaceDecrypts` | evolution-go-main/whatsmeow-lib/util/cbcutil/cbc.go:33-45 | in place and in memory succeed on the same non-empty ciphertexts with the same bytes |
| `MediaDownload.Downloader.DownloadAndDecrypt` | evolution-go-main/whatsmeow-lib/download.go:310-338 | result of the form in memory, for every list of attempts |
| `MediaDownload.Downloader.DownloadAndDecryptToFile` | evolution-go-main/whatsmeow-lib/download-to-file.go:113-149 | file contents, cursor and error of the file form, for every file before and list of attempts |
| `MediaDownload.Downloader.DownloadWithRetriesToFile` | evolution-go-main/whatsmeow-lib/download-to-file.go:151-178 | five attempts, each from the start of the file; after the fifth transient failure no error is left |
| `MediaDownload.Downloader.DownloadMediaWithPathToFile` | evolution-go-main/whatsmeow-lib/download-to-file.go:93-110 | the host loop, the cursor staying where the host before left it |
| `MediaDownload.FileRefinesMemory` | evolution-go-main/whatsmeow-lib/download-to-file.go:113-234 | encrypted media, cursor at the start, any file contents: both forms succeed on the same runs with the same bytes exactly given a 32-byte plaintext hash or no warnings, and fail with the same error except that exhausted retries read as a bad MAC |
| `MediaDownload.KeyWithoutChecksumFails` | evolution-go-main/whatsmeow-lib/download.go:323-326 | a media key without an encrypted-file hash fails in both forms |
| `MediaDownload.PlainDownloadExactly` | evolution-go-main/whatsmeow-lib/download-to-file.go:151-178 | unencrypted media: the file form also succeeds on exhausted retries, and holds the same bytes exactly when the file never was longer |
| `MediaHosts.HostsRefineMemory` | evolution-go-main/whatsmeow-lib/download-to-file.go:93-110 | over several hosts the forms agree whenever, by their attempts, the hosts given up on leave the cursor at the start |
| `MediaHosts.LeftAtStartExactly` | evolution-go-main/whatsmeow-lib/download-to-file.go:151-178 | a failed host leaves the cursor at the start exactly when its last attempt is refused or empty (or, with exhausted retries, nothing was ever written; or the ciphertext has a wrong length) |
| `MediaHosts.HostAgreesExactly` | evolution-go-main/whatsmeow-lib/download-to-file.go:198-217 | from any cursor, a host that works in memory works in the file form exactly when its first attempt does not deliver the file, the cursor is at the start, or the body is what is read back |
| `MediaHosts.HostsAgreeExactly` | evolution-go-main/whatsmeow-lib/download-to-file.go:93-110 | the same at the host that decides in memory, after any hosts before it, given that the HMAC tells other bytes apart |
| `MediaHosts.HostsShareTheCursor` | evolution-go-main/whatsmeow-lib/download-to-file.go:93-110 | two hosts, a rejected body and then a good one that is no longer: memory succeeds, the file form fails with a bad MAC |
| `MediaUpload.DecryptUndoesEncrypt` | evolution-go-main/whatsmeow-lib/util/cbcutil/cbc.go:110-159 | decryption, in memory and in place, gives back every plaintext from its encryption |
| `MediaUpload.EncryptStream` | evolution-go-main/whatsmeow-lib/util/cbcutil/cbc.go:161-217 | encrypting a file chunk by chunk into another file, or into itself, leaves the whole encryption and its MAC in front of whatever the target held behind; hashes and sizes are those of the whole |
| `MediaUpload.SealJoins` | evolution-go-main/whatsmeow-lib/util/cbcutil/cbc.go:181-203 | encrypting chunk by chunk under the chaining value is encrypting the whole |
| `MediaUpload.DownloadsExactly` | evolution-go-main/whatsmeow-lib/download.go:310-338 | encrypted media: a download gives the data exactly when one of the first five requests, after failures worth a retry only, delivers a body with the announced hash and its own MAC that decrypts to the data, of the announced length and hash |
| `MediaUpload.FirstFailedCheckIsNamed` | evolution-go-main/whatsmeow-lib/download.go:310-338 | the first check that the deciding body fails, and no other, names the error |
| `MediaUpload.UploadedIsDownloaded` | evolution-go-main/whatsmeow-lib/upload.go:69-99 | what an upload encrypts is what a download of it gives, in memory and in a file, whatever the file held before |
| `MsgSecret.RoundTrip` | evolution-go-main/whatsmeow-lib/msgsecret.go:97-149 | same secret, same modifying user, and the encrypter's stored sender matching the sender that the message key names or the one the receiver stored: the plaintext comes back, for every use case |
| `MsgSecret.GroupRoundTrip` | evolution-go-main/whatsmeow-lib/msgsecret.go:80-88 | in a group the named participant is the original sender, whatever the remote JID says |
| `MsgSecret.ChatRoundTrip` | evolution-go-main/whatsmeow-lib/msgsecret.go:74-79 | in a user chat the remote JID is, whatever the participant says |
| `MsgSecret.OwnRoundTrip` | evolution-go-main/whatsmeow-lib/msgsecret.go:70-73 | for a message of the same user its sender is, whatever both say |
| `MsgSecret.BadSenderExactly` | evolution-go-main/whatsmeow-lib/msgsecret.go:69-89 | the sender is refused exactly when the field that counts does not parse or, outside user chats, is no user |
| `MsgSecret.DecryptsExactly` | evolution-go-main/whatsmeow-lib/msgsecret.go:97-126 | a payload decrypts exactly when sealed under the stored secret, with the ID and the voter as additional data for the bound uses only, and the info string of the sender that the message key names or of the stored one |
| `MsgSecret.VoteIsAttributed` | evolution-go-main/whatsmeow-lib/msgsecret.go:60-64 | what decrypts as a vote or event response was sealed for that message by the sender the receiver sees |
| `MsgSecret.AdditionalPinsSender` | evolution-go-main/whatsmeow-lib/msgsecret.go:60-64 | equal additional data means equal ID and modifying sender |
| `MsgSecret.InfoPinsSender` | evolution-go-main/whatsmeow-lib/msgsecret.go:50-57 | with the original sender known, the info string pins the modifying sender |
| `MsgSecret.InfoPinsUse` | evolution-go-main/whatsmeow-lib/msgsecret.go:50-57 | about one message, the info string pins the use case |
| `MsgSecret.InfoIsNotInjective` | evolution-go-main/whatsmeow-lib/msgsecret.go:53-59 | different IDs and original senders can give the same key |
| `Connection.Client.UnlockedConnect` | evolution-go-main/whatsmeow-lib/client.go:526-564 | new fields and error of a connect, for every way dialing can go |
| `Connection.Client.OnDisconnect` | evolution-go-main/whatsmeow-lib/client.go:571-590 | new fields after a close callback, its event and reconnect included |
| `Connection.Client.Disconnect` | evolution-go-main/whatsmeow-lib/client.go:657-666 | new fields after a disconnect |
| `Connection.Client.ResetConnection` | evolution-go-main/whatsmeow-lib/client.go:670-681 | new fields after a reset, the socket staying current until its callback |
| `Connection.Client.UnlockedDisconnect` | evolution-go-main/whatsmeow-lib/client.go:684-690 | the current socket is stopped, unset, and the waiters cleared |
| `Connection.Client.StopSocket` | evolution-go-main/whatsmeow-lib/socket/noisesocket.go:79-89 | only the first stop of a socket does anything |
| `ConnectionRuns.DelayCountsFromLogin` | evolution-go-main/whatsmeow-lib/client.go:610-614 | over any run the reconnect delay is two seconds for every wait begun since the last successful login, and none right after one |
| `ConnectionRuns.LoopsAreAccountedFor` | evolution-go-main/whatsmeow-lib/client.go:606-639 | over any run, the reconnect loops started are those still going and those that were cancelled, connected or given up |
| `ConnectionRuns.ForcedReconnectIsExact` | evolution-go-main/whatsmeow-lib/keepalive.go:46-51 | from any reachable state, what a forced reconnect of the keepalive loop leaves after its two sections |
| `ConnectionRuns.RestartIsExact` | evolution-go-main/whatsmeow-lib/connectionevents.go:32-39 | likewise a stream restart, which connects at once exactly when the device is not deleted and the dial opens |
| `ConnectionRuns.OneSocketOneEvent` | evolution-go-main/whatsmeow-lib/client.go:526-590 | in every interleaving at most one socket is connected and it is the current one; each socket causes at most one event and reconnect, and none if it was dropped first |
| `ConnectionRuns.UnsettingClearsWaiters` | evolution-go-main/whatsmeow-lib/client.go:684-690 | every step that unsets the current socket leaves no response waiter |
| `ConnectionRuns.ResetClearsWaiters` | evolution-go-main/whatsmeow-lib/client.go:670-681 | a reset of a client with a socket leaves no response waiter |
| `ConnectionRuns.LiveSocketIsNotReplaced` | evolution-go-main/whatsmeow-lib/client.go:530-536 | a connected socket is never replaced and only a disconnect unsets it |
| `ConnectionRuns.ConnectsExactly` | evolution-go-main/whatsmeow-lib/client.go:526-564 | from any reachable state: when a connect succeeds, the fresh state it leaves, and when it leaves everything as it is |
| `ConnectionRuns.DisconnectLastsExactly` | evolution-go-main/whatsmeow-lib/client.go:606-639 | from any reachable state, a disconnect lasts in every continuation without a new connect call exactly when no goroutine can still reopen a connection |
| `ConnectionRuns.FailedReconnectForgetsDisconnect` | evolution-go-main/whatsmeow-lib/client.go:538 | a reconnect that fails to dial has cleared the flag, so its loop goes on |
| `ConnectionRuns.FailuresRetryExactly` | evolution-go-main/whatsmeow-lib/client.go:508-515 | which failed connects start a reconnect loop, and which let one go on |
| `ConnectionRuns.CallbackReportsExactly` | evolution-go-main/whatsmeow-lib/client.go:571-590 | a callback leaves its socket with one event and one reconnect exactly when the socket is current, no disconnect is expected, and the close was remote or forced |
| `ConnectionRuns.LossIsReportedExactly` | evolution-go-main/whatsmeow-lib/client.go:571-590 | over any run, the loss of a live socket is reported once, with a reconnect, exactly when it is still current and no disconnect is expected at its callback, which stays due until it runs |
| `ConnectionRuns.ResetIsReportedExactly` | evolution-go-main/whatsmeow-lib/client.go:670-681 | over any run, the reset of a live socket is reported, with a reconnect, exactly when at its callback the socket is still current, no disconnect is expected, and the force has not been taken back |
| `ConnectionRuns.DisconnectedIsSilent` | evolution-go-main/whatsmeow-lib/client.go:657-666 | a disconnect leaves no socket, force or waiter, and the socket it closes is never reported in any run |
| `ConnectionRuns.DeadOnArrivalIsSilent` | evolution-go-main/whatsmeow-lib/socket/framesocket.go:62-88 | a socket that died before its handler was set is never reported in any run |
| `ConnectionRuns.DeadOnArrival` | evolution-go-main/whatsmeow-lib/handshake.go:121-126 | such a socket becomes the current one |
| `KeepAlive.KeepAliveLoop` | evolution-go-main/whatsmeow-lib/keepalive.go:30-63 | error count and events of the loop for every list of ticks |
| `KeepAlive.CountsTheStreak` | evolution-go-main/whatsmeow-lib/keepalive.go:40-57 | at every step the error count is the number of failures since the last success |
| `KeepAlive.EventsOfATick` | evolution-go-main/whatsmeow-lib/keepalive.go:40-57 | restored exactly on a success after a failure, timeout exactly on a failure with its number and the time of the last success, forced exactly after more than three minutes |
| `KeepAlive.ClosedEnds` | evolution-go-main/whatsmeow-lib/keepalive.go:30-39 | a closed connection ends the loop |
| `KeepAlive.FirstForcedReconnect` | evolution-go-main/whatsmeow-lib/keepalive.go:46-51 | with exact timers the first forced reconnect after a success comes with the fifth to tenth failure in a row |
| `KeepAlive.ForcedWithin` | evolution-go-main/whatsmeow-lib/keepalive.go:46-51 | none is forced before the fifth failure, and every failure from the tenth on forces one |
| `KeepAlive.BoundsAreMet` | evolution-go-main/whatsmeow-lib/keepalive.go:18-28 | both ends of that bound occur |

## Left out

- The Signal library, AES, HKDF (section 2 of RFC 5869), SHA-256, the Noise handshake and certificates: functions or outcomes of the environment, with the contract each property needs.
- SQL, websockets, HTTP, protobuf, XML nodes and zlib: map semantics, atomic transactions, or parameters; so is JID parsing in the modules that only use its result.
- Real clocks and goroutine scheduling: time is a parameter, a timer may fire whenever its step is enabled, a locked section is one step.
- Ageing of the event buffer (DeleteOldBufferedHashes): entries are taken to outlive redelivery.
- Payloads of type msmsg in the delivery model: they are not buffered and have no ciphertext hash; they are decrypted and dispatched by an environment answer.
- The three statements with which decoding stores a patch (version, removed MACs, added MACs): one step, and the state hash is any function of the previous hash and the mutations.
- Database errors while reading or deleting the stored app state version, and the recovery of app state from a peer (handleAppStateRecovery).
- The AppStateSyncComplete and AppStateSyncError events and the key request that a missing key triggers: the fetch model records requests, stored state, mutations and result.
- The `go.mau.fi/util` package is not part of this model: its de-duplication keeps the last entry, its preallocation makes a file at least as long as asked, its event flag is a boolean, and a reconnect delay that ends while that flag is set counts as cancelled. A select with both ready could take either; `ConnectionRuns.DisconnectLastsExactly` depends on this.
- Event payload fields, and the index branches of dispatchAppState that only build an event; errors of single store updates, which the source logs and goes on from.
- An empty mutation index: the source would panic on it, so the contact module requires an index to have a first part.
- A device notification whose phone number and LID are the same JID; the growth rate of a Go slice beyond room for the next element.
- The upload request itself: the model ends with the bytes, hashes and sizes that are handed to it.
- Errors of file operations themselves (seek, truncate, preallocate, read, write), and the check that a path starts with a slash, which only the form in memory makes.
- The lookup of a message secret under the other of a user's two addresses: the store answers with any sender that it has for the key.
- A nonce of the wrong length, on which the source's AES-GCM panics.
- Whether acks go out in the background (SynchronousAck): sending a reply is the last step of a delivery.
- AppStateLog.HandedOverIsTheLog: assumes a hash under which only the next patch leads from one non-empty state of the log to another; the real one hashes the set of current values, under which a patch that changes nothing collides with none at all.
- MediaHosts.HostsAgreeExactly: assumes that the HMAC tells the bytes read back apart from the body; HMAC-SHA256 cut to ten bytes does so only with overwhelming probability.
- autoReconnect as one method: it sleeps between locked sections, so it is a counted goroutine in the step machine; its delay and hook are free.
- DecryptMessages.Client.DecryptMessages: runs one delivery to its end; crashes and interleavings of the same steps are in DeliveryRuns.
- Newsletter, call, presence, armadillo, media connections, telemetry, the portal and the generated forwarding code: plumbing or easy members.
